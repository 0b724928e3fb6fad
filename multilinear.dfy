/**
 * The multilinear interpolant over one cell: the corner weights in
 * enumeration order and their dot product with the corner values.
 */
module Multilinear {
  import opened Corners
  import opened CornerWeights
  import opened DotProducts

  /** The weights of all 2^n corners, in the order the corners are enumerated. */
  function Weights(t: seq<real>): (w: seq<real>)
    ensures |w| == Pow2(|t|)
  {
    seq(Pow2(|t|), c requires 0 <= c < Pow2(|t|) => WeightOf(t, Bits(c, |t|)))
  }

  /** A corner's weight is its axis-0 factor times its weight on the face it lies in. */
  lemma {:induction false} WeightOnFace(t: seq<real>, c: nat)
    requires |t| > 0 && c < Pow2(|t|)
    ensures c < Pow2(|t| - 1) ==> Weights(t)[c] == Scaled(Factor(t[0], false), Weights(t[1..]))[c]
    ensures Pow2(|t| - 1) <= c ==> Weights(t)[c] == Scaled(Factor(t[0], true), Weights(t[1..]))[c - Pow2(|t| - 1)]
  {
    var h := Pow2(|t| - 1);
    var b := Bits(c, |t|);
    assert b[1..] == Bits(if c < h then c else c - h, |t| - 1);
  }

  /** The corners on the low face of axis 0 come first, weighted by their face weights times 1 - t[0]. */
  lemma {:induction false} WeightsLowFace(t: seq<real>)
    requires |t| > 0
    ensures Weights(t)[..Pow2(|t| - 1)] == Scaled(Factor(t[0], false), Weights(t[1..]))
  {
    var h := Pow2(|t| - 1);
    forall c | 0 <= c < h
      ensures Weights(t)[..h][c] == Scaled(Factor(t[0], false), Weights(t[1..]))[c]
    {
      WeightOnFace(t, c);
    }
  }

  /** The corners on the high face of axis 0 follow, weighted by their face weights times t[0]. */
  lemma {:induction false} WeightsHighFace(t: seq<real>)
    requires |t| > 0
    ensures Weights(t)[Pow2(|t| - 1)..] == Scaled(Factor(t[0], true), Weights(t[1..]))
  {
    var h := Pow2(|t| - 1);
    forall c | 0 <= c < h
      ensures Weights(t)[h..][c] == Scaled(Factor(t[0], true), Weights(t[1..]))[c]
    {
      WeightOnFace(t, c + h);
    }
  }

  /** The multilinear interpolant of the corner values v at normalised distances t. */
  function Blend(t: seq<real>, v: seq<real>): real
    requires |v| == Pow2(|t|)
  {
    Dot(Weights(t), v)
  }

  lemma {:induction false} BlendOfOne(v: seq<real>)
    requires |v| == 1
    ensures Blend([], v) == v[0]
  {
    assert Weights([]) == [1.0];
    assert Dot([1.0], v) == Dot([], []) + 1.0 * v[0];
  }

  /**
   * The multilinear recursion on the first axis: the corners on the low face
   * of axis 0 contribute their face blend scaled by 1 - t[0], those on the
   * high face theirs scaled by t[0].
   */
  lemma {:induction false} BlendFirstAxis(t: seq<real>, v: seq<real>)
    requires |t| > 0 && |v| == Pow2(|t|)
    ensures var h, w := Pow2(|t| - 1), Weights(t[1..]);
      Blend(t, v) == Dot(Scaled(Factor(t[0], false), w), v[..h]) + Dot(Scaled(Factor(t[0], true), w), v[h..])
  {
    DotSplit(Weights(t), v, Pow2(|t| - 1));
    WeightsLowFace(t);
    WeightsHighFace(t);
  }

  lemma Partition(k0: real, k1: real, a: real)
    requires k0 + k1 == 1.0
    ensures k0 * a + k1 * a == a
  {
  }

  /** Two faces that both blend to a, mixed with weights summing to one, give a. */
  lemma {:induction false} FacesOfEqualValue(k0: real, k1: real, w: seq<real>, v1: seq<real>, v2: seq<real>, a: real)
    requires |w| == |v1| == |v2| && k0 + k1 == 1.0
    requires Dot(w, v1) == a && Dot(w, v2) == a
    ensures Dot(Scaled(k0, w), v1) + Dot(Scaled(k1, w), v2) == a
  {
    DotScaledValue(k0, w, v1, a);
    DotScaledValue(k1, w, v2, a);
    Partition(k0, k1, a);
  }

  /**
   * The corner weights sum to one: blending 2^n copies of the same value
   * returns that value, whatever the distances.
   */
  lemma {:induction false} BlendConstant(t: seq<real>, v: seq<real>, a: real)
    requires |v| == Pow2(|t|)
    requires forall c :: 0 <= c < |v| ==> v[c] == a
    ensures Blend(t, v) == a
    decreases |t|
  {
    if |t| == 0 {
      BlendOfOne(v);
    } else {
      var h := Pow2(|t| - 1);
      BlendConstant(t[1..], v[..h], a);
      BlendConstant(t[1..], v[h..], a);
      BlendFirstAxis(t, v);
      FacesOfEqualValue(Factor(t[0], false), Factor(t[0], true), Weights(t[1..]), v[..h], v[h..], a);
    }
  }

  /** The 2^n corner weights sum to one, whatever the distances. */
  lemma {:induction false} WeightsSumToOne(t: seq<real>)
    ensures Dot(Weights(t), seq(Pow2(|t|), _ => 1.0)) == 1.0
  {
    BlendConstant(t, seq(Pow2(|t|), _ => 1.0), 1.0);
  }

  /** k0*a + k1*b stays within any bounds of a and b when k0, k1 >= 0 and k0 + k1 = 1. */
  lemma Convex(k0: real, k1: real, a: real, b: real, lo: real, hi: real)
    requires 0.0 <= k0 && 0.0 <= k1 && k0 + k1 == 1.0
    requires lo <= a <= hi && lo <= b <= hi
    ensures lo <= k0 * a + k1 * b <= hi
  {
    NonNegativeProduct(k0, a - lo);
    NonNegativeProduct(k1, b - lo);
    NonNegativeProduct(k0, hi - a);
    NonNegativeProduct(k1, hi - b);
    assert k0 * a + k1 * b - lo == k0 * (a - lo) + k1 * (b - lo);
    assert hi - (k0 * a + k1 * b) == k0 * (hi - a) + k1 * (hi - b);
  }

  /** Two faces whose blends lie in [lo, hi], mixed with non-negative weights summing to one, stay in [lo, hi]. */
  lemma {:induction false} FacesBounded(k0: real, k1: real, w: seq<real>, v1: seq<real>, v2: seq<real>, lo: real, hi: real)
    requires |w| == |v1| == |v2| && 0.0 <= k0 && 0.0 <= k1 && k0 + k1 == 1.0
    requires lo <= Dot(w, v1) <= hi && lo <= Dot(w, v2) <= hi
    ensures lo <= Dot(Scaled(k0, w), v1) + Dot(Scaled(k1, w), v2) <= hi
  {
    DotScaled(k0, w, v1);
    DotScaled(k1, w, v2);
    Convex(k0, k1, Dot(w, v1), Dot(w, v2), lo, hi);
  }

  /**
   * With every distance in [0, 1] the blend is a convex combination of the
   * corner values, so it lies within any bounds they all respect.
   */
  lemma {:induction false} BlendBounded(t: seq<real>, v: seq<real>, lo: real, hi: real)
    requires |v| == Pow2(|t|)
    requires forall d :: 0 <= d < |t| ==> 0.0 <= t[d] <= 1.0
    requires forall c :: 0 <= c < |v| ==> lo <= v[c] <= hi
    ensures lo <= Blend(t, v) <= hi
    decreases |t|
  {
    if |t| == 0 {
      BlendOfOne(v);
    } else {
      var h := Pow2(|t| - 1);
      BlendBounded(t[1..], v[..h], lo, hi);
      BlendBounded(t[1..], v[h..], lo, hi);
      BlendFirstAxis(t, v);
      FacesBounded(Factor(t[0], false), Factor(t[0], true), Weights(t[1..]), v[..h], v[h..], lo, hi);
    }
  }

  /** With weights 1 and 0 only the first face counts. */
  lemma {:induction false} FacesAtEdge(k0: real, k1: real, w: seq<real>, v1: seq<real>, v2: seq<real>)
    requires |w| == |v1| == |v2| && k0 == 1.0 && k1 == 0.0
    ensures Dot(Scaled(k0, w), v1) + Dot(Scaled(k1, w), v2) == Dot(w, v1)
  {
    DotScaled(k0, w, v1);
    DotScaled(k1, w, v2);
  }

  /** At a vertex of the cell the blend is exact: it returns that corner's value. */
  lemma {:induction false} BlendAtVertex(t: seq<real>, v: seq<real>)
    requires |v| == Pow2(|t|)
    requires forall d :: 0 <= d < |t| ==> t[d] == 0.0 || t[d] == 1.0
    ensures Blend(t, v) == v[Vertex(t)]
    decreases |t|
  {
    if |t| == 0 {
      BlendOfOne(v);
    } else {
      var h, w := Pow2(|t| - 1), Weights(t[1..]);
      BlendAtVertex(t[1..], v[..h]);
      BlendAtVertex(t[1..], v[h..]);
      BlendFirstAxis(t, v);
      if t[0] == 1.0 {
        FacesAtEdge(Factor(t[0], true), Factor(t[0], false), w, v[h..], v[..h]);
      } else {
        FacesAtEdge(Factor(t[0], false), Factor(t[0], true), w, v[..h], v[h..]);
      }
    }
  }
}
