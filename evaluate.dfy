/**
 * `_evaluate_linear`: the interpolant of one query point, the sum over the
 * 2^N corners of its cell of corner weight times stored value, and the loop
 * that accumulates it corner by corner for all points at once.
 */
module Evaluation {
  import opened NdArrays
  import opened Axis
  import opened Corners
  import opened CornerWeights
  import opened DotProducts
  import opened Multilinear
  import opened Construction
  import opened Location

  /** lo is the low corner of a cell of the grid: on every axis one of the first |p| - 1 points. */
  predicate IsCell(g: Interpolator, lo: seq<nat>)
    requires g.Valid()
  {
    |lo| == |g.grid| && forall d :: 0 <= d < |lo| ==> lo[d] + 1 < |g.grid[d]|
  }

  /** Every corner of a cell is a node of the grid. */
  lemma CornerInShape(g: Interpolator, lo: seq<nat>, b: seq<bool>)
    requires g.Valid() && IsCell(g, lo) && |b| == |lo|
    ensures InShape(g.values.shape[..|g.grid|], Corner(lo, b))
  {
  }

  /** `values[k]` for the node k: the |Width()| values stored there, in row-major order. */
  function NodeValue(g: Interpolator, k: seq<nat>): (v: seq<real>)
    requires g.Valid() && InShape(g.values.shape[..|g.grid|], k)
    ensures |v| == g.Width()
  {
    Block(g.values, k)
  }

  /** `values[edge_indices]` for every corner of the cell lo, in corner order. */
  function CornerRows(g: Interpolator, lo: seq<nat>): (rows: seq<seq<real>>)
    requires g.Valid() && IsCell(g, lo)
    ensures |rows| == Pow2(|lo|) && Rows(rows, g.Width())
  {
    seq(Pow2(|lo|), c requires 0 <= c < Pow2(|lo|) =>
      CornerInShape(g, lo, Bits(c, |lo|));
      NodeValue(g, Corner(lo, Bits(c, |lo|))))
  }

  /**
   * The interpolant in the cell lo at normalised distances t: the corners'
   * values weighted by the corners' weights and summed.
   */
  function Interpolant(g: Interpolator, lo: seq<nat>, t: seq<real>): (v: seq<real>)
    requires g.Valid() && IsCell(g, lo) && |t| == |lo|
    ensures |v| == g.Width()
  {
    WeightedSum(Weights(t), CornerRows(g, lo), g.Width())
  }

  /** The linear interpolant at x: the interpolant of the cell `_find_indices` locates x in. */
  function Linear(g: Interpolator, x: seq<real>): (v: seq<real>)
    requires g.Evaluable() && |x| == |g.grid|
    ensures |v| == g.Width()
  {
    Interpolant(g, Cells(g, x), Dists(g, x))
  }

  /**
   * The running total of one point after the first c corners: 0 for no
   * corner, then each corner's values times its weight added in turn.
   */
  function PartialSum(g: Interpolator, lo: seq<nat>, t: seq<real>, c: nat): (v: seq<real>)
    requires g.Valid() && IsCell(g, lo) && |t| == |lo| && c <= Pow2(|lo|)
    ensures |v| == g.Width()
  {
    if c == 0 then seq(g.Width(), _ => 0.0)
    else
      CornerInShape(g, lo, Bits(c - 1, |lo|));
      Accumulate(PartialSum(g, lo, t, c - 1), NodeValue(g, Corner(lo, Bits(c - 1, |lo|))), WeightOf(t, Bits(c - 1, |lo|)))
  }

  /** The running total after c corners is the weighted sum of the first c corners' values. */
  lemma {:induction false} PartialSumPrefix(g: Interpolator, lo: seq<nat>, t: seq<real>, c: nat)
    requires g.Valid() && IsCell(g, lo) && |t| == |lo| && c <= Pow2(|lo|)
    ensures PartialSum(g, lo, t, c) == WeightedSum(Weights(t)[..c], CornerRows(g, lo)[..c], g.Width())
  {
    if c == 0 {
      forall j | 0 <= j < g.Width()
        ensures WeightedSum(Weights(t)[..0], CornerRows(g, lo)[..0], g.Width())[j] == 0.0
      {
      }
    } else {
      PartialSumPrefix(g, lo, t, c - 1);
      WeightedSumStep(Weights(t), CornerRows(g, lo), g.Width(), c - 1);
    }
  }

  /** After every corner the running total is the interpolant. */
  lemma {:induction false} PartialSumComplete(g: Interpolator, lo: seq<nat>, t: seq<real>)
    requires g.Valid() && IsCell(g, lo) && |t| == |lo|
    ensures PartialSum(g, lo, t, Pow2(|lo|)) == Interpolant(g, lo, t)
  {
    PartialSumPrefix(g, lo, t, Pow2(|lo|));
    assert Weights(t)[..Pow2(|lo|)] == Weights(t);
    assert CornerRows(g, lo)[..Pow2(|lo|)] == CornerRows(g, lo);
  }

  /** The per-axis lists give every one of the m points a cell of the grid. */
  predicate Located(g: Interpolator, indices: seq<seq<nat>>, norms: seq<seq<real>>, m: nat)
    requires g.Valid()
  {
    && |indices| == |norms| == |g.grid|
    && (forall d :: 0 <= d < |g.grid| ==> |indices[d]| == |norms[d]| == m)
    && forall d, q :: 0 <= d < |g.grid| && 0 <= q < m ==> indices[d][q] + 1 < |g.grid[d]|
  }

  /** Point q's running total after the first c corners, from the per-axis lists. */
  function Running(g: Interpolator, indices: seq<seq<nat>>, norms: seq<seq<real>>, m: nat, q: nat, c: nat): (v: seq<real>)
    requires g.Valid() && Located(g, indices, norms, m) && q < m && c <= Pow2(|g.grid|)
  {
    PartialSum(g, Column(indices, q), Column(norms, q), c)
  }

  /**
   * The corner loop of `_evaluate_linear`: the running totals start at 0 and
   * each corner in turn is added to every point's total. Row q of the result
   * is point q's interpolant.
   */
  method EvaluateLinear(g: Interpolator, indices: seq<seq<nat>>, norms: seq<seq<real>>, m: nat)
    returns (result: array<seq<real>>)
    requires g.Valid() && Located(g, indices, norms, m)
    ensures fresh(result) && result.Length == m
    ensures forall q :: 0 <= q < m ==>
      IsCell(g, Column(indices, q)) && result[q] == Interpolant(g, Column(indices, q), Column(norms, q))
  {
    result := new seq<real>[m](_ => seq(g.Width(), _ => 0.0));
    forall q | 0 <= q < m
      ensures result[q] == Running(g, indices, norms, m, q, 0)
    {
    }
    var c := 0;
    while c < Pow2(|g.grid|)
      invariant 0 <= c <= Pow2(|g.grid|)
      invariant forall q :: 0 <= q < m ==> result[q] == Running(g, indices, norms, m, q, c)
    {
      AddCorner(g, indices, norms, m, c, result);
      c := c + 1;
    }
    forall q | 0 <= q < m
      ensures IsCell(g, Column(indices, q)) && result[q] == Interpolant(g, Column(indices, q), Column(norms, q))
    {
      PartialSumComplete(g, Column(indices, q), Column(norms, q));
    }
  }

  /**
   * One pass of the corner loop, for corner c: every point's total gains the
   * corner's values times the point's weight for the corner.
   */
  method AddCorner(g: Interpolator, indices: seq<seq<nat>>, norms: seq<seq<real>>, m: nat, c: nat, result: array<seq<real>>)
    requires g.Valid() && Located(g, indices, norms, m) && c < Pow2(|g.grid|) && result.Length == m
    requires forall q :: 0 <= q < m ==> result[q] == Running(g, indices, norms, m, q, c)
    modifies result
    ensures forall q :: 0 <= q < m ==> result[q] == Running(g, indices, norms, m, q, c + 1)
  {
    var q := 0;
    while q < m
      invariant 0 <= q <= m
      invariant forall p :: 0 <= p < q ==> result[p] == Running(g, indices, norms, m, p, c + 1)
      invariant forall p :: q <= p < m ==> result[p] == Running(g, indices, norms, m, p, c)
    {
      result[q] := AddCornerAt(g, Column(indices, q), Column(norms, q), c, result[q]);
      q := q + 1;
    }
  }

  /**
   * Corner c for one point of the cell lo at distances t: the weight formed
   * axis by axis, `weight *= where(ei == i, 1 - yi, yi)`, and then
   * `values += self.values[edge_indices] * weight`.
   */
  method AddCornerAt(g: Interpolator, lo: seq<nat>, t: seq<real>, c: nat, acc: seq<real>) returns (r: seq<real>)
    requires g.Valid() && IsCell(g, lo) && |t| == |lo| && c < Pow2(|lo|)
    requires acc == PartialSum(g, lo, t, c)
    ensures r == PartialSum(g, lo, t, c + 1)
  {
    var b := Bits(c, |lo|);
    var weight := CornerWeight(t, b);
    CornerInShape(g, lo, b);
    r := Accumulate(acc, NodeValue(g, Corner(lo, b)), weight);
  }

  /** Component j of the interpolant is the multilinear blend of the corners' component j. */
  lemma InterpolantComponent(g: Interpolator, lo: seq<nat>, t: seq<real>, j: nat)
    requires g.Valid() && IsCell(g, lo) && |t| == |lo| && j < g.Width()
    ensures Interpolant(g, lo, t)[j] == Blend(t, Column(CornerRows(g, lo), j))
  {
  }

  /** With every distance 0 or 1 the interpolant is the value stored at the corner those distances pick. */
  lemma {:induction false} InterpolantAtVertex(g: Interpolator, lo: seq<nat>, t: seq<real>)
    requires g.Valid() && IsCell(g, lo) && |t| == |lo|
    requires forall d :: 0 <= d < |t| ==> t[d] == 0.0 || t[d] == 1.0
    ensures Interpolant(g, lo, t) == CornerRows(g, lo)[Vertex(t)]
  {
    forall j | 0 <= j < g.Width()
      ensures Interpolant(g, lo, t)[j] == CornerRows(g, lo)[Vertex(t)][j]
    {
      InterpolantComponent(g, lo, t, j);
      BlendAtVertex(t, Column(CornerRows(g, lo), j));
    }
  }

  /** The grid point whose index on axis d is k[d]. */
  function Node(g: Interpolator, k: seq<nat>): (x: seq<real>)
    requires g.Valid() && |k| == |g.grid| && forall d :: 0 <= d < |k| ==> k[d] < |g.grid[d]|
    ensures |x| == |k|
  {
    seq(|k|, d requires 0 <= d < |k| => g.grid[d][k[d]])
  }

  /**
   * At a node, each axis places the coordinate at the low edge of cell 0 when
   * it is the first point, and at the high edge of the cell before it otherwise.
   */
  lemma {:induction false} LocatedAtNode(g: Interpolator, k: seq<nat>)
    requires g.Evaluable() && |k| == |g.grid| && forall d :: 0 <= d < |k| ==> k[d] < |g.grid[d]|
    ensures forall d :: 0 <= d < |k| ==>
      (k[d] == 0 ==> Cells(g, Node(g, k))[d] == 0 && Dists(g, Node(g, k))[d] == 0.0)
      && (k[d] > 0 ==> Cells(g, Node(g, k))[d] == k[d] - 1 && Dists(g, Node(g, k))[d] == 1.0)
  {
    forall d | 0 <= d < |k|
      ensures k[d] == 0 ==> Cells(g, Node(g, k))[d] == 0 && Dists(g, Node(g, k))[d] == 0.0
      ensures k[d] > 0 ==> Cells(g, Node(g, k))[d] == k[d] - 1 && Dists(g, Node(g, k))[d] == 1.0
    {
      CellAtNode(g.grid[d], k[d]);
    }
  }

  /** The corner picked by the distances at a node is the node itself. */
  lemma {:induction false} VertexAtNode(g: Interpolator, k: seq<nat>)
    requires g.Evaluable() && |k| == |g.grid| && forall d :: 0 <= d < |k| ==> k[d] < |g.grid[d]|
    ensures forall d :: 0 <= d < |k| ==> Dists(g, Node(g, k))[d] == 0.0 || Dists(g, Node(g, k))[d] == 1.0
    ensures Corner(Cells(g, Node(g, k)), Bits(Vertex(Dists(g, Node(g, k))), |k|)) == k
  {
    var x := Node(g, k);
    var lo, t := Cells(g, x), Dists(g, x);
    LocatedAtNode(g, k);
    VertexBits(t);
    var b := Bits(Vertex(t), |k|);
    forall d | 0 <= d < |k|
      ensures Corner(lo, b)[d] == k[d]
    {
      assert b[d] == (t[d] == 1.0);
    }
  }

  /** Linear interpolation is exact at the grid nodes: querying a node returns the values stored there. */
  lemma {:induction false} ExactAtNode(g: Interpolator, k: seq<nat>)
    requires g.Evaluable() && |k| == |g.grid| && forall d :: 0 <= d < |k| ==> k[d] < |g.grid[d]|
    ensures InShape(g.values.shape[..|g.grid|], k)
    ensures Linear(g, Node(g, k)) == NodeValue(g, k)
  {
    var x := Node(g, k);
    var lo, t := Cells(g, x), Dists(g, x);
    VertexAtNode(g, k);
    InterpolantAtVertex(g, lo, t);
    CornerInShape(g, lo, Bits(Vertex(t), |k|));
  }

  /**
   * Inside the domain the interpolant is a convex combination of the values
   * at the corners of the cell: each component lies within any bounds that
   * component of every corner value respects, in particular between their
   * minimum and maximum.
   */
  lemma {:induction false} LinearBounded(g: Interpolator, x: seq<real>, j: nat, lo: real, hi: real)
    requires g.Evaluable() && |x| == |g.grid| && !OutOfDomain(g, x) && j < g.Width()
    requires forall c :: 0 <= c < Pow2(|x|) ==> lo <= CornerRows(g, Cells(g, x))[c][j] <= hi
    ensures lo <= Linear(g, x)[j] <= hi
  {
    var cell, t := Cells(g, x), Dists(g, x);
    DistsInDomain(g, x);
    InterpolantComponent(g, cell, t, j);
    BlendBounded(t, Column(CornerRows(g, cell), j), lo, hi);
  }

  /**
   * Distinct corners of a cell read distinct blocks of `values`: their
   * row-major positions differ, so no stored value is counted twice.
   */
  lemma {:induction false} CornersReadDistinctBlocks(g: Interpolator, lo: seq<nat>, c1: nat, c2: nat)
    requires g.Valid() && IsCell(g, lo) && c1 < Pow2(|lo|) && c2 < Pow2(|lo|) && c1 != c2
    ensures InShape(g.values.shape[..|g.grid|], Corner(lo, Bits(c1, |lo|)))
    ensures InShape(g.values.shape[..|g.grid|], Corner(lo, Bits(c2, |lo|)))
    ensures RowMajor(g.values.shape[..|g.grid|], Corner(lo, Bits(c1, |lo|)))
      != RowMajor(g.values.shape[..|g.grid|], Corner(lo, Bits(c2, |lo|)))
  {
    var dims := g.values.shape[..|g.grid|];
    var b1, b2 := Bits(c1, |lo|), Bits(c2, |lo|);
    CornerInShape(g, lo, b1);
    CornerInShape(g, lo, b2);
    if RowMajor(dims, Corner(lo, b1)) == RowMajor(dims, Corner(lo, b2)) {
      RowMajorInjective(dims, Corner(lo, b1), Corner(lo, b2));
      forall d | 0 <= d < |lo|
        ensures b1[d] == b2[d]
      {
        assert Corner(lo, b1)[d] == Corner(lo, b2)[d];
      }
      assert b1 == b2;
      NumberBits(c1, |lo|);
      NumberBits(c2, |lo|);
      assert false;
    }
  }
}
