/** Dot products of a weight sequence with a value sequence, and how they split and scale. */
module DotProducts {

  /** Every element of s multiplied by k. */
  function Scaled(k: real, s: seq<real>): (r: seq<real>)
    ensures |r| == |s|
  {
    seq(|s|, i requires 0 <= i < |s| => k * s[i])
  }

  /** Sum of the products w[i] * v[i], accumulated from the front as a running total. */
  function Dot(w: seq<real>, v: seq<real>): real
    requires |w| == |v|
  {
    if |w| == 0 then 0.0 else Dot(w[..|w| - 1], v[..|v| - 1]) + w[|w| - 1] * v[|v| - 1]
  }

  /** A dot product splits at any position k into the dot products of the two parts. */
  lemma {:induction false} DotSplit(w: seq<real>, v: seq<real>, k: nat)
    requires |w| == |v| && k <= |w|
    ensures Dot(w, v) == Dot(w[..k], v[..k]) + Dot(w[k..], v[k..])
    decreases |w|
  {
    if k < |w| {
      var n := |w| - 1;
      DotSplit(w[..n], v[..n], k);
      assert w[..n][..k] == w[..k] && v[..n][..k] == v[..k];
      assert w[k..][..n - k] == w[..n][k..] && v[k..][..n - k] == v[..n][k..];
    } else {
      assert w[..k] == w && v[..k] == v;
    }
  }

  /** Scalar step of DotScaled, kept apart so that no real product appears in a goal over recursive sequence functions. */
  lemma Distribute(k: real, a: real, x: real, y: real)
    ensures k * a + (k * x) * y == k * (a + x * y)
  {
  }

  lemma {:induction false} DotScaled(k: real, w: seq<real>, v: seq<real>)
    requires |w| == |v|
    ensures Dot(Scaled(k, w), v) == k * Dot(w, v)
    decreases |w|
  {
    if |w| > 0 {
      var n := |w| - 1;
      assert Scaled(k, w)[..n] == Scaled(k, w[..n]) by {
        forall i | 0 <= i < n ensures Scaled(k, w)[..n][i] == Scaled(k, w[..n])[i] {
        }
      }
      DotScaled(k, w[..n], v[..n]);
      Distribute(k, Dot(w[..n], v[..n]), w[n], v[n]);
    }
  }

  /** Scaling the weights scales a known dot product. */
  lemma {:induction false} DotScaledValue(k: real, w: seq<real>, v: seq<real>, a: real)
    requires |w| == |v| && Dot(w, v) == a
    ensures Dot(Scaled(k, w), v) == k * a
  {
    DotScaled(k, w, v);
  }

  /** Entry j of every row: column j of a table, such as `xi.T[j]` for a list of query points. */
  function Column<T>(rows: seq<seq<T>>, j: nat): (col: seq<T>)
    requires forall c :: 0 <= c < |rows| ==> j < |rows[c]|
    ensures |col| == |rows|
  {
    seq(|rows|, c requires 0 <= c < |rows| => rows[c][j])
  }

  /** All rows have the given width. */
  predicate Rows<T>(rows: seq<seq<T>>, width: nat)
  {
    forall c :: 0 <= c < |rows| ==> |rows[c]| == width
  }

  /** The weighted sum of the rows, component by component: sum over c of w[c] * rows[c]. */
  function WeightedSum(w: seq<real>, rows: seq<seq<real>>, width: nat): (r: seq<real>)
    requires |w| == |rows| && Rows(rows, width)
    ensures |r| == width
  {
    seq(width, j requires 0 <= j < width => Dot(w, Column(rows, j)))
  }

  /** acc plus v scaled by w, component by component. */
  function Accumulate(acc: seq<real>, v: seq<real>, w: real): (r: seq<real>)
    requires |v| == |acc|
    ensures |r| == |acc|
  {
    seq(|acc|, j requires 0 <= j < |acc| => acc[j] + v[j] * w)
  }

  /** Scalar step of WeightedSumStepAt, kept apart so that no real product appears in a goal over recursive sequence functions. */
  lemma Commute(a: real, x: real, y: real, b: real)
    requires a == b
    ensures a + x * y == b + y * x
  {
  }

  /** Component j of the weighted sum of the first c + 1 rows gains row c's entry times its weight. */
  lemma {:induction false} WeightedSumStepAt(w: seq<real>, rows: seq<seq<real>>, width: nat, c: nat, j: nat)
    requires |w| == |rows| && Rows(rows, width) && c < |w| && j < width
    ensures Dot(w[..c + 1], Column(rows[..c + 1], j)) == Dot(w[..c], Column(rows[..c], j)) + rows[c][j] * w[c]
  {
    var v := Column(rows[..c + 1], j);
    assert w[..c + 1][..c] == w[..c];
    assert v[..c] == Column(rows[..c], j);
    Commute(Dot(w[..c + 1][..c], v[..c]), w[..c + 1][c], v[c], Dot(w[..c], Column(rows[..c], j)));
  }

  /** Adding row c, scaled by its weight, to the weighted sum of the rows before it. */
  lemma {:induction false} WeightedSumStep(w: seq<real>, rows: seq<seq<real>>, width: nat, c: nat)
    requires |w| == |rows| && Rows(rows, width) && c < |w|
    ensures WeightedSum(w[..c + 1], rows[..c + 1], width) == Accumulate(WeightedSum(w[..c], rows[..c], width), rows[c], w[c])
  {
    forall j | 0 <= j < width
      ensures WeightedSum(w[..c + 1], rows[..c + 1], width)[j]
        == Accumulate(WeightedSum(w[..c], rows[..c], width), rows[c], w[c])[j]
    {
      WeightedSumStepAt(w, rows, width, c, j);
    }
  }
}
