/** The weight of one corner of a cell: the product of one factor per axis. */
module CornerWeights {

  /** The factor axis d contributes: `1 - t` on the low edge, `t` on the high edge. */
  function Factor(t: real, high: bool): real
  {
    if high then t else 1.0 - t
  }

  /** The weight of the corner with edge choices b: the product of its factors over all axes. */
  function WeightOf(t: seq<real>, b: seq<bool>): real
    requires |b| == |t|
  {
    if |t| == 0 then 1.0 else Factor(t[0], b[0]) * WeightOf(t[1..], b[1..])
  }

  /**
   * Taking one more factor into the running weight leaves the product of it
   * and the rest unchanged; kept apart so that the loop's goal holds no real
   * product next to the recursive WeightOf.
   */
  lemma Absorb(w: real, f: real, rest: real, total: real)
    requires w * (f * rest) == total
    ensures (w * f) * rest == total
  {
  }

  /**
   * The weight of one corner, as the inner loop of `_evaluate_linear` forms
   * it: a running weight of 1 multiplied, axis by axis from axis 0, by
   * `1 - t[d]` where the corner takes the low edge and by `t[d]` where it
   * takes the high edge.
   */
  method CornerWeight(t: seq<real>, b: seq<bool>) returns (w: real)
    requires |b| == |t|
    ensures w == WeightOf(t, b)
  {
    w := 1.0;
    var d := 0;
    while d < |t|
      invariant 0 <= d <= |t|
      invariant w * WeightOf(t[d..], b[d..]) == WeightOf(t, b)
    {
      assert t[d..][1..] == t[d + 1..] && b[d..][1..] == b[d + 1..];
      var f := if b[d] then t[d] else 1.0 - t[d];
      Absorb(w, f, WeightOf(t[d + 1..], b[d + 1..]), WeightOf(t, b));
      w := w * f;
      d := d + 1;
    }
  }

  lemma UnitProduct(x: real, y: real)
    requires 0.0 <= x <= 1.0 && 0.0 <= y <= 1.0
    ensures 0.0 <= x * y <= 1.0
  {
    NonNegativeProduct(x, y);
    NonNegativeProduct(1.0 - x, y);
    assert x * y + (1.0 - x) * y == y;
  }

  lemma NonNegativeProduct(x: real, y: real)
    requires 0.0 <= x && 0.0 <= y
    ensures 0.0 <= x * y
  {
  }

  /** With every distance in [0, 1], as inside the domain, every corner weight lies in [0, 1]. */
  lemma {:induction false} WeightOfRange(t: seq<real>, b: seq<bool>)
    requires |b| == |t|
    requires forall d :: 0 <= d < |t| ==> 0.0 <= t[d] <= 1.0
    ensures 0.0 <= WeightOf(t, b) <= 1.0
  {
    if |t| > 0 {
      WeightOfRange(t[1..], b[1..]);
      UnitProduct(Factor(t[0], b[0]), WeightOf(t[1..], b[1..]));
    }
  }
}
