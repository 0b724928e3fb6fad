/**
 * One grid axis: the strictly-ascending check made at construction and the
 * per-axis part of index location (sorted search, clamp, normalised distance).
 */
module Axis {

  /** `np.all(np.diff(p) > 0.)`: every point lies strictly below the next one. */
  predicate Ascending(p: seq<real>)
  {
    forall i :: 0 <= i < |p| - 1 ==> p[i] < p[i + 1]
  }

  /** Adjacent steps chain: on an ascending axis every earlier point is below every later one. */
  lemma {:induction false} AscendingOrdered(p: seq<real>, i: nat, j: nat)
    requires Ascending(p) && i < j < |p|
    ensures p[i] < p[j]
    decreases j - i
  {
    if i + 1 < j {
      AscendingOrdered(p, i + 1, j);
    }
  }

  /**
   * The number of axis points strictly below x. On a sorted axis this is the
   * insertion point NumPy's `searchsorted` returns with its default side='left'.
   */
  function CountBelow(p: seq<real>, x: real): (k: nat)
    ensures k <= |p|
  {
    if |p| == 0 then 0 else (if p[0] < x then 1 else 0) + CountBelow(p[1..], x)
  }

  /** Any split point with every point before it below x and none after it is the count below x. */
  lemma {:induction false} CountBelowSplit(p: seq<real>, x: real, k: nat)
    requires k <= |p|
    requires forall i :: 0 <= i < k ==> p[i] < x
    requires forall i :: k <= i < |p| ==> x <= p[i]
    ensures CountBelow(p, x) == k
  {
    if |p| > 0 {
      CountBelowSplit(p[1..], x, if k > 0 then k - 1 else 0);
    }
  }

  /** On an ascending axis the count below x splits the axis: below x before it, at or above x from it on. */
  lemma {:induction false} CountBelowSplits(p: seq<real>, x: real)
    requires Ascending(p)
    ensures forall i :: 0 <= i < CountBelow(p, x) ==> p[i] < x
    ensures forall i :: CountBelow(p, x) <= i < |p| ==> x <= p[i]
  {
    if |p| > 0 {
      CountBelowSplits(p[1..], x);
      if x <= p[0] {
        forall i | 0 < i < |p| ensures x <= p[i] {
          AscendingOrdered(p, 0, i);
        }
        CountBelowSplit(p[1..], x, 0);
      }
    }
  }

  /**
   * `np.searchsorted(p, x)` (side='left') by binary search: the first position
   * whose point is not below x, which is the number of points below x.
   */
  method SearchSorted(p: seq<real>, x: real) returns (k: nat)
    requires Ascending(p)
    ensures k <= |p|
    ensures forall i :: 0 <= i < k ==> p[i] < x
    ensures forall i :: k <= i < |p| ==> x <= p[i]
    ensures k == CountBelow(p, x)
  {
    var lo, hi := 0, |p|;
    while lo < hi
      invariant 0 <= lo <= hi <= |p|
      invariant forall i :: 0 <= i < lo ==> p[i] < x
      invariant forall i :: hi <= i < |p| ==> x <= p[i]
      decreases hi - lo
    {
      var mid := (lo + hi) / 2;
      if p[mid] < x {
        forall i | lo <= i < mid ensures p[i] < x {
          AscendingOrdered(p, i, mid);
        }
        lo := mid + 1;
      } else {
        forall i | mid < i < hi ensures x <= p[i] {
          AscendingOrdered(p, mid, i);
        }
        hi := mid;
      }
    }
    k := lo;
    CountBelowSplit(p, x, k);
  }

  /** The left edge of the cell used for x: `searchsorted(p, x) - 1`, clamped into [0, |p| - 2]. */
  function Cell(p: seq<real>, x: real): (i: nat)
    requires |p| >= 2
    ensures i <= |p| - 2
  {
    var k := CountBelow(p, x) - 1;
    if k < 0 then 0 else if k > |p| - 2 then |p| - 2 else k
  }

  /** Normalised distance of x from the left edge of cell i, in units of that cell's width. */
  function Norm(p: seq<real>, i: nat, x: real): real
    requires Ascending(p) && i + 1 < |p|
  {
    (x - p[i]) / (p[i + 1] - p[i])
  }

  /** x lies in the closed range of the axis. */
  predicate InRange(p: seq<real>, x: real)
    requires |p| > 0
  {
    p[0] <= x <= p[|p| - 1]
  }

  /**
   * Which cell x is placed in: cell 0 at or below the first point, the last
   * cell above the last point, and in between the cell whose left edge is
   * strictly below x and whose right edge is at or above it (the left-side
   * search puts an interior node at the right end of the cell before it).
   */
  lemma {:induction false} CellBracket(p: seq<real>, x: real)
    requires Ascending(p) && |p| >= 2
    ensures x <= p[0] ==> Cell(p, x) == 0
    ensures p[0] < x <= p[|p| - 1] ==> p[Cell(p, x)] < x <= p[Cell(p, x) + 1]
    ensures p[|p| - 1] < x ==> Cell(p, x) == |p| - 2
  {
    CountBelowSplits(p, x);
  }

  /**
   * The normalised distance lies in [0, 1] for x in the axis range, below 0
   * for x below the first point and above 1 for x above the last point.
   */
  lemma {:induction false} NormRange(p: seq<real>, x: real)
    requires Ascending(p) && |p| >= 2
    ensures InRange(p, x) ==> 0.0 <= Norm(p, Cell(p, x), x) <= 1.0
    ensures x < p[0] ==> Norm(p, Cell(p, x), x) < 0.0
    ensures p[|p| - 1] < x ==> 1.0 < Norm(p, Cell(p, x), x)
  {
    CellBracket(p, x);
    var i := Cell(p, x);
    QuotientRange(x - p[i], p[i + 1] - p[i]);
  }

  /** Where a/w falls against 0 and 1 for a positive width w. */
  lemma QuotientRange(a: real, w: real)
    requires w > 0.0
    ensures a < 0.0 ==> a / w < 0.0
    ensures 0.0 <= a <= w ==> 0.0 <= a / w <= 1.0
    ensures w < a ==> 1.0 < a / w
  {
    var t := a / w;
    assert t * w == a;
    if t < 0.0 {
      assert t * w < 0.0;
    }
    if t > 1.0 {
      assert t * w > 1.0 * w;
    }
    if 0.0 <= t <= 1.0 {
      assert t * w <= 1.0 * w;
    }
  }

  /**
   * At the node p[k] the result is exact: node 0 is the left end of cell 0
   * (distance 0), and every later node is the right end of cell k - 1
   * (distance 1), because the search is left-sided.
   */
  lemma {:induction false} CellAtNode(p: seq<real>, k: nat)
    requires Ascending(p) && |p| >= 2 && k < |p|
    ensures k == 0 ==> Cell(p, p[k]) == 0 && Norm(p, 0, p[k]) == 0.0
    ensures k > 0 ==> Cell(p, p[k]) == k - 1 && Norm(p, k - 1, p[k]) == 1.0
  {
    CellBracket(p, p[k]);
    if k > 0 {
      AscendingOrdered(p, 0, k);
      if k < |p| - 1 {
        AscendingOrdered(p, k, |p| - 1);
      }
      var i := Cell(p, p[k]);
      assert p[k - 1] < p[k];
      if i + 1 < k {
        AscendingOrdered(p, i + 1, k);
      } else if i >= k {
        if i > k {
          AscendingOrdered(p, k, i);
        }
      }
      assert (p[k] - p[k - 1]) / (p[k] - p[k - 1]) == 1.0;
    }
  }

  /**
   * Locates x on one axis, as `_find_indices` does for each query coordinate:
   * a left-sided sorted search, minus one, clamped into [0, |p| - 2], and the
   * normalised distance from the cell's left edge.
   */
  method Locate(p: seq<real>, x: real) returns (i: nat, t: real)
    requires Ascending(p) && |p| >= 2
    ensures i <= |p| - 2
    ensures x <= p[0] ==> i == 0
    ensures p[0] < x <= p[|p| - 1] ==> p[i] < x <= p[i + 1]
    ensures p[|p| - 1] < x ==> i == |p| - 2
    ensures t * (p[i + 1] - p[i]) == x - p[i]
    ensures i == Cell(p, x) && t == Norm(p, i, x)
  {
    var k := SearchSorted(p, x);
    var j := k as int - 1;
    if j < 0 {
      j := 0;
    }
    if j > |p| - 2 {
      j := |p| - 2;
    }
    i := j;
    t := (x - p[i]) / (p[i + 1] - p[i]);
  }
}
