/**
 * `_find_indices`: for every query point, the cell it falls in on each axis,
 * its normalised distance from that cell's low edge, and its out-of-bounds flag.
 */
module Location {
  import opened Axis
  import opened Construction
  import opened DotProducts

  /** x lies strictly below the first point or strictly above the last point of axis p. */
  predicate OutsideAxis(p: seq<real>, x: real)
    requires |p| > 0
  {
    x < p[0] || p[|p| - 1] < x
  }

  /** Some coordinate of the point x lies outside its axis. */
  predicate OutOfDomain(g: Interpolator, x: seq<real>)
    requires g.Evaluable() && |x| == |g.grid|
  {
    OutsideBefore(g, x, |x|)
  }

  /** Low-corner indices of the cell holding x, one per axis. */
  function Cells(g: Interpolator, x: seq<real>): (lo: seq<nat>)
    requires g.Evaluable() && |x| == |g.grid|
    ensures |lo| == |x|
    ensures forall d :: 0 <= d < |x| ==> lo[d] + 1 < |g.grid[d]|
  {
    seq(|x|, d requires 0 <= d < |x| => Cell(g.grid[d], x[d]))
  }

  /** Normalised distances of x from the low edges of its cell, one per axis. */
  function Dists(g: Interpolator, x: seq<real>): (t: seq<real>)
    requires g.Evaluable() && |x| == |g.grid|
    ensures |t| == |x|
  {
    seq(|x|, d requires 0 <= d < |x| => Norm(g.grid[d], Cell(g.grid[d], x[d]), x[d]))
  }

  /** Inside the domain every normalised distance lies in [0, 1]. */
  lemma {:induction false} DistsInDomain(g: Interpolator, x: seq<real>)
    requires g.Evaluable() && |x| == |g.grid|
    requires !OutOfDomain(g, x)
    ensures forall d :: 0 <= d < |x| ==> 0.0 <= Dists(g, x)[d] <= 1.0
  {
    forall d | 0 <= d < |x|
      ensures 0.0 <= Dists(g, x)[d] <= 1.0
    {
      assert !OutsideAxis(g.grid[d], x[d]);
      NormRange(g.grid[d], x[d]);
    }
  }

  /** Some coordinate before axis d of the point x lies outside its axis. */
  predicate OutsideBefore(g: Interpolator, x: seq<real>, d: nat)
    requires g.Evaluable() && |x| == |g.grid| && d <= |x|
  {
    exists e :: 0 <= e < d && OutsideAxis(g.grid[e], x[e])
  }

  lemma OutsideBeforeNext(g: Interpolator, x: seq<real>, d: nat)
    requires g.Evaluable() && |x| == |g.grid| && d < |x|
    ensures OutsideBefore(g, x, d + 1) <==> OutsideBefore(g, x, d) || OutsideAxis(g.grid[d], x[d])
  {
    if OutsideBefore(g, x, d + 1) && !OutsideAxis(g.grid[d], x[d]) {
      var e :| 0 <= e < d + 1 && OutsideAxis(g.grid[e], x[e]);
      assert e < d;
    }
  }

  /**
   * Locates every point on every axis, axis by axis as `_find_indices` does:
   * row d of indices and norms holds every point's cell and distance on
   * axis d, and, when out-of-range queries do not raise, each point's flag
   * collects by OR whether its coordinate lies below or above each axis.
   */
  method FindIndices(g: Interpolator, points: seq<seq<real>>)
    returns (indices: seq<seq<nat>>, norms: seq<seq<real>>, outOfBounds: seq<bool>)
    requires g.Evaluable()
    requires Rows(points, |g.grid|)
    ensures |indices| == |norms| == |g.grid|
    ensures forall d :: 0 <= d < |g.grid| ==>
      indices[d] == AxisCells(g.grid[d], Column(points, d))
      && norms[d] == AxisNorms(g.grid[d], Column(points, d))
    ensures |outOfBounds| == |points|
    ensures forall q :: 0 <= q < |points| ==> (outOfBounds[q] <==> !g.boundsError && OutOfDomain(g, points[q]))
  {
    var flags := new bool[|points|](_ => false);
    indices, norms := [], [];
    var d := 0;
    while d < |g.grid|
      invariant 0 <= d <= |g.grid|
      invariant Tabled(g, points, indices, norms, d)
      invariant forall q :: 0 <= q < |points| ==> (flags[q] <==> !g.boundsError && OutsideBefore(g, points[q], d))
    {
      indices, norms := LocateAxis(g, points, d, flags, indices, norms);
      d := d + 1;
    }
    outOfBounds := flags[..];
  }

  /** The rows for the axes before d: every point's cell and distance on each of those axes. */
  predicate Tabled(g: Interpolator, points: seq<seq<real>>, indices: seq<seq<nat>>, norms: seq<seq<real>>, d: nat)
    requires g.Evaluable() && Rows(points, |g.grid|) && d <= |g.grid|
  {
    && |indices| == |norms| == d
    && forall e :: 0 <= e < d ==>
      indices[e] == AxisCells(g.grid[e], Column(points, e)) && norms[e] == AxisNorms(g.grid[e], Column(points, e))
  }

  /**
   * One pass of the axis loop of `_find_indices`: axis d's cells and
   * distances appended to the rows, and the flags updated by axis d.
   */
  method LocateAxis(g: Interpolator, points: seq<seq<real>>, d: nat, flags: array<bool>, indices: seq<seq<nat>>, norms: seq<seq<real>>)
    returns (nextIndices: seq<seq<nat>>, nextNorms: seq<seq<real>>)
    requires g.Evaluable() && d < |g.grid|
    requires Rows(points, |g.grid|)
    requires Tabled(g, points, indices, norms, d)
    requires flags.Length == |points|
    requires forall q :: 0 <= q < |points| ==> (flags[q] <==> !g.boundsError && OutsideBefore(g, points[q], d))
    modifies flags
    ensures nextIndices == indices + [AxisCells(g.grid[d], Column(points, d))]
    ensures nextNorms == norms + [AxisNorms(g.grid[d], Column(points, d))]
    ensures Tabled(g, points, nextIndices, nextNorms, d + 1)
    ensures forall q :: 0 <= q < |points| ==> (flags[q] <==> !g.boundsError && OutsideBefore(g, points[q], d + 1))
  {
    var p := g.grid[d];
    var row, dist := LocateAll(p, Column(points, d));
    nextIndices, nextNorms := indices + [row], norms + [dist];
    if !g.boundsError {
      FlagAxis(flags, p, Column(points, d));
    }
    forall q | 0 <= q < |points|
      ensures flags[q] <==> !g.boundsError && OutsideBefore(g, points[q], d + 1)
    {
      OutsideBeforeNext(g, points[q], d);
    }
  }

  /** The cell of every coordinate on axis p. */
  function AxisCells(p: seq<real>, xs: seq<real>): (row: seq<nat>)
    requires Ascending(p) && |p| >= 2
  {
    seq(|xs|, q requires 0 <= q < |xs| => Cell(p, xs[q]))
  }

  /** The normalised distance of every coordinate from the low edge of its cell on axis p. */
  function AxisNorms(p: seq<real>, xs: seq<real>): (dist: seq<real>)
    requires Ascending(p) && |p| >= 2
  {
    seq(|xs|, q requires 0 <= q < |xs| => Norm(p, Cell(p, xs[q]), xs[q]))
  }

  /** `out_of_bounds += x < grid[0]` then `out_of_bounds += x > grid[-1]`, in place, for one axis. */
  method FlagAxis(flags: array<bool>, p: seq<real>, xs: seq<real>)
    requires flags.Length == |xs| && |p| > 0
    modifies flags
    ensures forall q :: 0 <= q < |xs| ==> (flags[q] <==> old(flags[q]) || OutsideAxis(p, xs[q]))
  {
    var q := 0;
    while q < |xs|
      invariant 0 <= q <= |xs|
      invariant forall r :: 0 <= r < q ==> (flags[r] <==> old(flags[r]) || OutsideAxis(p, xs[r]))
      invariant forall r :: q <= r < |xs| ==> flags[r] == old(flags[r])
    {
      flags[q] := flags[q] || xs[q] < p[0];
      flags[q] := flags[q] || xs[q] > p[|p| - 1];
      q := q + 1;
    }
  }

  /** One axis of `_find_indices`, vectorised over the points: each coordinate's cell and distance. */
  method LocateAll(p: seq<real>, xs: seq<real>) returns (row: seq<nat>, dist: seq<real>)
    requires Ascending(p) && |p| >= 2
    ensures row == AxisCells(p, xs) && dist == AxisNorms(p, xs)
  {
    row, dist := [], [];
    var q := 0;
    while q < |xs|
      invariant 0 <= q <= |xs|
      invariant |row| == |dist| == q
      invariant forall r :: 0 <= r < q ==> row[r] == Cell(p, xs[r]) && dist[r] == Norm(p, row[r], xs[r])
    {
      var i, t := Locate(p, xs[q]);
      row, dist := row + [i], dist + [t];
      q := q + 1;
    }
  }
}
