/**
 * `__call__`: the dimension check on the query points, the bounds policy
 * (raise, fill or extrapolate) and the result rows, one per point.
 */
module Calling {
  import opened NdArrays
  import opened Axis
  import opened Construction
  import opened DotProducts
  import opened Location
  import opened Evaluation

  /**
   * The query `xi` after flattening its leading dimensions: m points, each of
   * the same dimension `dim` (the length of the array's last axis).
   */
  datatype Samples = Samples(dim: nat, points: seq<seq<real>>)

  /** Why a call fails. */
  datatype CallError =
    | WrongDimension(given: nat)
    | OutOfBounds(axis: nat)

  /** What happens to a point outside the domain, as the two constructor settings choose it. */
  datatype BoundsPolicy = Raise | Fill(value: real) | Extrapolate

  function Policy(g: Interpolator): (b: BoundsPolicy)
    ensures b == Raise <==> g.boundsError
    ensures b.Fill? <==> !g.boundsError && g.fillValue.Some?
    ensures b.Fill? ==> g.fillValue == Some(b.value)
  {
    if g.boundsError then Raise
    else match g.fillValue
      case Some(v) => Fill(v)
      case None => Extrapolate
  }

  /** Some point's coordinate on axis d lies outside that axis. */
  predicate AxisOutside(g: Interpolator, points: seq<seq<real>>, d: nat)
    requires g.Evaluable() && Rows(points, |g.grid|) && d < |g.grid|
  {
    exists q :: 0 <= q < |points| && OutsideAxis(g.grid[d], points[q][d])
  }

  /** The first axis from d on on which some point lies outside: the axis the bounds check reports. */
  function FirstAxisOutside(g: Interpolator, points: seq<seq<real>>, d: nat): (r: Option<nat>)
    requires g.Evaluable() && Rows(points, |g.grid|) && d <= |g.grid|
    ensures r == None <==> forall e :: d <= e < |g.grid| ==> !AxisOutside(g, points, e)
    ensures r.Some? ==>
      && d <= r.value < |g.grid|
      && AxisOutside(g, points, r.value)
      && forall e :: d <= e < r.value ==> !AxisOutside(g, points, e)
    decreases |g.grid| - d
  {
    if d == |g.grid| then None
    else if AxisOutside(g, points, d) then Some(d)
    else FirstAxisOutside(g, points, d + 1)
  }

  /** Some axis has a point outside it exactly when some point lies outside the domain. */
  lemma {:induction false} SomeAxisOutside(g: Interpolator, points: seq<seq<real>>)
    requires g.Evaluable() && Rows(points, |g.grid|)
    ensures (exists d :: 0 <= d < |g.grid| && AxisOutside(g, points, d))
      <==> exists q :: 0 <= q < |points| && OutOfDomain(g, points[q])
  {
    if exists d :: 0 <= d < |g.grid| && AxisOutside(g, points, d) {
      var d :| 0 <= d < |g.grid| && AxisOutside(g, points, d);
      var q :| 0 <= q < |points| && OutsideAxis(g.grid[d], points[q][d]);
      assert OutOfDomain(g, points[q]);
    }
    if exists q :: 0 <= q < |points| && OutOfDomain(g, points[q]) {
      var q :| 0 <= q < |points| && OutOfDomain(g, points[q]);
      var d :| 0 <= d < |g.grid| && OutsideAxis(g.grid[d], points[q][d]);
      assert AxisOutside(g, points, d);
    }
  }

  /** `result[out_of_bounds] = self.fill_value`: the row of a flagged point, every entry the fill value. */
  function FillRow(g: Interpolator, v: real): (row: seq<real>)
    requires g.Valid()
    ensures |row| == g.Width() && forall j :: 0 <= j < |row| ==> row[j] == v
  {
    seq(g.Width(), _ => v)
  }

  /** The row the call returns for one point of the right dimension that passed the bounds check. */
  function Row(g: Interpolator, x: seq<real>): (row: seq<real>)
    requires g.Evaluable() && |x| == |g.grid|
    ensures |row| == g.Width()
  {
    match Policy(g)
    case Fill(v) => if OutOfDomain(g, x) then FillRow(g, v) else Linear(g, x)
    case _ => Linear(g, x)
  }

  /**
   * The value of a call: a query of the wrong dimension is refused first;
   * under the raising policy the first axis with a point outside it is
   * reported; otherwise one row per point.
   */
  function Evaluate(g: Interpolator, xs: Samples): (r: Result<seq<seq<real>>, CallError>)
    requires g.Evaluable() && Rows(xs.points, xs.dim)
    ensures r == Error(WrongDimension(xs.dim)) <==> xs.dim != |g.grid|
    ensures r.Error? <==>
      xs.dim != |g.grid| || (g.boundsError && exists q :: 0 <= q < |xs.points| && OutOfDomain(g, xs.points[q]))
    ensures r.Error? && r.error.OutOfBounds? ==>
      && xs.dim == |g.grid| && g.boundsError
      && r.error.axis < |g.grid|
      && AxisOutside(g, xs.points, r.error.axis)
      && forall d :: 0 <= d < r.error.axis ==> !AxisOutside(g, xs.points, d)
    ensures r.Ok? ==> |r.value| == |xs.points| && forall q :: 0 <= q < |r.value| ==> |r.value[q]| == g.Width()
  {
    if xs.dim != |g.grid| then Error(WrongDimension(xs.dim))
    else
      SomeAxisOutside(g, xs.points);
      var axis := FirstAxisOutside(g, xs.points, 0);
      if g.boundsError && axis.Some? then Error(OutOfBounds(axis.value))
      else Ok(seq(|xs.points|, q requires 0 <= q < |xs.points| => Row(g, xs.points[q])))
  }

  /** Under the raising policy a successful call has every point inside the domain and interpolates each. */
  lemma RaiseGivesInterpolants(g: Interpolator, xs: Samples)
    requires g.Evaluable() && Rows(xs.points, xs.dim) && Policy(g) == Raise && xs.dim == |g.grid|
    ensures Evaluate(g, xs).Ok? <==> forall q :: 0 <= q < |xs.points| ==> !OutOfDomain(g, xs.points[q])
    ensures Evaluate(g, xs).Ok? ==> forall q :: 0 <= q < |xs.points| ==> Evaluate(g, xs).value[q] == Linear(g, xs.points[q])
  {
  }

  /** Under the fill policy no call of the right dimension fails; outside points get the fill row, inside points their interpolant. */
  lemma FillReplacesOutside(g: Interpolator, xs: Samples)
    requires g.Evaluable() && Rows(xs.points, xs.dim) && Policy(g).Fill? && xs.dim == |g.grid|
    ensures Evaluate(g, xs).Ok?
    ensures forall q :: 0 <= q < |xs.points| ==>
      Evaluate(g, xs).value[q] == if OutOfDomain(g, xs.points[q]) then FillRow(g, Policy(g).value) else Linear(g, xs.points[q])
  {
  }

  /** Under the extrapolating policy no call of the right dimension fails and every point, inside or outside, gets its interpolant. */
  lemma ExtrapolateEverywhere(g: Interpolator, xs: Samples)
    requires g.Evaluable() && Rows(xs.points, xs.dim) && Policy(g) == Extrapolate && xs.dim == |g.grid|
    ensures Evaluate(g, xs).Ok?
    ensures forall q :: 0 <= q < |xs.points| ==> Evaluate(g, xs).value[q] == Linear(g, xs.points[q])
  {
  }

  /**
   * The policy matters only outside the domain: whatever the two settings,
   * a query whose points all lie inside the domain is answered without
   * error by the interpolants of its points.
   */
  lemma {:induction false} PoliciesAgreeInDomain(g: Interpolator, xs: Samples)
    requires g.Evaluable() && Rows(xs.points, xs.dim) && xs.dim == |g.grid|
    requires forall q :: 0 <= q < |xs.points| ==> !OutOfDomain(g, xs.points[q])
    ensures Evaluate(g, xs) == Ok(seq(|xs.points|, q requires 0 <= q < |xs.points| => Linear(g, xs.points[q])))
  {
    forall q | 0 <= q < |xs.points|
      ensures Row(g, xs.points[q]) == Linear(g, xs.points[q])
    {
    }
    assert Evaluate(g, xs).Ok?;
    assert Evaluate(g, xs).value == seq(|xs.points|, q requires 0 <= q < |xs.points| => Linear(g, xs.points[q]));
  }

  /** Every grid node lies inside the domain. */
  lemma {:induction false} NodeInDomain(g: Interpolator, k: seq<nat>)
    requires g.Evaluable() && |k| == |g.grid| && forall d :: 0 <= d < |k| ==> k[d] < |g.grid[d]|
    ensures !OutOfDomain(g, Node(g, k))
  {
    forall d | 0 <= d < |k|
      ensures !OutsideAxis(g.grid[d], Node(g, k)[d])
    {
      var p := g.grid[d];
      if 0 < k[d] {
        AscendingOrdered(p, 0, k[d]);
      }
      if k[d] < |p| - 1 {
        AscendingOrdered(p, k[d], |p| - 1);
      }
    }
  }

  /**
   * Querying a grid node returns exactly the values stored there, under
   * every bounds policy: the node is inside the domain, so it neither raises
   * nor is filled, and the interpolant is exact at nodes.
   */
  lemma {:induction false} CallAtNode(g: Interpolator, k: seq<nat>)
    requires g.Evaluable() && |k| == |g.grid| && forall d :: 0 <= d < |k| ==> k[d] < |g.grid[d]|
    ensures InShape(g.values.shape[..|g.grid|], k)
    ensures Evaluate(g, Samples(|g.grid|, [Node(g, k)])) == Ok([NodeValue(g, k)])
  {
    var xs := Samples(|g.grid|, [Node(g, k)]);
    NodeInDomain(g, k);
    ExactAtNode(g, k);
    assert xs.points[0] == Node(g, k);
    PoliciesAgreeInDomain(g, xs);
    var r := Evaluate(g, xs);
    assert r.value[0] == Linear(g, Node(g, k));
    assert r.value == [NodeValue(g, k)];
  }

  /**
   * The bounds check of `__call__`, axis by axis: the first axis on which
   * some point lies below its first or above its last grid point.
   */
  method CheckBounds(g: Interpolator, points: seq<seq<real>>) returns (axis: Option<nat>)
    requires g.Evaluable() && Rows(points, |g.grid|)
    ensures axis == FirstAxisOutside(g, points, 0)
  {
    var d := 0;
    while d < |g.grid|
      invariant 0 <= d <= |g.grid|
      invariant FirstAxisOutside(g, points, d) == FirstAxisOutside(g, points, 0)
    {
      var inside := AllWithin(g.grid[d], Column(points, d));
      if !inside {
        return Some(d);
      }
      forall q | 0 <= q < |points|
        ensures !OutsideAxis(g.grid[d], points[q][d])
      {
        assert Column(points, d)[q] == points[q][d];
      }
      d := d + 1;
    }
    return None;
  }

  /** `np.all(grid[0] <= x)` and `np.all(x <= grid[-1])` for the coordinates xs of one axis. */
  method AllWithin(p: seq<real>, xs: seq<real>) returns (inside: bool)
    requires |p| > 0
    ensures inside <==> forall q :: 0 <= q < |xs| ==> !OutsideAxis(p, xs[q])
  {
    var q := 0;
    while q < |xs|
      invariant 0 <= q <= |xs|
      invariant forall r :: 0 <= r < q ==> !OutsideAxis(p, xs[r])
    {
      if !(p[0] <= xs[q] && xs[q] <= p[|p| - 1]) {
        return false;
      }
      q := q + 1;
    }
    return true;
  }

  /** `result[out_of_bounds] = fill`, in place: every flagged row becomes `row`, every other row is kept. */
  method FillFlagged(result: array<seq<real>>, flags: seq<bool>, row: seq<real>)
    requires |flags| == result.Length
    modifies result
    ensures forall q :: 0 <= q < result.Length ==> result[q] == if flags[q] then row else old(result[q])
  {
    var q := 0;
    while q < result.Length
      invariant 0 <= q <= result.Length
      invariant forall r :: 0 <= r < q ==> result[r] == if flags[r] then row else old(result[r])
      invariant forall r :: q <= r < result.Length ==> result[r] == old(result[r])
    {
      if flags[q] {
        result[q] := row;
      }
      q := q + 1;
    }
  }

  /** The per-axis lists of `_find_indices` give point q the cell and the distances of Linear. */
  lemma {:induction false} ColumnsLocate(g: Interpolator, points: seq<seq<real>>, indices: seq<seq<nat>>, norms: seq<seq<real>>)
    requires g.Evaluable() && Rows(points, |g.grid|)
    requires |indices| == |norms| == |g.grid|
    requires forall d :: 0 <= d < |g.grid| ==> |indices[d]| == |norms[d]| == |points|
    requires forall d :: 0 <= d < |g.grid| ==>
      indices[d] == AxisCells(g.grid[d], Column(points, d))
      && norms[d] == AxisNorms(g.grid[d], Column(points, d))
    ensures Located(g, indices, norms, |points|)
    ensures forall q :: 0 <= q < |points| ==>
      Column(indices, q) == Cells(g, points[q]) && Column(norms, q) == Dists(g, points[q])
  {
    forall d, q | 0 <= d < |g.grid| && 0 <= q < |points|
      ensures indices[d][q] == Cell(g.grid[d], points[q][d]) && indices[d][q] + 1 < |g.grid[d]|
      ensures norms[d][q] == Norm(g.grid[d], indices[d][q], points[q][d])
    {
      assert Column(points, d)[q] == points[q][d];
    }
    forall q | 0 <= q < |points|
      ensures Column(indices, q) == Cells(g, points[q]) && Column(norms, q) == Dists(g, points[q])
    {
    }
  }

  /**
   * `__call__`: refuse a query of the wrong dimension, apply the bounds
   * check when out-of-range points raise, locate and interpolate every
   * point, then overwrite the flagged rows with the fill value when one
   * is set.
   */
  method Call(g: Interpolator, xs: Samples) returns (r: Result<seq<seq<real>>, CallError>)
    requires g.Evaluable() && Rows(xs.points, xs.dim)
    ensures r == Evaluate(g, xs)
  {
    if xs.dim != |g.grid| {
      return Error(WrongDimension(xs.dim));
    }
    if g.boundsError {
      var axis := CheckBounds(g, xs.points);
      if axis.Some? {
        return Error(OutOfBounds(axis.value));
      }
    }
    var indices, norms, outOfBounds := FindIndices(g, xs.points);
    ColumnsLocate(g, xs.points, indices, norms);
    var result := EvaluateLinear(g, indices, norms, |xs.points|);
    if !g.boundsError && g.fillValue.Some? {
      FillFlagged(result, outOfBounds, FillRow(g, g.fillValue.value));
    }
    r := Ok(result[..]);
    assert r.value == Evaluate(g, xs).value;
  }
}
