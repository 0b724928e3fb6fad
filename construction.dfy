/**
 * Building a `RegularGridInterpolator`: the checks its constructor makes on
 * the grid axes and the values array, and the interpolator it then stores.
 */
module Construction {
  import opened NdArrays
  import opened Axis

  datatype Option<T> = None | Some(value: T)

  datatype Result<T, E> = Ok(value: T) | Error(error: E)

  /** Why one axis of the grid is refused. */
  datatype AxisFault = NotAscending | LengthMismatch

  /** Why construction fails. */
  datatype ConstructionError =
    | TooManyAxes
    | BadAxis(axis: nat, fault: AxisFault)

  /**
   * A constructed interpolator: one axis of points per leading dimension of
   * `values`, whether out-of-range queries raise, and the value that fills
   * out-of-range results when they do not (None stands for Python's `None`,
   * which asks for extrapolation instead).
   */
  datatype Interpolator = Interpolator(
    grid: seq<seq<real>>,
    values: NdArray,
    boundsError: bool,
    fillValue: Option<real>)
  {
    /** What a successful construction guarantees. */
    predicate Valid()
    {
      values.WellFormed()
      && |grid| <= |values.shape|
      && forall d :: 0 <= d < |grid| ==> Ascending(grid[d]) && |grid[d]| == values.shape[d]
    }

    /**
     * Valid, with at least one axis and at least two points on every axis:
     * the interpolators whose evaluation this model covers.
     */
    predicate Evaluable()
    {
      Valid() && |grid| >= 1 && forall d :: 0 <= d < |grid| ==> |grid[d]| >= 2
    }

    /** Number of value dimensions past the grid's: each query yields this many reals. */
    function Width(): nat
      requires Valid()
    {
      Product(values.shape[|grid|..])
    }
  }

  /** The fault of one axis against the matching dimension of `values`, ascending order checked first. */
  function AxisCheck(p: seq<real>, dim: nat): (f: Option<AxisFault>)
    ensures f == None <==> Ascending(p) && |p| == dim
    ensures f == Some(NotAscending) <==> !Ascending(p)
  {
    if !Ascending(p) then Some(NotAscending)
    else if |p| != dim then Some(LengthMismatch)
    else None
  }

  /**
   * The axis loop of the constructor from axis d on: the first axis that is
   * not strictly ascending or whose length differs from its dimension.
   */
  function FirstBadAxis(points: seq<seq<real>>, shape: seq<nat>, d: nat): (e: Option<ConstructionError>)
    requires d <= |points| <= |shape|
    ensures e == None <==> forall k :: d <= k < |points| ==> AxisCheck(points[k], shape[k]) == None
    ensures e.Some? ==>
      && e.value.BadAxis?
      && d <= e.value.axis < |points|
      && Some(e.value.fault) == AxisCheck(points[e.value.axis], shape[e.value.axis])
      && forall k :: d <= k < e.value.axis ==> AxisCheck(points[k], shape[k]) == None
    decreases |points| - d
  {
    if d == |points| then None
    else
      match AxisCheck(points[d], shape[d])
      case Some(fault) => Some(BadAxis(d, fault))
      case None => FirstBadAxis(points, shape, d + 1)
  }

  /**
   * The constructor: more axes than `values` has dimensions is refused first,
   * then the first axis that is not strictly ascending or does not match its
   * dimension of `values`; otherwise the grid, the values and the two bounds
   * settings are stored as given, and the result is a valid interpolator.
   */
  function New(points: seq<seq<real>>, values: NdArray, boundsError: bool, fillValue: Option<real>)
    : (r: Result<Interpolator, ConstructionError>)
    requires values.WellFormed()
    ensures r.Ok? <==>
      && |points| <= |values.shape|
      && forall d :: 0 <= d < |points| ==> Ascending(points[d]) && |points[d]| == values.shape[d]
    ensures r.Ok? ==> r.value == Interpolator(points, values, boundsError, fillValue) && r.value.Valid()
    ensures r == Error(TooManyAxes) <==> |points| > |values.shape|
    ensures r.Error? && r.error.BadAxis? ==>
      && r.error.axis < |points| <= |values.shape|
      && (r.error.fault == NotAscending <==> !Ascending(points[r.error.axis]))
      && (r.error.fault == LengthMismatch <==>
            Ascending(points[r.error.axis]) && |points[r.error.axis]| != values.shape[r.error.axis])
      && forall d :: 0 <= d < r.error.axis ==> Ascending(points[d]) && |points[d]| == values.shape[d]
  {
    if |points| > |values.shape| then Error(TooManyAxes)
    else
      match FirstBadAxis(points, values.shape, 0)
      case Some(e) =>
        assert AxisCheck(points[e.axis], values.shape[e.axis]) != None;
        Error(e)
      case None => Ok(Interpolator(points, values, boundsError, fillValue))
  }
}
