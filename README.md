# Regular-grid multilinear interpolation

This project models pfsspy's `RegularGridInterpolator` (`pfsspy/interpolator.py`),
and proves properties of the model. The interpolator samples a dense array of
values given on a rectangular grid in N dimensions. Each axis is a strictly
ascending list of reals. The array may have trailing dimensions past the N
grid dimensions, and these are carried through unchanged. The model covers
four operations:

- Construction (`__init__`). The number of axes, each axis's order and each
  axis's length against `values` are checked. The grid, the values and the
  bounds settings are then stored (module `Construction`).
- Index location (`_find_indices`). For each query point and each axis, a
  left-sided sorted search finds the cell. The cell index is clamped into
  `[0, size - 2]`, and the normalised distance from the cell's low edge is
  computed. A point is flagged as out of bounds when out-of-range queries do
  not raise (modules `Axis` and `Location`).
- Corner blending (`_evaluate_linear`). The loop runs over the 2^N corners of
  each point's cell, in `itertools.product` order. Each corner's weight is
  built axis by axis as a product of `1 - t` and `t` factors. The corner's
  values, times that weight, are added into the running result.
  - Module `Evaluation` holds the loop.
  - `Corners`, `CornerWeights`, `DotProducts` and `Multilinear` hold the
    corner numbering and the algebra of the weights.
  - `NdArrays` holds the row-major value array.
- The call (`__call__`) applies the rules below in order (module `Calling`):
  1. A query of the wrong dimension is refused.
  2. When `bounds_error` is set, any point outside the domain raises, and
     the first offending axis is reported.
  3. Otherwise every point is interpolated. When a fill value is set, the
     rows of flagged points are overwritten with it.

The three bounds policies are these:
- **raise**: `bounds_error` is true.
- **fill**: `bounds_error` is false and a fill value is set.
- **extrapolate**: `bounds_error` is false and the fill value is `None`.

Real numbers stand for floating-point values. Each query point's result is the
row of `Product(shape[N..])` trailing values, in row-major order.

The out-of-bounds flags of `_find_indices` are collected whenever
`bounds_error` is false (`pfsspy/interpolator.py:185-187`). This includes the
extrapolate policy, where the flags go unused. Under the raise policy they
are never collected, and the separate check in `__call__` applies.
`Location.FindIndices` states exactly this.

## Model

| member | source | states |
|---|---|---|
| Construction.AxisCheck | pfsspy/interpolator.py:108-117 | An axis is accepted exactly when it is strictly ascending and its length equals its dimension of `values`. The order fault is reported whenever the axis is not ascending, so the order check comes before the length check. |
| Construction.FirstBadAxis | pfsspy/interpolator.py:108-117 | The axis loop reports no fault exactly when every axis from d on is accepted. Otherwise it reports the first refused axis and that axis's fault, and every earlier axis is accepted. |
| Construction.New | pfsspy/interpolator.py:83-119 | Construction succeeds exactly when there are no more axes than dimensions of `values` and every axis is strictly ascending with the matching length. On success it stores the given grid, values and settings, and the result is a valid interpolator. The too-many-axes error comes exactly when there are more axes than dimensions. An axis error names the first refused axis, with the order fault taking precedence over the length fault. |
| Axis.SearchSorted | pfsspy/interpolator.py:179 | The binary search returns the insertion point of `searchsorted` with side='left'. Every point before it is below x, no point from it on is below x, and it equals the number of points below x. |
| Axis.CountBelowSplits | pfsspy/interpolator.py:179 | On an ascending axis, the number of points below x splits the axis: every point before it is below x and every point from it on is at or above x. |
| Axis.CellBracket | pfsspy/interpolator.py:179-181 | The clamped cell is 0 at or below the first point and the last cell above the last point. In between, the cell's low edge is strictly below x and its high edge is at or above x. |
| Axis.NormRange | pfsspy/interpolator.py:179-184 | In the axis range the normalised distance lies in [0, 1]. Below the first point it is negative, and above the last point it exceeds 1. |
| Axis.CellAtNode | pfsspy/interpolator.py:179-184 | At the first node, the cell is 0 and the distance is 0. At any later node k, the cell is k - 1 and the distance is 1. |
| Axis.Locate | pfsspy/interpolator.py:179-184 | The index lies in [0, size - 2] and satisfies the bracket facts of `CellBracket`. The distance times the cell width equals x minus the cell's low edge. The result is the cell and distance the specification functions define. |
| Location.DistsInDomain | pfsspy/interpolator.py:179-184 | For a point inside the domain, every per-axis distance lies in [0, 1]. |
| Location.FindIndices | pfsspy/interpolator.py:170-189 | Row d of the indices and distances is every point's cell and distance on axis d. A point's flag is set exactly when `bounds_error` is false and some coordinate lies outside its axis, so it is never set when `bounds_error` is true. |
| Location.LocateAxis | pfsspy/interpolator.py:178-187 | One pass of the axis loop appends axis d's cells and distances to the rows, so the rows cover the axes up to and including d. It extends each flag from the axes before d to the axes up to and including d. |
| Location.FlagAxis | pfsspy/interpolator.py:185-187 | The two in-place OR updates set a point's flag exactly when it was set before or the coordinate lies below the first or above the last point of the axis. |
| Location.LocateAll | pfsspy/interpolator.py:178-184 | Every coordinate of one axis gets the cell and distance of `Axis.Locate`. |
| Location.OutsideBeforeNext | pfsspy/interpolator.py:185-187 | Some coordinate before axis d + 1 is outside exactly when some coordinate before axis d is outside or the coordinate on axis d is. |
| Corners.BitsNumber | pfsspy/interpolator.py:161 | Numbering the corners in `itertools.product` order reaches every choice of low and high edges. |
| Corners.NumberBits | pfsspy/interpolator.py:161 | No two corner numbers share their edge choices. |
| Corners.VertexBits | pfsspy/interpolator.py:161-166 | When every distance is 0 or 1, the corner they select takes the high edge exactly on the axes at distance 1. |
| CornerWeights.CornerWeight | pfsspy/interpolator.py:163-166 | The weight loop, run from axis 0 with a running weight of 1, computes the product of the corner's factors: `1 - t` on a low edge and `t` on a high edge. |
| CornerWeights.WeightOfRange | pfsspy/interpolator.py:163-166 | When every distance is in [0, 1], every corner weight is in [0, 1]. |
| DotProducts.DotSplit | pfsspy/interpolator.py:167 | The weighted sum over all corners is the sum over the first part plus the sum over the rest. |
| DotProducts.DotScaled | pfsspy/interpolator.py:163-167 | Scaling every weight by k scales the weighted sum by k. |
| DotProducts.WeightedSumStep | pfsspy/interpolator.py:167 | Adding corner c's values times its weight to the sum over the first c corners gives the sum over the first c + 1 corners. |
| Multilinear.WeightsLowFace | pfsspy/interpolator.py:161-166 | The weights of the corners on the low face of axis 0 are the weights of the remaining axes, scaled by `1 - t[0]`. |
| Multilinear.WeightsHighFace | pfsspy/interpolator.py:161-166 | The weights of the corners on the high face of axis 0 are the weights of the remaining axes, scaled by `t[0]`. |
| Multilinear.BlendFirstAxis | pfsspy/interpolator.py:161-167 | Blending over N axes is the `1 - t[0]` blend of the low face plus the `t[0]` blend of the high face, each over the remaining axes. |
| Multilinear.BlendConstant | pfsspy/interpolator.py:161-167 | Blending corners that all hold the same value returns that value, whatever the distances. |
| Multilinear.WeightsSumToOne | pfsspy/interpolator.py:161-166 | The 2^N corner weights sum to 1. |
| Multilinear.BlendBounded | pfsspy/interpolator.py:161-167 | With every distance in [0, 1], the blend lies within any bounds that all corner values respect. |
| Multilinear.BlendAtVertex | pfsspy/interpolator.py:161-167 | When every distance is 0 or 1, the blend is exactly the value at the corner those distances select. |
| Evaluation.PartialSumPrefix | pfsspy/interpolator.py:160-167 | The running result after c corners is the weighted sum of the first c corners' values. |
| Evaluation.PartialSumComplete | pfsspy/interpolator.py:160-168 | After all 2^N corners, the running result is the interpolant. |
| Evaluation.AddCornerAt | pfsspy/interpolator.py:162-167 | One corner's step for one point extends the running result from c corners to c + 1 corners. |
| Evaluation.AddCorner | pfsspy/interpolator.py:162-167 | One pass of the corner loop advances every point's running result by one corner. |
| Evaluation.EvaluateLinear | pfsspy/interpolator.py:155-168 | The corner loop returns a fresh array of one row per point. Every point's indices form a cell of the grid, and each row is the interpolant of that cell at that point's distances. |
| Evaluation.InterpolantComponent | pfsspy/interpolator.py:157-167 | Each trailing component of the interpolant is the multilinear blend of that component of the corner values. |
| Evaluation.InterpolantAtVertex | pfsspy/interpolator.py:161-167 | When every distance is 0 or 1, the interpolant is the value stored at the selected corner. |
| Evaluation.LocatedAtNode | pfsspy/interpolator.py:179-184 | At a grid node, each axis gives cell 0 and distance 0 for the first point, and otherwise the previous cell and distance 1. |
| Evaluation.VertexAtNode | pfsspy/interpolator.py:161-184 | At a grid node every distance is 0 or 1, and the corner they select is the node itself. |
| Evaluation.ExactAtNode | pfsspy/interpolator.py:155-189 | The interpolant at a grid node is exactly the values stored at that node. |
| Evaluation.LinearBounded | pfsspy/interpolator.py:155-189 | For a point inside the domain, each component of the result lies between any bounds that component of every cell corner respects, in particular between their minimum and maximum. |
| Calling.Policy | pfsspy/interpolator.py:139-151 | The policy is raise exactly when `bounds_error` is set. It is fill exactly when `bounds_error` is not set and a fill value is given, and it then fills with that value. |
| Calling.FirstAxisOutside | pfsspy/interpolator.py:139-144 | There is no offending axis from d on exactly when no point lies outside any axis from d on. Otherwise the result is the first axis with a point outside it. |
| Calling.SomeAxisOutside | pfsspy/interpolator.py:139-144 | Some axis has a point outside it exactly when some point lies outside the domain. |
| Calling.Evaluate | pfsspy/interpolator.py:121-153 | A call fails with the wrong-dimension error exactly when the query's dimension differs from the grid's. It fails exactly when the dimension is wrong, or under the raise policy some point lies outside the domain. A bounds error names an axis with a point outside it, with no point outside any earlier axis. A successful call returns one row of the full trailing width per point. |
| Calling.RaiseGivesInterpolants | pfsspy/interpolator.py:139-149 | Under the raise policy a call succeeds exactly when every point is inside the domain, and then every row is the point's interpolant. |
| Calling.FillReplacesOutside | pfsspy/interpolator.py:146-151 | Under the fill policy a call of the right dimension never fails. Points outside the domain get the fill row, and points inside get their interpolant. |
| Calling.ExtrapolateEverywhere | pfsspy/interpolator.py:146-151 | Under the extrapolate policy a call of the right dimension never fails, and every point, inside or outside, gets its interpolant. |
| Calling.PoliciesAgreeInDomain | pfsspy/interpolator.py:139-151 | Whatever the policy, a query whose points are all inside the domain succeeds with the interpolants of its points. |
| Calling.NodeInDomain | pfsspy/interpolator.py:139-144 | Every grid node lies inside the domain, so no bounds check refuses it and no flag is set for it. |
| Calling.CallAtNode | pfsspy/interpolator.py:121-189 | A call whose one query point is a grid node succeeds under every bounds policy and returns exactly the values stored at that node. |
| Calling.CheckBounds | pfsspy/interpolator.py:139-144 | The bounds check returns the first axis on which some point lies outside. |
| Calling.AllWithin | pfsspy/interpolator.py:141-142 | The check answers true exactly when every coordinate lies within the axis's first and last points. |
| Calling.FillFlagged | pfsspy/interpolator.py:150-151 | Every flagged row becomes the fill row and every other row is kept. |
| Calling.ColumnsLocate | pfsspy/interpolator.py:146-149 | The per-axis lists returned by `_find_indices` give every point a cell of the grid, and exactly the cell and distances of its interpolant. |
| Calling.Call | pfsspy/interpolator.py:121-153 | The call returns exactly `Evaluate`: the dimension check, then the bounds check under the raise policy, then location, blending and the fill overwrite. |
| NdArrays.RowMajorInjective | pfsspy/interpolator.py:167 | Distinct index tuples of `values` address distinct row-major positions, so every grid node has its own block of stored values. |
| Evaluation.CornersReadDistinctBlocks | pfsspy/interpolator.py:161-167 | Distinct corners of a cell index distinct row-major positions of `values`, so each of the 2^N terms reads its own block of stored values. |

## Left out

- dtype handling is not modelled (`pfsspy/interpolator.py:95-106`). This covers the conversion of integer values to float and the check that the fill value can be cast to the values' dtype. All values here are reals, so the cast check cannot fail.
- Non-array inputs are not modelled: `np.asarray` on `values` and `_ndim_coords_from_arrays` on the query (`pfsspy/interpolator.py:87-89`, `:130`). The model takes the array and the query already in array form.
- Reshaping and broadcasting are not modelled (`pfsspy/interpolator.py:136-137`, `:153`, `:157`). The query is taken as a flat list of points, and each point's result is the flat row of its trailing values. `_ndim_coords_from_arrays` is not part of this model.
- The check that every axis is one-dimensional (`pfsspy/interpolator.py:112-114`) is left out: an axis is a sequence of reals by its type.
- Interpolation is modelled only for grids with at least one axis and at least two points on every axis (`Interpolator.Evaluable`). The code fails with zero axes, and a one-point axis divides by a zero cell width, giving non-finite values.
- Floating-point rounding, NaN and infinities are not modelled; reals stand for floats. In particular, a NaN coordinate fails every comparison in the source, and the default `fill_value` of NaN becomes an arbitrary real fill value.
- The `out_of_bounds` argument of `_evaluate_linear` is not modelled, because the code never uses it.
- The error messages' text is not modelled; only which error is raised and the axis it names.
