/** Dense N-dimensional arrays of reals, stored in row-major (C) order as NumPy stores `values`. */
module NdArrays {

  /** Number of elements of an array of the given shape. */
  function Product(dims: seq<nat>): nat
  {
    if |dims| == 0 then 1 else dims[0] * Product(dims[1..])
  }

  /** A values array: its shape and its elements in row-major order. */
  datatype NdArray = NdArray(shape: seq<nat>, data: seq<real>)
  {
    predicate WellFormed()
    {
      |data| == Product(shape)
    }
  }

  /** `idx` is an index tuple of an array of shape `dims`. */
  predicate InShape(dims: seq<nat>, idx: seq<nat>)
  {
    |idx| == |dims| && forall d :: 0 <= d < |idx| ==> idx[d] < dims[d]
  }

  lemma MulMonotone(a: nat, b: nat, c: nat)
    requires a <= b
    ensures a * c <= b * c
  {
  }

  /** a*p + r < b*p whenever a < b and r < p: one row-major digit more stays in range. */
  lemma MulStep(a: nat, b: nat, p: nat, r: nat)
    requires a < b && r < p
    ensures a * p + r < b * p
  {
    assert a * p + r < a * p + p == (a + 1) * p;
    MulMonotone(a + 1, b, p);
  }

  lemma {:induction false} ProductAppend(a: seq<nat>, b: seq<nat>)
    ensures Product(a + b) == Product(a) * Product(b)
    decreases |a|
  {
    if |a| == 0 {
      assert a + b == b;
    } else {
      assert (a + b)[1..] == a[1..] + b;
      ProductAppend(a[1..], b);
      calc {
        Product(a + b);
        a[0] * Product(a[1..] + b);
        a[0] * (Product(a[1..]) * Product(b));
        (a[0] * Product(a[1..])) * Product(b);
      }
    }
  }

  /** Position of the element `idx` in the row-major element order of an array of shape `dims`. */
  function RowMajor(dims: seq<nat>, idx: seq<nat>): (off: nat)
    requires InShape(dims, idx)
    ensures off < Product(dims)
  {
    if |idx| == 0 then 0
    else
      var rest := RowMajor(dims[1..], idx[1..]);
      MulStep(idx[0], dims[0], Product(dims[1..]), rest);
      idx[0] * Product(dims[1..]) + rest
  }

  /** Two index tuples of the same shape share a row-major position only if they are equal. */
  lemma {:induction false} RowMajorInjective(dims: seq<nat>, i: seq<nat>, k: seq<nat>)
    requires InShape(dims, i) && InShape(dims, k)
    requires RowMajor(dims, i) == RowMajor(dims, k)
    ensures i == k
    decreases |dims|
  {
    if |dims| > 0 {
      var p := Product(dims[1..]);
      var ri, rk := RowMajor(dims[1..], i[1..]), RowMajor(dims[1..], k[1..]);
      if i[0] < k[0] {
        MulStep(i[0], k[0], p, ri);
        assert false;
      } else if k[0] < i[0] {
        MulStep(k[0], i[0], p, rk);
        assert false;
      }
      RowMajorInjective(dims[1..], i[1..], k[1..]);
      assert i == [i[0]] + i[1..] && k == [k[0]] + k[1..];
    }
  }

  /**
   * `a[idx]` for an index tuple over the leading |idx| dimensions: the block of
   * trailing elements stored at that position, flattened in row-major order.
   */
  function Block(a: NdArray, idx: seq<nat>): (b: seq<real>)
    requires a.WellFormed() && |idx| <= |a.shape|
    requires InShape(a.shape[..|idx|], idx)
    ensures |b| == Product(a.shape[|idx|..])
  {
    var n := |idx|;
    var w := Product(a.shape[n..]);
    var off := RowMajor(a.shape[..n], idx);
    assert a.shape[..n] + a.shape[n..] == a.shape;
    ProductAppend(a.shape[..n], a.shape[n..]);
    MulMonotone(off + 1, Product(a.shape[..n]), w);
    a.data[off * w .. off * w + w]
  }
}
