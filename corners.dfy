/**
 * The 2^N corners of a grid cell: their numbering, edge choices and index tuples.
 *
 * Corners are numbered 0 .. 2^N - 1 in the order `itertools.product` lists
 * the low/high edge choices: axis 0 is the most significant bit, so the last
 * axis varies fastest, and a set bit picks the high edge `i + 1`.
 */
module Corners {

  function Pow2(n: nat): (r: nat)
    ensures r >= 1
  {
    if n == 0 then 1 else 2 * Pow2(n - 1)
  }

  /** The edge choices of corner c on n axes, axis 0 first: true picks the high edge. */
  function Bits(c: nat, n: nat): (b: seq<bool>)
    requires c < Pow2(n)
    ensures |b| == n
  {
    if n == 0 then []
    else
      var h := Pow2(n - 1);
      if c < h then [false] + Bits(c, n - 1) else [true] + Bits(c - h, n - 1)
  }

  /** The number of a corner from its edge choices: the inverse of Bits. */
  function Number(b: seq<bool>): (c: nat)
    ensures c < Pow2(|b|)
  {
    if |b| == 0 then 0 else (if b[0] then Pow2(|b| - 1) else 0) + Number(b[1..])
  }

  /** Numbering the corners enumerates every edge choice exactly once. */
  lemma {:induction false} BitsNumber(b: seq<bool>)
    ensures Bits(Number(b), |b|) == b
  {
    if |b| > 0 {
      BitsNumber(b[1..]);
      assert b == [b[0]] + b[1..];
    }
  }

  lemma {:induction false} NumberBits(c: nat, n: nat)
    requires c < Pow2(n)
    ensures Number(Bits(c, n)) == c
  {
    if n > 0 {
      var h := Pow2(n - 1);
      NumberBits(if c < h then c else c - h, n - 1);
      assert Bits(c, n)[1..] == Bits(if c < h then c else c - h, n - 1);
    }
  }

  /** Index tuple of the corner with edge choices b of the cell whose low corner is lo. */
  function Corner(lo: seq<nat>, b: seq<bool>): (r: seq<nat>)
    requires |b| == |lo|
    ensures |r| == |lo|
  {
    seq(|lo|, d requires 0 <= d < |lo| => if b[d] then lo[d] + 1 else lo[d])
  }

  /** The corner selected by distances that are each exactly 0 (low edge) or 1 (high edge). */
  function Vertex(t: seq<real>): (c: nat)
    ensures c < Pow2(|t|)
  {
    if |t| == 0 then 0
    else (if t[0] == 1.0 then Pow2(|t| - 1) else 0) + Vertex(t[1..])
  }

  /** The vertex picked by 0/1 distances takes the high edge exactly on the axes at distance 1. */
  lemma {:induction false} VertexBits(t: seq<real>)
    ensures Bits(Vertex(t), |t|) == seq(|t|, d requires 0 <= d < |t| => t[d] == 1.0)
    decreases |t|
  {
    if |t| > 0 {
      VertexBits(t[1..]);
    }
  }
}
