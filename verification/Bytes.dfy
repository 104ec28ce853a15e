// Byte strings: the zero-padded window that a read returns, the splice that a
// write leaves behind, and the big-endian 32-bit integers of the wire format.

module Arith {

  lemma DivUnique(x: int, d: int, q: int)
    requires d > 0 && q * d <= x < q * d + d
    ensures x / d == q && x % d == x - q * d
  {
    DivBounds(x, d);
    if q < x / d {
      MulLe(q + 1, x / d, d);
    } else if x / d < q {
      MulLe(x / d + 1, q, d);
    }
  }

  lemma MulLe(a: int, b: int, d: int)
    requires a <= b && d >= 0
    ensures a * d <= b * d
  {
    assert (b - a) * d >= 0;
    assert b * d - a * d == (b - a) * d;
  }

  lemma DivBounds(x: int, d: int)
    requires d > 0
    ensures (x / d) * d <= x < (x / d) * d + d
    ensures x % d == x - (x / d) * d
  {
    assert x == d * (x / d) + x % d;
  }
}

module Options {
  datatype Option<+T> = None | Some(value: T)
}

module Bytes {
  type byte = bv8

  // What reading len bytes at off returns from a store that holds content:
  // past the end of the store there are zeros.
  function Window(content: seq<byte>, off: nat, len: nat): (r: seq<byte>)
    ensures |r| == len
    ensures forall i :: 0 <= i < len ==> r[i] == if off + i < |content| then content[off + i] else 0
  {
    seq(len, i requires 0 <= i < len => if off + i < |content| then content[off + i] else 0)
  }

  // What a store that held content holds after p was written at off: the part
  // of p past the end of the store is lost.
  function Splice(content: seq<byte>, off: nat, p: seq<byte>): (r: seq<byte>)
    ensures |r| == |content|
    ensures forall x :: 0 <= x < |content| ==>
      r[x] == if off <= x < off + |p| then p[x - off] else content[x]
  {
    seq(|content|, x requires 0 <= x < |content| => if off <= x < off + |p| then p[x - off] else content[x])
  }

  // How many of the length bytes at off lie within size bytes.
  function InFile(size: nat, off: nat, length: nat): nat {
    if off + length <= size then length else if off < size then size - off else 0
  }

  predicate AllZero(p: seq<byte>) {
    forall i :: 0 <= i < |p| ==> p[i] == 0
  }

  // Writing p and then q right behind it is one write of p + q.
  lemma SpliceThenSplice(content: seq<byte>, off: nat, p: seq<byte>, q: seq<byte>)
    ensures Splice(Splice(content, off, p), off + |p|, q) == Splice(content, off, p + q)
  {
  }

  lemma SpliceNothing(content: seq<byte>, off: nat)
    ensures Splice(content, off, []) == content
  {
  }

  // A write leaves every window that it does not meet as it was.
  lemma WindowApart(content: seq<byte>, off: nat, p: seq<byte>, at: nat, len: nat)
    requires at + len <= off || off + |p| <= at
    ensures Window(Splice(content, off, p), at, len) == Window(content, at, len)
  {
  }
}
