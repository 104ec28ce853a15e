// The big-endian bitset of the wire format: bit 0 is the high bit of byte 0.
// Its bytes denote a set of indices below n.

module Bitsets {
  import opened Bytes

  function Mask(k: nat): byte
    requires k < 8
  {
    128 >> k
  }

  // The bits of a byte from position k on.
  function LowMask(k: nat): byte
    requires k < 8
  {
    255 >> k
  }

  function ByteCount(n: nat): nat { (n + 7) / 8 }

  predicate BitAt(bytes: seq<byte>, i: nat)
    requires i / 8 < |bytes|
  {
    bytes[i / 8] & Mask(i % 8) != 0
  }

  function Elements(bytes: seq<byte>, n: nat): (r: set<nat>)
    requires |bytes| == ByteCount(n)
    ensures forall i: nat :: i in r <==> i < n && BitAt(bytes, i)
  {
    set i: nat | i < n && BitAt(bytes, i)
  }

  ghost predicate SpareClear(bytes: seq<byte>, n: nat)
    requires |bytes| == ByteCount(n)
  {
    forall i: nat :: n <= i < 8 * |bytes| ==> !BitAt(bytes, i)
  }

  // ---- One byte ----

  lemma SetBit(x: byte, k: nat, j: nat)
    requires k < 8 && j < 8
    ensures (x | Mask(k)) & Mask(j) != 0 <==> x & Mask(j) != 0 || j == k
  {
  }

  lemma ClearBit(x: byte, k: nat, j: nat)
    requires k < 8 && j < 8
    ensures (x & !Mask(k)) & Mask(j) != 0 <==> x & Mask(j) != 0 && j != k
  {
  }

  lemma Masks()
    ensures Mask(0) == 128 && Mask(1) == 64 && Mask(2) == 32 && Mask(3) == 16
    ensures Mask(4) == 8 && Mask(5) == 4 && Mask(6) == 2 && Mask(7) == 1
  {
  }

  // The bits from k on are those of bit k and of the bits behind it.
  lemma {:induction false} LowBits(x: byte, k: nat)
    requires k < 8
    ensures x & LowMask(k) == 0 <==> TailClear(x, k)
    decreases 8 - k
  {
    if k < 7 {
      LowBits(x, k + 1);
      LowMaskSplits(x, k);
    }
  }

  lemma LowMaskSplits(x: byte, k: nat)
    requires k < 7
    ensures x & LowMask(k) == 0 <==> x & Mask(k) == 0 && x & LowMask(k + 1) == 0
  {
  }

  lemma SameByte(x: byte, y: byte)
    requires forall j :: 0 <= j < 8 ==> (x & Mask(j) != 0 <==> y & Mask(j) != 0)
    ensures x == y
  {
    Masks();
    assert x & Mask(0) != 0 <==> y & Mask(0) != 0;
    assert x & Mask(1) != 0 <==> y & Mask(1) != 0;
    assert x & Mask(2) != 0 <==> y & Mask(2) != 0;
    assert x & Mask(3) != 0 <==> y & Mask(3) != 0;
    assert x & Mask(4) != 0 <==> y & Mask(4) != 0;
    assert x & Mask(5) != 0 <==> y & Mask(5) != 0;
    assert x & Mask(6) != 0 <==> y & Mask(6) != 0;
    assert x & Mask(7) != 0 <==> y & Mask(7) != 0;
    SameEightBits(x, y);
  }

  lemma SameEightBits(x: byte, y: byte)
    requires x & 128 == y & 128 && x & 64 == y & 64 && x & 32 == y & 32 && x & 16 == y & 16
    requires x & 8 == y & 8 && x & 4 == y & 4 && x & 2 == y & 2 && x & 1 == y & 1
    ensures x == y
  {
  }

  // ---- Whole bitsets ----

  // Bytes with clear spare bits are determined by the set they denote.
  lemma SameSetSameBytes(a: seq<byte>, b: seq<byte>, n: nat)
    requires |a| == |b| == ByteCount(n) && SpareClear(a, n) && SpareClear(b, n)
    requires Elements(a, n) == Elements(b, n)
    ensures a == b
  {
    forall q | 0 <= q < |a| ensures a[q] == b[q] {
      forall j | 0 <= j < 8 ensures a[q] & Mask(j) != 0 <==> b[q] & Mask(j) != 0 {
        var i := 8 * q + j;
        assert i / 8 == q && i % 8 == j;
        assert BitAt(a, i) == (a[q] & Mask(j) != 0) && BitAt(b, i) == (b[q] & Mask(j) != 0);
        assert i in Elements(a, n) <==> i in Elements(b, n);
      }
      SameByte(a[q], b[q]);
    }
  }

  // The spare bits are all in the byte that holds bit n, behind bit n.
  lemma SpareBits(bytes: seq<byte>, n: nat)
    requires |bytes| == ByteCount(n)
    ensures SpareClear(bytes, n) <==> n % 8 == 0 || bytes[n / 8] & LowMask(n % 8) == 0
  {
    if n % 8 != 0 {
      LowBits(bytes[n / 8], n % 8);
      SpareAreLast(bytes, n);
    }
  }

  lemma SpareAreLast(bytes: seq<byte>, n: nat)
    requires |bytes| == ByteCount(n) && n % 8 != 0
    ensures SpareClear(bytes, n) <==> TailClear(bytes[n / 8], n % 8)
  {
    var q := n / 8;
    if SpareClear(bytes, n) {
      forall j | n % 8 <= j < 8 ensures bytes[q] & Mask(j) == 0 {
        BitOf(bytes, q, j);
        assert !BitAt(bytes, 8 * q + j);
      }
    }
    if TailClear(bytes[q], n % 8) {
      forall i: nat | n <= i < 8 * |bytes| ensures !BitAt(bytes, i) {
        SpareBit(bytes, n, i);
      }
    }
  }

  lemma SpareBit(bytes: seq<byte>, n: nat, i: nat)
    requires |bytes| == ByteCount(n) && n % 8 != 0 && n <= i < 8 * |bytes| && TailClear(bytes[n / 8], n % 8)
    ensures !BitAt(bytes, i)
  {
    var j := i - 8 * (n / 8);
    BitOf(bytes, n / 8, j);
    assert i == 8 * (n / 8) + j;
  }

  predicate TailClear(x: byte, k: nat) {
    forall j :: k <= j < 8 ==> x & Mask(j) == 0
  }

  lemma BitOf(bytes: seq<byte>, q: nat, j: nat)
    requires q < |bytes| && j < 8
    ensures BitAt(bytes, 8 * q + j) == (bytes[q] & Mask(j) != 0)
  {
    assert (8 * q + j) / 8 == q && (8 * q + j) % 8 == j;
  }

  // Adding one bit to the bytes adds one index to the set, and removing one
  // removes it.
  lemma SetAt(bytes: seq<byte>, index: nat, n: nat)
    requires |bytes| == ByteCount(n) && index < n
    ensures var bytes' := bytes[index / 8 := bytes[index / 8] | Mask(index % 8)];
      && Elements(bytes', n) == Elements(bytes, n) + {index}
      && (SpareClear(bytes, n) ==> SpareClear(bytes', n))
  {
    var bytes' := bytes[index / 8 := bytes[index / 8] | Mask(index % 8)];
    forall i: nat | i < 8 * |bytes| ensures BitAt(bytes', i) <==> BitAt(bytes, i) || i == index {
      if i / 8 == index / 8 { SetBit(bytes[i / 8], index % 8, i % 8); }
    }
  }

  lemma ClearAt(bytes: seq<byte>, index: nat, n: nat)
    requires |bytes| == ByteCount(n) && index < n
    ensures var bytes' := bytes[index / 8 := bytes[index / 8] & !Mask(index % 8)];
      && Elements(bytes', n) == Elements(bytes, n) - {index}
      && (SpareClear(bytes, n) ==> SpareClear(bytes', n))
  {
    var bytes' := bytes[index / 8 := bytes[index / 8] & !Mask(index % 8)];
    forall i: nat | i < 8 * |bytes| ensures BitAt(bytes', i) <==> BitAt(bytes, i) && i != index {
      if i / 8 == index / 8 { ClearBit(bytes[i / 8], index % 8, i % 8); }
    }
  }

  ghost function ZeroBytes(n: nat): (bytes: seq<byte>)
    ensures |bytes| == ByteCount(n) && SpareClear(bytes, n) && Elements(bytes, n) == {}
  {
    var bytes := seq(ByteCount(n), _ => 0 as byte);
    assert forall i: nat :: i < 8 * |bytes| ==> !BitAt(bytes, i);
    bytes
  }

  // The bytes that a bitset of n bits has after the indices in s were set.
  ghost function Encode(s: set<nat>, n: nat): (bytes: seq<byte>)
    requires forall i :: i in s ==> i < n
    ensures |bytes| == ByteCount(n) && SpareClear(bytes, n) && Elements(bytes, n) == s
  {
    if s == {} then
      ZeroBytes(n)
    else
      var index :| index in s;
      var bytes := Encode(s - {index}, n);
      SetAt(bytes, index, n);
      bytes[index / 8 := bytes[index / 8] | Mask(index % 8)]
  }

  class Bitset {
    const b: array<byte>
    const n: nat
    const endIndex: int
    const endMask: byte

    ghost predicate Valid()
      reads b
    {
      && b.Length == ByteCount(n)
      && endIndex == (if n % 8 == 0 then -1 else n / 8)
      && endMask == !LowMask(n % 8)
      && SpareClear(b[..], n)
    }

    ghost function Contents(): set<nat>
      requires Valid()
      reads b
    {
      Elements(b[..], n)
    }

    constructor (n: nat)
      ensures Valid() && fresh(b) && this.n == n && Contents() == {}
    {
      this.n := n;
      b := new byte[ByteCount(n)](_ => 0);
      endIndex := if n % 8 == 0 then -1 else n / 8;
      endMask := !LowMask(n % 8);
      new;
      assert forall i: nat :: i < 8 * |b[..]| ==> !BitAt(b[..], i);
    }

    // An index from n on is only logged; the code indexes the bytes all the
    // same and dies when there is no such byte.
    method Set(index: nat)
      requires Valid() && index / 8 < b.Length
      modifies b
      ensures b[..] == old(b[..])[index / 8 := old(b[..])[index / 8] | Mask(index % 8)]
      ensures index < n ==> Valid() && Contents() == old(Contents()) + {index}
    {
      if index < n { SetAt(b[..], index, n); }
      b[index / 8] := b[index / 8] | (128 >> (index % 8));
    }

    method Clear(index: nat)
      requires Valid() && index / 8 < b.Length
      modifies b
      ensures b[..] == old(b[..])[index / 8 := old(b[..])[index / 8] & !Mask(index % 8)]
      ensures index < n ==> Valid() && Contents() == old(Contents()) - {index}
    {
      if index < n { ClearAt(b[..], index, n); }
      b[index / 8] := b[index / 8] & !(128 >> (index % 8));
    }

    method IsSet(index: nat) returns (r: bool)
      requires Valid() && index / 8 < b.Length
      ensures r <==> index in Contents()
    {
      r := b[index / 8] & (128 >> (index % 8)) != 0;
      assert r == BitAt(b[..], index);
    }

    method FindNextSet(index: nat) returns (r: int)
      requires Valid()
      ensures r == -1 ==> forall i :: i in Contents() ==> i < index
      ensures r != -1 ==> index <= r && r in Contents() && forall i :: i in Contents() && index <= i ==> r <= i
    {
      var i := index;
      while i < n
        invariant index <= i
        invariant forall j :: j in Contents() && index <= j ==> i <= j
      {
        var isSet := IsSet(i);
        if isSet { return i; }
        i := i + 1;
      }
      return -1;
    }

    method FindNextClear(index: nat) returns (r: int)
      requires Valid()
      ensures r == -1 ==> forall i: nat :: index <= i < n ==> i in Contents()
      ensures r != -1 ==> index <= r < n && r !in Contents() && forall i: nat :: index <= i < r ==> i in Contents()
    {
      var i := index;
      while i < n
        invariant index <= i
        invariant forall j: nat :: index <= j < i && j < n ==> j in Contents()
      {
        var isSet := IsSet(i);
        if !isSet { return i; }
        i := i + 1;
      }
      return -1;
    }
  }

  // Rejects exactly the data of the wrong length and the data with a spare bit
  // set; anything else denotes its own set.
  method NewBitsetFromBytes(n: nat, data: seq<byte>) returns (r: Bitset?)
    ensures r == null <==> |data| != ByteCount(n) || !SpareClear(data, n)
    ensures r != null ==> fresh(r) && fresh(r.b) && r.Valid() && r.n == n && r.b[..] == data && r.Contents() == Elements(data, n)
  {
    var bitset := new Bitset(n);
    if bitset.b.Length != |data| {
      return null;
    }
    forall i | 0 <= i < |data| { bitset.b[i] := data[i]; }
    assert bitset.b[..] == data;
    SpareBits(data, n);
    assert !!LowMask(n % 8) == LowMask(n % 8);
    if bitset.endIndex >= 0 && bitset.b[bitset.endIndex] & !bitset.endMask != 0 {
      return null;
    }
    return bitset;
  }

  // Sending the bytes of a bitset and reading them back gives the same set.
  method RoundTrip(b: Bitset) returns (r: Bitset?)
    requires b.Valid()
    ensures r != null && r.Valid() && r.n == b.n && r.Contents() == b.Contents()
  {
    r := NewBitsetFromBytes(b.n, b.b[..]);
  }
}
