// The write-back cache: reading what is resident, writing into boxes, and
// trimming what is over the capacity.

module RamCaches {
  import opened Options
  import opened Arith
  import opened Bytes
  import opened Boxes
  import opened Evictions

  // A part p[lo..hi] of a caller's buffer that the cache could not fill.
  datatype Range = Range(lo: int, hi: int)

  ghost predicate InRanges(unf: seq<Range>, x: int) {
    exists k :: 0 <= k < |unf| && unf[k].lo <= x < unf[k].hi
  }

  // Non-empty, disjoint, increasing ranges below i.
  ghost predicate Increasing(unf: seq<Range>, i: int) {
    && (forall k :: 0 <= k < |unf| ==> 0 <= unf[k].lo < unf[k].hi <= i)
    && (forall j, k :: 0 <= j < k < |unf| ==> unf[j].hi <= unf[k].lo)
  }

  // Byte x of a read at off is cached, and what it is.
  ghost predicate Hit(boxes: seq<Box>, pieceSize: nat, off: nat, x: nat)
    requires pieceSize > 0
  {
    Cached(boxes, pieceSize, off + x)
  }

  ghost function HitByte(boxes: seq<Box>, pieceSize: nat, off: nat, x: nat): byte
    requires AllOk(boxes, pieceSize) && Hit(boxes, pieceSize, off, x)
  {
    CachedByte(boxes, pieceSize, off + x)
  }

  // Two ranges that touch are one, unless the second starts a resident box.
  ghost predicate Merged(boxes: seq<Box>, pieceSize: nat, off: nat, unf: seq<Range>)
    requires pieceSize > 0
  {
    forall k :: 0 < k < |unf| && unf[k - 1].hi == unf[k].lo ==> StartsResident(boxes, pieceSize, off + unf[k].lo)
  }

  ghost predicate StartsResident(boxes: seq<Box>, pieceSize: nat, x: int)
    requires pieceSize > 0
  {
    x % pieceSize == 0 && 0 <= x / pieceSize < |boxes| && boxes[x / pieceSize].data.Some?
  }

  // The ranges below i are exactly the positions that are not cached.
  ghost predicate MissesBelow(boxes: seq<Box>, pieceSize: nat, off: nat, i: nat, unf: seq<Range>)
    requires pieceSize > 0
  {
    && Increasing(unf, i) && Merged(boxes, pieceSize, off, unf)
    && forall x: nat :: x < i ==> (InRanges(unf, x) <==> !Hit(boxes, pieceSize, off, x))
  }

  // The first i bytes of the buffer have been served: the cached ones are
  // filled in, everything else is as it was.
  ghost predicate FilledBelow(boxes: seq<Box>, pieceSize: nat, off: nat, p: seq<byte>, before: seq<byte>, i: nat)
    requires AllOk(boxes, pieceSize)
  {
    && |p| == |before| && i <= |p|
    && (forall x: nat :: x < i && Hit(boxes, pieceSize, off, x) ==> p[x] == HitByte(boxes, pieceSize, off, x))
    && (forall x: nat :: x < i && !Hit(boxes, pieceSize, off, x) ==> p[x] == before[x])
    && (forall x :: i <= x < |p| ==> p[x] == before[x])
  }

  lemma AddRange(unf: seq<Range>, i: int, hi: int)
    requires Increasing(unf, i) && 0 <= i < hi
    ensures Increasing(unf + [Range(i, hi)], hi)
    ensures forall x :: InRanges(unf + [Range(i, hi)], x) <==> InRanges(unf, x) || i <= x < hi
  {
    var unf' := unf + [Range(i, hi)];
    forall x ensures InRanges(unf', x) <==> InRanges(unf, x) || i <= x < hi {
      if InRanges(unf, x) {
        var k :| 0 <= k < |unf| && unf[k].lo <= x < unf[k].hi;
        assert unf'[k] == unf[k];
      }
      if i <= x < hi { assert unf'[|unf|].lo <= x < unf'[|unf|].hi; }
    }
  }

  // A range that ends where the next one starts is extended instead.
  lemma ExtendRange(unf: seq<Range>, i: int, hi: int)
    requires Increasing(unf, i) && unf != [] && unf[|unf| - 1].hi == i < hi
    ensures Increasing(unf[..|unf| - 1] + [Range(unf[|unf| - 1].lo, hi)], hi)
    ensures forall x :: InRanges(unf[..|unf| - 1] + [Range(unf[|unf| - 1].lo, hi)], x) <==> InRanges(unf, x) || i <= x < hi
  {
    var last := unf[|unf| - 1];
    var init := unf[..|unf| - 1];
    AddRange(init, last.lo, hi);
    AddRange(init, last.lo, i);
    assert unf == init + [last];
  }

  // A missing range [i, hi) joined to the last one when that ends at i.
  function Joined(unf: seq<Range>, i: int, hi: int): seq<Range> {
    if unf != [] && unf[|unf| - 1].hi == i then unf[..|unf| - 1] + [Range(unf[|unf| - 1].lo, hi)]
    else unf + [Range(i, hi)]
  }

  lemma MissMore(boxes: seq<Box>, pieceSize: nat, off: nat, i: nat, hi: nat, unf: seq<Range>)
    requires pieceSize > 0 && MissesBelow(boxes, pieceSize, off, i, unf) && i < hi
    requires forall x: nat :: i <= x < hi ==> !Hit(boxes, pieceSize, off, x)
    ensures MissesBelow(boxes, pieceSize, off, hi, Joined(unf, i, hi))
  {
    if unf != [] && unf[|unf| - 1].hi == i { ExtendRange(unf, i, hi); } else { AddRange(unf, i, hi); }
    JoinedMerged(boxes, pieceSize, off, unf, i, hi);
  }

  lemma JoinedMerged(boxes: seq<Box>, pieceSize: nat, off: nat, unf: seq<Range>, i: nat, hi: nat)
    requires pieceSize > 0 && Merged(boxes, pieceSize, off, unf)
    ensures Merged(boxes, pieceSize, off, Joined(unf, i, hi))
  {
    var joined := Joined(unf, i, hi);
    forall k | 0 < k < |joined| && joined[k - 1].hi == joined[k].lo
      ensures StartsResident(boxes, pieceSize, off + joined[k].lo)
    {
      assert joined[k - 1] == unf[k - 1];
      assert k < |unf| && joined[k].lo == unf[k].lo;
    }
  }

  // Ranges that start behind those before them.
  lemma ConcatRanges(unf: seq<Range>, more: seq<Range>, i: int, hi: int)
    requires Increasing(unf, i) && Increasing(more, hi) && 0 <= i <= hi && forall k :: 0 <= k < |more| ==> i <= more[k].lo
    ensures Increasing(unf + more, hi)
    ensures forall x :: InRanges(unf + more, x) <==> InRanges(unf, x) || InRanges(more, x)
  {
    var all := unf + more;
    forall x ensures InRanges(all, x) <==> InRanges(unf, x) || InRanges(more, x) {
      if InRanges(unf, x) {
        var k :| 0 <= k < |unf| && unf[k].lo <= x < unf[k].hi;
        assert all[k] == unf[k];
      }
      if InRanges(more, x) {
        var k :| 0 <= k < |more| && more[k].lo <= x < more[k].hi;
        assert all[|unf| + k] == more[k];
      }
    }
  }

  // Extending the ranges of [lo, i) by one missing position.
  lemma MissOne(more: seq<Range>, lo: int, i: int, joined: seq<Range>)
    requires Increasing(more, i) && 0 <= lo <= i && forall k :: 0 <= k < |more| ==> lo <= more[k].lo
    requires joined == Joined(more, i, i + 1)
    ensures Increasing(joined, i + 1) && forall k :: 0 <= k < |joined| ==> lo <= joined[k].lo
    ensures forall x :: InRanges(joined, x) <==> InRanges(more, x) || x == i
  {
    if more != [] && more[|more| - 1].hi == i {
      ExtendRange(more, i, i + 1);
    } else {
      AddRange(more, i, i + 1);
      assert forall k :: 0 <= k < |more| ==> joined[k] == more[k];
    }
  }

  // The gaps of a resident box behind the ranges before it.
  lemma MergedConcat(boxes: seq<Box>, pieceSize: nat, off: nat, unf: seq<Range>, more: seq<Range>, i: nat, boxI: nat)
    requires pieceSize > 0 && Merged(boxes, pieceSize, off, unf) && Increasing(unf, i)
    requires forall k :: 0 <= k < |more| ==> i <= more[k].lo
    requires forall k :: 0 < k < |more| ==> more[k - 1].hi < more[k].lo
    requires i > 0 ==> off + i == boxI * pieceSize
    requires boxI < |boxes| && boxes[boxI].data.Some?
    ensures Merged(boxes, pieceSize, off, unf + more)
  {
    var all := unf + more;
    forall k | |unf| < k < |all| ensures all[k - 1].hi < all[k].lo {
      assert all[k - 1] == more[k - 1 - |unf|] && all[k] == more[k - |unf|];
    }
    forall k | 0 < k <= |unf| && k < |all| && all[k - 1].hi == all[k].lo
      ensures StartsResident(boxes, pieceSize, off + all[k].lo)
    {
      if k < |unf| {
        assert all[k - 1] == unf[k - 1] && all[k] == unf[k];
      } else {
        assert all[k - 1] == unf[k - 1] && all[k] == more[0];
        DivUnique(off + i, pieceSize, boxI);
      }
    }
  }

  // The ranges more cover exactly the positions of [i, i') whose byte of the
  // box is not set.
  ghost predicate GapsIn(more: seq<Range>, isSet: seq<bool>, i: nat, i': nat, boxOff: nat) {
    && i <= i' && boxOff + i' - i <= |isSet|
    && Increasing(more, i') && (forall k :: 0 <= k < |more| ==> i <= more[k].lo)
    && (forall k :: 0 < k < |more| ==> more[k - 1].hi < more[k].lo)
    && forall x :: i <= x < i' ==> (InRanges(more, x) <==> !isSet[boxOff + x - i])
  }

  lemma OneGap(more: seq<Range>, isSet: seq<bool>, i: nat, i': nat, boxOff: nat, joined: seq<Range>)
    requires GapsIn(more, isSet, i, i', boxOff) && boxOff + i' - i < |isSet| && !isSet[boxOff + i' - i]
    requires joined == Joined(more, i', i' + 1)
    ensures GapsIn(joined, isSet, i, i' + 1, boxOff)
  {
    MissOne(more, i, i', joined);
  }

  lemma NoGap(more: seq<Range>, isSet: seq<bool>, i: nat, i': nat, boxOff: nat)
    requires GapsIn(more, isSet, i, i', boxOff) && boxOff + i' - i < |isSet| && isSet[boxOff + i' - i]
    ensures GapsIn(more, isSet, i, i' + 1, boxOff)
  {
    assert !InRanges(more, i');
  }

  lemma SameBox(boxes: seq<Box>, pieceSize: nat, off: nat, i: nat, boxI: nat, boxOff: nat, x: nat)
    requires pieceSize > 0 && off + i == boxI * pieceSize + boxOff && boxI < |boxes|
    requires i <= x < i + (pieceSize - boxOff) && boxOff < pieceSize
    ensures Hit(boxes, pieceSize, off, x) <==> boxes[boxI].Has(boxOff + x - i)
    ensures AllOk(boxes, pieceSize) && Hit(boxes, pieceSize, off, x) ==>
      boxOff + x - i < |boxes[boxI].data.value| && HitByte(boxes, pieceSize, off, x) == boxes[boxI].data.value[boxOff + x - i]
  {
    At(pieceSize, boxI, boxOff + x - i);
  }

  // Cached bytes add no missing range.
  lemma NoMore(boxes: seq<Box>, pieceSize: nat, off: nat, i: nat, hi: nat, unf: seq<Range>)
    requires pieceSize > 0 && MissesBelow(boxes, pieceSize, off, i, unf) && i <= hi
    requires forall x: nat :: i <= x < hi ==> Hit(boxes, pieceSize, off, x)
    ensures MissesBelow(boxes, pieceSize, off, hi, unf)
  {
  }

  lemma BoxExists(pieceSize: nat, n: nat, boxI: nat, boxOff: nat, x: nat)
    requires x == boxI * pieceSize + boxOff < n * pieceSize
    ensures boxI < n
  {
    if n <= boxI { MulLe(n, boxI, pieceSize); }
  }

  class RAMCache {
    const pieceSize: nat
    var capacity: nat
    var actualUsage: nat
    // What the machine's clock showed when it was last read.
    var clock: int
    var atimes: seq<int>
    var store: seq<Option<seq<byte>>>
    var isBoxFull: seq<bool>
    var isBoxCommit: seq<bool>
    var isByteSet: seq<seq<bool>>

    ghost predicate Sized()
      reads this
    {
      |atimes| == |store| == |isBoxFull| == |isBoxCommit| == |isByteSet|
    }

    ghost function View(): (r: seq<Box>)
      requires Sized()
      reads this
      ensures |r| == |store|
      ensures forall i :: 0 <= i < |store| ==> r[i] == Box(store[i], isBoxFull[i], isBoxCommit[i], isByteSet[i], atimes[i])
    {
      seq(|store|, i requires 0 <= i < |store| && Sized() reads this =>
        Box(store[i], isBoxFull[i], isBoxCommit[i], isByteSet[i], atimes[i]))
    }

    ghost predicate Valid()
      reads this
    {
      && Sized() && AllOk(View(), pieceSize) && actualUsage == Resident(View())
      && forall i :: 0 <= i < |atimes| ==> atimes[i] <= clock
    }

    constructor (numPieces: nat, pieceSize: nat)
      requires pieceSize > 0
      ensures Valid() && this.pieceSize == pieceSize && capacity == 1 && |store| == numPieces
      ensures forall i :: 0 <= i < numPieces ==> View()[i].data == None
    {
      this.pieceSize := pieceSize;
      capacity := 1;
      actualUsage := 0;
      clock := 0;
      atimes := seq(numPieces, _ => 0);
      store := seq(numPieces, _ => None);
      isBoxFull := seq(numPieces, _ => false);
      isBoxCommit := seq(numPieces, _ => false);
      isByteSet := seq(numPieces, _ => []);
      new;
      NoneResident(View());
    }

    // ---- Reading ----

    // No byte of the box is resident: the rest of it is one more missing
    // range, or more of the last one.
    method ReadAbsent(length: nat, i: nat, boxOff: nat, unf: seq<Range>) returns (i': nat, unf': seq<Range>)
      requires i < length && boxOff < pieceSize && Increasing(unf, i)
      ensures i' == Min(length, i + pieceSize - boxOff) && unf' == Joined(unf, i, i')
    {
      var end := length - i;
      if end > pieceSize - boxOff {
        end := pieceSize - boxOff;
      }
      unf' := unf;
      i' := i;
      if |unf'| > 0 {
        var last := unf'[|unf'| - 1];
        if last.lo + (last.hi - last.lo) == i {
          unf' := unf'[..|unf'| - 1];
          i' := last.lo;
          end := end + (last.hi - last.lo);
        }
      }
      unf' := unf' + [Range(i', i' + end)];
      i' := i' + end;
    }

    // The whole box is good: its bytes are copied.
    method ReadFull(p: array<byte>, i: nat, boxI: nat, boxOff: nat) returns (i': nat)
      requires boxI < |store| && store[boxI].Some? && boxOff <= |store[boxI].value| && i <= p.Length
      modifies p
      ensures i' == Min(p.Length, i + |store[boxI].value| - boxOff)
      ensures forall x :: i <= x < i' ==> p[x] == store[boxI].value[boxOff + x - i]
      ensures forall x :: 0 <= x < p.Length && !(i <= x < i') ==> p[x] == old(p[x])
    {
      var data := store[boxI].value;
      i' := Min(p.Length, i + |data| - boxOff);
      forall x | i <= x < i' { p[x] := data[boxOff + x - i]; }
    }

    // Some bytes of the box were written: it is served byte by byte, and the
    // gaps are collected. The first entry of missing only marks the start.
    method ReadPartial(p: array<byte>, i: nat, boxI: nat, boxOff: nat) returns (i': nat, missing: seq<Range>)
      requires boxI < |store| == |isByteSet| && store[boxI].Some? && |store[boxI].value| == |isByteSet[boxI]| == pieceSize
      requires boxOff < pieceSize && i <= p.Length
      modifies p
      ensures i' == Min(p.Length, i + pieceSize - boxOff)
      ensures forall x :: i <= x < i' && isByteSet[boxI][boxOff + x - i] ==> p[x] == store[boxI].value[boxOff + x - i]
      ensures forall x :: i <= x < i' && !isByteSet[boxI][boxOff + x - i] ==> p[x] == old(p[x])
      ensures forall x :: 0 <= x < p.Length && !(i <= x < i') ==> p[x] == old(p[x])
      ensures |missing| >= 1 && GapsIn(missing[1..], isByteSet[boxI], i, i', boxOff)
    {
      var data, isSet := store[boxI].value, isByteSet[boxI];
      missing := [Range(-1, -1)];
      var end := Min(p.Length - i + boxOff, pieceSize);
      i' := i;
      for j := boxOff to end
        invariant i' == i + j - boxOff
        invariant forall x :: i <= x < i' && isSet[boxOff + x - i] ==> p[x] == data[boxOff + x - i]
        invariant forall x :: i <= x < i' && !isSet[boxOff + x - i] ==> p[x] == old(p[x])
        invariant forall x :: 0 <= x < p.Length && !(i <= x < i') ==> p[x] == old(p[x])
        invariant |missing| >= 1 && missing[0] == Range(-1, -1) && GapsIn(missing[1..], isSet, i, i', boxOff)
      {
        if isSet[j] {
          p[i'] := data[j];
          NoGap(missing[1..], isSet, i, i', boxOff);
        } else {
          missing := AddMissing(missing, i', isSet, i, boxOff);
        }
        i' := i' + 1;
      }
    }

    method AddMissing(missing: seq<Range>, i': nat, ghost isSet: seq<bool>, ghost i: nat, ghost boxOff: nat)
      returns (missing': seq<Range>)
      requires |missing| >= 1 && missing[0] == Range(-1, -1) && GapsIn(missing[1..], isSet, i, i', boxOff)
      requires boxOff + i' - i < |isSet| && !isSet[boxOff + i' - i]
      ensures |missing'| >= 1 && missing'[0] == Range(-1, -1) && GapsIn(missing'[1..], isSet, i, i' + 1, boxOff)
    {
      var last := missing[|missing| - 1];
      if last.hi == i' {
        missing' := missing[|missing| - 1 := Range(last.lo, i' + 1)];
      } else {
        missing' := missing + [Range(i', i' + 1)];
      }
      OneGap(missing[1..], isSet, i, i', boxOff, missing'[1..]);
    }

    // Position i of a read at off is byte boxOff of box boxI.
    ghost predicate Located(off: nat, i: nat, boxI: nat, boxOff: nat)
      reads this
    {
      pieceSize > 0 && boxI < |store| && boxOff < pieceSize && off + i == boxI * pieceSize + boxOff
    }

    ghost predicate Served(p: array<byte>, off: nat, before: seq<byte>, i: nat, unf: seq<Range>)
      reads this, p
    {
      Valid() && FilledBelow(View(), pieceSize, off, p[..], before, i) && MissesBelow(View(), pieceSize, off, i, unf)
    }

    lemma AbsentServed(p: array<byte>, off: nat, before: seq<byte>, i: nat, boxI: nat, boxOff: nat, unf: seq<Range>, i': nat)
      requires Served(p, off, before, i, unf) && Located(off, i, boxI, boxOff) && store[boxI] == None
      requires i < i' <= p.Length && i' - i <= pieceSize - boxOff
      ensures Served(p, off, before, i', Joined(unf, i, i'))
    {
      forall x: nat | i <= x < i' ensures !Hit(View(), pieceSize, off, x) {
        SameBox(View(), pieceSize, off, i, boxI, boxOff, x);
      }
      MissMore(View(), pieceSize, off, i, i', unf);
    }

    method ServeFull(p: array<byte>, off: nat, ghost before: seq<byte>, i: nat, boxI: nat, boxOff: nat, ghost unf: seq<Range>)
      returns (i': nat)
      requires Served(p, off, before, i, unf) && Located(off, i, boxI, boxOff) && i < p.Length
      requires store[boxI].Some? && isBoxFull[boxI]
      modifies p
      ensures i' == Min(p.Length, i + pieceSize - boxOff) && Served(p, off, before, i', unf)
    {
      ghost var boxes := View();
      assert boxes[boxI].Ok(pieceSize);
      i' := ReadFull(p, i, boxI, boxOff);
      forall x: nat | i <= x < i' ensures Hit(boxes, pieceSize, off, x) && p[x] == HitByte(boxes, pieceSize, off, x) {
        SameBox(boxes, pieceSize, off, i, boxI, boxOff, x);
      }
      NoMore(boxes, pieceSize, off, i, i', unf);
    }

    method ServePartial(p: array<byte>, off: nat, ghost before: seq<byte>, i: nat, boxI: nat, boxOff: nat, unf: seq<Range>)
      returns (i': nat, unf': seq<Range>)
      requires Served(p, off, before, i, unf) && Located(off, i, boxI, boxOff) && i < p.Length
      requires store[boxI].Some? && !isBoxFull[boxI] && (i > 0 ==> boxOff == 0)
      modifies p
      ensures i' == Min(p.Length, i + pieceSize - boxOff) && Served(p, off, before, i', unf')
    {
      ghost var boxes := View();
      assert boxes[boxI].Ok(pieceSize);
      var missing;
      i', missing := ReadPartial(p, i, boxI, boxOff);
      forall x: nat | i <= x < i'
        ensures Hit(boxes, pieceSize, off, x) <==> !InRanges(missing[1..], x)
        ensures Hit(boxes, pieceSize, off, x) ==> p[x] == HitByte(boxes, pieceSize, off, x)
        ensures !Hit(boxes, pieceSize, off, x) ==> p[x] == before[x]
      {
        SameBox(boxes, pieceSize, off, i, boxI, boxOff, x);
      }
      unf' := unf + missing[1..];
      ConcatRanges(unf, missing[1..], i, i');
      MergedConcat(boxes, pieceSize, off, unf, missing[1..], i, boxI);
    }

    method ServeBox(p: array<byte>, off: nat, ghost before: seq<byte>, i: nat, boxI: nat, boxOff: nat, unf: seq<Range>)
      returns (i': nat, unf': seq<Range>)
      requires Served(p, off, before, i, unf) && Located(off, i, boxI, boxOff) && i < p.Length && (i > 0 ==> boxOff == 0)
      modifies p
      ensures i' == Min(p.Length, i + pieceSize - boxOff) && Served(p, off, before, i', unf')
    {
      unf' := unf;
      if store[boxI] == None {
        i', unf' := ReadAbsent(p.Length, i, boxOff, unf);
        AbsentServed(p, off, before, i, boxI, boxOff, unf, i');
      } else if isBoxFull[boxI] {
        i' := ServeFull(p, off, before, i, boxI, boxOff, unf);
      } else {
        i', unf' := ServePartial(p, off, before, i, boxI, boxOff, unf);
      }
    }

    lemma FirstBox(off: nat, length: nat)
      requires pieceSize > 0 && 0 < length && off + length <= |store| * pieceSize
      ensures Located(off, 0, off / pieceSize, off % pieceSize)
    {
      DivBounds(off, pieceSize);
      BoxExists(pieceSize, |store|, off / pieceSize, off % pieceSize, off);
    }

    lemma NextBox(off: nat, i: nat, boxI: nat, boxOff: nat, i': nat, length: nat)
      requires Located(off, i, boxI, boxOff) && i' == i + pieceSize - boxOff < length && off + length <= |store| * pieceSize
      ensures Located(off, i', boxI + 1, 0)
    {
      assert (boxI + 1) * pieceSize == boxI * pieceSize + pieceSize;
      BoxExists(pieceSize, |store|, boxI + 1, 0, off + i');
    }

    // Fills in what is cached and returns, in order, exactly the parts of p
    // that are not. A missing box joins the range before it.
    method ReadAt(p: array<byte>, off: nat) returns (unfulfilled: seq<Range>)
      requires Valid() && off + p.Length <= |store| * pieceSize
      modifies p
      ensures Served(p, off, old(p[..]), p.Length, unfulfilled)
    {
      ghost var before := p[..];
      var boxI: nat, boxOff: nat := off / pieceSize, off % pieceSize;
      if p.Length > 0 { FirstBox(off, p.Length); }
      unfulfilled := [];
      var i := 0;
      while i < p.Length
        invariant i <= p.Length && Served(p, off, before, i, unfulfilled)
        invariant i < p.Length ==> Located(off, i, boxI, boxOff)
        invariant i > 0 ==> boxOff == 0
      {
        ghost var i0, boxOff0 := i, boxOff;
        i, unfulfilled := ServeBox(p, off, before, i, boxI, boxOff, unfulfilled);
        if i < p.Length { NextBox(off, i0, boxI, boxOff0, i, p.Length); }
        boxI, boxOff := boxI + 1, 0;
      }
    }

    // ---- Writing ----

    // Copies into one box what fits of p from i on.
    method PutPart(p: seq<byte>, i: nat, boxI: nat, boxOff: nat) returns (i': nat, ghost now: int)
      requires Valid() && boxI < |store| && boxOff < pieceSize && i < |p|
      modifies this`actualUsage, this`clock, this`atimes, this`store, this`isBoxFull, this`isByteSet
      ensures i' == Min(|p|, i + pieceSize - boxOff) && Valid() && old(clock) <= now == clock
      ensures View() == old(View())[boxI := PutBox(old(View())[boxI], pieceSize, boxOff, p[i..i'], now)]
    {
      ghost var boxes := View();
      assert boxes[boxI].Ok(pieceSize);
      var copied := Min(pieceSize - boxOff, |p| - i);
      i' := i + copied;
      now := PutBytes(boxI, boxOff, p[i..i']);
      PutBoxOk(boxes[boxI], pieceSize, boxOff, p[i..i'], now);
      ResidentUpdate(boxes, boxI, PutBox(boxes[boxI], pieceSize, boxOff, p[i..i'], now));
    }

    // The clock never goes back.
    method Now() returns (t: int)
      modifies this`clock
      ensures old(clock) <= t == clock
    {
      var passed: nat :| true;
      clock := clock + passed;
      t := clock;
    }

    method PutBytes(boxI: nat, boxOff: nat, part: seq<byte>) returns (ghost now: int)
      requires Sized() && boxI < |store| && boxOff + |part| <= pieceSize
      requires |isByteSet[boxI]| == 0 || |isByteSet[boxI]| == pieceSize
      modifies this`actualUsage, this`clock, this`atimes, this`store, this`isBoxFull, this`isByteSet
      ensures Sized() && View() == old(View())[boxI := PutBox(old(View())[boxI], pieceSize, boxOff, part, now)]
      ensures old(clock) <= now == clock
      ensures actualUsage == old(actualUsage) + if old(store[boxI]) == None then 1 else 0
    {
      CopyBytes(boxI, boxOff, part);
      var time := Now();
      now := time;
      atimes := atimes[boxI := time];
      NoteBytes(boxI, boxOff, |part|);
      assert View()[boxI] == PutBox(old(View())[boxI], pieceSize, boxOff, part, now);
    }

    method CopyBytes(boxI: nat, boxOff: nat, part: seq<byte>)
      requires boxI < |store|
      modifies this`actualUsage, this`store
      ensures store == old(store)[boxI :=
        Some(Splice(if old(store[boxI]).Some? then old(store[boxI]).value else Zeros(pieceSize), boxOff, part))]
      ensures actualUsage == old(actualUsage) + if old(store[boxI]) == None then 1 else 0
    {
      if store[boxI] == None {
        store := store[boxI := Some(Zeros(pieceSize))];
        actualUsage := actualUsage + 1;
      }
      store := store[boxI := Some(Splice(store[boxI].value, boxOff, part))];
    }

    method NoteBytes(boxI: nat, boxOff: nat, copied: nat)
      requires boxI < |isBoxFull| == |isByteSet| && boxOff + copied <= pieceSize
      requires |isByteSet[boxI]| == 0 || |isByteSet[boxI]| == pieceSize
      modifies this`isBoxFull, this`isByteSet
      ensures isBoxFull == if copied == pieceSize then old(isBoxFull)[boxI := true] else old(isBoxFull)
      ensures isByteSet == if copied == pieceSize then old(isByteSet) else old(isByteSet)[boxI :=
        MarkSet(if |old(isByteSet)[boxI]| == 0 then Cleared(pieceSize) else old(isByteSet)[boxI], boxOff, boxOff + copied)]
    {
      if copied == pieceSize {
        isBoxFull := isBoxFull[boxI := true];
      } else {
        if |isByteSet[boxI]| == 0 {
          isByteSet := isByteSet[boxI := Cleared(pieceSize)];
        }
        MarkBytes(boxI, boxOff, boxOff + copied);
      }
    }

    method MarkBytes(boxI: nat, lo: nat, hi: nat)
      requires boxI < |isByteSet| && lo <= hi <= |isByteSet[boxI]|
      modifies this`isByteSet
      ensures isByteSet == old(isByteSet)[boxI := MarkSet(old(isByteSet)[boxI], lo, hi)]
    {
      for j := lo to hi
        invariant |isByteSet| == |old(isByteSet)| && |isByteSet[boxI]| == |old(isByteSet)[boxI]|
        invariant forall b :: 0 <= b < |isByteSet| && b != boxI ==> isByteSet[b] == old(isByteSet)[b]
        invariant isByteSet[boxI] == MarkSet(old(isByteSet)[boxI], lo, j)
      {
        isByteSet := isByteSet[boxI := isByteSet[boxI][j := true]];
      }
    }

    // Writes p at off into the boxes, and trims exactly when they are too many
    // then. What is returned has left the cache without being committed.
    method WriteAt(p: seq<byte>, off: nat) returns (chunks: seq<Chunk>, ghost written: seq<Box>,
                                                    ghost dropped: set<nat>, ghost evicted: seq<nat>)
      requires Valid() && off + |p| <= |store| * pieceSize
      modifies this`actualUsage, this`clock, this`atimes, this`store, this`isBoxFull, this`isBoxCommit, this`isByteSet
      ensures Valid() && actualUsage == Min(Resident(written), capacity)
      ensures WroteBelow(old(View()), written, pieceSize, off, p, |p|)
      ensures Stamped(old(View()), written, pieceSize, off, |p|, old(clock), clock)
      ensures Trimmed(written, View(), pieceSize, dropped, evicted, chunks)
      ensures InOrder(written, View(), capacity, dropped, evicted)
      ensures Resident(written) <= capacity ==> dropped == {} && evicted == [] && View() == written
    {
      PutAll(p, off);
      written, dropped, evicted := View(), {}, [];
      assert Dropped(written, View(), dropped + Elements(evicted));
      if actualUsage > capacity {
        chunks, dropped, evicted := Trim();
      } else {
        chunks := [];
      }
    }

    method PutAll(p: seq<byte>, off: nat)
      requires Valid() && off + |p| <= |store| * pieceSize
      modifies this`actualUsage, this`clock, this`atimes, this`store, this`isBoxFull, this`isByteSet
      ensures Valid() && WroteBelow(old(View()), View(), pieceSize, off, p, |p|)
      ensures Stamped(old(View()), View(), pieceSize, off, |p|, old(clock), clock)
    {
      ghost var boxes, now := View(), clock;
      NothingWritten(boxes, pieceSize, off, p);
      var boxI: nat, boxOff: nat := off / pieceSize, off % pieceSize;
      if p != [] {
        FirstBox(off, |p|);
        ghost var hi := PutFrom(p, off, boxI, boxOff);
        FromIsStamped(boxes, View(), pieceSize, off, |p|, boxI, hi, now, clock);
      }
    }

    method PutFrom(p: seq<byte>, ghost off: nat, first: nat, firstOff: nat) returns (ghost hi: nat)
      requires Valid() && p != [] && off + |p| <= |store| * pieceSize && Located(off, 0, first, firstOff)
      modifies this`actualUsage, this`clock, this`atimes, this`store, this`isBoxFull, this`isByteSet
      ensures Valid() && WroteBelow(old(View()), View(), pieceSize, off, p, |p|)
      ensures StampedFrom(old(View()), View(), first, hi, old(clock), clock) && EndsBelow(pieceSize, hi, off + |p|)
    {
      ghost var boxes := View();
      NothingWritten(boxes, pieceSize, off, p);
      var boxI, boxOff, i := first, firstOff, 0;
      while i < |p|
        invariant i <= |p| && Valid() && WroteBelow(boxes, View(), pieceSize, off, p, i)
        invariant i < |p| ==> Located(off, i, boxI, boxOff)
        invariant first <= boxI && StampedFrom(boxes, View(), first, boxI, old(clock), clock)
        invariant i > 0 ==> EndsBelow(pieceSize, boxI, off + i)
      {
        ghost var i1, boxOff1, boxes1, now := i, boxOff, View(), clock;
        i := PutNext(p, off, i, boxI, boxOff, boxes);
        StampedNext(boxes, boxes1, View(), first, boxI, old(clock), now, clock);
        EndsInBox(pieceSize, boxI, off + i);
        if i < |p| { NextBox(off, i1, boxI, boxOff1, i, |p|); }
        boxI, boxOff := boxI + 1, 0;
      }
      hi := boxI;
    }

    method PutNext(p: seq<byte>, ghost off: nat, i: nat, boxI: nat, boxOff: nat, ghost boxes: seq<Box>) returns (i': nat)
      requires Valid() && AllOk(boxes, pieceSize) && WroteBelow(boxes, View(), pieceSize, off, p, i)
      requires Located(off, i, boxI, boxOff) && i < |p|
      modifies this`actualUsage, this`clock, this`atimes, this`store, this`isBoxFull, this`isByteSet
      ensures i' == Min(|p|, i + pieceSize - boxOff)
      ensures Valid() && |store| == old(|store|) && WroteBelow(boxes, View(), pieceSize, off, p, i')
      ensures StampedFrom(old(View()), View(), boxI, boxI + 1, old(clock), clock)
    {
      ghost var boxes1, now := View(), 0;
      assert boxes1[boxI].Ok(pieceSize);
      i', now := PutPart(p, i, boxI, boxOff);
      PutBoxOk(boxes1[boxI], pieceSize, boxOff, p[i..i'], now);
      PutStep(boxes, boxes1, PutBox(boxes1[boxI], pieceSize, boxOff, p[i..i'], now), pieceSize, off, p, i, boxI, boxOff, i');
    }

    // A resident box is on disk as a whole.
    method MarkCommitted(piece: nat)
      requires Valid() && piece < |store|
      modifies this`isBoxFull, this`isBoxCommit, this`isByteSet
      ensures Valid() && View() == old(View())[piece := Marked(old(View())[piece])]
    {
      ghost var boxes := View();
      assert boxes[piece].Ok(pieceSize);
      if store[piece] != None {
        isBoxFull := isBoxFull[piece := true];
        isBoxCommit := isBoxCommit[piece := true];
        isByteSet := isByteSet[piece := []];
      }
      ResidentUpdate(boxes, piece, Marked(boxes[piece]));
      assert View() == boxes[piece := Marked(boxes[piece])];
    }

    // ---- Trimming ----

    method RemoveBox(boxI: nat)
      requires Valid() && boxI < |store| && store[boxI].Some?
      modifies this`actualUsage, this`store, this`isBoxFull, this`isBoxCommit, this`isByteSet
      ensures Valid() && actualUsage == old(actualUsage) - 1
      ensures View() == old(View())[boxI := old(View())[boxI].Emptied()]
    {
      ghost var boxes := View();
      ResidentUpdate(boxes, boxI, boxes[boxI].Emptied());
      isBoxFull := isBoxFull[boxI := false];
      isBoxCommit := isBoxCommit[boxI := false];
      isByteSet := isByteSet[boxI := []];
      store := store[boxI := None];
      actualUsage := actualUsage - 1;
      assert View() == boxes[boxI := boxes[boxI].Emptied()];
    }

    method SetCapacity(capacity: nat)
      modifies this`capacity
      ensures this.capacity == capacity
    {
      this.capacity := capacity;
    }

    // Drops committed boxes in index order until the capacity is met. At most
    // box 0 goes without need.
    method TrimCommitted() returns (under: bool, ghost dropped: set<nat>)
      requires Valid()
      modifies this`actualUsage, this`store, this`isBoxFull, this`isBoxCommit, this`isByteSet
      ensures Valid() && Dropped(old(View()), View(), dropped) && CommittedIn(old(View()), dropped)
      ensures under ==> actualUsage <= capacity
      ensures !under && store != [] ==> actualUsage > capacity
      ensures !under ==> forall i :: 0 <= i < |store| ==> !View()[i].committed
      ensures dropped <= {0} || actualUsage >= capacity
      ensures old(actualUsage) > capacity ==> actualUsage >= capacity
      ensures LowestFirst(View(), dropped)
    {
      ghost var boxes := View();
      dropped := {};
      for i := 0 to |isBoxCommit|
        invariant Valid() && |store| == |boxes| && Dropped(boxes, View(), dropped) && CommittedIn(boxes, dropped)
        invariant forall j :: j in dropped ==> j < i
        invariant forall j :: 0 <= j < i ==> !View()[j].committed
        invariant (i == 0 && actualUsage == old(actualUsage)) || actualUsage > capacity
      {
        if isBoxCommit[i] {
          assert boxes[i] == View()[i] && View()[i].Ok(pieceSize);
          RemoveBox(i);
          dropped := dropped + {i};
        }
        if actualUsage <= capacity {
          return true, dropped;
        }
      }
      return false, dropped;
    }

    // The resident boxes, those that were written longest ago first.
    method OldestFirst() returns (oldest: seq<nat>)
      requires Valid()
      ensures |oldest| == actualUsage
      ensures forall i :: i in oldest <==> 0 <= i < |store| && store[i].Some?
      ensures Distinct(oldest) && ByTime(atimes, oldest)
    {
      oldest := [];
      ghost var boxes := View();
      assert boxes[..0] == [];
      for i := 0 to |atimes|
        invariant |oldest| == Resident(boxes[..i])
        invariant forall j :: j in oldest <==> 0 <= j < i && store[j].Some?
        invariant Distinct(oldest) && ByTime(atimes, oldest)
      {
        assert boxes[..i + 1][..i] == boxes[..i];
        if store[i] != None {
          oldest := InsertByTime(atimes, oldest, i);
        }
      }
      assert boxes[..|atimes|] == boxes;
    }

    // The data of the box that has to be kept: all of it, or the part between
    // the first and the last byte that was written.
    method ChunkOf(boxI: nat) returns (c: Chunk)
      requires Valid() && boxI < |store| && store[boxI].Some?
      ensures IsChunkOf(View()[boxI], boxI, pieceSize, c)
    {
      assert View()[boxI].Ok(pieceSize);
      var data := store[boxI].value;
      if isBoxFull[boxI] {
        return Chunk(boxI * pieceSize, data);
      }
      var isSet := isByteSet[boxI];
      ghost var some :| 0 <= some < pieceSize && isSet[some];
      var off, endData := 0, pieceSize;
      while !isSet[off]
        invariant off <= some && forall j :: 0 <= j < off ==> !isSet[j]
        decreases some - off
      {
        off := off + 1;
      }
      while endData > 1 && !isSet[endData - 1]
        invariant some < endData <= pieceSize && forall j :: endData <= j < pieceSize ==> !isSet[j]
      {
        endData := endData - 1;
      }
      return Chunk(boxI * pieceSize + off, data[off..endData]);
    }

    // Brings the usage down to the capacity: committed boxes go first, and
    // then as many of the oldest others as is needed.
    method Trim() returns (chunks: seq<Chunk>, ghost dropped: set<nat>, ghost evicted: seq<nat>)
      requires Valid()
      modifies this`actualUsage, this`store, this`isBoxFull, this`isBoxCommit, this`isByteSet
      ensures Valid() && actualUsage <= capacity
      ensures Trimmed(old(View()), View(), pieceSize, dropped, evicted, chunks)
      ensures InOrder(old(View()), View(), capacity, dropped, evicted)
    {
      ghost var boxes := View();
      var under;
      under, dropped := TrimCommitted();
      chunks, evicted := [], [];
      if under {
        assert dropped + Elements(evicted) == dropped;
        return;
      }
      ghost var boxes1 := View();
      chunks, evicted := EvictOldest();
      BothTrimmed(boxes, boxes1, View(), pieceSize, dropped, evicted, chunks);
    }

    method EvictOldest() returns (chunks: seq<Chunk>, ghost evicted: seq<nat>)
      requires Valid() && forall i :: 0 <= i < |store| ==> !View()[i].committed
      modifies this`actualUsage, this`store, this`isBoxFull, this`isBoxCommit, this`isByteSet
      ensures Valid() && actualUsage <= capacity
      ensures Trimmed(old(View()), View(), pieceSize, {}, evicted, chunks)
      ensures InOrder(old(View()), View(), capacity, {}, evicted)
    {
      ghost var boxes := View();
      var oldest := OldestFirst();
      var deficit := if actualUsage > capacity then actualUsage - capacity else 0;
      chunks := EvictFirst(boxes, oldest, deficit);
      evicted := oldest[..deficit];
      YoungStay(boxes, View(), oldest, deficit);
      assert evicted != [] ==> deficit > 0;
    }

    method EvictFirst(ghost boxes: seq<Box>, oldest: seq<nat>, deficit: nat) returns (chunks: seq<Chunk>)
      requires Valid() && View() == boxes && actualUsage == |oldest| >= deficit && Distinct(oldest)
      requires forall k :: 0 <= k < |oldest| ==> oldest[k] < |boxes| && boxes[oldest[k]].data.Some? && !boxes[oldest[k]].committed
      modifies this`actualUsage, this`store, this`isBoxFull, this`isBoxCommit, this`isByteSet
      ensures Valid() && actualUsage == |oldest| - deficit
      ensures Trimmed(boxes, View(), pieceSize, {}, oldest[..deficit], chunks)
    {
      chunks := [];
      for i := 0 to deficit
        invariant Valid() && actualUsage == |oldest| - i && |chunks| == i
        invariant Trimmed(boxes, View(), pieceSize, {}, oldest[..i], chunks)
      {
        chunks := EvictNext(boxes, oldest, i, chunks);
      }
    }

    method EvictNext(ghost boxes: seq<Box>, oldest: seq<nat>, i: nat, chunks: seq<Chunk>) returns (chunks': seq<Chunk>)
      requires Valid() && i < |oldest| && Distinct(oldest) && |chunks| == i
      requires oldest[i] < |boxes| && boxes[oldest[i]].data.Some? && !boxes[oldest[i]].committed
      requires Trimmed(boxes, View(), pieceSize, {}, oldest[..i], chunks)
      modifies this`actualUsage, this`store, this`isBoxFull, this`isBoxCommit, this`isByteSet
      ensures Valid() && actualUsage == old(actualUsage) - 1 && |chunks'| == i + 1
      ensures Trimmed(boxes, View(), pieceSize, {}, oldest[..i + 1], chunks')
    {
      var deadBox := oldest[i];
      NotYetEvicted(oldest, i);
      assert View()[deadBox] == boxes[deadBox];
      var c := ChunkOf(deadBox);
      RemoveBox(deadBox);
      chunks' := chunks + [c];
      OneMoreEvicted(boxes, pieceSize, oldest, i, chunks, c);
    }
  }

  predicate Distinct(s: seq<nat>) {
    forall j, k :: 0 <= j < k < |s| ==> s[j] != s[k]
  }

  ghost predicate ByTime(atimes: seq<int>, s: seq<nat>) {
    && (forall k :: 0 <= k < |s| ==> s[k] < |atimes|)
    && (forall j, k :: 0 <= j < k < |s| ==> atimes[s[j]] <= atimes[s[k]])
  }

  // One step of sorting by access time; where equal times end up is open.
  method InsertByTime(atimes: seq<int>, s: seq<nat>, i: nat) returns (r: seq<nat>)
    requires Distinct(s) && ByTime(atimes, s) && i < |atimes| && i !in s
    ensures Distinct(r) && ByTime(atimes, r) && |r| == |s| + 1
    ensures forall j :: j in r <==> j in s || j == i
  {
    var k := |s|;
    while k > 0 && atimes[i] < atimes[s[k - 1]]
      invariant 0 <= k <= |s| && forall j :: k <= j < |s| ==> atimes[i] < atimes[s[j]]
    {
      k := k - 1;
    }
    r := s[..k] + [i] + s[k..];
    InsertedOrder(atimes, s, i, k, r);
    InsertedMembers(s, i, k, r);
  }

  ghost predicate Inserted(s: seq<nat>, i: nat, k: nat, r: seq<nat>) {
    && k <= |s| && |r| == |s| + 1 && r[k] == i
    && (forall j :: 0 <= j < k ==> r[j] == s[j])
    && (forall j :: k < j < |r| ==> r[j] == s[j - 1])
  }

  lemma InsertedOrder(atimes: seq<int>, s: seq<nat>, i: nat, k: nat, r: seq<nat>)
    requires Distinct(s) && ByTime(atimes, s) && i < |atimes| && i !in s && Inserted(s, i, k, r)
    requires k > 0 ==> atimes[s[k - 1]] <= atimes[i]
    requires forall j :: k <= j < |s| ==> atimes[i] < atimes[s[j]]
    ensures Distinct(r) && ByTime(atimes, r)
  {
    forall j, m | 0 <= j < m < |r| ensures r[j] != r[m] && r[j] < |atimes| && r[m] < |atimes| && atimes[r[j]] <= atimes[r[m]] {
      if m == k && k > 0 && j < k - 1 { assert atimes[s[j]] <= atimes[s[k - 1]]; }
    }
    forall j | 0 <= j < |r| ensures r[j] < |atimes| {
    }
  }

  lemma InsertedMembers(s: seq<nat>, i: nat, k: nat, r: seq<nat>)
    requires Inserted(s, i, k, r)
    ensures forall j :: j in r <==> j in s || j == i
  {
    forall j | j in s ensures j in r {
      var m :| 0 <= m < |s| && s[m] == j;
      assert r[if m < k then m else m + 1] == j;
    }
  }

  lemma NotYetEvicted(oldest: seq<nat>, i: nat)
    requires Distinct(oldest) && i < |oldest|
    ensures oldest[i] !in oldest[..i] && Elements(oldest[..i + 1]) == Elements(oldest[..i]) + {oldest[i]}
  {
    assert oldest[..i + 1] == oldest[..i] + [oldest[i]];
  }

  lemma OneMoreEvicted(boxes: seq<Box>, pieceSize: nat, oldest: seq<nat>, i: nat, chunks: seq<Chunk>, c: Chunk)
    requires i < |oldest| && Distinct(oldest) && Evicted(boxes, pieceSize, oldest[..i], chunks)
    requires oldest[i] < |boxes| && !boxes[oldest[i]].committed && IsChunkOf(boxes[oldest[i]], oldest[i], pieceSize, c)
    ensures Evicted(boxes, pieceSize, oldest[..i + 1], chunks + [c])
  {
    assert oldest[..i + 1] == oldest[..i] + [oldest[i]];
  }

  // The boxes that stay are younger than those that went.
  lemma YoungStay(boxes: seq<Box>, boxes': seq<Box>, oldest: seq<nat>, n: nat)
    requires n <= |oldest|
    requires Dropped(boxes, boxes', Elements(oldest[..n])) && forall i :: 0 <= i < |boxes| && boxes[i].data.Some? ==> i in oldest
    requires forall k :: 0 <= k < |oldest| ==> oldest[k] < |boxes|
    requires forall j, k :: 0 <= j < k < |oldest| ==> boxes[oldest[j]].atime <= boxes[oldest[k]].atime
    ensures forall k, i :: 0 <= k < n && 0 <= i < |boxes'| && boxes'[i].data.Some? ==>
      boxes[oldest[..n][k]].atime <= boxes'[i].atime
  {
    forall k, i | 0 <= k < n && 0 <= i < |boxes'| && boxes'[i].data.Some?
      ensures boxes[oldest[..n][k]].atime <= boxes'[i].atime
    {
      assert forall m :: 0 <= m < n ==> oldest[m] == oldest[..n][m];
      var m :| 0 <= m < |oldest| && oldest[m] == i;
    }
  }

  lemma BothTrimmed(boxes: seq<Box>, boxes1: seq<Box>, boxes2: seq<Box>, pieceSize: nat, dropped: set<nat>,
                    evicted: seq<nat>, chunks: seq<Chunk>)
    requires Dropped(boxes, boxes1, dropped) && CommittedIn(boxes, dropped)
    requires Trimmed(boxes1, boxes2, pieceSize, {}, evicted, chunks)
    ensures Trimmed(boxes, boxes2, pieceSize, dropped, evicted, chunks)
    ensures forall k :: 0 <= k < |evicted| ==> boxes[evicted[k]] == boxes1[evicted[k]]
  {
    forall k | 0 <= k < |evicted| ensures evicted[k] !in dropped {
      assert IsChunkOf(boxes1[evicted[k]], evicted[k], pieceSize, chunks[k]);
    }
  }

  function Min(a: nat, b: nat): nat { if a < b then a else b }

  lemma {:induction false} NoneResident(boxes: seq<Box>)
    requires forall i :: 0 <= i < |boxes| ==> boxes[i].data == None
    ensures Resident(boxes) == 0
    decreases |boxes|
  {
    if boxes != [] { NoneResident(boxes[..|boxes| - 1]); }
  }
}
