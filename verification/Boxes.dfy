// The cache as a value: a sequence of boxes of one piece each. A box that is
// not resident is empty; a resident one knows which of its bytes were written.

module Boxes {
  import opened Options
  import opened Arith
  import opened Bytes

  datatype Box = Box(data: Option<seq<byte>>, full: bool, committed: bool, byteSet: seq<bool>, atime: int)
  {
    // Whether byte j was written, or the whole box is known to be good.
    ghost predicate Has(j: nat) {
      data.Some? && (full || (j < |byteSet| && byteSet[j]))
    }

    ghost predicate Ok(pieceSize: nat) {
      && (data.Some? ==> |data.value| == pieceSize && (full || (|byteSet| == pieceSize && true in byteSet)))
      && (data.None? ==> !full && !committed && byteSet == [])
      && (committed ==> full)
      && (|byteSet| == 0 || |byteSet| == pieceSize)
    }

    function Emptied(): Box {
      Box(None, false, false, [], atime)
    }
  }

  ghost predicate AllOk(boxes: seq<Box>, pieceSize: nat) {
    pieceSize > 0 && forall i :: 0 <= i < |boxes| ==> boxes[i].Ok(pieceSize)
  }

  function Resident(boxes: seq<Box>): nat {
    if boxes == [] then 0 else Resident(boxes[..|boxes| - 1]) + if boxes[|boxes| - 1].data.Some? then 1 else 0
  }

  // ---- Positions ----

  ghost predicate Cached(boxes: seq<Box>, pieceSize: nat, x: nat)
    requires pieceSize > 0
  {
    x / pieceSize < |boxes| && boxes[x / pieceSize].Has(x % pieceSize)
  }

  ghost function CachedByte(boxes: seq<Box>, pieceSize: nat, x: nat): byte
    requires AllOk(boxes, pieceSize) && Cached(boxes, pieceSize, x)
  {
    boxes[x / pieceSize].data.value[x % pieceSize]
  }

  // What a reader sees at position x when the files hold disk.
  ghost function ViewAt(boxes: seq<Box>, pieceSize: nat, disk: seq<byte>, x: nat): byte
    requires AllOk(boxes, pieceSize)
  {
    if Cached(boxes, pieceSize, x) then CachedByte(boxes, pieceSize, x)
    else if x < |disk| then disk[x] else 0
  }

  lemma At(pieceSize: nat, i: nat, j: nat)
    requires pieceSize > 0 && j < pieceSize
    ensures (i * pieceSize + j) / pieceSize == i && (i * pieceSize + j) % pieceSize == j
  {
    DivUnique(i * pieceSize + j, pieceSize, i);
  }

  // ---- Counting resident boxes ----

  lemma {:induction false} ResidentUpdate(boxes: seq<Box>, i: nat, b: Box)
    requires i < |boxes|
    ensures Resident(boxes[i := b]) == Resident(boxes)
      + (if b.data.Some? then 1 else 0) - (if boxes[i].data.Some? then 1 else 0)
    decreases |boxes|
  {
    var last := |boxes| - 1;
    if i < last {
      ResidentUpdate(boxes[..last], i, b);
      assert boxes[i := b][..last] == boxes[..last][i := b];
    } else {
      assert boxes[i := b][..last] == boxes[..last];
    }
  }

  // ---- Writing ----

  // The box after part was written into it at boxOff.
  function PutBox(b: Box, pieceSize: nat, boxOff: nat, part: seq<byte>, now: int): Box {
    var data := Splice(if b.data.Some? then b.data.value else Zeros(pieceSize), boxOff, part);
    if |part| == pieceSize then b.(data := Some(data), full := true, atime := now)
    else b.(data := Some(data), atime := now,
            byteSet := MarkSet(if |b.byteSet| == 0 then Cleared(pieceSize) else b.byteSet, boxOff, boxOff + |part|))
  }

  function Zeros(n: nat): seq<byte> { seq(n, _ => 0) }

  function Cleared(n: nat): seq<bool> { seq(n, _ => false) }

  function MarkSet(bits: seq<bool>, lo: nat, hi: nat): (r: seq<bool>)
    ensures |r| == |bits| && forall j :: 0 <= j < |bits| ==> r[j] == (bits[j] || lo <= j < hi)
  {
    seq(|bits|, j requires 0 <= j < |bits| => bits[j] || lo <= j < hi)
  }

  // What a write does to a box: the written bytes are there, all others are
  // as they were.
  ghost predicate BoxWritten(b: Box, b': Box, pieceSize: nat, boxOff: nat, part: seq<byte>) {
    && b'.Ok(pieceSize) && b'.data.Some? && b'.committed == b.committed && (b.full ==> b'.full)
    && (forall j: nat :: j < pieceSize ==> (b'.Has(j) <==> b.Has(j) || boxOff <= j < boxOff + |part|))
    && (forall j: nat :: boxOff <= j < boxOff + |part| && j < pieceSize ==> b'.data.value[j] == part[j - boxOff])
    && (forall j: nat :: j < pieceSize && b.Has(j) && !(boxOff <= j < boxOff + |part|) ==>
          j < |b.data.value| && b'.data.value[j] == b.data.value[j])
  }

  lemma PutBoxOk(b: Box, pieceSize: nat, boxOff: nat, part: seq<byte>, now: int)
    requires b.Ok(pieceSize) && pieceSize > 0 && part != [] && boxOff + |part| <= pieceSize
    ensures BoxWritten(b, PutBox(b, pieceSize, boxOff, part, now), pieceSize, boxOff, part)
  {
    var b' := PutBox(b, pieceSize, boxOff, part, now);
    if |part| != pieceSize { assert b'.byteSet[boxOff]; }
  }

  // A write of n bytes at off reaches box k.
  predicate Touches(pieceSize: nat, off: nat, n: nat, k: nat) {
    n > 0 && off < k * pieceSize + pieceSize && k * pieceSize < off + n
  }

  // That is, one of the bytes falls into it.
  lemma TouchesIff(pieceSize: nat, off: nat, n: nat, k: nat)
    requires pieceSize > 0
    ensures Touches(pieceSize, off, n, k) <==> exists x: nat :: off <= x < off + n && x / pieceSize == k
  {
    if Touches(pieceSize, off, n, k) {
      var x := if off < k * pieceSize then k * pieceSize else off;
      DivUnique(x, pieceSize, k);
      assert off <= x < off + n;
    }
    forall x: nat | off <= x < off + n && x / pieceSize == k ensures Touches(pieceSize, off, n, k) {
      DivBounds(x, pieceSize);
    }
  }

  // The boxes that a write reaches were stamped while the clock went from now
  // to now'; the others keep their times.
  ghost predicate Stamped(boxes: seq<Box>, boxes': seq<Box>, pieceSize: nat, off: nat, n: nat, now: int, now': int) {
    && |boxes'| == |boxes| && now <= now'
    && (forall k :: 0 <= k < |boxes| && Touches(pieceSize, off, n, k) ==> now <= boxes'[k].atime <= now')
    && (forall k :: 0 <= k < |boxes| && !Touches(pieceSize, off, n, k) ==> boxes'[k].atime == boxes[k].atime)
  }

  // The same for the boxes from lo to hi.
  ghost predicate StampedFrom(boxes: seq<Box>, boxes': seq<Box>, lo: nat, hi: nat, now: int, now': int) {
    && |boxes'| == |boxes| && now <= now'
    && forall k :: 0 <= k < |boxes| ==>
         if lo <= k < hi then now <= boxes'[k].atime <= now' else boxes'[k].atime == boxes[k].atime
  }

  lemma StampedNext(boxes: seq<Box>, boxes1: seq<Box>, boxes2: seq<Box>, lo: nat, hi: nat, now: int, now1: int, now2: int)
    requires StampedFrom(boxes, boxes1, lo, hi, now, now1) && StampedFrom(boxes1, boxes2, hi, hi + 1, now1, now2) && lo <= hi
    ensures StampedFrom(boxes, boxes2, lo, hi + 1, now, now2)
  {
  }

  // Box hi - 1 is the last one below position x.
  ghost predicate EndsBelow(pieceSize: nat, hi: nat, x: nat) {
    hi > 0 && (hi - 1) * pieceSize < x <= hi * pieceSize
  }

  lemma EndsInBox(pieceSize: nat, i: nat, x: nat)
    requires i * pieceSize < x <= i * pieceSize + pieceSize
    ensures EndsBelow(pieceSize, i + 1, x)
  {
  }

  lemma TouchedBoxes(pieceSize: nat, off: nat, n: nat, hi: nat, k: nat)
    requires pieceSize > 0 && n > 0 && EndsBelow(pieceSize, hi, off + n)
    ensures Touches(pieceSize, off, n, k) <==> off / pieceSize <= k < hi
  {
    DivBounds(off, pieceSize);
    var lo := off / pieceSize;
    if k < lo { MulLe(k + 1, lo, pieceSize); } else { MulLe(lo, k, pieceSize); }
    if k < hi { MulLe(k, hi - 1, pieceSize); } else { MulLe(hi, k, pieceSize); }
  }

  lemma FromIsStamped(boxes: seq<Box>, boxes': seq<Box>, pieceSize: nat, off: nat, n: nat, lo: nat, hi: nat,
                      now: int, now': int)
    requires pieceSize > 0 && n > 0 && EndsBelow(pieceSize, hi, off + n) && lo == off / pieceSize
    requires StampedFrom(boxes, boxes', lo, hi, now, now')
    ensures Stamped(boxes, boxes', pieceSize, off, n, now, now')
  {
    forall k: nat | k < |boxes| ensures Touches(pieceSize, off, n, k) <==> lo <= k < hi {
      TouchedBoxes(pieceSize, off, n, hi, k);
    }
  }

  // Position x after the first i bytes of p were written at off.
  ghost predicate WroteAt(boxes: seq<Box>, boxes': seq<Box>, pieceSize: nat, off: nat, p: seq<byte>, i: nat, x: nat)
    requires AllOk(boxes, pieceSize) && AllOk(boxes', pieceSize) && i <= |p| && |boxes'| == |boxes|
  {
    && (Cached(boxes', pieceSize, x) <==> x / pieceSize < |boxes| && (Cached(boxes, pieceSize, x) || off <= x < off + i))
    && (Cached(boxes', pieceSize, x) ==>
          CachedByte(boxes', pieceSize, x) == if off <= x < off + i then p[x - off] else CachedByte(boxes, pieceSize, x))
  }

  // The boxes after the first i bytes of p were written at off.
  ghost predicate WroteBelow(boxes: seq<Box>, boxes': seq<Box>, pieceSize: nat, off: nat, p: seq<byte>, i: nat)
    requires AllOk(boxes, pieceSize)
  {
    && AllOk(boxes', pieceSize) && |boxes'| == |boxes| && i <= |p|
    && (forall x: nat :: WroteAt(boxes, boxes', pieceSize, off, p, i, x))
    && (forall k :: 0 <= k < |boxes| ==> boxes'[k].committed == boxes[k].committed)
  }

  lemma NothingWritten(boxes: seq<Box>, pieceSize: nat, off: nat, p: seq<byte>)
    requires AllOk(boxes, pieceSize)
    ensures WroteBelow(boxes, boxes, pieceSize, off, p, 0)
  {
    forall x: nat ensures WroteAt(boxes, boxes, pieceSize, off, p, 0, x) {
    }
  }

  lemma PutStep(boxes: seq<Box>, boxes': seq<Box>, b: Box, pieceSize: nat, off: nat, p: seq<byte>, i: nat,
                boxI: nat, boxOff: nat, i': nat)
    requires AllOk(boxes, pieceSize) && WroteBelow(boxes, boxes', pieceSize, off, p, i)
    requires boxI < |boxes| && off + i == boxI * pieceSize + boxOff && i < i' <= |p| && boxOff + (i' - i) <= pieceSize
    requires BoxWritten(boxes'[boxI], b, pieceSize, boxOff, p[i..i'])
    ensures WroteBelow(boxes, boxes'[boxI := b], pieceSize, off, p, i')
  {
    var boxes2 := boxes'[boxI := b];
    forall x: nat ensures WroteAt(boxes, boxes2, pieceSize, off, p, i', x) {
      assert WroteAt(boxes, boxes', pieceSize, off, p, i, x);
      DivBounds(x, pieceSize);
      if x / pieceSize == boxI {
        PutStepInside(boxes, boxes', b, pieceSize, off, p, i, boxI, boxOff, i', x);
      } else {
        PutStepOutside(boxes, boxes', b, pieceSize, off, p, i, boxI, boxOff, i', x);
      }
    }
  }

  lemma PutStepOutside(boxes: seq<Box>, boxes': seq<Box>, b: Box, pieceSize: nat, off: nat, p: seq<byte>, i: nat,
                       boxI: nat, boxOff: nat, i': nat, x: nat)
    requires AllOk(boxes, pieceSize) && AllOk(boxes', pieceSize) && |boxes'| == |boxes| && b.Ok(pieceSize)
    requires boxI < |boxes| && off + i == boxI * pieceSize + boxOff && i < i' <= |p| && boxOff + (i' - i) <= pieceSize
    requires WroteAt(boxes, boxes', pieceSize, off, p, i, x) && x / pieceSize != boxI
    ensures WroteAt(boxes, boxes'[boxI := b], pieceSize, off, p, i', x)
  {
    assert !(off + i <= x < off + i') by {
      if off + i <= x < off + i' { DivUnique(x, pieceSize, boxI); }
    }
    assert x / pieceSize < |boxes| ==> boxes'[boxI := b][x / pieceSize] == boxes'[x / pieceSize];
  }

  lemma PutStepInside(boxes: seq<Box>, boxes': seq<Box>, b: Box, pieceSize: nat, off: nat, p: seq<byte>, i: nat,
                      boxI: nat, boxOff: nat, i': nat, x: nat)
    requires AllOk(boxes, pieceSize) && AllOk(boxes', pieceSize) && |boxes'| == |boxes| && b.Ok(pieceSize)
    requires boxI < |boxes| && off + i == boxI * pieceSize + boxOff && i < i' <= |p| && boxOff + (i' - i) <= pieceSize
    requires BoxWritten(boxes'[boxI], b, pieceSize, boxOff, p[i..i'])
    requires WroteAt(boxes, boxes', pieceSize, off, p, i, x)
    requires x / pieceSize == boxI && x == boxI * pieceSize + x % pieceSize
    ensures WroteAt(boxes, boxes'[boxI := b], pieceSize, off, p, i', x)
  {
    var j := x % pieceSize;
    assert boxOff <= j < boxOff + (i' - i) <==> off + i <= x < off + i';
    assert b.Has(j) <==> boxes'[boxI].Has(j) || boxOff <= j < boxOff + (i' - i);
  }
}
