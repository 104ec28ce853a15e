// When a cache over files agrees with a plain sequence of bytes: writing always
// keeps the agreement, and trimming and committing keep it under exact
// conditions on the boxes that they touch. What makes these conditions hold.

module CacheDiscipline {
  import opened Options
  import opened Arith
  import opened Bytes
  import opened Boxes
  import opened Evictions

  // A cache that covers the files.
  ghost predicate Covers(boxes: seq<Box>, pieceSize: nat, disk: seq<byte>) {
    AllOk(boxes, pieceSize) && |disk| <= |boxes| * pieceSize
  }

  // A reader of the cache over disk sees plain.
  ghost predicate Agrees(boxes: seq<Box>, pieceSize: nat, disk: seq<byte>, plain: seq<byte>) {
    && Covers(boxes, pieceSize, disk) && |disk| == |plain|
    && forall x: nat :: x < |plain| ==> ViewAt(boxes, pieceSize, disk, x) == plain[x]
  }

  // What is committed is on disk.
  ghost predicate OnDisk(boxes: seq<Box>, pieceSize: nat, disk: seq<byte>) {
    forall i :: 0 <= i < |boxes| && boxes[i].committed ==> Synced(boxes[i], i, pieceSize, disk)
  }

  // ---- Writing ----

  // Whatever is written, and wherever, a reader sees it.
  lemma WriteAgrees(boxes: seq<Box>, boxes': seq<Box>, pieceSize: nat, off: nat, p: seq<byte>,
                    disk: seq<byte>, plain: seq<byte>)
    requires Agrees(boxes, pieceSize, disk, plain) && WroteBelow(boxes, boxes', pieceSize, off, p, |p|)
    ensures Agrees(boxes', pieceSize, disk, Splice(plain, off, p))
  {
    forall x: nat | x < |plain| ensures ViewAt(boxes', pieceSize, disk, x) == Splice(plain, off, p)[x] {
      InSomeBox(pieceSize, |boxes|, x);
      assert ViewAt(boxes, pieceSize, disk, x) == plain[x];
      assert WroteAt(boxes, boxes', pieceSize, off, p, |p|, x);
    }
  }

  // Byte j of box i would be written after a write of n bytes at off.
  ghost predicate SetAfter(boxes: seq<Box>, pieceSize: nat, off: nat, n: nat, i: nat, j: nat)
    requires i < |boxes|
  {
    boxes[i].Has(j) || off <= i * pieceSize + j < off + n
  }

  lemma WrittenByte(boxes: seq<Box>, boxes': seq<Box>, pieceSize: nat, off: nat, p: seq<byte>, i: nat, j: nat)
    requires AllOk(boxes, pieceSize) && WroteBelow(boxes, boxes', pieceSize, off, p, |p|)
    requires i < |boxes| && j < pieceSize
    ensures boxes'[i].Has(j) <==> SetAfter(boxes, pieceSize, off, |p|, i, j)
    ensures boxes'[i].Has(j) && off <= i * pieceSize + j < off + |p| ==> boxes'[i].data.value[j] == p[i * pieceSize + j - off]
    ensures boxes'[i].Has(j) && !(off <= i * pieceSize + j < off + |p|) ==> boxes'[i].data.value[j] == boxes[i].data.value[j]
  {
    At(pieceSize, i, j);
    assert WroteAt(boxes, boxes', pieceSize, off, p, |p|, i * pieceSize + j);
  }

  // Byte x of a write of p at off leaves its box as it is on disk.
  ghost predicate SameOnDisk(boxes: seq<Box>, pieceSize: nat, off: nat, p: seq<byte>, disk: seq<byte>, x: nat)
    requires pieceSize > 0
  {
    off <= x < off + |p| && x < |disk| && x / pieceSize < |boxes| && boxes[x / pieceSize].committed ==> p[x - off] == disk[x]
  }

  // A write leaves the committed boxes on disk exactly when what it puts into
  // them is there already.
  lemma WriteOnDiskIff(boxes: seq<Box>, boxes': seq<Box>, pieceSize: nat, off: nat, p: seq<byte>, disk: seq<byte>)
    requires AllOk(boxes, pieceSize) && OnDisk(boxes, pieceSize, disk) && WroteBelow(boxes, boxes', pieceSize, off, p, |p|)
    ensures OnDisk(boxes', pieceSize, disk) <==> forall x: nat :: SameOnDisk(boxes, pieceSize, off, p, disk, x)
  {
    if OnDisk(boxes', pieceSize, disk) {
      forall x: nat ensures SameOnDisk(boxes, pieceSize, off, p, disk, x) {
        DivBounds(x, pieceSize);
        if x / pieceSize < |boxes| { WrittenByte(boxes, boxes', pieceSize, off, p, x / pieceSize, x % pieceSize); }
      }
    }
    if forall x: nat :: SameOnDisk(boxes, pieceSize, off, p, disk, x) {
      forall i | 0 <= i < |boxes| && boxes'[i].committed ensures Synced(boxes'[i], i, pieceSize, disk) {
        WriteKeepsSynced(boxes, boxes', pieceSize, off, p, disk, i);
      }
    }
  }

  lemma WriteKeepsSynced(boxes: seq<Box>, boxes': seq<Box>, pieceSize: nat, off: nat, p: seq<byte>, disk: seq<byte>, i: nat)
    requires AllOk(boxes, pieceSize) && WroteBelow(boxes, boxes', pieceSize, off, p, |p|)
    requires i < |boxes| && boxes[i].committed && Synced(boxes[i], i, pieceSize, disk)
    requires forall x: nat :: SameOnDisk(boxes, pieceSize, off, p, disk, x)
    ensures Synced(boxes'[i], i, pieceSize, disk)
  {
    forall j: nat | j < pieceSize && i * pieceSize + j < |disk|
      ensures boxes'[i].Has(j) && boxes'[i].data.value[j] == disk[i * pieceSize + j]
    {
      At(pieceSize, i, j);
      WrittenByte(boxes, boxes', pieceSize, off, p, i, j);
      assert boxes[i].Has(j) && boxes[i].data.value[j] == disk[i * pieceSize + j];
      assert SameOnDisk(boxes, pieceSize, off, p, disk, i * pieceSize + j);
    }
    WrittenByte(boxes, boxes', pieceSize, off, p, i, 0);
  }

  // No byte of the write falls into a committed box.
  ghost predicate MissesCommitted(boxes: seq<Box>, pieceSize: nat, off: nat, n: nat) {
    forall i :: 0 <= i < |boxes| && boxes[i].committed ==> i * pieceSize + pieceSize <= off || off + n <= i * pieceSize
  }

  lemma MissIsSame(boxes: seq<Box>, pieceSize: nat, off: nat, p: seq<byte>, disk: seq<byte>)
    requires pieceSize > 0 && MissesCommitted(boxes, pieceSize, off, |p|)
    ensures forall x: nat :: SameOnDisk(boxes, pieceSize, off, p, disk, x)
  {
    forall x: nat ensures SameOnDisk(boxes, pieceSize, off, p, disk, x) {
      DivBounds(x, pieceSize);
    }
  }

  // ---- Trimming ----

  // The two differ at most within the boxes listed.
  ghost predicate OnlyBoxes(disk: seq<byte>, disk': seq<byte>, pieceSize: nat, listed: seq<nat>)
    requires pieceSize > 0
  {
    |disk'| == |disk| && forall x: nat :: x < |disk| && x / pieceSize !in listed ==> disk'[x] == disk[x]
  }

  lemma SyncedStays(b: Box, i: nat, pieceSize: nat, disk: seq<byte>, disk': seq<byte>, listed: seq<nat>)
    requires pieceSize > 0 && b.Ok(pieceSize) && Synced(b, i, pieceSize, disk)
    requires OnlyBoxes(disk, disk', pieceSize, listed) && i !in listed
    ensures Synced(b, i, pieceSize, disk')
  {
    forall j: nat | j < pieceSize && i * pieceSize + j < |disk|
      ensures j < |b.data.value| && b.data.value[j] == disk'[i * pieceSize + j]
    {
      At(pieceSize, i, j);
      assert b.data.value[j] == disk[i * pieceSize + j];
    }
  }

  // The committed boxes that stay are on disk as before, as long as nothing but
  // the spans of the evicted boxes was written.
  lemma TrimOnDisk(boxes: seq<Box>, boxes': seq<Box>, pieceSize: nat, dropped: set<nat>, evicted: seq<nat>,
                   chunks: seq<Chunk>, disk: seq<byte>, disk': seq<byte>)
    requires AllOk(boxes, pieceSize) && Trimmed(boxes, boxes', pieceSize, dropped, evicted, chunks)
    requires OnlyBoxes(disk, disk', pieceSize, evicted) && OnDisk(boxes, pieceSize, disk)
    ensures OnDisk(boxes', pieceSize, disk')
  {
    forall i | 0 <= i < |boxes'| && boxes'[i].committed ensures Synced(boxes'[i], i, pieceSize, disk') {
      SyncedStays(boxes[i], i, pieceSize, disk, disk', evicted);
    }
  }

  // What is dropped is on disk, and writing back what is evicted is harmless.
  ghost predicate TrimHarmless(boxes: seq<Box>, pieceSize: nat, disk: seq<byte>, dropped: set<nat>,
                               evicted: seq<nat>, parts: seq<Chunk>)
    requires AllOk(boxes, pieceSize)
  {
    && (forall i :: i in dropped && i < |boxes| ==> Synced(boxes[i], i, pieceSize, disk))
    && EvictHarmless(boxes, pieceSize, disk, evicted, parts)
  }

  // Trimming keeps the agreement exactly when it is harmless, whether or not
  // all of the evicted data reaches the files.
  lemma TrimAgreesIff(boxes: seq<Box>, boxes': seq<Box>, pieceSize: nat, dropped: set<nat>, evicted: seq<nat>,
                      chunks: seq<Chunk>, parts: seq<Chunk>, disk: seq<byte>, plain: seq<byte>)
    requires Agrees(boxes, pieceSize, disk, plain) && Trimmed(boxes, boxes', pieceSize, dropped, evicted, chunks)
    requires PartsOf(parts, chunks)
    ensures Covers(boxes', pieceSize, Flushed(disk, parts))
    ensures Agrees(boxes', pieceSize, Flushed(disk, parts), plain)
      <==> TrimHarmless(boxes, pieceSize, disk, dropped, evicted, parts)
  {
    TrimIff(boxes, boxes', pieceSize, dropped, evicted, chunks, parts, disk);
    SameAgrees(boxes, boxes', pieceSize, disk, Flushed(disk, parts), plain);
  }

  lemma SameAgrees(boxes: seq<Box>, boxes': seq<Box>, pieceSize: nat, disk: seq<byte>, disk': seq<byte>, plain: seq<byte>)
    requires Agrees(boxes, pieceSize, disk, plain) && Covers(boxes', pieceSize, disk') && |disk'| == |disk|
    ensures Agrees(boxes', pieceSize, disk', plain) <==> SameView(boxes, disk, boxes', disk', pieceSize)
  {
    if SameView(boxes, disk, boxes', disk', pieceSize) {
      forall x: nat | x < |plain| ensures ViewAt(boxes', pieceSize, disk', x) == plain[x] {
        assert ViewAt(boxes, pieceSize, disk, x) == plain[x];
      }
    }
  }

  // When the committed boxes are on disk, only the evicted ones matter.
  lemma DroppedHarmless(boxes: seq<Box>, pieceSize: nat, disk: seq<byte>, dropped: set<nat>, evicted: seq<nat>,
                        parts: seq<Chunk>)
    requires AllOk(boxes, pieceSize) && OnDisk(boxes, pieceSize, disk) && CommittedIn(boxes, dropped)
    ensures TrimHarmless(boxes, pieceSize, disk, dropped, evicted, parts)
      <==> EvictHarmless(boxes, pieceSize, disk, evicted, parts)
  {
  }

  // When no file fails, only the gaps of the evicted boxes matter.
  lemma NoFailureIff(boxes: seq<Box>, pieceSize: nat, disk: seq<byte>, evicted: seq<nat>, chunks: seq<Chunk>)
    requires AllOk(boxes, pieceSize) && Evicted(boxes, pieceSize, evicted, chunks)
    ensures EvictHarmless(boxes, pieceSize, disk, evicted, chunks)
      <==> forall k :: 0 <= k < |evicted| ==> HolesHarmless(boxes[evicted[k]], evicted[k], pieceSize, disk)
  {
    forall k | 0 <= k < |evicted|
      ensures WriteBackHarmless(boxes[evicted[k]], evicted[k], pieceSize, chunks[k], disk)
        <==> HolesHarmless(boxes[evicted[k]], evicted[k], pieceSize, disk)
    {
      WholeChunkIff(boxes[evicted[k]], evicted[k], pieceSize, chunks[k], disk);
    }
  }

  lemma FlushedOnly(boxes: seq<Box>, pieceSize: nat, evicted: seq<nat>, chunks: seq<Chunk>, parts: seq<Chunk>, disk: seq<byte>)
    requires AllOk(boxes, pieceSize) && Evicted(boxes, pieceSize, evicted, chunks) && PartsOf(parts, chunks)
    ensures OnlyBoxes(disk, Flushed(disk, parts), pieceSize, evicted)
  {
    forall x: nat | x < |disk| && x / pieceSize !in evicted ensures Flushed(disk, parts)[x] == disk[x] {
      FlushedElsewhere(boxes, pieceSize, evicted, chunks, parts, disk, x);
    }
  }

  // The boxes after a write and before the trimming that it caused; what was
  // dropped, what was evicted with which chunks, and what of these reached the
  // files.
  datatype Trimming = Trimming(written: seq<Box>, dropped: set<nat>, evicted: seq<nat>, chunks: seq<Chunk>, parts: seq<Chunk>)

  // A write of p at off, the trimming that it causes and writing back.
  ghost predicate WritesAndTrims(boxes: seq<Box>, disk: seq<byte>, pieceSize: nat, off: nat, p: seq<byte>, t: Trimming,
                                 boxes': seq<Box>, disk': seq<byte>)
    requires AllOk(boxes, pieceSize)
  {
    && WroteBelow(boxes, t.written, pieceSize, off, p, |p|)
    && Trimmed(t.written, boxes', pieceSize, t.dropped, t.evicted, t.chunks)
    && PartsOf(t.parts, t.chunks) && disk' == Flushed(disk, t.parts)
  }

  ghost predicate Harmless(t: Trimming, pieceSize: nat, disk: seq<byte>)
    requires AllOk(t.written, pieceSize)
  {
    TrimHarmless(t.written, pieceSize, disk, t.dropped, t.evicted, t.parts)
  }

  lemma WriteAndTrimIff(boxes: seq<Box>, disk: seq<byte>, pieceSize: nat, off: nat, p: seq<byte>, t: Trimming,
                        boxes': seq<Box>, disk': seq<byte>, plain: seq<byte>)
    requires Covers(boxes, pieceSize, disk) && WritesAndTrims(boxes, disk, pieceSize, off, p, t, boxes', disk')
    ensures Covers(boxes', pieceSize, disk')
    ensures Agrees(boxes, pieceSize, disk, plain) ==>
      (Agrees(boxes', pieceSize, disk', Splice(plain, off, p)) <==> Harmless(t, pieceSize, disk))
  {
    TrimmedOk(t.written, boxes', pieceSize, t.dropped + Elements(t.evicted));
    if Agrees(boxes, pieceSize, disk, plain) {
      WriteAgrees(boxes, t.written, pieceSize, off, p, disk, plain);
      TrimAgreesIff(t.written, boxes', pieceSize, t.dropped, t.evicted, t.chunks, t.parts, disk, Splice(plain, off, p));
    }
  }

  // If the write meets no committed box, the committed ones stay on disk, and
  // only writing back the evicted ones can do harm.
  lemma WriteStaysOnDisk(boxes: seq<Box>, disk: seq<byte>, pieceSize: nat, off: nat, p: seq<byte>, t: Trimming,
                         boxes': seq<Box>, disk': seq<byte>)
    requires AllOk(boxes, pieceSize) && WritesAndTrims(boxes, disk, pieceSize, off, p, t, boxes', disk')
    requires OnDisk(boxes, pieceSize, disk) && MissesCommitted(boxes, pieceSize, off, |p|)
    ensures OnDisk(boxes', pieceSize, disk')
    ensures Harmless(t, pieceSize, disk) <==> EvictHarmless(t.written, pieceSize, disk, t.evicted, t.parts)
  {
    MissIsSame(boxes, pieceSize, off, p, disk);
    WriteOnDiskIff(boxes, t.written, pieceSize, off, p, disk);
    FlushedOnly(t.written, pieceSize, t.evicted, t.chunks, t.parts, disk);
    TrimOnDisk(t.written, boxes', pieceSize, t.dropped, t.evicted, t.chunks, disk, disk');
    DroppedHarmless(t.written, pieceSize, disk, t.dropped, t.evicted, t.parts);
  }

  // ---- Committing ----

  // Bytes may be written to the files early, as long as they are the right ones.
  lemma DiskCatchesUp(boxes: seq<Box>, pieceSize: nat, disk: seq<byte>, disk': seq<byte>, plain: seq<byte>)
    requires Agrees(boxes, pieceSize, disk, plain) && |disk'| == |disk|
    requires forall x: nat :: x < |disk| ==> disk'[x] == disk[x] || disk'[x] == plain[x]
    ensures Agrees(boxes, pieceSize, disk', plain)
    ensures OnDisk(boxes, pieceSize, disk) ==> OnDisk(boxes, pieceSize, disk')
  {
    forall x: nat | x < |plain| ensures ViewAt(boxes, pieceSize, disk', x) == plain[x] {
      assert ViewAt(boxes, pieceSize, disk, x) == plain[x];
    }
    if OnDisk(boxes, pieceSize, disk) {
      forall i | 0 <= i < |boxes| && boxes[i].committed ensures Synced(boxes[i], i, pieceSize, disk') {
        SyncedCatchesUp(boxes, pieceSize, disk, disk', plain, i);
      }
    }
  }

  lemma SyncedCatchesUp(boxes: seq<Box>, pieceSize: nat, disk: seq<byte>, disk': seq<byte>, plain: seq<byte>, i: nat)
    requires Agrees(boxes, pieceSize, disk, plain) && |disk'| == |disk| && i < |boxes| && boxes[i].committed
    requires forall x: nat :: x < |disk| ==> disk'[x] == disk[x] || disk'[x] == plain[x]
    requires Synced(boxes[i], i, pieceSize, disk)
    ensures Synced(boxes[i], i, pieceSize, disk')
  {
    forall j: nat | j < pieceSize && i * pieceSize + j < |disk|
      ensures j < |boxes[i].data.value| && boxes[i].data.value[j] == disk'[i * pieceSize + j]
    {
      InFileByte(boxes, pieceSize, disk, plain, i, j);
      assert boxes[i].data.value[j] == disk[i * pieceSize + j];
    }
  }

  lemma InFileByte(boxes: seq<Box>, pieceSize: nat, disk: seq<byte>, plain: seq<byte>, i: nat, j: nat)
    requires Agrees(boxes, pieceSize, disk, plain) && i < |boxes| && j < pieceSize && i * pieceSize + j < |plain|
    ensures boxes[i].Has(j) ==> boxes[i].data.value[j] == plain[i * pieceSize + j]
    ensures !boxes[i].Has(j) ==> disk[i * pieceSize + j] == plain[i * pieceSize + j]
  {
    At(pieceSize, i, j);
    assert ViewAt(boxes, pieceSize, disk, i * pieceSize + j) == plain[i * pieceSize + j];
  }

  // The buffer of the box has the bytes on disk wherever nothing was written.
  ghost predicate MarkHarmless(b: Box, i: nat, pieceSize: nat, disk: seq<byte>)
    requires b.Ok(pieceSize)
  {
    b.data.Some? ==> forall j: nat :: j < pieceSize && !b.Has(j) && i * pieceSize + j < |disk| ==>
      b.data.value[j] == disk[i * pieceSize + j]
  }

  // Marking a box committed keeps the agreement exactly when it is harmless.
  lemma MarkAgreesIff(boxes: seq<Box>, pieceSize: nat, disk: seq<byte>, plain: seq<byte>, i: nat)
    requires Agrees(boxes, pieceSize, disk, plain) && i < |boxes|
    ensures Covers(boxes[i := Marked(boxes[i])], pieceSize, disk)
    ensures Agrees(boxes[i := Marked(boxes[i])], pieceSize, disk, plain) <==> MarkHarmless(boxes[i], i, pieceSize, disk)
  {
    var b, b' := boxes[i], Marked(boxes[i]);
    var boxes' := boxes[i := b'];
    if b.data.Some? {
      MarkIff(b, i, pieceSize, disk);
      assert AllOk(boxes', pieceSize);
      OneBoxIff(boxes, boxes', pieceSize, disk, i);
      SameAgrees(boxes, boxes', pieceSize, disk, disk, plain);
    } else {
      assert boxes' == boxes;
    }
  }

  lemma OneBoxIff(boxes: seq<Box>, boxes': seq<Box>, pieceSize: nat, disk: seq<byte>, i: nat)
    requires Covers(boxes, pieceSize, disk) && AllOk(boxes', pieceSize) && i < |boxes| == |boxes'|
    requires forall k :: 0 <= k < |boxes| && k != i ==> boxes'[k] == boxes[k]
    ensures SameView(boxes, disk, boxes', disk, pieceSize) <==> SeenSame(boxes[i], disk, boxes'[i], disk, i, pieceSize)
  {
    BoxByBox(boxes, disk, boxes', disk, pieceSize);
  }

  // A box is on disk after being marked when its whole piece was written there.
  lemma MarkOnDisk(boxes: seq<Box>, pieceSize: nat, disk: seq<byte>, plain: seq<byte>, i: nat)
    requires Agrees(boxes, pieceSize, disk, plain) && OnDisk(boxes, pieceSize, disk) && i < |boxes|
    requires forall x: nat :: i * pieceSize <= x < i * pieceSize + pieceSize && x < |disk| ==> disk[x] == plain[x]
    ensures OnDisk(boxes[i := Marked(boxes[i])], pieceSize, disk) <==> MarkHarmless(boxes[i], i, pieceSize, disk)
  {
    var b, boxes' := boxes[i], boxes[i := Marked(boxes[i])];
    forall j: nat | j < pieceSize && i * pieceSize + j < |disk|
      ensures b.Has(j) ==> b.data.value[j] == disk[i * pieceSize + j]
    {
      InFileByte(boxes, pieceSize, disk, plain, i, j);
    }
    if b.data.Some? {
      assert boxes'[i].committed && boxes'[i].data == b.data;
      assert Synced(boxes'[i], i, pieceSize, disk) <==> MarkHarmless(b, i, pieceSize, disk);
    }
  }

  // All bytes of box i that the files have were written.
  ghost predicate FilledIn(b: Box, i: nat, pieceSize: nat, total: nat) {
    b.data.Some? ==> forall j: nat :: j < pieceSize && i * pieceSize + j < total ==> b.Has(j)
  }

  lemma FilledHarmless(b: Box, i: nat, pieceSize: nat, disk: seq<byte>)
    requires b.Ok(pieceSize) && FilledIn(b, i, pieceSize, |disk|)
    ensures MarkHarmless(b, i, pieceSize, disk)
  {
  }

  // ---- Whole pieces ----

  // Every box is empty, or holds all bytes of its piece and none after a gap.
  ghost predicate Whole(boxes: seq<Box>, pieceSize: nat, total: nat) {
    forall i :: 0 <= i < |boxes| && boxes[i].data.Some? ==> WholeBox(boxes[i], i, pieceSize, total)
  }

  ghost predicate WholeBox(b: Box, i: nat, pieceSize: nat, total: nat) {
    FilledIn(b, i, pieceSize, total) && forall j: nat, z: nat :: j < z < pieceSize && b.Has(z) ==> b.Has(j)
  }

  lemma InSpan(pieceSize: nat, k: nat, n: nat, i: nat, j: nat)
    requires j < pieceSize && n <= pieceSize
    ensures k * pieceSize <= i * pieceSize + j < k * pieceSize + n <==> i == k && j < n
  {
    if i < k { MulLe(i + 1, k, pieceSize); }
    if k < i { MulLe(k + 1, i, pieceSize); }
  }

  lemma Apart(pieceSize: nat, k: nat, n: nat, i: nat)
    requires i != k && n <= pieceSize
    ensures i * pieceSize + pieceSize <= k * pieceSize || k * pieceSize + n <= i * pieceSize
  {
    if i < k { MulLe(i + 1, k, pieceSize); } else { MulLe(k + 1, i, pieceSize); }
  }

  // A whole piece that is not committed meets no committed box.
  lemma WholeMisses(boxes: seq<Box>, pieceSize: nat, k: nat, begin: nat, n: nat)
    requires begin + n <= pieceSize && k < |boxes| && !boxes[k].committed
    ensures MissesCommitted(boxes, pieceSize, k * pieceSize + begin, n)
  {
    forall i | 0 <= i < |boxes| && boxes[i].committed
      ensures i * pieceSize + pieceSize <= k * pieceSize + begin || k * pieceSize + begin + n <= i * pieceSize
    {
      Apart(pieceSize, k, begin + n, i);
    }
  }

  // The written bytes of the box that did not reach the files are there already.
  ghost predicate Lossless(b: Box, i: nat, pieceSize: nat, part: Chunk, disk: seq<byte>)
    requires b.Ok(pieceSize)
  {
    forall j: nat :: j < pieceSize && i * pieceSize + j < |disk| && b.Has(j) && !Reached(part, i * pieceSize + j) ==>
      b.data.value[j] == disk[i * pieceSize + j]
  }

  ghost predicate AllLossless(boxes: seq<Box>, pieceSize: nat, disk: seq<byte>, evicted: seq<nat>, parts: seq<Chunk>)
    requires AllOk(boxes, pieceSize)
  {
    forall k :: 0 <= k < |evicted| && k < |parts| && evicted[k] < |boxes| ==>
      Lossless(boxes[evicted[k]], evicted[k], pieceSize, parts[k], disk)
  }

  // Boxes that hold whole pieces have no gaps, whichever of them is evicted:
  // only what a failing file keeps out of the files matters.
  lemma WholeHarmlessIff(boxes: seq<Box>, pieceSize: nat, disk: seq<byte>, evicted: seq<nat>, parts: seq<Chunk>)
    requires AllOk(boxes, pieceSize) && Whole(boxes, pieceSize, |disk|)
    ensures EvictHarmless(boxes, pieceSize, disk, evicted, parts) <==> AllLossless(boxes, pieceSize, disk, evicted, parts)
  {
    forall k | 0 <= k < |evicted| && k < |parts| && evicted[k] < |boxes|
      ensures WriteBackHarmless(boxes[evicted[k]], evicted[k], pieceSize, parts[k], disk)
        <==> Lossless(boxes[evicted[k]], evicted[k], pieceSize, parts[k], disk)
    {
      WholeBoxIff(boxes[evicted[k]], evicted[k], pieceSize, parts[k], disk);
    }
  }

  lemma WholeBoxIff(b: Box, i: nat, pieceSize: nat, part: Chunk, disk: seq<byte>)
    requires b.Ok(pieceSize) && (b.data.Some? ==> WholeBox(b, i, pieceSize, |disk|))
    ensures WriteBackHarmless(b, i, pieceSize, part, disk) <==> Lossless(b, i, pieceSize, part, disk)
  {
    if b.data.Some? { WholeHasNoHole(b, i, pieceSize, |disk|); }
    if WriteBackHarmless(b, i, pieceSize, part, disk) {
      forall j: nat | j < pieceSize && i * pieceSize + j < |disk| && b.Has(j) && !Reached(part, i * pieceSize + j)
        ensures b.data.value[j] == disk[i * pieceSize + j]
      {
        assert Exposed(b, part, i * pieceSize + j, j);
      }
    }
  }

  // Nothing is lost when no file fails.
  lemma NoFailureLossless(boxes: seq<Box>, pieceSize: nat, disk: seq<byte>, evicted: seq<nat>, chunks: seq<Chunk>)
    requires AllOk(boxes, pieceSize) && Evicted(boxes, pieceSize, evicted, chunks)
    ensures AllLossless(boxes, pieceSize, disk, evicted, chunks)
  {
    forall k, j: nat | 0 <= k < |evicted| && j < pieceSize && boxes[evicted[k]].Has(j)
      ensures Reached(chunks[k], evicted[k] * pieceSize + j)
    {
      ChunkHasAllSet(boxes[evicted[k]], evicted[k], pieceSize, chunks[k], j);
    }
  }

  lemma WholeHasNoHole(b: Box, i: nat, pieceSize: nat, total: nat)
    requires b.Ok(pieceSize) && WholeBox(b, i, pieceSize, total)
    ensures forall j: nat :: !Hole(b, j)
  {
    forall j: nat ensures !Hole(b, j) {
      var has := b.Has(j);
      forall z: nat | j < z < |b.byteSet| && b.data.Some? && b.byteSet[z] ensures has {
        assert b.Has(z);
      }
    }
  }

  lemma WholeAfterWrite(boxes: seq<Box>, written: seq<Box>, boxes': seq<Box>, pieceSize: nat, total: nat, k: nat,
                        p: seq<byte>, dropped: set<nat>, evicted: seq<nat>, chunks: seq<Chunk>)
    requires AllOk(boxes, pieceSize) && Whole(boxes, pieceSize, total)
    requires |p| == InFile(total, k * pieceSize, pieceSize)
    requires WroteBelow(boxes, written, pieceSize, k * pieceSize, p, |p|)
    requires Trimmed(written, boxes', pieceSize, dropped, evicted, chunks)
    ensures Whole(written, pieceSize, total) && Whole(boxes', pieceSize, total)
  {
    forall i | 0 <= i < |written| && written[i].data.Some? ensures WholeBox(written[i], i, pieceSize, total) {
      WrittenWhole(boxes, written, pieceSize, total, k, p, i);
    }
  }

  // The n bytes at off are one whole piece, whose box is not committed.
  ghost predicate WholePiece(boxes: seq<Box>, off: nat, n: nat, pieceSize: nat, total: nat)
    requires pieceSize > 0
  {
    && off == off / pieceSize * pieceSize && n == InFile(total, off / pieceSize * pieceSize, pieceSize)
    && off / pieceSize < |boxes| && !boxes[off / pieceSize].committed
  }

  lemma WrittenWhole(boxes: seq<Box>, written: seq<Box>, pieceSize: nat, total: nat, k: nat, p: seq<byte>, i: nat)
    requires AllOk(boxes, pieceSize) && Whole(boxes, pieceSize, total)
    requires |p| == InFile(total, k * pieceSize, pieceSize)
    requires WroteBelow(boxes, written, pieceSize, k * pieceSize, p, |p|)
    requires i < |boxes| && written[i].data.Some?
    ensures WholeBox(written[i], i, pieceSize, total)
  {
    forall j: nat | j < pieceSize
      ensures written[i].Has(j) <==> boxes[i].Has(j) || (i == k && j < |p|)
    {
      WrittenByte(boxes, written, pieceSize, k * pieceSize, p, i, j);
      InSpan(pieceSize, k, |p|, i, j);
    }
    HasSome(written[i], pieceSize);
  }

  lemma BoxOf(pieceSize: nat, x: nat) returns (i: nat)
    requires pieceSize > 0
    ensures i == x / pieceSize
  {
    i := x / pieceSize;
  }

  // Writing a whole piece meets no committed box and leaves whole boxes, and
  // what it evicts can do harm only if it is lost.
  lemma WholeWrite(boxes: seq<Box>, disk: seq<byte>, pieceSize: nat, off: nat, p: seq<byte>, t: Trimming,
                   boxes': seq<Box>, disk': seq<byte>)
    requires AllOk(boxes, pieceSize) && Whole(boxes, pieceSize, |disk|) && WholePiece(boxes, off, |p|, pieceSize, |disk|)
    requires WritesAndTrims(boxes, disk, pieceSize, off, p, t, boxes', disk')
    ensures MissesCommitted(boxes, pieceSize, off, |p|) && Whole(boxes', pieceSize, |disk|)
    ensures EvictHarmless(t.written, pieceSize, disk, t.evicted, t.parts)
      <==> AllLossless(t.written, pieceSize, disk, t.evicted, t.parts)
  {
    var k := BoxOf(pieceSize, off);
    WholeMisses(boxes, pieceSize, k, 0, |p|);
    WholeAfterWrite(boxes, t.written, boxes', pieceSize, |disk|, k, p, t.dropped, t.evicted, t.chunks);
    WholeHarmlessIff(t.written, pieceSize, disk, t.evicted, t.parts);
  }

  lemma HasSome(b: Box, pieceSize: nat)
    requires b.Ok(pieceSize) && pieceSize > 0 && b.data.Some?
    ensures exists j: nat :: j < pieceSize && b.Has(j)
  {
    if b.full {
      assert b.Has(0);
    } else {
      var j: nat :| j < |b.byteSet| && b.byteSet[j];
      assert b.Has(j);
    }
  }

  // A whole box may be marked, and what is left is whole.
  lemma WholeMarked(boxes: seq<Box>, pieceSize: nat, disk: seq<byte>, k: nat)
    requires AllOk(boxes, pieceSize) && Whole(boxes, pieceSize, |disk|) && k < |boxes|
    ensures MarkHarmless(boxes[k], k, pieceSize, disk)
    ensures Whole(boxes[k := Marked(boxes[k])], pieceSize, |disk|)
  {
  }

  // ---- Where the conditions fail ----

  // An evicted box with a gap overwrites the byte that the files have there.
  lemma GapLosesByte()
    ensures var b := Box(Some([1, 0, 2]), false, false, [true, false, true], 0);
      && b.Ok(3) && IsChunkOf(b, 0, 3, Chunk(0, [1, 0, 2]))
      && Seen(b, 0, 3, [9, 9, 9], 1) == 9
      && Seen(b.Emptied(), 0, 3, Splice([9, 9, 9], 0, [1, 0, 2]), 1) == 0
  {
    var b := Box(Some([1, 0, 2]), false, false, [true, false, true], 0);
    assert b.byteSet[0];
    assert b.data.value[0..3] == b.data.value;
  }

  // A full box whose chunk does not reach the files is lost when it is evicted.
  lemma LostChunkLosesByte()
    ensures var b := Box(Some([7]), true, false, [], 0);
      && b.Ok(1) && IsChunkOf(b, 0, 1, Chunk(0, [7])) && PartOf(Chunk(0, []), Chunk(0, [7]))
      && Seen(b, 0, 1, [9], 0) == 7 && Seen(b.Emptied(), 0, 1, Splice([9], 0, []), 0) == 9
  {
    var p: seq<byte> := [7];
    assert p[..0] == [];
  }

  // A box that is marked while one of its bytes was never written hides it.
  lemma MarkHidesByte()
    ensures var b := Box(Some([1, 0]), false, false, [true, false], 0);
      b.Ok(2) && Seen(b, 0, 2, [1, 9], 1) == 9 && Seen(Marked(b), 0, 2, [1, 9], 1) == 0
  {
    var b := Box(Some([1, 0]), false, false, [true, false], 0);
    assert b.byteSet[0];
  }
}
