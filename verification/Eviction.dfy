// Trimming the cache: which boxes go, what is written to the files for them,
// and when a reader cannot tell the difference.

module Evictions {
  import opened Arith
  import opened Bytes
  import opened Boxes

  // Data that leaves the cache and must be written to the files.
  datatype Chunk = Chunk(off: nat, data: seq<byte>)

  // lo is the first set bit and hi is one past the last.
  ghost predicate Extent(bits: seq<bool>, lo: nat, hi: nat) {
    && lo < hi <= |bits| && bits[lo] && bits[hi - 1]
    && (forall j :: 0 <= j < lo ==> !bits[j]) && (forall j :: hi <= j < |bits| ==> !bits[j])
  }

  // The one chunk that stands for box i: all of a full box, and of any other
  // the bytes from the first written one to the last written one.
  ghost predicate IsChunkOf(b: Box, i: nat, pieceSize: nat, c: Chunk) {
    && b.data.Some? && |b.data.value| == pieceSize
    && if b.full then c == Chunk(i * pieceSize, b.data.value)
       else
         && |b.byteSet| == pieceSize && c.off >= i * pieceSize
         && Extent(b.byteSet, c.off - i * pieceSize, c.off - i * pieceSize + |c.data|)
         && c.data == b.data.value[c.off - i * pieceSize..c.off - i * pieceSize + |c.data|]
  }

  // All written bytes of the box are in its chunk.
  lemma ChunkHasAllSet(b: Box, i: nat, pieceSize: nat, c: Chunk, j: nat)
    requires b.Ok(pieceSize) && IsChunkOf(b, i, pieceSize, c) && j < pieceSize && b.Has(j)
    ensures c.off <= i * pieceSize + j < c.off + |c.data| && c.data[i * pieceSize + j - c.off] == b.data.value[j]
  {
  }

  // A byte that was not written, between two that were.
  ghost predicate Hole(b: Box, j: nat) {
    && b.data.Some? && !b.full && j < |b.byteSet| && !b.byteSet[j]
    && (exists a :: 0 <= a < j && b.byteSet[a]) && (exists z :: j < z < |b.byteSet| && b.byteSet[z])
  }

  // The unwritten bytes in the middle of the box happen to be those on disk.
  ghost predicate HolesHarmless(b: Box, i: nat, pieceSize: nat, disk: seq<byte>) {
    forall j: nat :: Hole(b, j) && i * pieceSize + j < |disk| ==> j < |b.data.value| && b.data.value[j] == disk[i * pieceSize + j]
  }

  // The box agrees with the files wherever they have a byte.
  ghost predicate Synced(b: Box, i: nat, pieceSize: nat, disk: seq<byte>) {
    b.data.Some? && forall j: nat :: j < pieceSize && i * pieceSize + j < |disk| ==>
      j < |b.data.value| && b.data.value[j] == disk[i * pieceSize + j]
  }

  lemma InsideChunk(b: Box, i: nat, pieceSize: nat, c: Chunk, j: nat)
    requires b.Ok(pieceSize) && IsChunkOf(b, i, pieceSize, c) && j < pieceSize
    ensures c.off <= i * pieceSize + j < c.off + |c.data| <==> b.Has(j) || Hole(b, j)
    ensures b.Has(j) || Hole(b, j) ==> c.data[i * pieceSize + j - c.off] == b.data.value[j]
    ensures i * pieceSize <= c.off && c.off + |c.data| <= i * pieceSize + pieceSize
  {
    if !b.full {
      var lo, hi := c.off - i * pieceSize, c.off - i * pieceSize + |c.data|;
      if lo <= j < hi && !b.byteSet[j] {
        assert b.byteSet[lo] && b.byteSet[hi - 1];
      }
    }
  }

  // What a reader sees of byte j of box i.
  ghost function Seen(b: Box, i: nat, pieceSize: nat, disk: seq<byte>, j: nat): byte
    requires b.Ok(pieceSize) && j < pieceSize
  {
    if b.Has(j) then b.data.value[j] else if i * pieceSize + j < |disk| then disk[i * pieceSize + j] else 0
  }

  ghost predicate SeenSame(b: Box, disk: seq<byte>, b': Box, disk': seq<byte>, i: nat, pieceSize: nat)
    requires b.Ok(pieceSize) && b'.Ok(pieceSize)
  {
    forall j: nat :: j < pieceSize && i * pieceSize + j < |disk| ==>
      Seen(b', i, pieceSize, disk', j) == Seen(b, i, pieceSize, disk, j)
  }

  // The first bytes of the chunk reached the files.
  ghost predicate PartOf(part: Chunk, c: Chunk) {
    part.off == c.off && |part.data| <= |c.data| && part.data == c.data[..|part.data|]
  }

  // Position x is among the bytes that reached the files.
  predicate Reached(part: Chunk, x: nat) {
    part.off <= x < part.off + |part.data|
  }

  // Byte j of the box, at position x, is overwritten without having been
  // written, or is lost although it was.
  ghost predicate Exposed(b: Box, part: Chunk, x: nat, j: nat) {
    if Reached(part, x) then Hole(b, j) else b.Has(j)
  }

  // What reached the files of the gaps of the box is what is on disk, and so is
  // what did not reach them of its written bytes.
  ghost predicate WriteBackHarmless(b: Box, i: nat, pieceSize: nat, part: Chunk, disk: seq<byte>)
    requires b.Ok(pieceSize)
  {
    forall j: nat :: j < pieceSize && i * pieceSize + j < |disk| && Exposed(b, part, i * pieceSize + j, j) ==>
      b.data.value[j] == disk[i * pieceSize + j]
  }

  // Writing a part of the chunk of a box back and dropping the box is invisible
  // exactly when that is harmless.
  lemma EvictIff(b: Box, i: nat, pieceSize: nat, c: Chunk, part: Chunk, disk: seq<byte>)
    requires pieceSize > 0 && b.Ok(pieceSize) && IsChunkOf(b, i, pieceSize, c) && PartOf(part, c)
    ensures SeenSame(b, disk, b.Emptied(), Splice(disk, part.off, part.data), i, pieceSize)
        <==> WriteBackHarmless(b, i, pieceSize, part, disk)
  {
    var disk' := Splice(disk, part.off, part.data);
    forall j: nat | j < pieceSize && i * pieceSize + j < |disk|
      ensures Seen(b.Emptied(), i, pieceSize, disk', j) == Seen(b, i, pieceSize, disk, j)
        <==> (Exposed(b, part, i * pieceSize + j, j) ==> b.data.value[j] == disk[i * pieceSize + j])
    {
      InsideChunk(b, i, pieceSize, c, j);
    }
    if SeenSame(b, disk, b.Emptied(), disk', i, pieceSize) {
      forall j: nat | j < pieceSize && i * pieceSize + j < |disk| && Exposed(b, part, i * pieceSize + j, j)
        ensures b.data.value[j] == disk[i * pieceSize + j]
      {
        assert Seen(b.Emptied(), i, pieceSize, disk', j) == Seen(b, i, pieceSize, disk, j);
      }
    }
  }

  // When the whole chunk reaches the files, only the gaps matter.
  lemma WholeChunkIff(b: Box, i: nat, pieceSize: nat, c: Chunk, disk: seq<byte>)
    requires b.Ok(pieceSize) && IsChunkOf(b, i, pieceSize, c)
    ensures WriteBackHarmless(b, i, pieceSize, c, disk) <==> HolesHarmless(b, i, pieceSize, disk)
  {
    forall j: nat | j < pieceSize ensures Reached(c, i * pieceSize + j) <==> b.Has(j) || Hole(b, j) {
      InsideChunk(b, i, pieceSize, c, j);
    }
    if WriteBackHarmless(b, i, pieceSize, c, disk) {
      forall j: nat | Hole(b, j) && i * pieceSize + j < |disk|
        ensures j < |b.data.value| && b.data.value[j] == disk[i * pieceSize + j]
      {
        assert Exposed(b, c, i * pieceSize + j, j);
      }
    }
  }

  // Dropping a box without writing it is invisible exactly when the bytes that
  // were written into it are on disk.
  lemma DropIff(b: Box, i: nat, pieceSize: nat, disk: seq<byte>)
    requires pieceSize > 0 && b.Ok(pieceSize)
    ensures SeenSame(b, disk, b.Emptied(), disk, i, pieceSize)
      <==> forall j: nat :: j < pieceSize && b.Has(j) && i * pieceSize + j < |disk| ==> b.data.value[j] == disk[i * pieceSize + j]
  {
    if SeenSame(b, disk, b.Emptied(), disk, i, pieceSize) {
      forall j: nat | j < pieceSize && b.Has(j) && i * pieceSize + j < |disk| ensures b.data.value[j] == disk[i * pieceSize + j] {
        assert Seen(b.Emptied(), i, pieceSize, disk, j) == Seen(b, i, pieceSize, disk, j);
      }
    }
  }

  function Marked(b: Box): Box {
    if b.data.Some? then b.(full := true, committed := true, byteSet := []) else b
  }

  // Declaring a box full is invisible exactly when its unwritten bytes within
  // the files are those on disk.
  lemma MarkIff(b: Box, i: nat, pieceSize: nat, disk: seq<byte>)
    requires pieceSize > 0 && b.Ok(pieceSize) && b.data.Some?
    ensures Marked(b).Ok(pieceSize)
    ensures SeenSame(b, disk, Marked(b), disk, i, pieceSize)
      <==> forall j: nat :: j < pieceSize && !b.Has(j) && i * pieceSize + j < |disk| ==> b.data.value[j] == disk[i * pieceSize + j]
  {
    if SeenSame(b, disk, Marked(b), disk, i, pieceSize) {
      forall j: nat | j < pieceSize && !b.Has(j) && i * pieceSize + j < |disk| ensures b.data.value[j] == disk[i * pieceSize + j] {
        assert Seen(Marked(b), i, pieceSize, disk, j) == Seen(b, i, pieceSize, disk, j);
      }
    }
  }

  // ---- Trimming several boxes ----

  // Exactly the boxes in gone were emptied.
  ghost predicate Dropped(boxes: seq<Box>, boxes': seq<Box>, gone: set<nat>) {
    && |boxes'| == |boxes|
    && forall i :: 0 <= i < |boxes| ==> boxes'[i] == if i in gone then boxes[i].Emptied() else boxes[i]
  }

  ghost function Elements(s: seq<nat>): set<nat> { set i | i in s }

  // Box by box, the chunks of the evicted boxes; none of them is evicted twice
  // or was committed.
  ghost predicate Evicted(boxes: seq<Box>, pieceSize: nat, evicted: seq<nat>, chunks: seq<Chunk>) {
    && |chunks| == |evicted|
    && (forall k :: 0 <= k < |evicted| ==> evicted[k] < |boxes|)
    && (forall k :: 0 <= k < |evicted| ==> !boxes[evicted[k]].committed)
    && (forall k :: 0 <= k < |evicted| ==> IsChunkOf(boxes[evicted[k]], evicted[k], pieceSize, chunks[k]))
    && (forall j, k :: 0 <= j < k < |evicted| ==> evicted[j] != evicted[k])
  }

  ghost predicate CommittedIn(boxes: seq<Box>, dropped: set<nat>) {
    forall i :: i in dropped ==> i < |boxes| && boxes[i].committed
  }

  ghost predicate Trimmed(boxes: seq<Box>, boxes': seq<Box>, pieceSize: nat, dropped: set<nat>,
                          evicted: seq<nat>, chunks: seq<Chunk>)
  {
    && CommittedIn(boxes, dropped) && Evicted(boxes, pieceSize, evicted, chunks)
    && Dropped(boxes, boxes', dropped + Elements(evicted))
  }

  // Committed boxes go in index order.
  ghost predicate LowestFirst(boxes': seq<Box>, dropped: set<nat>) {
    forall i, j :: j in dropped && 0 <= i < j && i < |boxes'| ==> !boxes'[i].committed
  }

  // Boxes go only as far as is needed. An uncommitted one goes only when no
  // committed one is left, and only if no younger box goes before it.
  ghost predicate InOrder(boxes: seq<Box>, boxes': seq<Box>, capacity: nat, dropped: set<nat>, evicted: seq<nat>) {
    && Resident(boxes') <= capacity && (Resident(boxes) > capacity ==> Resident(boxes') == capacity)
    && LowestFirst(boxes', dropped)
    && (evicted != [] ==> Resident(boxes') == capacity && forall i :: 0 <= i < |boxes'| ==> !boxes'[i].committed)
    && (forall k, i :: 0 <= k < |evicted| && evicted[k] < |boxes| && 0 <= i < |boxes'| && boxes'[i].data.Some? ==>
          boxes[evicted[k]].atime <= boxes'[i].atime)
  }

  // Of each chunk a part reached the files: all of it, unless a file failed.
  ghost predicate PartsOf(parts: seq<Chunk>, chunks: seq<Chunk>) {
    |parts| == |chunks| && forall k :: 0 <= k < |chunks| ==> PartOf(parts[k], chunks[k])
  }

  // What the files hold after the parts were written, in order.
  ghost function Flushed(disk: seq<byte>, parts: seq<Chunk>): (r: seq<byte>)
    ensures |r| == |disk|
  {
    if parts == [] then disk
    else
      var last := parts[|parts| - 1];
      Splice(Flushed(disk, parts[..|parts| - 1]), last.off, last.data)
  }

  lemma EvictedPrefix(boxes: seq<Box>, pieceSize: nat, evicted: seq<nat>, chunks: seq<Chunk>)
    requires Evicted(boxes, pieceSize, evicted, chunks) && evicted != []
    ensures Evicted(boxes, pieceSize, evicted[..|evicted| - 1], chunks[..|evicted| - 1])
  {
    var n := |evicted| - 1;
    forall k | 0 <= k < n ensures IsChunkOf(boxes[evicted[..n][k]], evicted[..n][k], pieceSize, chunks[..n][k]) {
      assert IsChunkOf(boxes[evicted[k]], evicted[k], pieceSize, chunks[k]);
    }
  }

  lemma ChunkInBox(boxes: seq<Box>, pieceSize: nat, evicted: seq<nat>, chunks: seq<Chunk>, k: nat, x: nat)
    requires AllOk(boxes, pieceSize) && Evicted(boxes, pieceSize, evicted, chunks) && k < |evicted|
    requires chunks[k].off <= x < chunks[k].off + |chunks[k].data|
    ensures x / pieceSize == evicted[k]
  {
    var i := evicted[k];
    assert IsChunkOf(boxes[i], i, pieceSize, chunks[k]);
    InsideChunk(boxes[i], i, pieceSize, chunks[k], 0);
    DivUnique(x, pieceSize, i);
  }

  // No part touches the bytes of a box that stays.
  lemma {:induction false} FlushedElsewhere(boxes: seq<Box>, pieceSize: nat, evicted: seq<nat>, chunks: seq<Chunk>,
                                            parts: seq<Chunk>, disk: seq<byte>, x: nat)
    requires AllOk(boxes, pieceSize) && Evicted(boxes, pieceSize, evicted, chunks) && PartsOf(parts, chunks)
    requires x < |disk| && x / pieceSize !in evicted
    ensures Flushed(disk, parts)[x] == disk[x]
    decreases |chunks|
  {
    if chunks != [] {
      var n := |chunks| - 1;
      EvictedPrefix(boxes, pieceSize, evicted, chunks);
      FlushedElsewhere(boxes, pieceSize, evicted[..n], chunks[..n], parts[..n], disk, x);
      assert evicted[n] in evicted;
      if chunks[n].off <= x < chunks[n].off + |chunks[n].data| {
        ChunkInBox(boxes, pieceSize, evicted, chunks, n, x);
      }
    }
  }

  // Within an evicted box the files are as if only its own part was written.
  lemma {:induction false} FlushedInBox(boxes: seq<Box>, pieceSize: nat, evicted: seq<nat>, chunks: seq<Chunk>,
                                        parts: seq<Chunk>, disk: seq<byte>, k: nat, x: nat)
    requires AllOk(boxes, pieceSize) && Evicted(boxes, pieceSize, evicted, chunks) && PartsOf(parts, chunks)
    requires x < |disk| && k < |evicted| && x / pieceSize == evicted[k]
    ensures Flushed(disk, parts)[x] == Splice(disk, parts[k].off, parts[k].data)[x]
    decreases |chunks|
  {
    var n := |chunks| - 1;
    EvictedPrefix(boxes, pieceSize, evicted, chunks);
    if k == n {
      FlushedElsewhere(boxes, pieceSize, evicted[..n], chunks[..n], parts[..n], disk, x);
    } else {
      FlushedInBox(boxes, pieceSize, evicted[..n], chunks[..n], parts[..n], disk, k, x);
      if chunks[n].off <= x < chunks[n].off + |chunks[n].data| {
        ChunkInBox(boxes, pieceSize, evicted, chunks, n, x);
      }
    }
  }

  // ---- What a reader sees ----

  // Nobody who reads below the end of the files can tell the two apart.
  ghost predicate SameView(boxes: seq<Box>, disk: seq<byte>, boxes': seq<Box>, disk': seq<byte>, pieceSize: nat)
    requires AllOk(boxes, pieceSize) && AllOk(boxes', pieceSize)
  {
    forall x: nat :: x < |disk| ==> ViewAt(boxes', pieceSize, disk', x) == ViewAt(boxes, pieceSize, disk, x)
  }

  lemma BoxByBox(boxes: seq<Box>, disk: seq<byte>, boxes': seq<Box>, disk': seq<byte>, pieceSize: nat)
    requires AllOk(boxes, pieceSize) && AllOk(boxes', pieceSize)
    requires |boxes'| == |boxes| && |disk'| == |disk| <= |boxes| * pieceSize
    ensures SameView(boxes, disk, boxes', disk', pieceSize)
      <==> forall i :: 0 <= i < |boxes| ==> SeenSame(boxes[i], disk, boxes'[i], disk', i, pieceSize)
  {
    if SameView(boxes, disk, boxes', disk', pieceSize) {
      forall i | 0 <= i < |boxes| ensures SeenSame(boxes[i], disk, boxes'[i], disk', i, pieceSize) {
        ViewToBox(boxes, disk, boxes', disk', pieceSize, i);
      }
    }
    if forall i :: 0 <= i < |boxes| ==> SeenSame(boxes[i], disk, boxes'[i], disk', i, pieceSize) {
      forall x: nat | x < |disk| ensures ViewAt(boxes', pieceSize, disk', x) == ViewAt(boxes, pieceSize, disk, x) {
        InSomeBox(pieceSize, |boxes|, x);
        BoxToView(boxes, disk, boxes', disk', pieceSize, x);
      }
    }
  }

  lemma ViewToBox(boxes: seq<Box>, disk: seq<byte>, boxes': seq<Box>, disk': seq<byte>, pieceSize: nat, i: nat)
    requires AllOk(boxes, pieceSize) && AllOk(boxes', pieceSize) && |boxes'| == |boxes| && |disk'| == |disk|
    requires SameView(boxes, disk, boxes', disk', pieceSize) && i < |boxes|
    ensures SeenSame(boxes[i], disk, boxes'[i], disk', i, pieceSize)
  {
    forall j: nat | j < pieceSize && i * pieceSize + j < |disk|
      ensures Seen(boxes'[i], i, pieceSize, disk', j) == Seen(boxes[i], i, pieceSize, disk, j)
    {
      At(pieceSize, i, j);
      assert ViewAt(boxes', pieceSize, disk', i * pieceSize + j) == ViewAt(boxes, pieceSize, disk, i * pieceSize + j);
    }
  }

  lemma BoxToView(boxes: seq<Box>, disk: seq<byte>, boxes': seq<Box>, disk': seq<byte>, pieceSize: nat, x: nat)
    requires AllOk(boxes, pieceSize) && AllOk(boxes', pieceSize) && |boxes'| == |boxes| && |disk'| == |disk|
    requires x < |disk| && x / pieceSize < |boxes| && x == x / pieceSize * pieceSize + x % pieceSize
    requires SeenSame(boxes[x / pieceSize], disk, boxes'[x / pieceSize], disk', x / pieceSize, pieceSize)
    ensures ViewAt(boxes', pieceSize, disk', x) == ViewAt(boxes, pieceSize, disk, x)
  {
    var i, j := x / pieceSize, x % pieceSize;
    assert Seen(boxes'[i], i, pieceSize, disk', j) == Seen(boxes[i], i, pieceSize, disk, j);
  }

  lemma InSomeBox(pieceSize: nat, n: nat, x: nat)
    requires pieceSize > 0 && x < n * pieceSize
    ensures x / pieceSize < n && x == x / pieceSize * pieceSize + x % pieceSize
  {
    DivBounds(x, pieceSize);
    if n <= x / pieceSize { MulLe(n, x / pieceSize, pieceSize); }
  }

  ghost predicate SameInBox(d: seq<byte>, d': seq<byte>, i: nat, pieceSize: nat) {
    |d'| == |d| && forall x: nat :: i * pieceSize <= x < i * pieceSize + pieceSize && x < |d| ==> d'[x] == d[x]
  }

  lemma SeenOnDisk(b: Box, disk: seq<byte>, b': Box, d: seq<byte>, d': seq<byte>, i: nat, pieceSize: nat)
    requires b.Ok(pieceSize) && b'.Ok(pieceSize) && SameInBox(d, d', i, pieceSize) && |disk| == |d|
    ensures SeenSame(b, disk, b', d', i, pieceSize) <==> SeenSame(b, disk, b', d, i, pieceSize)
  {
    forall j: nat | j < pieceSize && i * pieceSize + j < |disk|
      ensures Seen(b', i, pieceSize, d', j) == Seen(b', i, pieceSize, d, j)
    {
    }
    if SeenSame(b, disk, b', d', i, pieceSize) {
      forall j: nat | j < pieceSize && i * pieceSize + j < |disk|
        ensures Seen(b', i, pieceSize, d, j) == Seen(b, i, pieceSize, disk, j)
      {
        assert Seen(b', i, pieceSize, d', j) == Seen(b, i, pieceSize, disk, j);
      }
    }
  }

  lemma OtherBoxIff(boxes: seq<Box>, boxes': seq<Box>, pieceSize: nat, dropped: set<nat>,
                    evicted: seq<nat>, chunks: seq<Chunk>, parts: seq<Chunk>, disk: seq<byte>, i: nat)
    requires AllOk(boxes, pieceSize) && Trimmed(boxes, boxes', pieceSize, dropped, evicted, chunks)
    requires i < |boxes| && i !in evicted && PartsOf(parts, chunks)
    ensures SeenSame(boxes[i], disk, boxes'[i], Flushed(disk, parts), i, pieceSize)
      <==> (i in dropped ==> Synced(boxes[i], i, pieceSize, disk))
  {
    assert SameInBox(disk, Flushed(disk, parts), i, pieceSize) by {
      forall x: nat | i * pieceSize <= x < i * pieceSize + pieceSize && x < |disk| ensures Flushed(disk, parts)[x] == disk[x] {
        DivUnique(x, pieceSize, i);
        FlushedElsewhere(boxes, pieceSize, evicted, chunks, parts, disk, x);
      }
    }
    TrimmedOk(boxes, boxes', pieceSize, dropped + Elements(evicted));
    SeenOnDisk(boxes[i], disk, boxes'[i], disk, Flushed(disk, parts), i, pieceSize);
    DropIff(boxes[i], i, pieceSize, disk);
  }

  lemma EvictedBoxIff(boxes: seq<Box>, boxes': seq<Box>, pieceSize: nat, dropped: set<nat>,
                      evicted: seq<nat>, chunks: seq<Chunk>, parts: seq<Chunk>, disk: seq<byte>, k: nat)
    requires AllOk(boxes, pieceSize) && Trimmed(boxes, boxes', pieceSize, dropped, evicted, chunks)
    requires PartsOf(parts, chunks) && k < |evicted|
    ensures var i := evicted[k];
      SeenSame(boxes[i], disk, boxes'[i], Flushed(disk, parts), i, pieceSize)
      <==> WriteBackHarmless(boxes[i], i, pieceSize, parts[k], disk)
  {
    var i := evicted[k];
    var own := Splice(disk, parts[k].off, parts[k].data);
    assert SameInBox(own, Flushed(disk, parts), i, pieceSize) by {
      forall x: nat | i * pieceSize <= x < i * pieceSize + pieceSize && x < |disk| ensures Flushed(disk, parts)[x] == own[x] {
        DivUnique(x, pieceSize, i);
        FlushedInBox(boxes, pieceSize, evicted, chunks, parts, disk, k, x);
      }
    }
    TrimmedOk(boxes, boxes', pieceSize, dropped + Elements(evicted));
    SeenOnDisk(boxes[i], disk, boxes'[i], own, Flushed(disk, parts), i, pieceSize);
    assert boxes'[i] == boxes[i].Emptied();
    EvictIff(boxes[i], i, pieceSize, chunks[k], parts[k], disk);
  }

  lemma TrimmedOk(boxes: seq<Box>, boxes': seq<Box>, pieceSize: nat, gone: set<nat>)
    requires AllOk(boxes, pieceSize) && Dropped(boxes, boxes', gone)
    ensures AllOk(boxes', pieceSize)
  {
  }

  // Trimming is invisible to every reader exactly when the dropped boxes are on
  // disk and writing back the evicted ones is harmless.
  lemma TrimIff(boxes: seq<Box>, boxes': seq<Box>, pieceSize: nat, dropped: set<nat>,
                evicted: seq<nat>, chunks: seq<Chunk>, parts: seq<Chunk>, disk: seq<byte>)
    requires AllOk(boxes, pieceSize) && Trimmed(boxes, boxes', pieceSize, dropped, evicted, chunks)
    requires |disk| <= |boxes| * pieceSize && PartsOf(parts, chunks)
    ensures AllOk(boxes', pieceSize)
    ensures SameView(boxes, disk, boxes', Flushed(disk, parts), pieceSize)
      <==> && (forall i :: i in dropped ==> Synced(boxes[i], i, pieceSize, disk))
           && EvictHarmless(boxes, pieceSize, disk, evicted, parts)
  {
    TrimmedOk(boxes, boxes', pieceSize, dropped + Elements(evicted));
    BoxByBox(boxes, disk, boxes', Flushed(disk, parts), pieceSize);
    forall i | 0 <= i < |boxes| && i !in evicted
      ensures SeenSame(boxes[i], disk, boxes'[i], Flushed(disk, parts), i, pieceSize)
        <==> (i in dropped ==> Synced(boxes[i], i, pieceSize, disk))
    {
      OtherBoxIff(boxes, boxes', pieceSize, dropped, evicted, chunks, parts, disk, i);
    }
    forall k | 0 <= k < |evicted|
      ensures evicted[k] !in dropped
      ensures SeenSame(boxes[evicted[k]], disk, boxes'[evicted[k]], Flushed(disk, parts), evicted[k], pieceSize)
        <==> WriteBackHarmless(boxes[evicted[k]], evicted[k], pieceSize, parts[k], disk)
    {
      EvictedBoxIff(boxes, boxes', pieceSize, dropped, evicted, chunks, parts, disk, k);
      assert !boxes[evicted[k]].committed;
    }
    AllSeen(boxes, disk, boxes', Flushed(disk, parts), pieceSize, evicted);
  }

  // All boxes are those evicted and the others.
  lemma AllSeen(boxes: seq<Box>, disk: seq<byte>, boxes': seq<Box>, disk': seq<byte>, pieceSize: nat, evicted: seq<nat>)
    requires AllOk(boxes, pieceSize) && AllOk(boxes', pieceSize) && |boxes'| == |boxes|
    requires forall k :: 0 <= k < |evicted| ==> evicted[k] < |boxes|
    ensures (forall i :: 0 <= i < |boxes| ==> SeenSame(boxes[i], disk, boxes'[i], disk', i, pieceSize))
      <==> && (forall i :: 0 <= i < |boxes| && i !in evicted ==> SeenSame(boxes[i], disk, boxes'[i], disk', i, pieceSize))
           && (forall k :: 0 <= k < |evicted| ==>
                 SeenSame(boxes[evicted[k]], disk, boxes'[evicted[k]], disk', evicted[k], pieceSize))
  {
  }

  // Writing back each evicted box is harmless.
  ghost predicate EvictHarmless(boxes: seq<Box>, pieceSize: nat, disk: seq<byte>, evicted: seq<nat>, parts: seq<Chunk>)
    requires AllOk(boxes, pieceSize)
  {
    forall k :: 0 <= k < |evicted| && k < |parts| && evicted[k] < |boxes| ==>
      WriteBackHarmless(boxes[evicted[k]], evicted[k], pieceSize, parts[k], disk)
  }
}
