// The file store with its cache: what is read is what was written, exactly as
// long as what is dropped, written back and committed is harmless.

module CachedStores {
  import opened Options
  import opened Bytes
  import opened Boxes
  import opened Evictions
  import opened CacheDiscipline
  import R = RamCaches
  import F = FileStores

  function ByteAt(disk: seq<byte>, x: nat): byte {
    if x < |disk| then disk[x] else 0
  }

  class CachedStore {
    const files: F.FileStore
    const cache: R.RAMCache
    // What was written to the store, as if there was neither cache nor file.
    ghost var plain: seq<byte>

    ghost predicate Valid()
      reads this, files.files, cache
    {
      && files.Valid() && cache.Valid() && |files.Contents()| == files.totalSize == |plain|
      && Covers(cache.View(), cache.pieceSize, files.Contents())
    }

    // Every reader sees what was written.
    ghost predicate InAgreement()
      requires Valid()
      reads this, files.files, cache
    {
      Agrees(cache.View(), cache.pieceSize, files.Contents(), plain)
    }

    // What is committed is in the files.
    ghost predicate CommittedOnDisk()
      requires Valid()
      reads this, files.files, cache
    {
      OnDisk(cache.View(), cache.pieceSize, files.Contents())
    }

    // A store that is given an empty cache large enough for its files.
    constructor (files: F.FileStore, cache: R.RAMCache)
      requires files.Valid() && cache.Valid() && files.totalSize <= |cache.store| * cache.pieceSize
      requires forall i :: 0 <= i < |cache.store| ==> cache.store[i] == None
      ensures Valid() && this.files == files && this.cache == cache && plain == files.Contents()
      ensures InAgreement() && CommittedOnDisk() && Whole(cache.View(), cache.pieceSize, |plain|)
    {
      this.files := files;
      this.cache := cache;
      plain := files.Contents();
      new;
      files.SizeIsTotal();
      EmptyAgrees(cache.View(), cache.pieceSize, files.Contents());
    }

    // ---- Reading ----

    method ReadRange(p: array<byte>, lo: nat, hi: nat, off: nat) returns (ok: bool)
      requires Valid() && lo <= hi <= p.Length
      modifies p
      ensures ok ==> forall x :: lo <= x < hi ==> p[x] == ByteAt(files.Contents(), off + x)
      ensures forall x :: 0 <= x < p.Length && !(lo <= x < hi) ==> p[x] == old(p[x])
    {
      var n;
      n, ok := files.RawReadAt(p, lo, hi, off + lo);
    }

    ghost predicate Fetched(p: array<byte>, off: nat, unf: seq<R.Range>, k: nat)
      reads p, files.files
    {
      k <= |unf| && forall m, x :: 0 <= m < k && unf[m].lo <= x < unf[m].hi && 0 <= x < p.Length ==>
        p[x] == ByteAt(files.Contents(), off + x)
    }

    // Whatever the cache holds, a read that reports no error returns the view:
    // the cached bytes, and those of the files where there are none. When a file
    // fails, what was in the cache is right all the same.
    method ReadAt(p: array<byte>, off: nat) returns (ok: bool)
      requires Valid() && off + p.Length <= |cache.store| * cache.pieceSize
      modifies p
      ensures Valid()
      ensures forall x :: 0 <= x < p.Length && (ok || Cached(cache.View(), cache.pieceSize, off + x)) ==>
        p[x] == ViewAt(cache.View(), cache.pieceSize, files.Contents(), off + x)
      ensures ok && InAgreement() ==> forall x :: 0 <= x < p.Length && off + x < |plain| ==> p[x] == plain[off + x]
    {
      ghost var before := p[..];
      var unfulfilled := cache.ReadAt(p, off);
      ok := FetchAll(p, off, unfulfilled, before);
    }

    method FetchAll(p: array<byte>, off: nat, unf: seq<R.Range>, ghost before: seq<byte>) returns (ok: bool)
      requires Valid() && cache.Served(p, off, before, p.Length, unf)
      modifies p
      ensures forall x: nat :: x < p.Length && (ok || R.Hit(cache.View(), cache.pieceSize, off, x)) ==>
        p[x] == ViewAt(cache.View(), cache.pieceSize, files.Contents(), off + x)
    {
      ghost var boxes, size := cache.View(), cache.pieceSize;
      ok := true;
      for k := 0 to |unf|
        invariant forall x: nat :: x < p.Length && R.Hit(boxes, size, off, x) ==> p[x] == R.HitByte(boxes, size, off, x)
        invariant ok ==> Fetched(p, off, unf, k)
      {
        var good := ReadRange(p, unf[k].lo, unf[k].hi, off);
        forall x: nat | x < p.Length && R.Hit(boxes, size, off, x) ensures !(unf[k].lo <= x < unf[k].hi) {
          assert !R.InRanges(unf, x);
        }
        ok := ok && good;
      }
    }

    // ---- Writing ----

    // Writes back what left the cache. An error is not reported to the caller.
    method Flush(chunks: seq<Chunk>) returns (ghost lost: bool, ghost parts: seq<Chunk>)
      requires files.Valid()
      modifies files.files`bytes
      ensures files.Valid() && PartsOf(parts, chunks) && files.Contents() == Flushed(old(files.Contents()), parts)
      ensures !lost ==> parts == chunks
      ensures chunks == [] ==> !lost
    {
      ghost var disk := files.Contents();
      lost, parts := false, [];
      for k := 0 to |chunks|
        invariant files.Valid() && (k == 0 ==> !lost)
        invariant FlushedSoFar(disk, chunks, k, lost, parts, files.Contents())
      {
        ghost var now := files.Contents();
        ghost var failed, part := FlushOne(chunks[k]);
        FlushedNext(disk, chunks, k, lost, parts, now, failed, part);
        lost, parts := lost || failed, parts + [part];
      }
      assert chunks[..|chunks|] == chunks;
    }

    method FlushOne(c: Chunk) returns (ghost failed: bool, ghost part: Chunk)
      requires files.Valid()
      modifies files.files`bytes
      ensures files.Valid() && PartOf(part, c) && (!failed ==> part == c)
      ensures files.Contents() == Splice(old(files.Contents()), part.off, part.data)
    {
      ghost var disk := files.Contents();
      var n, err := files.RawWriteAt(c.data, c.off);
      failed := err.IoError?;
      part := if failed then Chunk(c.off, c.data[..n]) else c;
      if !failed { WrittenInFull(disk, c.off, c.data, n, err); }
      assert c.data[..|c.data|] == c.data;
    }

    // The content that was promised includes the write. Readers see it exactly
    // when the trimming that the write causes is harmless; in any case only
    // bytes of the trimmed boxes can be wrong. Nothing is lost without a failing file.
    method WriteAt(p: seq<byte>, off: nat) returns (n: nat, ghost lost: bool, ghost t: Trimming)
      requires Valid() && off + |p| <= |cache.store| * cache.pieceSize
      modifies this`plain, cache, files.files`bytes
      ensures Valid() && n == |p| && cache.actualUsage <= cache.capacity && plain == Splice(old(plain), off, p)
      ensures WritesAndTrims(old(cache.View()), old(files.Contents()), cache.pieceSize, off, p, t, cache.View(), files.Contents())
      ensures !lost ==> t.parts == t.chunks
      ensures Resident(t.written) <= cache.capacity ==> t.dropped == {} && t.evicted == []
      ensures old(InAgreement()) ==> (InAgreement() <==> Harmless(t, cache.pieceSize, old(files.Contents())))
      ensures old(InAgreement()) ==>
        SeenOutside(cache.View(), cache.pieceSize, files.Contents(), plain, t.dropped + Elements(t.evicted))
      ensures old(CommittedOnDisk()) && MissesCommitted(old(cache.View()), cache.pieceSize, off, |p|) ==> CommittedOnDisk()
      ensures old(KeepsWhole()) && WholePiece(old(cache.View()), off, |p|, cache.pieceSize, |plain|) ==>
        (KeepsWhole() <==> AllLossless(t.written, cache.pieceSize, old(files.Contents()), t.evicted, t.parts))
    {
      ghost var boxes := cache.View();
      var needRawWrite;
      ghost var written, dropped, evicted;
      needRawWrite, written, dropped, evicted := cache.WriteAt(p, off);
      lost, t := WriteBack(needRawWrite, boxes, written, off, p, dropped, evicted);
      n := |p|;
    }

    // The store is used by the piece: it agrees, and its boxes hold whole pieces.
    ghost predicate KeepsWhole()
      requires Valid()
      reads this, files.files, cache
    {
      UsedWhole(cache.View(), cache.pieceSize, files.Contents(), plain)
    }

    method WriteBack(needRawWrite: seq<Chunk>, ghost boxes: seq<Box>, ghost written: seq<Box>, ghost off: nat,
                     ghost p: seq<byte>, ghost dropped: set<nat>, ghost evicted: seq<nat>)
      returns (ghost lost: bool, ghost t: Trimming)
      requires files.Valid() && cache.Valid() && |files.Contents()| == files.totalSize == |plain|
      requires Covers(boxes, cache.pieceSize, files.Contents())
      requires WroteBelow(boxes, written, cache.pieceSize, off, p, |p|)
      requires Trimmed(written, cache.View(), cache.pieceSize, dropped, evicted, needRawWrite)
      modifies this`plain, files.files`bytes
      ensures Valid() && plain == Splice(old(plain), off, p) && (!lost ==> t.parts == t.chunks)
      ensures t.written == written && t.dropped == dropped && t.evicted == evicted
      ensures WritesAndTrims(boxes, old(files.Contents()), cache.pieceSize, off, p, t, cache.View(), files.Contents())
      ensures WriteOutcome(boxes, cache.View(), cache.pieceSize, old(files.Contents()), files.Contents(), old(plain), off, p, t)
    {
      ghost var disk := files.Contents();
      ghost var parts;
      lost, parts := Flush(needRawWrite);
      t := Trimming(written, dropped, evicted, needRawWrite, parts);
      WriteThenTrim(boxes, cache.View(), cache.pieceSize, disk, files.Contents(), plain, off, p, t);
      plain := Splice(plain, off, p);
    }

    // ---- Committing ----

    // Writes a piece to the files and, when that worked, marks its box. If the
    // piece is what readers see, they go on seeing it exactly when marking the
    // box hides no byte.
    method Commit(pieceNum: nat, piece: seq<byte>, off: nat) returns (ok: bool, ghost n: nat)
      requires Valid() && pieceNum < |cache.store|
      modifies cache, files.files`bytes
      ensures Valid() && plain == old(plain) && n <= |piece| && (ok ==> n == |piece|)
      ensures files.Contents() == Splice(old(files.Contents()), off, piece[..n])
      ensures cache.View() == if ok then old(cache.View())[pieceNum := Marked(old(cache.View())[pieceNum])] else old(cache.View())
      ensures CommitEffect(old(cache.View()), cache.View(), cache.pieceSize, old(files.Contents()), files.Contents(), plain,
        pieceNum, piece, off, ok)
    {
      ghost var boxes, disk := cache.View(), files.Contents();
      var err;
      n, err := files.RawWriteAt(piece, off);
      ok := err.NoError?;
      CommitOutcome(boxes, cache.pieceSize, disk, plain, pieceNum, piece, off, n, ok);
      if ok {
        MarkPiece(pieceNum);
      }
    }

    method MarkPiece(pieceNum: nat)
      requires Valid() && pieceNum < |cache.store|
      modifies cache`isBoxFull, cache`isBoxCommit, cache`isByteSet
      ensures Valid() && cache.View() == old(cache.View())[pieceNum := Marked(old(cache.View())[pieceNum])]
    {
      ghost var boxes := cache.View();
      assert boxes[pieceNum].Ok(cache.pieceSize);
      cache.MarkCommitted(pieceNum);
    }

    // ---- Capacity ----

    // A new capacity, and dropping committed boxes for it, is not seen by anyone
    // exactly when these boxes are in the files.
    method Rebalanced(newCap: nat, shouldTrim: bool) returns (under: bool, ghost dropped: set<nat>)
      requires Valid()
      modifies cache
      ensures Valid() && plain == old(plain) && cache.capacity == newCap
      ensures shouldTrim ==> (under ==> cache.actualUsage <= newCap)
      ensures shouldTrim && !under ==> forall i :: 0 <= i < |cache.store| ==> !cache.View()[i].committed
      ensures old(InAgreement()) ==>
        (InAgreement() <==> TrimHarmless(old(cache.View()), cache.pieceSize, files.Contents(), dropped, [], []))
      ensures old(CommittedOnDisk()) ==> CommittedOnDisk()
      ensures old(InAgreement() && CommittedOnDisk()) ==> InAgreement()
    {
      ghost var boxes := cache.View();
      cache.SetCapacity(newCap);
      assert cache.View() == boxes;
      under, dropped := false, {};
      if shouldTrim {
        under, dropped := cache.TrimCommitted();
        DropOutcome(boxes, cache.View(), cache.pieceSize, files.Contents(), plain, dropped);
      }
    }
  }

  // ---- What the methods rest on ----

  lemma EmptyAgrees(boxes: seq<Box>, pieceSize: nat, disk: seq<byte>)
    requires Covers(boxes, pieceSize, disk)
    requires forall i :: 0 <= i < |boxes| ==> boxes[i].data == None
    ensures Agrees(boxes, pieceSize, disk, disk) && OnDisk(boxes, pieceSize, disk) && Whole(boxes, pieceSize, |disk|)
  {
    forall i | 0 <= i < |boxes| ensures !boxes[i].committed {
      assert boxes[i].Ok(pieceSize);
    }
  }

  // The first k chunks were written back, each as far as its file went.
  ghost predicate FlushedSoFar(disk: seq<byte>, chunks: seq<Chunk>, k: nat, lost: bool, parts: seq<Chunk>, now: seq<byte>) {
    && k <= |chunks| && PartsOf(parts, chunks[..k]) && now == Flushed(disk, parts) && (!lost ==> parts == chunks[..k])
  }

  lemma FlushedNext(disk: seq<byte>, chunks: seq<Chunk>, k: nat, lost: bool, parts: seq<Chunk>, now: seq<byte>,
                    failed: bool, part: Chunk)
    requires FlushedSoFar(disk, chunks, k, lost, parts, now) && k < |chunks|
    requires PartOf(part, chunks[k]) && (!failed ==> part == chunks[k])
    ensures FlushedSoFar(disk, chunks, k + 1, lost || failed, parts + [part], Splice(now, part.off, part.data))
  {
    assert (parts + [part])[..k] == parts;
    assert chunks[..k + 1] == chunks[..k] + [chunks[k]];
  }

  // Only a failing file keeps a part of the data out of the files.
  lemma WrittenInFull(disk: seq<byte>, off: nat, p: seq<byte>, n: nat, err: F.WriteError)
    requires n <= |p| && (err.NoError? ==> n == |p|) && (err.NonZeroTail? ==> InFile(|disk|, off, |p|) <= n) && !err.IoError?
    ensures Splice(disk, off, p[..n]) == Splice(disk, off, p)
  {
    F.TailIsLost(disk, off, p, n);
  }

  // A reader sees plain everywhere but in the boxes in gone.
  ghost predicate SeenOutside(boxes: seq<Box>, pieceSize: nat, disk: seq<byte>, plain: seq<byte>, gone: set<nat>)
    requires AllOk(boxes, pieceSize)
  {
    forall x: nat :: x < |plain| && x / pieceSize !in gone ==> ViewAt(boxes, pieceSize, disk, x) == plain[x]
  }

  ghost predicate UsedWhole(boxes: seq<Box>, pieceSize: nat, disk: seq<byte>, plain: seq<byte>) {
    Agrees(boxes, pieceSize, disk, plain) && OnDisk(boxes, pieceSize, disk) && Whole(boxes, pieceSize, |plain|)
  }

  // What holds after a write, the trimming that it caused and writing back.
  ghost predicate WriteOutcome(boxes: seq<Box>, boxes': seq<Box>, pieceSize: nat, disk: seq<byte>, disk': seq<byte>,
                               plain: seq<byte>, off: nat, p: seq<byte>, t: Trimming)
    requires Covers(boxes, pieceSize, disk) && Covers(boxes', pieceSize, disk') && AllOk(t.written, pieceSize)
  {
    && (Agrees(boxes, pieceSize, disk, plain) ==>
          (Agrees(boxes', pieceSize, disk', Splice(plain, off, p)) <==> Harmless(t, pieceSize, disk)))
    && (Agrees(boxes, pieceSize, disk, plain) ==>
          SeenOutside(boxes', pieceSize, disk', Splice(plain, off, p), t.dropped + Elements(t.evicted)))
    && (OnDisk(boxes, pieceSize, disk) && MissesCommitted(boxes, pieceSize, off, |p|) ==> OnDisk(boxes', pieceSize, disk'))
    && (UsedWhole(boxes, pieceSize, disk, plain) && WholePiece(boxes, off, |p|, pieceSize, |plain|) ==>
          (UsedWhole(boxes', pieceSize, disk', Splice(plain, off, p))
           <==> AllLossless(t.written, pieceSize, disk, t.evicted, t.parts)))
  }

  lemma WriteThenTrim(boxes: seq<Box>, boxes': seq<Box>, pieceSize: nat, disk: seq<byte>, disk': seq<byte>,
                      plain: seq<byte>, off: nat, p: seq<byte>, t: Trimming)
    requires Covers(boxes, pieceSize, disk) && WritesAndTrims(boxes, disk, pieceSize, off, p, t, boxes', disk')
    ensures Covers(boxes', pieceSize, disk') && WriteOutcome(boxes, boxes', pieceSize, disk, disk', plain, off, p, t)
  {
    WriteAndTrimIff(boxes, disk, pieceSize, off, p, t, boxes', disk', plain);
    if Agrees(boxes, pieceSize, disk, plain) {
      WriteAgrees(boxes, t.written, pieceSize, off, p, disk, plain);
      TrimSeenOutside(t.written, boxes', pieceSize, t, disk, disk', Splice(plain, off, p));
    }
    if OnDisk(boxes, pieceSize, disk) && MissesCommitted(boxes, pieceSize, off, |p|) {
      WriteStaysOnDisk(boxes, disk, pieceSize, off, p, t, boxes', disk');
    }
    if UsedWhole(boxes, pieceSize, disk, plain) && WholePiece(boxes, off, |p|, pieceSize, |plain|) {
      WholeWriteIff(boxes, boxes', pieceSize, disk, disk', plain, off, p, t);
    }
  }

  // A whole piece is written without harm exactly when nothing is lost.
  lemma WholeWriteIff(boxes: seq<Box>, boxes': seq<Box>, pieceSize: nat, disk: seq<byte>, disk': seq<byte>,
                      plain: seq<byte>, off: nat, p: seq<byte>, t: Trimming)
    requires UsedWhole(boxes, pieceSize, disk, plain) && WholePiece(boxes, off, |p|, pieceSize, |plain|)
    requires WritesAndTrims(boxes, disk, pieceSize, off, p, t, boxes', disk')
    ensures OnDisk(boxes', pieceSize, disk') && Whole(boxes', pieceSize, |plain|)
    ensures Agrees(boxes', pieceSize, disk', Splice(plain, off, p))
      <==> AllLossless(t.written, pieceSize, disk, t.evicted, t.parts)
  {
    WholeWrite(boxes, disk, pieceSize, off, p, t, boxes', disk');
    WriteStaysOnDisk(boxes, disk, pieceSize, off, p, t, boxes', disk');
    WriteAndTrimIff(boxes, disk, pieceSize, off, p, t, boxes', disk', plain);
  }

  // Whatever happens to the chunks, the bytes of the boxes that stay are right.
  lemma TrimSeenOutside(boxes: seq<Box>, boxes': seq<Box>, pieceSize: nat, t: Trimming, disk: seq<byte>, disk': seq<byte>,
                        plain: seq<byte>)
    requires Agrees(boxes, pieceSize, disk, plain) && Trimmed(boxes, boxes', pieceSize, t.dropped, t.evicted, t.chunks)
    requires PartsOf(t.parts, t.chunks) && disk' == Flushed(disk, t.parts) && AllOk(boxes', pieceSize)
    ensures SeenOutside(boxes', pieceSize, disk', plain, t.dropped + Elements(t.evicted))
  {
    forall x: nat | x < |plain| && x / pieceSize !in t.dropped + Elements(t.evicted)
      ensures ViewAt(boxes', pieceSize, disk', x) == plain[x]
    {
      InSomeBox(pieceSize, |boxes|, x);
      var i := BoxOf(pieceSize, x);
      ByteStays(boxes, boxes', pieceSize, t, disk, i, x);
      assert ViewAt(boxes, pieceSize, disk, x) == plain[x];
    }
  }

  lemma ByteStays(boxes: seq<Box>, boxes': seq<Box>, pieceSize: nat, t: Trimming, disk: seq<byte>, i: nat, x: nat)
    requires AllOk(boxes, pieceSize) && Trimmed(boxes, boxes', pieceSize, t.dropped, t.evicted, t.chunks)
    requires PartsOf(t.parts, t.chunks) && AllOk(boxes', pieceSize) && x < |disk| && i == x / pieceSize < |boxes|
    requires i !in t.dropped + Elements(t.evicted)
    ensures ViewAt(boxes', pieceSize, Flushed(disk, t.parts), x) == ViewAt(boxes, pieceSize, disk, x)
  {
    FlushedElsewhere(boxes, pieceSize, t.evicted, t.chunks, t.parts, disk, x);
    BoxStays(boxes, boxes', t.dropped, t.evicted, i);
    SameAt(boxes, boxes', pieceSize, disk, Flushed(disk, t.parts), x);
  }

  lemma BoxStays(boxes: seq<Box>, boxes': seq<Box>, dropped: set<nat>, evicted: seq<nat>, i: nat)
    requires Dropped(boxes, boxes', dropped + Elements(evicted)) && i < |boxes| && i !in dropped + Elements(evicted)
    ensures boxes'[i] == boxes[i]
  {
  }

  lemma SameAt(boxes: seq<Box>, boxes': seq<Box>, pieceSize: nat, disk: seq<byte>, disk': seq<byte>, x: nat)
    requires AllOk(boxes, pieceSize) && AllOk(boxes', pieceSize) && |boxes'| == |boxes| && x / pieceSize < |boxes|
    requires x < |disk| == |disk'| && disk'[x] == disk[x] && boxes'[x / pieceSize] == boxes[x / pieceSize]
    ensures ViewAt(boxes', pieceSize, disk', x) == ViewAt(boxes, pieceSize, disk, x)
  {
  }

  // The bytes at off are the piece with the number k.
  ghost predicate IsPiece(plain: seq<byte>, pieceSize: nat, k: nat, piece: seq<byte>, off: nat) {
    off == k * pieceSize && |piece| == InFile(|plain|, k * pieceSize, pieceSize) && piece == Window(plain, off, |piece|)
  }

  // What a commit does to a store that agrees, when the piece is what readers
  // see; and to what is committed, when it is the whole piece of the box.
  ghost predicate CommitEffect(boxes: seq<Box>, boxes': seq<Box>, pieceSize: nat, disk: seq<byte>, disk': seq<byte>,
                               plain: seq<byte>, k: nat, piece: seq<byte>, off: nat, ok: bool)
    requires Covers(boxes, pieceSize, disk) && k < |boxes|
  {
    && (Agrees(boxes, pieceSize, disk, plain) && piece == Window(plain, off, |piece|) ==>
          (Agrees(boxes', pieceSize, disk', plain) <==> (ok ==> MarkHarmless(boxes[k], k, pieceSize, disk'))))
    && (Agrees(boxes, pieceSize, disk, plain) && OnDisk(boxes, pieceSize, disk) && IsPiece(plain, pieceSize, k, piece, off) ==>
          (OnDisk(boxes', pieceSize, disk') <==> (ok ==> MarkHarmless(boxes[k], k, pieceSize, disk'))))
  }

  lemma CommitOutcome(boxes: seq<Box>, pieceSize: nat, disk: seq<byte>, plain: seq<byte>, k: nat, piece: seq<byte>,
                      off: nat, n: nat, ok: bool)
    requires Covers(boxes, pieceSize, disk) && |disk| == |plain| && k < |boxes| && n <= |piece| && (ok ==> n == |piece|)
    ensures var disk', boxes' := Splice(disk, off, piece[..n]), if ok then boxes[k := Marked(boxes[k])] else boxes;
      Covers(boxes', pieceSize, disk') && CommitEffect(boxes, boxes', pieceSize, disk, disk', plain, k, piece, off, ok)
  {
    var disk' := Splice(disk, off, piece[..n]);
    assert boxes[k].Ok(pieceSize);
    if Agrees(boxes, pieceSize, disk, plain) && piece == Window(plain, off, |piece|) {
      DiskCatchesUp(boxes, pieceSize, disk, disk', plain);
      MarkAgreesIff(boxes, pieceSize, disk', plain, k);
      if ok && OnDisk(boxes, pieceSize, disk) && IsPiece(plain, pieceSize, k, piece, off) {
        MarkOnDisk(boxes, pieceSize, disk', plain, k);
      }
    }
  }

  lemma DropOutcome(boxes: seq<Box>, boxes': seq<Box>, pieceSize: nat, disk: seq<byte>, plain: seq<byte>, dropped: set<nat>)
    requires Covers(boxes, pieceSize, disk) && |disk| == |plain|
    requires CommittedIn(boxes, dropped) && Dropped(boxes, boxes', dropped)
    ensures Covers(boxes', pieceSize, disk)
    ensures Agrees(boxes, pieceSize, disk, plain) ==>
      (Agrees(boxes', pieceSize, disk, plain) <==> TrimHarmless(boxes, pieceSize, disk, dropped, [], []))
    ensures OnDisk(boxes, pieceSize, disk) ==>
      OnDisk(boxes', pieceSize, disk) && TrimHarmless(boxes, pieceSize, disk, dropped, [], [])
  {
    assert dropped + Elements([]) == dropped;
    assert Trimmed(boxes, boxes', pieceSize, dropped, [], []);
    TrimmedOk(boxes, boxes', pieceSize, dropped);
    if Agrees(boxes, pieceSize, disk, plain) {
      TrimAgreesIff(boxes, boxes', pieceSize, dropped, [], [], [], disk, plain);
    }
    if OnDisk(boxes, pieceSize, disk) {
      TrimOnDisk(boxes, boxes', pieceSize, dropped, [], [], disk, disk);
      DroppedHarmless(boxes, pieceSize, disk, dropped, [], []);
    }
  }
}
