// A session whose store has a cache, under arbitrary peers and failing files:
// which of its verified pieces still read back with their digest. A short block
// counts as a whole one, so a piece can be verified with bytes that were on disk
// before; they are hidden once its box is marked, and overwritten when its box
// is evicted. A piece counts as verified even if it could not be committed.

module CachedSessions {
  import opened Options
  import opened Arith
  import opened Bytes
  import opened Pieces
  import opened Boxes
  import opened Evictions
  import opened CacheDiscipline
  import opened Protocol
  import opened SessionProperties
  import C = CacheRuns

  // The verified pieces: held are those that were committed or found on disk,
  // loose are those whose commit failed.
  datatype State = State(boxes: seq<Box>, disk: seq<byte>, held: set<nat>, loose: set<nat>)

  // Store: a block from a peer, with the trimming that it causes; the files may
  // fail while chunks are written back.
  // Accept: a piece with the right digest, of which n bytes reach the files.
  // Drop: committed boxes go because another cache needs the memory.
  datatype Event =
    | Store(k: nat, begin: nat, data: seq<byte>, t: Trimming)
    | Accept(k: nat, n: nat, committed: bool)
    | Drop(gone: set<nat>)

  // One box for each piece.
  ghost predicate Ok(task: Task, s: State)
    requires task.Valid()
  {
    && AllOk(s.boxes, task.layout.pieceLen) && |s.boxes| == task.layout.Pieces()
    && |s.disk| == task.layout.size && InRange(task, s.held) && InRange(task, s.loose)
  }

  // What a reader sees of the whole store.
  ghost function Visible(task: Task, s: State): (r: seq<byte>)
    requires task.Valid() && Ok(task, s)
    ensures |r| == |s.disk|
  {
    seq(|s.disk|, x requires 0 <= x < |s.disk| => ViewAt(s.boxes, task.layout.pieceLen, s.disk, x))
  }

  ghost function SeenPiece(task: Task, s: State, k: nat): seq<byte>
    requires task.Valid() && Ok(task, s)
  {
    PieceBytes(task, Visible(task, s), k)
  }

  // A reader gets the piece with its digest.
  ghost predicate ReadsBack(task: Task, s: State, k: nat)
    requires task.Valid() && k < task.layout.Pieces()
  {
    Ok(task, s) && task.hash(SeenPiece(task, s, k)) == task.sums[k]
  }

  ghost predicate Takes(task: Task, s: State, e: Event, s': State)
    requires task.Valid() && Ok(task, s)
  {
    match e
    case Store(k, begin, data, t) =>
      && k < task.layout.Pieces() && k !in s.held && k !in s.loose && begin + |data| <= task.layout.pieceLen
      && WritesAndTrims(s.boxes, s.disk, task.layout.pieceLen, task.Start(k) + begin, data, t, s'.boxes, s'.disk)
      && s'.held == s.held && s'.loose == s.loose
    case Accept(k, n, committed) =>
      && k < task.layout.Pieces() && k !in s.held && k !in s.loose && ReadsBack(task, s, k)
      && n <= |SeenPiece(task, s, k)| && (committed ==> n == |SeenPiece(task, s, k)|)
      && s'.disk == Splice(s.disk, task.Start(k), SeenPiece(task, s, k)[..n])
      && s'.boxes == (if committed then s.boxes[k := Marked(s.boxes[k])] else s.boxes)
      && s'.held == (if committed then s.held + {k} else s.held)
      && s'.loose == (if committed then s.loose else s.loose + {k})
    case Drop(gone) =>
      CommittedIn(s.boxes, gone) && Dropped(s.boxes, s'.boxes, gone) && s' == s.(boxes := s'.boxes)
  }

  // The files have the right bytes of the piece, and its box cannot be evicted.
  ghost predicate Safe(task: Task, s: State, k: nat)
    requires task.Valid() && Ok(task, s) && k < task.layout.Pieces()
  {
    && task.hash(PieceBytes(task, s.disk, k)) == task.sums[k]
    && (s.boxes[k].data.Some? ==> s.boxes[k].committed)
  }

  ghost predicate CommittedHeld(s: State) {
    s.held !! s.loose && forall i :: 0 <= i < |s.boxes| && s.boxes[i].committed ==> i in s.held
  }

  ghost predicate AllSafe(task: Task, s: State)
    requires task.Valid()
  {
    Ok(task, s) && CommittedHeld(s) && forall k :: k in s.held ==> Safe(task, s, k)
  }

  // An empty cache, and the pieces that were found good on disk.
  ghost predicate Started(task: Task, s: State)
    requires task.Valid()
  {
    && Ok(task, s) && s.loose == {} && (forall i :: 0 <= i < |s.boxes| ==> s.boxes[i].data.None?)
    && forall k :: k in s.held ==> task.hash(PieceBytes(task, s.disk, k)) == task.sums[k]
  }

  lemma StartIsSafe(task: Task, s: State)
    requires task.Valid() && Started(task, s)
    ensures AllSafe(task, s)
  {
    forall i | 0 <= i < |s.boxes| ensures !s.boxes[i].committed {
      assert s.boxes[i].Ok(task.layout.pieceLen);
    }
  }

  // The box of the piece hides no byte of the files.
  ghost predicate Clear(task: Task, s: State, k: nat)
    requires task.Valid() && Ok(task, s) && k < task.layout.Pieces()
  {
    s.boxes[k].data.Some? ==> Synced(s.boxes[k], k, task.layout.pieceLen, s.disk)
  }

  // ---- Reading a piece back ----

  lemma SeenByte(task: Task, s: State, k: nat, j: nat)
    requires task.Valid() && Ok(task, s) && k < task.layout.Pieces() && j < task.layout.PieceLength(k)
    ensures j < task.layout.pieceLen && task.Start(k) + j < |s.disk|
    ensures SeenPiece(task, s, k)[j] == Seen(s.boxes[k], k, task.layout.pieceLen, s.disk, j)
    ensures PieceBytes(task, s.disk, k)[j] == s.disk[task.Start(k) + j]
  {
    PiecesTileFile(task.layout);
    PieceSpan(task.layout, k, task.Start(k) + j);
    At(task.layout.pieceLen, k, j);
  }

  lemma InPiece(task: Task, k: nat, j: nat)
    requires task.Valid() && k < task.layout.Pieces() && j < task.layout.pieceLen
    ensures j < task.layout.PieceLength(k) <==> task.Start(k) + j < task.layout.size
  {
    At(task.layout.pieceLen, k, j);
    PieceSpan(task.layout, k, task.Start(k) + j);
  }

  // A committed piece reads back as it is in the files exactly when its box
  // hides none of its bytes.
  lemma SeenIffClear(task: Task, s: State, k: nat)
    requires task.Valid() && Ok(task, s) && k < task.layout.Pieces() && Safe(task, s, k)
    ensures SeenPiece(task, s, k) == PieceBytes(task, s.disk, k) <==> Clear(task, s, k)
  {
    var pieceLen := task.layout.pieceLen;
    assert s.boxes[k].Ok(pieceLen);
    forall j: nat | j < pieceLen && task.Start(k) + j < |s.disk|
      ensures SeenPiece(task, s, k)[j] == PieceBytes(task, s.disk, k)[j]
        <==> (s.boxes[k].data.Some? ==> s.boxes[k].data.value[j] == s.disk[task.Start(k) + j])
    {
      InPiece(task, k, j);
      SeenByte(task, s, k, j);
    }
    if Clear(task, s, k) {
      forall j | 0 <= j < task.layout.PieceLength(k) ensures SeenPiece(task, s, k)[j] == PieceBytes(task, s.disk, k)[j] {
        SeenByte(task, s, k, j);
      }
    } else {
      var j: nat :| j < pieceLen && task.Start(k) + j < |s.disk| && s.boxes[k].data.value[j] != s.disk[task.Start(k) + j];
      InPiece(task, k, j);
      assert SeenPiece(task, s, k)[j] != PieceBytes(task, s.disk, k)[j];
    }
  }

  // So it has its digest if its box is clear, and only then when the hash has
  // no collisions.
  lemma ReadsBackIff(task: Task, s: State, k: nat)
    requires task.Valid() && Ok(task, s) && k < task.layout.Pieces() && Safe(task, s, k)
    ensures Clear(task, s, k) ==> task.hash(SeenPiece(task, s, k)) == task.sums[k]
    ensures Injective(task.hash) ==> (task.hash(SeenPiece(task, s, k)) == task.sums[k] <==> Clear(task, s, k))
  {
    SeenIffClear(task, s, k);
  }

  // A piece is seen as before exactly when each byte of its box is.
  lemma SeenPieceIff(task: Task, s: State, s': State, k: nat)
    requires task.Valid() && Ok(task, s) && Ok(task, s') && k < task.layout.Pieces()
    ensures SeenPiece(task, s', k) == SeenPiece(task, s, k)
      <==> SeenSame(s.boxes[k], s.disk, s'.boxes[k], s'.disk, k, task.layout.pieceLen)
  {
    var pieceLen := task.layout.pieceLen;
    forall j: nat | j < pieceLen && task.Start(k) + j < |s.disk|
      ensures j < task.layout.PieceLength(k)
      ensures SeenPiece(task, s, k)[j] == Seen(s.boxes[k], k, pieceLen, s.disk, j)
      ensures SeenPiece(task, s', k)[j] == Seen(s'.boxes[k], k, pieceLen, s'.disk, j)
    {
      InPiece(task, k, j);
      SeenByte(task, s, k, j);
      SeenByte(task, s', k, j);
    }
    if SeenSame(s.boxes[k], s.disk, s'.boxes[k], s'.disk, k, pieceLen) {
      forall j: nat | j < task.layout.PieceLength(k) ensures SeenPiece(task, s', k)[j] == SeenPiece(task, s, k)[j] {
        SeenByte(task, s, k, j);
      }
    }
  }

  // ---- Steps: other pieces ----

  // Storing a block of one piece leaves the box of any other as it was.
  lemma StoreElsewhere(task: Task, s: State, e: Event, s': State, k: nat)
    requires task.Valid() && Ok(task, s) && e.Store? && Takes(task, s, e, s') && k < task.layout.Pieces() && k != e.k
    ensures AllOk(e.t.written, task.layout.pieceLen) && |e.t.written| == |s.boxes|
    ensures e.t.written[k].committed == s.boxes[k].committed && (e.t.written[k].data.Some? <==> s.boxes[k].data.Some?)
    ensures forall j: nat :: j < task.layout.pieceLen ==> (e.t.written[k].Has(j) <==> s.boxes[k].Has(j))
    ensures forall j: nat :: j < task.layout.pieceLen && s.boxes[k].Has(j) ==>
      e.t.written[k].data.value[j] == s.boxes[k].data.value[j]
  {
    var pieceLen := task.layout.pieceLen;
    forall j: nat | j < pieceLen
      ensures e.t.written[k].Has(j) <==> s.boxes[k].Has(j)
      ensures s.boxes[k].Has(j) ==> e.t.written[k].data.value[j] == s.boxes[k].data.value[j]
    {
      WrittenByte(s.boxes, e.t.written, pieceLen, task.Start(e.k) + e.begin, e.data, k, j);
      Apart(pieceLen, e.k, e.begin + |e.data|, k);
    }
    if e.t.written[k].data.Some? { HasSome(e.t.written[k], pieceLen); }
    if s.boxes[k].data.Some? { HasSome(s.boxes[k], pieceLen); }
  }

  lemma AcceptElsewhere(task: Task, s: State, e: Event, s': State, k: nat)
    requires task.Valid() && Ok(task, s) && e.Accept? && Takes(task, s, e, s') && k < task.layout.Pieces() && k != e.k
    ensures SameInBox(s.disk, s'.disk, k, task.layout.pieceLen) && |s'.boxes| == |s.boxes| && s'.boxes[k] == s.boxes[k]
  {
    PiecesTileFile(task.layout);
    Apart(task.layout.pieceLen, e.k, e.n, k);
  }

  // ---- Steps: held pieces ----

  // Storing a block of one piece leaves the box of every held piece as it was,
  // or drops it.
  lemma StoreKeepsBox(task: Task, s: State, e: Event, s': State, k: nat)
    requires task.Valid() && Ok(task, s) && e.Store? && Takes(task, s, e, s') && k < task.layout.Pieces() && Ok(task, s')
    requires k in s.held && Safe(task, s, k)
    ensures k !in e.t.evicted
    ensures s'.boxes[k].data.None? || (s.boxes[k].data.Some? && s'.boxes[k].committed && s'.boxes[k].data == s.boxes[k].data)
  {
    var pieceLen := task.layout.pieceLen;
    StoreElsewhere(task, s, e, s', k);
    if s.boxes[k].data.Some? { SameData(s.boxes[k], e.t.written[k], pieceLen); }
    forall m | 0 <= m < |e.t.evicted| ensures e.t.evicted[m] != k {
      assert IsChunkOf(e.t.written[e.t.evicted[m]], e.t.evicted[m], pieceLen, e.t.chunks[m]);
    }
  }

  lemma SameData(b: Box, b': Box, pieceSize: nat)
    requires b.Ok(pieceSize) && b'.Ok(pieceSize) && b.committed && pieceSize > 0
    requires forall j: nat :: j < pieceSize ==> (b'.Has(j) <==> b.Has(j)) && (b.Has(j) ==> b'.data.value[j] == b.data.value[j])
    ensures b'.data == b.data
  {
    assert b.Has(0) && b'.Has(0);
    forall j: nat | j < pieceSize ensures b'.data.value[j] == b.data.value[j] { assert b.Has(j); }
    assert b'.data.value == b.data.value;
  }

  lemma DiskKeepsPiece(task: Task, disk: seq<byte>, disk': seq<byte>, k: nat, listed: seq<nat>)
    requires task.Valid() && |disk| == task.layout.size && k < task.layout.Pieces() && k !in listed
    requires OnlyBoxes(disk, disk', task.layout.pieceLen, listed)
    ensures SameInBox(disk, disk', k, task.layout.pieceLen) && PieceBytes(task, disk', k) == PieceBytes(task, disk, k)
  {
    forall x: nat | task.Start(k) <= x < task.Start(k) + task.layout.pieceLen && x < |disk| ensures disk'[x] == disk[x] {
      DivUnique(x, task.layout.pieceLen, k);
    }
    SameBytes(task, disk, disk', k);
  }

  lemma SameBytes(task: Task, disk: seq<byte>, disk': seq<byte>, k: nat)
    requires task.Valid() && |disk| == task.layout.size && k < task.layout.Pieces()
    requires SameInBox(disk, disk', k, task.layout.pieceLen)
    ensures PieceBytes(task, disk', k) == PieceBytes(task, disk, k)
  {
    PiecesTileFile(task.layout);
    PieceSpan(task.layout, k, 0);
    forall j | 0 <= j < task.layout.PieceLength(k) ensures PieceBytes(task, disk', k)[j] == PieceBytes(task, disk, k)[j] {
      assert task.Start(k) + j < |disk|;
    }
  }

  // What a step may do to a held piece: its bytes stay in the files, and its
  // box stays as it is or goes.
  ghost predicate KeepsPiece(task: Task, s: State, s': State, k: nat)
    requires task.Valid() && Ok(task, s) && Ok(task, s') && k < task.layout.Pieces()
  {
    && SameInBox(s.disk, s'.disk, k, task.layout.pieceLen)
    && (s'.boxes[k].data.None? || (s.boxes[k].data.Some? && s'.boxes[k].committed && s'.boxes[k].data == s.boxes[k].data))
  }

  lemma KeptIsSafe(task: Task, s: State, s': State, k: nat)
    requires task.Valid() && Ok(task, s) && Ok(task, s') && k < task.layout.Pieces()
    requires Safe(task, s, k) && KeepsPiece(task, s, s', k)
    ensures Safe(task, s', k)
    ensures Clear(task, s', k) <==> Clear(task, s, k) || s'.boxes[k].data.None?
  {
    SameBytes(task, s.disk, s'.disk, k);
    var pieceLen := task.layout.pieceLen;
    assert s.boxes[k].Ok(pieceLen) && s'.boxes[k].Ok(pieceLen);
  }

  lemma StepOk(task: Task, s: State, e: Event, s': State)
    requires task.Valid() && Ok(task, s) && Takes(task, s, e, s')
    ensures Ok(task, s')
  {
    match e
    case Store(_, _, _, t) =>
      TrimmedOk(t.written, s'.boxes, task.layout.pieceLen, t.dropped + Elements(t.evicted));
    case Accept(k, _, _) =>
      assert s.boxes[k].Ok(task.layout.pieceLen);
    case Drop(gone) =>
      TrimmedOk(s.boxes, s'.boxes, task.layout.pieceLen, gone);
  }

  // No step touches a held piece in the files, whatever the peers send and
  // however the files fail.
  lemma StepKeepsPiece(task: Task, s: State, e: Event, s': State, k: nat)
    requires task.Valid() && AllSafe(task, s) && Takes(task, s, e, s') && k in s.held && Ok(task, s')
    ensures k in s'.held && k < task.layout.Pieces() && KeepsPiece(task, s, s', k)
  {
    assert Safe(task, s, k);
    match e
    case Store(_, _, _, t) =>
      StoreKeepsBox(task, s, e, s', k);
      FlushedOnly(t.written, task.layout.pieceLen, t.evicted, t.chunks, t.parts, s.disk);
      DiskKeepsPiece(task, s.disk, s'.disk, k, t.evicted);
    case Accept(_, _, _) =>
      AcceptElsewhere(task, s, e, s', k);
    case Drop(_) =>
  }

  lemma AcceptedOnDisk(task: Task, s: State, e: Event, s': State)
    requires task.Valid() && Ok(task, s) && Takes(task, s, e, s') && e.Accept? && e.committed
    ensures |s'.disk| == |s.disk| && PieceBytes(task, s'.disk, e.k) == SeenPiece(task, s, e.k)
  {
    var piece := SeenPiece(task, s, e.k);
    assert piece[..e.n] == piece;
    PiecesTileFile(task.layout);
    PieceSpan(task.layout, e.k, 0);
    SpliceWindow(s.disk, task.Start(e.k), piece);
  }

  lemma SpliceWindow(content: seq<byte>, off: nat, p: seq<byte>)
    requires off + |p| <= |content|
    ensures Window(Splice(content, off, p), off, |p|) == p
  {
  }

  // What was accepted is what was written into the box, and what was on disk
  // where nothing was.
  lemma AcceptedByte(task: Task, s: State, e: Event, s': State, j: nat)
    requires task.Valid() && Ok(task, s) && Takes(task, s, e, s') && e.Accept? && e.committed
    requires j < task.layout.pieceLen && task.Start(e.k) + j < |s.disk|
    ensures |s'.disk| == |s.disk| && s.boxes[e.k].Ok(task.layout.pieceLen)
    ensures s'.disk[task.Start(e.k) + j] == Seen(s.boxes[e.k], e.k, task.layout.pieceLen, s.disk, j)
  {
    AcceptedOnDisk(task, s, e, s');
    InPiece(task, e.k, j);
    SeenByte(task, s, e.k, j);
    assert PieceBytes(task, s'.disk, e.k)[j] == s'.disk[task.Start(e.k) + j];
  }

  // A piece that is committed is safe from then on, and it is clear exactly when
  // the unwritten bytes of its buffer were those on disk before.
  lemma AcceptedIff(task: Task, s: State, e: Event, s': State)
    requires task.Valid() && Ok(task, s) && Ok(task, s') && Takes(task, s, e, s') && e.Accept? && e.committed
    ensures s.boxes[e.k].Ok(task.layout.pieceLen) && Safe(task, s', e.k)
    ensures Clear(task, s', e.k) <==> MarkHarmless(s.boxes[e.k], e.k, task.layout.pieceLen, s.disk)
  {
    AcceptedOnDisk(task, s, e, s');
    assert s.boxes[e.k].Ok(task.layout.pieceLen);
    forall j: nat | j < task.layout.pieceLen && task.Start(e.k) + j < |s.disk|
      ensures s'.disk[task.Start(e.k) + j] == Seen(s.boxes[e.k], e.k, task.layout.pieceLen, s.disk, j)
    {
      AcceptedByte(task, s, e, s', j);
    }
    SyncedIffHarmless(s.boxes[e.k], e.k, task.layout.pieceLen, s.disk, s'.disk);
  }

  lemma SyncedIffHarmless(b: Box, i: nat, pieceSize: nat, disk: seq<byte>, disk': seq<byte>)
    requires b.Ok(pieceSize) && |disk'| == |disk|
    requires forall j: nat :: j < pieceSize && i * pieceSize + j < |disk| ==>
      disk'[i * pieceSize + j] == Seen(b, i, pieceSize, disk, j)
    ensures (b.data.Some? ==> Synced(Marked(b), i, pieceSize, disk')) <==> MarkHarmless(b, i, pieceSize, disk)
  {
    forall j: nat | j < pieceSize && i * pieceSize + j < |disk| && b.data.Some?
      ensures b.data.value[j] == disk'[i * pieceSize + j]
        <==> (!b.Has(j) ==> b.data.value[j] == disk[i * pieceSize + j])
    {
      assert disk'[i * pieceSize + j] == Seen(b, i, pieceSize, disk, j);
    }
  }

  lemma StepIsSafe(task: Task, s: State, e: Event, s': State)
    requires task.Valid() && AllSafe(task, s) && Takes(task, s, e, s')
    ensures AllSafe(task, s')
  {
    StepOk(task, s, e, s');
    StepCommits(task, s, e, s');
    forall k | k in s'.held ensures Safe(task, s', k) {
      if k in s.held {
        StepKeepsPiece(task, s, e, s', k);
        KeptIsSafe(task, s, s', k);
      } else {
        AcceptedIff(task, s, e, s');
      }
    }
  }

  lemma StepCommits(task: Task, s: State, e: Event, s': State)
    requires task.Valid() && Ok(task, s) && Ok(task, s') && CommittedHeld(s) && Takes(task, s, e, s')
    ensures CommittedHeld(s')
  {
    forall i | 0 <= i < |s'.boxes| && s'.boxes[i].committed ensures i in s'.held {
      if e.Store? { assert e.t.written[i].committed == s.boxes[i].committed; }
    }
  }

  // A held piece that is clear stays so, and one that is not becomes so exactly
  // when its box goes.
  lemma ClearStays(task: Task, s: State, e: Event, s': State, k: nat)
    requires task.Valid() && AllSafe(task, s) && Takes(task, s, e, s') && k in s.held
    ensures AllSafe(task, s') && k in s'.held && k < task.layout.Pieces()
    ensures Clear(task, s', k) <==> Clear(task, s, k) || s'.boxes[k].data.None?
    ensures s.boxes[k].data.None? ==> s'.boxes[k].data.None?
  {
    StepIsSafe(task, s, e, s');
    StepKeepsPiece(task, s, e, s', k);
    KeptIsSafe(task, s, s', k);
  }

  // ---- Steps: loose pieces ----

  // If the step evicts the box of piece k, writing it back is harmless.
  ghost predicate EvictsWell(task: Task, s: State, e: Event, k: nat) {
    e.Store? ==> AllOk(e.t.written, task.layout.pieceLen) && forall q :: 0 <= q < |e.t.evicted| && e.t.evicted[q] == k ==>
      WritesBackWell(e.t, q, task.layout.pieceLen, s.disk)
  }

  ghost predicate WritesBackWell(t: Trimming, q: nat, pieceSize: nat, disk: seq<byte>)
    requires AllOk(t.written, pieceSize)
  {
    q < |t.evicted| && q < |t.parts| && t.evicted[q] < |t.written| &&
    WriteBackHarmless(t.written[t.evicted[q]], t.evicted[q], pieceSize, t.parts[q], disk)
  }

  ghost predicate Evicts(e: Event, k: nat) {
    e.Store? && k in e.t.evicted
  }

  // A failed commit leaves the piece as readers see it.
  lemma LooseAccepted(task: Task, s: State, e: Event, s': State)
    requires task.Valid() && Ok(task, s) && Ok(task, s') && Takes(task, s, e, s') && e.Accept? && !e.committed
    ensures SeenPiece(task, s', e.k) == SeenPiece(task, s, e.k)
  {
    var k, pieceLen := e.k, task.layout.pieceLen;
    forall j: nat | j < pieceLen && task.Start(k) + j < |s.disk|
      ensures Seen(s'.boxes[k], k, pieceLen, s'.disk, j) == Seen(s.boxes[k], k, pieceLen, s.disk, j)
    {
      InPiece(task, k, j);
      SeenByte(task, s, k, j);
    }
    SeenPieceIff(task, s, s', k);
  }

  lemma SeenThen(b: Box, b1: Box, b2: Box, disk: seq<byte>, disk2: seq<byte>, i: nat, pieceSize: nat)
    requires b.Ok(pieceSize) && b1.Ok(pieceSize) && b2.Ok(pieceSize)
    requires forall j: nat :: j < pieceSize ==> (b1.Has(j) <==> b.Has(j))
    requires forall j: nat :: j < pieceSize && b.Has(j) && b1.Has(j) ==> b1.data.value[j] == b.data.value[j]
    ensures SeenSame(b, disk, b2, disk2, i, pieceSize) <==> SeenSame(b1, disk, b2, disk2, i, pieceSize)
  {
    forall j: nat | j < pieceSize ensures Seen(b1, i, pieceSize, disk, j) == Seen(b, i, pieceSize, disk, j) {
    }
  }

  lemma LooseStore(task: Task, s: State, e: Event, s': State, k: nat)
    requires task.Valid() && AllSafe(task, s) && Ok(task, s') && Takes(task, s, e, s') && e.Store? && k in s.loose
    ensures k < task.layout.Pieces()
    ensures SeenSame(s.boxes[k], s.disk, s'.boxes[k], s'.disk, k, task.layout.pieceLen) <==> EvictsWell(task, s, e, k)
    ensures Evicts(e, k) ==> s.boxes[k].data.Some? && s'.boxes[k].data.None?
    ensures s.boxes[k].data.None? ==> s'.boxes[k].data.None?
  {
    var pieceLen, t := task.layout.pieceLen, e.t;
    StoreElsewhere(task, s, e, s', k);
    SeenThen(s.boxes[k], t.written[k], s'.boxes[k], s.disk, s'.disk, k, pieceLen);
    if k in t.evicted {
      var q: nat :| q < |t.evicted| && t.evicted[q] == k;
      EvictedBoxIff(t.written, s'.boxes, pieceLen, t.dropped, t.evicted, t.chunks, t.parts, s.disk, q);
      assert IsChunkOf(t.written[t.evicted[q]], t.evicted[q], pieceLen, t.chunks[q]);
      OnlyEviction(t, q, pieceLen, s.disk);
    } else {
      OtherBoxIff(t.written, s'.boxes, pieceLen, t.dropped, t.evicted, t.chunks, t.parts, s.disk, k);
    }
  }

  // No box is evicted twice.
  lemma OnlyEviction(t: Trimming, q: nat, pieceSize: nat, disk: seq<byte>)
    requires AllOk(t.written, pieceSize) && Evicted(t.written, pieceSize, t.evicted, t.chunks) && PartsOf(t.parts, t.chunks)
    requires q < |t.evicted|
    ensures WriteBackHarmless(t.written[t.evicted[q]], t.evicted[q], pieceSize, t.parts[q], disk)
      <==> forall p :: 0 <= p < |t.evicted| && t.evicted[p] == t.evicted[q] ==> WritesBackWell(t, p, pieceSize, disk)
  {
    if forall p :: 0 <= p < |t.evicted| && t.evicted[p] == t.evicted[q] ==> WritesBackWell(t, p, pieceSize, disk) {
      assert WritesBackWell(t, q, pieceSize, disk);
    }
  }

  // A step leaves a loose piece as readers see it exactly when it does not evict
  // its box, or writes it back without harm.
  lemma LooseStepIff(task: Task, s: State, e: Event, s': State, k: nat)
    requires task.Valid() && AllSafe(task, s) && Takes(task, s, e, s') && k in s.loose
    ensures AllSafe(task, s') && k in s'.loose && k < task.layout.Pieces()
    ensures SeenPiece(task, s', k) == SeenPiece(task, s, k) <==> EvictsWell(task, s, e, k)
    ensures Evicts(e, k) ==> s.boxes[k].data.Some? && s'.boxes[k].data.None?
    ensures s.boxes[k].data.None? ==> s'.boxes[k].data.None?
  {
    StepIsSafe(task, s, e, s');
    SeenPieceIff(task, s, s', k);
    match e
    case Store(_, _, _, _) =>
      LooseStore(task, s, e, s', k);
    case Accept(_, _, _) =>
      AcceptElsewhere(task, s, e, s', k);
      SeenOnDisk(s.boxes[k], s.disk, s'.boxes[k], s.disk, s'.disk, k, task.layout.pieceLen);
    case Drop(_) =>
      assert s'.boxes[k] == s.boxes[k];
  }

  // ---- Runs ----

  ghost predicate StepOf(task: Task, s: State, e: Event, s': State)
    requires task.Valid()
  {
    Ok(task, s) ==> Takes(task, s, e, s')
  }

  ghost predicate IsRun(task: Task, run: nat -> State, events: nat -> Event, n: nat)
    requires task.Valid()
  {
    AllSafe(task, run(0)) && forall m: nat :: m < n ==> StepOf(task, run(m), events(m), run(m + 1))
  }

  // In every state of every run under arbitrary peers, a held piece is right in
  // the files.
  lemma {:induction false} RunIsSafe(task: Task, run: nat -> State, events: nat -> Event, n: nat)
    requires task.Valid() && IsRun(task, run, events, n)
    ensures AllSafe(task, run(n))
  {
    if n > 0 {
      RunIsSafe(task, run, events, n - 1);
      assert StepOf(task, run(n - 1), events(n - 1), run(n - 1 + 1));
      StepIsSafe(task, run(n - 1), events(n - 1), run(n));
    }
  }

  lemma LastStep(task: Task, run: nat -> State, events: nat -> Event, n: nat)
    requires task.Valid() && IsRun(task, run, events, n) && n > 0
    ensures IsRun(task, run, events, n - 1) && AllSafe(task, run(n - 1))
    ensures Takes(task, run(n - 1), events(n - 1), run(n))
  {
    RunIsSafe(task, run, events, n - 1);
    assert StepOf(task, run(n - 1), events(n - 1), run(n - 1 + 1));
  }

  ghost predicate Accepts(e: Event, k: nat) {
    e.Accept? && e.k == k
  }

  // A piece is verified exactly when it was at the start or was accepted since.
  lemma {:induction false} VerifiedIff(task: Task, run: nat -> State, events: nat -> Event, n: nat, k: nat)
    requires task.Valid() && IsRun(task, run, events, n)
    ensures k in run(n).held || k in run(n).loose
      <==> k in run(0).held || k in run(0).loose || exists m: nat :: m < n && Accepts(events(m), k)
  {
    if n > 0 {
      LastStep(task, run, events, n);
      VerifiedIff(task, run, events, n - 1, k);
    }
  }

  // A piece that was found on disk when the session started reads back always.
  lemma {:induction false} FoundReadsBack(task: Task, run: nat -> State, events: nat -> Event, n: nat, k: nat)
    requires task.Valid() && Started(task, run(0)) && IsRun(task, run, events, n) && k in run(0).held
    ensures k < task.layout.Pieces() && AllSafe(task, run(n)) && k in run(n).held && run(n).boxes[k].data.None?
    ensures ReadsBack(task, run(n), k)
  {
    if n > 0 {
      LastStep(task, run, events, n);
      FoundReadsBack(task, run, events, n - 1, k);
      ClearStays(task, run(n - 1), events(n - 1), run(n), k);
    }
    assert Safe(task, run(n), k);
    ReadsBackIff(task, run(n), k);
  }

  // The box of piece k was empty in one of the states from lo to n.
  ghost predicate EmptyOnce(run: nat -> State, lo: nat, n: nat, k: nat) {
    exists i: nat :: lo <= i <= n && EmptyIn(run(i), k)
  }

  ghost predicate EmptyIn(s: State, k: nat) {
    k < |s.boxes| && s.boxes[k].data.None?
  }

  // Piece k, committed at step m, is clear after n steps exactly when marking
  // its box hid nothing, or its box has gone since.
  lemma {:induction false} CommittedRun(task: Task, run: nat -> State, events: nat -> Event, m: nat, n: nat, k: nat)
    requires task.Valid() && IsRun(task, run, events, n) && m < n && Accepts(events(m), k) && events(m).committed
    ensures AllSafe(task, run(m)) && AllSafe(task, run(n)) && k < task.layout.Pieces() && k in run(n).held
    ensures Clear(task, run(n), k)
      <==> MarkHarmless(run(m).boxes[k], k, task.layout.pieceLen, run(m).disk) || EmptyOnce(run, m + 2, n, k)
    decreases n
  {
    LastStep(task, run, events, n);
    if n == m + 1 {
      StepIsSafe(task, run(m), events(m), run(n));
      AcceptedIff(task, run(m), events(m), run(n));
    } else {
      CommittedRun(task, run, events, m, n - 1, k);
      ClearStays(task, run(n - 1), events(n - 1), run(n), k);
      EmptyOnceMore(run, m + 2, n - 1, k);
    }
  }

  lemma EmptyOnceMore(run: nat -> State, lo: nat, n: nat, k: nat)
    requires lo <= n + 1
    ensures EmptyOnce(run, lo, n + 1, k) <==> EmptyOnce(run, lo, n, k) || EmptyIn(run(n + 1), k)
  {
  }

  // Every eviction of the box of piece k after step m and before step n was harmless.
  ghost predicate EvictedWell(task: Task, run: nat -> State, events: nat -> Event, m: nat, n: nat, k: nat) {
    forall i: nat :: m < i < n ==> EvictsWell(task, run(i), events(i), k)
  }

  ghost predicate NotEvicted(events: nat -> Event, m: nat, n: nat, k: nat) {
    forall i: nat :: m < i < n ==> !Evicts(events(i), k)
  }

  lemma OneMoreStep(task: Task, run: nat -> State, events: nat -> Event, m: nat, n: nat, k: nat)
    requires m < n
    ensures EvictedWell(task, run, events, m, n + 1, k)
      <==> EvictedWell(task, run, events, m, n, k) && EvictsWell(task, run(n), events(n), k)
    ensures NotEvicted(events, m, n + 1, k) <==> NotEvicted(events, m, n, k) && !Evicts(events(n), k)
  {
  }

  // Piece k is seen as it was verified exactly when every eviction of its box
  // since step m was harmless; there was at most one.
  ghost predicate SeenUnlessSpoiled(task: Task, run: nat -> State, events: nat -> Event, m: nat, n: nat, k: nat)
    requires task.Valid() && Ok(task, run(m)) && Ok(task, run(n)) && k < task.layout.Pieces()
  {
    && (SeenPiece(task, run(n), k) == SeenPiece(task, run(m), k) <==> EvictedWell(task, run, events, m, n, k))
    && (run(n).boxes[k].data.None? || NotEvicted(events, m, n, k))
    && (NotEvicted(events, m, n, k) ==> EvictedWell(task, run, events, m, n, k))
  }

  lemma LooseFirst(task: Task, run: nat -> State, events: nat -> Event, m: nat, k: nat)
    requires task.Valid() && IsRun(task, run, events, m + 1) && Accepts(events(m), k) && !events(m).committed
    ensures AllSafe(task, run(m)) && AllSafe(task, run(m + 1)) && k < task.layout.Pieces() && k in run(m + 1).loose
    ensures SeenUnlessSpoiled(task, run, events, m, m + 1, k)
  {
    LastStep(task, run, events, m + 1);
    StepIsSafe(task, run(m), events(m), run(m + 1));
    LooseAccepted(task, run(m), events(m), run(m + 1));
  }

  lemma LooseNext(task: Task, run: nat -> State, events: nat -> Event, m: nat, n: nat, k: nat)
    requires task.Valid() && IsRun(task, run, events, n) && Ok(task, run(m)) && m + 1 < n
    requires AllSafe(task, run(n - 1)) && k in run(n - 1).loose && SeenUnlessSpoiled(task, run, events, m, n - 1, k)
    ensures AllSafe(task, run(n)) && k in run(n).loose && SeenUnlessSpoiled(task, run, events, m, n, k)
  {
    LastStep(task, run, events, n);
    LooseStepIff(task, run(n - 1), events(n - 1), run(n), k);
    OneMoreStep(task, run, events, m, n - 1, k);
  }

  lemma {:induction false} LooseRun(task: Task, run: nat -> State, events: nat -> Event, m: nat, n: nat, k: nat)
    requires task.Valid() && IsRun(task, run, events, n) && m < n && Accepts(events(m), k) && !events(m).committed
    ensures AllSafe(task, run(m)) && AllSafe(task, run(n)) && k < task.layout.Pieces() && k in run(n).loose
    ensures SeenUnlessSpoiled(task, run, events, m, n, k)
    decreases n
  {
    if n == m + 1 {
      LooseFirst(task, run, events, m, k);
    } else {
      LooseRun(task, run, events, m, n - 1, k);
      LooseNext(task, run, events, m, n, k);
    }
  }

  // What decides whether piece k, accepted at step m, still reads back.
  ghost predicate Unspoiled(task: Task, run: nat -> State, events: nat -> Event, m: nat, n: nat, k: nat)
    requires task.Valid() && Ok(task, run(m)) && k < task.layout.Pieces() && Accepts(events(m), k)
  {
    if events(m).committed
    then MarkHarmless(run(m).boxes[k], k, task.layout.pieceLen, run(m).disk) || EmptyOnce(run, m + 2, n, k)
    else EvictedWell(task, run, events, m, n, k)
  }

  // In every run under arbitrary peers and failing files, a piece that was
  // verified at step m has its digest after n steps exactly when, if it was
  // committed, the unwritten bytes of its buffer were those on disk or its box
  // has gone since, and if it was not, every eviction of its box was harmless.
  lemma VerifiedReadsBackIff(task: Task, run: nat -> State, events: nat -> Event, m: nat, n: nat, k: nat)
    requires task.Valid() && IsRun(task, run, events, n) && m < n && Accepts(events(m), k) && Injective(task.hash)
    ensures AllSafe(task, run(m)) && AllSafe(task, run(n)) && k < task.layout.Pieces()
    ensures ReadsBack(task, run(n), k) <==> Unspoiled(task, run, events, m, n, k)
  {
    if events(m).committed {
      CommittedRun(task, run, events, m, n, k);
      assert Safe(task, run(n), k);
      ReadsBackIff(task, run(n), k);
    } else {
      LooseRun(task, run, events, m, n, k);
      assert StepOf(task, run(m), events(m), run(m + 1));
    }
  }

  // A piece that is committed after all its bytes were sent reads back always.
  lemma FullPieceReadsBack(task: Task, run: nat -> State, events: nat -> Event, m: nat, n: nat, k: nat)
    requires task.Valid() && IsRun(task, run, events, n) && m < n && Accepts(events(m), k) && events(m).committed
    requires Ok(task, run(m)) && k < task.layout.Pieces()
    requires FilledIn(run(m).boxes[k], k, task.layout.pieceLen, task.layout.size)
    ensures ReadsBack(task, run(n), k)
  {
    CommittedRun(task, run, events, m, n, k);
    FilledHarmless(run(m).boxes[k], k, task.layout.pieceLen, run(m).disk);
    assert Safe(task, run(n), k);
    ReadsBackIff(task, run(n), k);
  }

  // ---- The store underneath ----

  // What the step is to the store.
  ghost function OnStore(task: Task, e: Event): C.Event
    requires task.Valid()
  {
    match e
    case Store(k, begin, data, t) => C.Write(task.Start(k) + begin, data, t)
    case Accept(k, n, committed) => C.Commit(k, n, committed)
    case Drop(gone) => C.Trim(gone)
  }

  // What readers should see after the step: the block, and all else as before.
  ghost function Expected(task: Task, s: State, e: Event): seq<byte>
    requires task.Valid() && Ok(task, s)
  {
    if e.Store? then Splice(Visible(task, s), task.Start(e.k) + e.begin, e.data) else Visible(task, s)
  }

  lemma VisibleIsRight(task: Task, s: State, plain: seq<byte>)
    requires task.Valid() && Ok(task, s)
    ensures Covers(s.boxes, task.layout.pieceLen, s.disk)
    ensures C.Right(task.layout.pieceLen, C.State(s.boxes, s.disk, plain)) <==> Visible(task, s) == plain
  {
    PiecesTileFile(task.layout);
    if C.Right(task.layout.pieceLen, C.State(s.boxes, s.disk, plain)) {
      forall x: nat | x < |plain| ensures Visible(task, s)[x] == plain[x] {
        assert ViewAt(s.boxes, task.layout.pieceLen, s.disk, x) == plain[x];
      }
    }
  }

  ghost function StoreOf(s: State, plain: seq<byte>): C.State {
    C.State(s.boxes, s.disk, plain)
  }

  lemma PieceOnStore(task: Task, s: State, k: nat)
    requires task.Valid() && Ok(task, s) && k < task.layout.Pieces()
    ensures C.PieceOf(task.layout.pieceLen, StoreOf(s, Visible(task, s)), k) == SeenPiece(task, s, k)
  {
    PieceLengthInFile(task, k);
  }

  lemma TakesOnStore(task: Task, s: State, e: Event, s': State)
    requires task.Valid() && Ok(task, s) && Takes(task, s, e, s')
    requires C.Ok(task.layout.pieceLen, StoreOf(s, Visible(task, s)))
    ensures C.Takes(task.layout.pieceLen, StoreOf(s, Visible(task, s)), OnStore(task, e), StoreOf(s', Expected(task, s, e)))
  {
    match e
    case Store(_, _, _, _) =>
    case Accept(k, _, _) => PieceOnStore(task, s, k);
    case Drop(_) =>
  }

  // A step of the session is one of the store, from what readers see; they see
  // what they should afterwards exactly when it is harmless.
  lemma StepOnStore(task: Task, s: State, e: Event, s': State)
    requires task.Valid() && Ok(task, s) && Takes(task, s, e, s')
    ensures var pieceLen, from := task.layout.pieceLen, StoreOf(s, Visible(task, s));
      && Ok(task, s') && C.Ok(pieceLen, from)
      && C.Takes(pieceLen, from, OnStore(task, e), StoreOf(s', Expected(task, s, e)))
      && (Visible(task, s') == Expected(task, s, e) <==> C.StepHarmless(pieceLen, from, OnStore(task, e)))
  {
    StepOk(task, s, e, s');
    VisibleIsRight(task, s, Visible(task, s));
    VisibleIsRight(task, s', Expected(task, s, e));
    TakesOnStore(task, s, e, s');
    C.StepIff(task.layout.pieceLen, StoreOf(s, Visible(task, s)), OnStore(task, e), StoreOf(s', Expected(task, s, e)));
  }

  // ---- Where pieces are lost ----

  // A piece of two bytes, the second of which is on disk already. A peer sends
  // the first one only; the piece has the right digest when it is checked, and
  // another one as soon as it is committed.
  lemma ShortBlockHides(hash: seq<byte> -> Digest)
    ensures var task := Task(Layout(2, 2, 2), 2, hash, [hash([7, 9])]);
      var b := Box(Some([7, 0]), false, false, [true, false], 0);
      var s0 := State([b.Emptied()], [1, 9], {}, {});
      var s1 := State([b], [1, 9], {}, {});
      var s2 := State([Marked(b)], [7, 9], {0}, {});
      && task.Valid() && Started(task, s0) && Ok(task, s1) && Ok(task, s2)
      && Takes(task, s0, Store(0, 0, [7], Trimming([b], {}, [], [], [])), s1)
      && Takes(task, s1, Accept(0, 2, true), s2)
      && SeenPiece(task, s1, 0) == [7, 9] && SeenPiece(task, s2, 0) == [7, 0]
  {
    var task := Task(Layout(2, 2, 2), 2, hash, [hash([7, 9])]);
    var b := Box(Some([7, 0]), false, false, [true, false], 0);
    var s0 := State([b.Emptied()], [1, 9], {}, {});
    var s1 := State([b], [1, 9], {}, {});
    var s2 := State([Marked(b)], [7, 9], {0}, {});
    assert task.layout.Pieces() == 1 && task.layout.PieceLength(0) == 2;
    assert b.byteSet[0];
    assert b.Ok(2);
    ShortWrite(b);
    assert Dropped([b], [b], {} + Elements([]));
    TwoBytes(task, s1);
    TwoBytes(task, s2);
    assert [7, 9][..2] == [7, 9];
    assert s2.boxes == s1.boxes[0 := Marked(s1.boxes[0])];
    assert s2.disk == Splice(s1.disk, 0, [7, 9]);
  }

  lemma TwoBytes(task: Task, s: State)
    requires task.Valid() && Ok(task, s) && task.layout.Pieces() == 1 && task.layout.PieceLength(0) == 2
    ensures |s.disk| >= 2 && task.layout.pieceLen >= 2
    ensures SeenPiece(task, s, 0) ==
      [Seen(s.boxes[0], 0, task.layout.pieceLen, s.disk, 0), Seen(s.boxes[0], 0, task.layout.pieceLen, s.disk, 1)]
  {
    SeenByte(task, s, 0, 0);
    SeenByte(task, s, 0, 1);
  }

  lemma ShortWrite(b: Box)
    requires b == Box(Some([7, 0]), false, false, [true, false], 0)
    ensures WroteBelow([b.Emptied()], [b], 2, 0, [7], 1)
  {
    var empty, p: seq<byte> := b.Emptied(), [7];
    NothingWritten([empty], 2, 0, p);
    assert p[0..1] == p;
    PutBoxOk(empty, 2, 0, p, 0);
    assert PutBox(empty, 2, 0, p, 0) == b by {
      assert Splice(Zeros(2), 0, p) == [7, 0];
      assert MarkSet(Cleared(2), 0, 1) == [true, false];
    }
    PutStep([empty], [empty], b, 2, 0, p, 0, 0, 0, 1);
    assert [empty][0 := b] == [b];
  }

  // The session takes such a block for the whole one that it asked for.
  lemma ShortBlockIsTaken(hash: seq<byte> -> Digest, client: bool, have: set<nat>, asked: nat, e: Effect, out: seq<Message>)
    ensures var task := Task(Layout(2, 2, 2), 2, hash, [hash([7, 9])]);
      var c := Core({}, map[0 := [asked]], [1, 9], 0, 0, 0);
      && task.Valid() && Accounts(task, c) && AsksFor(task, Request(0, 0, 2), 0, 0)
      && (Handles(task, c, client, Some(have), Decoded(Piece(0, 0, [7])), Healthy, e, out) ==>
            e.announce == Some(0) && e.outcome == Continue)
  {
    var task := Task(Layout(2, 2, 2), 2, hash, [hash([7, 9])]);
    assert task.layout.Pieces() == 1 && task.layout.PieceLength(0) == 2 && task.layout.Blocks(0) == 1;
    var counts: seq<int> := [asked];
    assert counts[0] != -1;
    assert Splice([1, 9], 0, [7]) == [7, 9];
    assert PieceBytes(task, [7, 9], 0) == [7, 9];
  }

  ghost function TwoPieces(hash: seq<byte> -> Digest): Task {
    Task(Layout(6, 3, 3), 3, hash, [hash([7, 9, 8]), hash([5, 5, 5])])
  }

  // The first of two pieces has a box with a gap when it is verified, and its
  // commit fails. The next piece takes its place in the cache, and the byte in
  // the gap is overwritten: the session holds the piece and serves other bytes.
  lemma FailedCommitLoses(hash: seq<byte> -> Digest)
    ensures var task := TwoPieces(hash);
      var b := Box(Some([7, 0, 8]), false, false, [true, false, true], 0);
      var b1 := Box(Some([5, 5, 5]), true, false, [], 0);
      var t := Trimming([b, b1], {}, [0], [Chunk(0, [7, 0, 8])], [Chunk(0, [7, 0, 8])]);
      var s0 := State([b, b1.Emptied()], [1, 9, 2, 0, 0, 0], {}, {});
      var s2 := State([b.Emptied(), b1], [7, 0, 8, 0, 0, 0], {}, {0});
      && task.Valid() && AllSafe(task, s0) && Ok(task, s0.(loose := {0})) && Ok(task, s2)
      && Takes(task, s0, Accept(0, 0, false), s0.(loose := {0}))
      && Takes(task, s0.(loose := {0}), Store(1, 0, [5, 5, 5], t), s2)
      && SeenPiece(task, s0, 0) == [7, 9, 8] && SeenPiece(task, s2, 0) == [7, 0, 8]
  {
    var b := Box(Some([7, 0, 8]), false, false, [true, false, true], 0);
    var b1 := Box(Some([5, 5, 5]), true, false, [], 0);
    GappedBox(b, b1);
    FailedAccept(hash, State([b, b1.Emptied()], [1, 9, 2, 0, 0, 0], {}, {}));
    NextPiece(b, b1);
    GapWrittenBack(b, b1);
    ThreeBytes(TwoPieces(hash), State([b.Emptied(), b1], [7, 0, 8, 0, 0, 0], {}, {0}));
  }

  lemma GappedBox(b: Box, b1: Box)
    requires b == Box(Some([7, 0, 8]), false, false, [true, false, true], 0) && b1 == Box(Some([5, 5, 5]), true, false, [], 0)
    ensures b.Ok(3) && b1.Ok(3) && b.Emptied().Ok(3) && b1.Emptied().Ok(3)
  {
    assert b.byteSet[0];
  }

  lemma FailedAccept(hash: seq<byte> -> Digest, s: State)
    requires |s.boxes| == 2 && s.boxes[0] == Box(Some([7, 0, 8]), false, false, [true, false, true], 0)
    requires AllOk(s.boxes, 3) && s.disk == [1, 9, 2, 0, 0, 0] && s.held == {} && s.loose == {}
    ensures TwoPieces(hash).Valid() && Ok(TwoPieces(hash), s)
    ensures SeenPiece(TwoPieces(hash), s, 0) == [7, 9, 8]
    ensures Takes(TwoPieces(hash), s, Accept(0, 0, false), s.(loose := {0}))
  {
    var task := TwoPieces(hash);
    assert task.layout.Pieces() == 2 && task.layout.PieceLength(0) == 3;
    ThreeBytes(task, s);
    assert SeenPiece(task, s, 0)[..0] == [];
    assert Splice(s.disk, 0, []) == s.disk;
  }

  lemma GapWrittenBack(b: Box, b1: Box)
    requires b == Box(Some([7, 0, 8]), false, false, [true, false, true], 0) && b1 == Box(Some([5, 5, 5]), true, false, [], 0)
    ensures Trimmed([b, b1], [b.Emptied(), b1], 3, {}, [0], [Chunk(0, [7, 0, 8])])
    ensures PartsOf([Chunk(0, [7, 0, 8])], [Chunk(0, [7, 0, 8])])
    ensures Flushed([1, 9, 2, 0, 0, 0], [Chunk(0, [7, 0, 8])]) == [7, 0, 8, 0, 0, 0]
  {
    var c := Chunk(0, [7, 0, 8]);
    GappedChunk(b, c);
    assert c.data[..3] == c.data;
    FlushedOne([1, 9, 2, 0, 0, 0], c);
    GapOverwritten(c.data);
  }

  lemma GappedChunk(b: Box, c: Chunk)
    requires b == Box(Some([7, 0, 8]), false, false, [true, false, true], 0) && c == Chunk(0, [7, 0, 8])
    ensures IsChunkOf(b, 0, 3, c)
  {
    assert b.data.value[0..3] == c.data;
    assert Extent(b.byteSet, 0, 3);
  }

  lemma GapOverwritten(p: seq<byte>)
    requires p == [7, 0, 8]
    ensures Splice([1, 9, 2, 0, 0, 0], 0, p) == [7, 0, 8, 0, 0, 0]
  {
  }

  lemma FlushedOne(disk: seq<byte>, c: Chunk)
    ensures Flushed(disk, [c]) == Splice(disk, c.off, c.data)
  {
    assert [c][..0] == [];
  }

  lemma ThreeBytes(task: Task, s: State)
    requires task.Valid() && Ok(task, s) && task.layout.Pieces() > 0 && task.layout.PieceLength(0) == 3
    ensures |s.disk| >= 3 && task.layout.pieceLen >= 3
    ensures SeenPiece(task, s, 0) == seq(3, j requires 0 <= j < 3 => Seen(s.boxes[0], 0, task.layout.pieceLen, s.disk, j))
  {
    SeenByte(task, s, 0, 0);
    SeenByte(task, s, 0, 1);
    SeenByte(task, s, 0, 2);
  }

  lemma NextPiece(b: Box, b1: Box)
    requires b.Ok(3) && b1 == Box(Some([5, 5, 5]), true, false, [], 0)
    ensures WroteBelow([b, b1.Emptied()], [b, b1], 3, 3, [5, 5, 5], 3)
  {
    var empty, p: seq<byte> := b1.Emptied(), [5, 5, 5];
    NothingWritten([b, empty], 3, 3, p);
    assert p[0..3] == p;
    PutBoxOk(empty, 3, 0, p, 0);
    assert Splice(Zeros(3), 0, p) == p;
    PutStep([b, empty], [b, empty], b1, 3, 3, p, 0, 1, 0, 3);
    assert [b, empty][1 := b1] == [b, b1];
  }
}
