// Whole runs of a store with a cache: writes of any bytes anywhere, commits and
// writing back that may fail, and trims for the sake of other caches. A reader
// sees exactly what was written as long as no step is harmful, and no longer.

module CacheRuns {
  import opened Bytes
  import opened Boxes
  import opened Evictions
  import opened CacheDiscipline
  import opened CachedStores

  datatype State = State(boxes: seq<Box>, disk: seq<byte>, plain: seq<byte>)

  // Write: with the trimming that it causes, after which each evicted chunk
  // reaches the files as far as they do not fail.
  // Commit: n bytes of the piece reach the files; it is marked when all do.
  // Trim: committed boxes go because another cache needs the memory.
  datatype Event =
    | Write(off: nat, p: seq<byte>, t: Trimming)
    | Commit(k: nat, n: nat, marked: bool)
    | Trim(gone: set<nat>)

  ghost predicate Ok(pieceSize: nat, s: State) {
    Covers(s.boxes, pieceSize, s.disk) && |s.disk| == |s.plain|
  }

  ghost function PieceOf(pieceSize: nat, s: State, k: nat): seq<byte> {
    Window(s.plain, k * pieceSize, InFile(|s.plain|, k * pieceSize, pieceSize))
  }

  // The step that the event takes.
  ghost predicate Takes(pieceSize: nat, s: State, e: Event, s': State)
    requires Ok(pieceSize, s)
  {
    match e
    case Write(off, p, t) =>
      WritesAndTrims(s.boxes, s.disk, pieceSize, off, p, t, s'.boxes, s'.disk) && s'.plain == Splice(s.plain, off, p)
    case Commit(k, n, marked) =>
      && k < |s.boxes| && n <= |PieceOf(pieceSize, s, k)| && (marked ==> n == |PieceOf(pieceSize, s, k)|)
      && s'.disk == Splice(s.disk, k * pieceSize, PieceOf(pieceSize, s, k)[..n]) && s'.plain == s.plain
      && s'.boxes == if marked then s.boxes[k := Marked(s.boxes[k])] else s.boxes
    case Trim(gone) =>
      CommittedIn(s.boxes, gone) && Dropped(s.boxes, s'.boxes, gone) && s'.disk == s.disk && s'.plain == s.plain
  }

  // What is dropped is on disk, what is evicted has no gap that matters and
  // loses nothing to a failing file, and what is marked hides no byte.
  ghost predicate StepHarmless(pieceSize: nat, s: State, e: Event)
    requires Ok(pieceSize, s)
  {
    match e
    case Write(off, p, t) => AllOk(t.written, pieceSize) && Harmless(t, pieceSize, s.disk)
    case Commit(k, n, marked) =>
      marked && k < |s.boxes| && n <= |PieceOf(pieceSize, s, k)| ==>
        MarkHarmless(s.boxes[k], k, pieceSize, Splice(s.disk, k * pieceSize, PieceOf(pieceSize, s, k)[..n]))
    case Trim(gone) => TrimHarmless(s.boxes, pieceSize, s.disk, gone, [], [])
  }

  ghost predicate Right(pieceSize: nat, s: State) {
    Agrees(s.boxes, pieceSize, s.disk, s.plain)
  }

  lemma CommitIff(pieceSize: nat, s: State, e: Event, s': State)
    requires Ok(pieceSize, s) && e.Commit? && Takes(pieceSize, s, e, s')
    ensures Ok(pieceSize, s')
    ensures Right(pieceSize, s) ==> (Right(pieceSize, s') <==> StepHarmless(pieceSize, s, e))
  {
    CommitOutcome(s.boxes, pieceSize, s.disk, s.plain, e.k, PieceOf(pieceSize, s, e.k), e.k * pieceSize, e.n, e.marked);
  }

  lemma StepIff(pieceSize: nat, s: State, e: Event, s': State)
    requires Ok(pieceSize, s) && Takes(pieceSize, s, e, s')
    ensures Ok(pieceSize, s')
    ensures Right(pieceSize, s) ==> (Right(pieceSize, s') <==> StepHarmless(pieceSize, s, e))
  {
    match e
    case Write(off, p, t) =>
      WriteAndTrimIff(s.boxes, s.disk, pieceSize, off, p, t, s'.boxes, s'.disk, s.plain);
    case Commit(_, _, _) => CommitIff(pieceSize, s, e, s');
    case Trim(gone) => DropOutcome(s.boxes, s'.boxes, pieceSize, s.disk, s.plain, gone);
  }

  // ---- Any run ----

  ghost predicate StepOf(pieceSize: nat, s: State, e: Event, s': State) {
    Ok(pieceSize, s) ==> Takes(pieceSize, s, e, s')
  }

  ghost predicate HarmlessAt(pieceSize: nat, s: State, e: Event) {
    Ok(pieceSize, s) && StepHarmless(pieceSize, s, e)
  }

  lemma {:induction false} RunOk(pieceSize: nat, run: nat -> State, events: nat -> Event, n: nat)
    requires Ok(pieceSize, run(0))
    requires forall m: nat :: m < n ==> StepOf(pieceSize, run(m), events(m), run(m + 1))
    ensures Ok(pieceSize, run(n))
  {
    if n > 0 {
      RunOk(pieceSize, run, events, n - 1);
      assert StepOf(pieceSize, run(n - 1), events(n - 1), run(n - 1 + 1));
      StepIff(pieceSize, run(n - 1), events(n - 1), run(n));
    }
  }

  // From an agreement on, readers see what was written in every state of a run
  // exactly when every step of it was harmless.
  lemma {:induction false} RunsAgreeIff(pieceSize: nat, run: nat -> State, events: nat -> Event, n: nat)
    requires Right(pieceSize, run(0))
    requires forall m: nat :: m < n ==> StepOf(pieceSize, run(m), events(m), run(m + 1))
    ensures (forall m: nat :: m <= n ==> Right(pieceSize, run(m)))
      <==> forall m: nat :: m < n ==> HarmlessAt(pieceSize, run(m), events(m))
  {
    if n > 0 {
      RunsAgreeIff(pieceSize, run, events, n - 1);
      RunOk(pieceSize, run, events, n - 1);
      assert StepOf(pieceSize, run(n - 1), events(n - 1), run(n - 1 + 1));
      StepIff(pieceSize, run(n - 1), events(n - 1), run(n));
    }
  }

  // ---- Runs that keep what is committed on disk ----

  // No write meets a committed box, and no box is marked before all its bytes
  // within the files were written. Writes may leave any gaps.
  ghost predicate Disciplined(pieceSize: nat, s: State, e: Event)
    requires Ok(pieceSize, s)
  {
    match e
    case Write(off, p, _) => MissesCommitted(s.boxes, pieceSize, off, |p|)
    case Commit(k, _, marked) => marked && k < |s.boxes| ==> FilledIn(s.boxes[k], k, pieceSize, |s.plain|)
    case Trim(_) => true
  }

  ghost predicate Evicts(pieceSize: nat, s: State, e: Event) {
    e.Write? ==> AllOk(e.t.written, pieceSize) && EvictHarmless(e.t.written, pieceSize, s.disk, e.t.evicted, e.t.parts)
  }

  ghost predicate RightOnDisk(pieceSize: nat, s: State) {
    Right(pieceSize, s) && OnDisk(s.boxes, pieceSize, s.disk)
  }

  lemma DisciplinedIff(pieceSize: nat, s: State, e: Event, s': State)
    requires RightOnDisk(pieceSize, s) && Takes(pieceSize, s, e, s') && Disciplined(pieceSize, s, e)
    ensures OnDisk(s'.boxes, pieceSize, s'.disk)
    ensures Right(pieceSize, s') <==> Evicts(pieceSize, s, e)
  {
    StepIff(pieceSize, s, e, s');
    match e
    case Write(off, p, t) =>
      WriteStaysOnDisk(s.boxes, s.disk, pieceSize, off, p, t, s'.boxes, s'.disk);
    case Commit(k, n, marked) =>
      var piece := PieceOf(pieceSize, s, k);
      if marked { FilledHarmless(s.boxes[k], k, pieceSize, s'.disk); }
      CommitOutcome(s.boxes, pieceSize, s.disk, s.plain, k, piece, k * pieceSize, n, marked);
    case Trim(gone) =>
      DropOutcome(s.boxes, s'.boxes, pieceSize, s.disk, s.plain, gone);
  }

  ghost predicate DisciplinedAt(pieceSize: nat, s: State, e: Event) {
    Ok(pieceSize, s) ==> Disciplined(pieceSize, s, e)
  }

  // With any writes that miss the committed boxes, readers see what was written
  // exactly as long as writing back each evicted box is harmless.
  lemma {:induction false} RunsRefineIff(pieceSize: nat, run: nat -> State, events: nat -> Event, n: nat)
    requires RightOnDisk(pieceSize, run(0))
    requires forall m: nat :: m < n ==> StepOf(pieceSize, run(m), events(m), run(m + 1))
    requires forall m: nat :: m < n ==> DisciplinedAt(pieceSize, run(m), events(m))
    ensures (forall m: nat :: m <= n ==> Right(pieceSize, run(m)))
      <==> forall m: nat :: m < n ==> Evicts(pieceSize, run(m), events(m))
    ensures (forall m: nat :: m <= n ==> Right(pieceSize, run(m))) ==> RightOnDisk(pieceSize, run(n))
  {
    if n > 0 {
      RunsRefineIff(pieceSize, run, events, n - 1);
      if RightOnDisk(pieceSize, run(n - 1)) {
        assert StepOf(pieceSize, run(n - 1), events(n - 1), run(n - 1 + 1));
        assert DisciplinedAt(pieceSize, run(n - 1), events(n - 1));
        DisciplinedIff(pieceSize, run(n - 1), events(n - 1), run(n));
      }
    }
  }

  // ---- Runs by the piece ----

  // Only whole pieces are written, and none again after it was committed.
  ghost predicate ByPiece(pieceSize: nat, s: State, e: Event)
    requires Ok(pieceSize, s)
  {
    e.Write? ==> WholePiece(s.boxes, e.off, |e.p|, pieceSize, |s.plain|)
  }

  ghost predicate ByPieceAt(pieceSize: nat, s: State, e: Event) {
    Ok(pieceSize, s) ==> ByPiece(pieceSize, s, e)
  }

  ghost predicate Good(pieceSize: nat, s: State) {
    UsedWhole(s.boxes, pieceSize, s.disk, s.plain)
  }

  // A written byte of an evicted box does not reach the files, which have another.
  ghost predicate Loses(pieceSize: nat, s: State, e: Event) {
    e.Write? && AllOk(e.t.written, pieceSize) && !AllLossless(e.t.written, pieceSize, s.disk, e.t.evicted, e.t.parts)
  }

  lemma ByPieceIsDisciplined(pieceSize: nat, s: State, e: Event, s': State)
    requires Good(pieceSize, s) && Takes(pieceSize, s, e, s') && ByPiece(pieceSize, s, e)
    ensures Disciplined(pieceSize, s, e) && Whole(s'.boxes, pieceSize, |s'.plain|)
    ensures Evicts(pieceSize, s, e) <==> !Loses(pieceSize, s, e)
  {
    match e
    case Write(off, p, t) =>
      WholeWrite(s.boxes, s.disk, pieceSize, off, p, t, s'.boxes, s'.disk);
    case Commit(k, n, marked) =>
      WholeMarked(s.boxes, pieceSize, s.disk, k);
    case Trim(gone) =>
  }

  // A store that is used by the piece is right in every state of a run exactly
  // when no failing file loses what is written back to it.
  lemma {:induction false} RunsByPieceIff(pieceSize: nat, run: nat -> State, events: nat -> Event, n: nat)
    requires Good(pieceSize, run(0))
    requires forall m: nat :: m < n ==> StepOf(pieceSize, run(m), events(m), run(m + 1))
    requires forall m: nat :: m < n ==> ByPieceAt(pieceSize, run(m), events(m))
    ensures (forall m: nat :: m <= n ==> Right(pieceSize, run(m)))
      <==> forall m: nat :: m < n ==> !Loses(pieceSize, run(m), events(m))
    ensures (forall m: nat :: m <= n ==> Right(pieceSize, run(m))) ==> Good(pieceSize, run(n))
  {
    if n > 0 {
      RunsByPieceIff(pieceSize, run, events, n - 1);
      if Good(pieceSize, run(n - 1)) {
        assert StepOf(pieceSize, run(n - 1), events(n - 1), run(n - 1 + 1));
        assert ByPieceAt(pieceSize, run(n - 1), events(n - 1));
        ByPieceIsDisciplined(pieceSize, run(n - 1), events(n - 1), run(n));
        DisciplinedIff(pieceSize, run(n - 1), events(n - 1), run(n));
      }
    }
  }

  // No file fails while evicted chunks are written back.
  ghost predicate NoFailure(e: Event) {
    e.Write? ==> e.t.parts == e.t.chunks
  }

  // So a store that is used by the piece, as configured, is always right unless
  // a file fails.
  lemma {:induction false} RunsRefine(pieceSize: nat, run: nat -> State, events: nat -> Event, n: nat)
    requires Good(pieceSize, run(0))
    requires forall m: nat :: m < n ==> StepOf(pieceSize, run(m), events(m), run(m + 1))
    requires forall m: nat :: m < n ==> ByPieceAt(pieceSize, run(m), events(m))
    requires forall m: nat :: m < n ==> NoFailure(events(m))
    ensures Good(pieceSize, run(n))
  {
    forall m: nat | m < n ensures !Loses(pieceSize, run(m), events(m)) {
      RunOk(pieceSize, run, events, m);
      assert StepOf(pieceSize, run(m), events(m), run(m + 1));
      assert NoFailure(events(m));
      NothingLost(pieceSize, run(m), events(m), run(m + 1));
    }
    RunsByPieceIff(pieceSize, run, events, n);
  }

  lemma NothingLost(pieceSize: nat, s: State, e: Event, s': State)
    requires Ok(pieceSize, s) && Takes(pieceSize, s, e, s') && NoFailure(e)
    ensures !Loses(pieceSize, s, e)
  {
    if e.Write? { NoFailureLossless(e.t.written, pieceSize, s.disk, e.t.evicted, e.t.chunks); }
  }

  // An empty cache is a good start.
  lemma EmptyIsGood(pieceSize: nat, s: State)
    requires Ok(pieceSize, s) && s.plain == s.disk && forall i :: 0 <= i < |s.boxes| ==> s.boxes[i].data.None?
    ensures Good(pieceSize, s)
  {
    EmptyAgrees(s.boxes, pieceSize, s.disk);
  }
}
