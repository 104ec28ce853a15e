// Whole runs of one cache: the boxes that are evicted to make room were written
// no later than those that stay.

module EvictionOrder {
  import opened Bytes
  import opened Boxes
  import opened Evictions
  import opened CacheDiscipline

  // The boxes, and what the clock showed when it was last read.
  datatype State = State(boxes: seq<Box>, clock: int)

  // Write: with the trimming that it causes, down to the capacity at that time.
  // Mark: a piece was committed. Drop: another cache needs the memory.
  datatype Event =
    | Write(off: nat, p: seq<byte>, capacity: nat, t: Trimming)
    | Mark(k: nat)
    | Drop(gone: set<nat>)

  ghost predicate Ok(pieceSize: nat, s: State) {
    AllOk(s.boxes, pieceSize) && forall k :: 0 <= k < |s.boxes| ==> s.boxes[k].atime <= s.clock
  }

  // What a write, a commit and a rebalancing promise of the boxes.
  ghost predicate Takes(pieceSize: nat, s: State, e: Event, s': State)
    requires Ok(pieceSize, s)
  {
    match e
    case Write(off, p, capacity, t) =>
      && WroteBelow(s.boxes, t.written, pieceSize, off, p, |p|)
      && Stamped(s.boxes, t.written, pieceSize, off, |p|, s.clock, s'.clock)
      && Trimmed(t.written, s'.boxes, pieceSize, t.dropped, t.evicted, t.chunks)
      && InOrder(t.written, s'.boxes, capacity, t.dropped, t.evicted)
    case Mark(k) => k < |s.boxes| && s' == s.(boxes := s.boxes[k := Marked(s.boxes[k])])
    case Drop(gone) => Dropped(s.boxes, s'.boxes, gone) && s' == s.(boxes := s'.boxes)
  }

  ghost predicate StepOf(pieceSize: nat, s: State, e: Event, s': State) {
    Ok(pieceSize, s) ==> Takes(pieceSize, s, e, s')
  }

  // One more than the number of the last of the first n events that wrote into
  // box k; zero if none did.
  function LastWrite(pieceSize: nat, events: nat -> Event, n: nat, k: nat): (w: nat)
    ensures w <= n
  {
    if n == 0 then 0
    else if events(n - 1).Write? && Touches(pieceSize, events(n - 1).off, |events(n - 1).p|, k) then n
    else LastWrite(pieceSize, events, n - 1, k)
  }

  // The time of the box is one of its last write, or from before the run.
  ghost predicate Timely(run: nat -> State, w: nat, b: Box) {
    b.atime <= run(w).clock && (w > 0 ==> run(w - 1).clock <= b.atime)
  }

  ghost predicate AllTimely(pieceSize: nat, run: nat -> State, events: nat -> Event, n: nat, boxes: seq<Box>) {
    forall k :: 0 <= k < |boxes| ==> Timely(run, LastWrite(pieceSize, events, n, k), boxes[k])
  }

  ghost predicate SameTimes(boxes: seq<Box>, boxes': seq<Box>) {
    |boxes'| == |boxes| && forall k :: 0 <= k < |boxes| ==> boxes'[k].atime == boxes[k].atime
  }

  lemma StepOk(pieceSize: nat, s: State, e: Event, s': State)
    requires Ok(pieceSize, s) && Takes(pieceSize, s, e, s')
    ensures Ok(pieceSize, s') && s.clock <= s'.clock && |s'.boxes| == |s.boxes|
    ensures SameTimes(if e.Write? then e.t.written else s.boxes, s'.boxes)
  {
    match e
    case Write(_, _, _, t) =>
      TrimmedOk(t.written, s'.boxes, pieceSize, t.dropped + Elements(t.evicted));
    case Mark(k) =>
      assert s.boxes[k].Ok(pieceSize);
    case Drop(gone) =>
      TrimmedOk(s.boxes, s'.boxes, pieceSize, gone);
  }

  lemma WriteIsTimely(pieceSize: nat, run: nat -> State, events: nat -> Event, n: nat)
    requires Ok(pieceSize, run(n)) && Takes(pieceSize, run(n), events(n), run(n + 1)) && events(n).Write?
    requires AllTimely(pieceSize, run, events, n, run(n).boxes)
    ensures AllTimely(pieceSize, run, events, n + 1, events(n).t.written)
  {
  }

  ghost predicate IsRun(pieceSize: nat, run: nat -> State, events: nat -> Event, n: nat) {
    Ok(pieceSize, run(0)) && forall m: nat :: m < n ==> StepOf(pieceSize, run(m), events(m), run(m + 1))
  }

  lemma {:induction false} RunIsTimely(pieceSize: nat, run: nat -> State, events: nat -> Event, n: nat)
    requires IsRun(pieceSize, run, events, n)
    ensures Ok(pieceSize, run(n)) && AllTimely(pieceSize, run, events, n, run(n).boxes)
  {
    if n > 0 {
      RunIsTimely(pieceSize, run, events, n - 1);
      assert StepOf(pieceSize, run(n - 1), events(n - 1), run(n - 1 + 1));
      StepOk(pieceSize, run(n - 1), events(n - 1), run(n));
      if events(n - 1).Write? { WriteIsTimely(pieceSize, run, events, n - 1); }
    }
  }

  lemma {:induction false} ClockGrows(pieceSize: nat, run: nat -> State, events: nat -> Event, m: nat, n: nat)
    requires IsRun(pieceSize, run, events, n) && m <= n
    ensures run(m).clock <= run(n).clock
    decreases n
  {
    if m < n {
      ClockGrows(pieceSize, run, events, m, n - 1);
      RunIsTimely(pieceSize, run, events, n - 1);
      assert StepOf(pieceSize, run(n - 1), events(n - 1), run(n - 1 + 1));
      StepOk(pieceSize, run(n - 1), events(n - 1), run(n));
    }
  }

  lemma EvictedIsOlder(pieceSize: nat, s: State, e: Event, s': State, k: nat, i: nat)
    requires Ok(pieceSize, s) && Takes(pieceSize, s, e, s') && e.Write? && k in e.t.evicted
    requires i < |s'.boxes| && s'.boxes[i].data.Some?
    ensures k < |e.t.written| && i < |e.t.written| && e.t.written[k].atime <= e.t.written[i].atime
  {
    StepOk(pieceSize, s, e, s');
    var q :| 0 <= q < |e.t.evicted| && e.t.evicted[q] == k;
    assert e.t.written[e.t.evicted[q]].atime <= s'.boxes[i].atime == e.t.written[i].atime;
  }

  lemma WrittenIsTimely(pieceSize: nat, run: nat -> State, events: nat -> Event, n: nat)
    requires IsRun(pieceSize, run, events, n + 1) && events(n).Write?
    ensures Ok(pieceSize, run(n)) && Takes(pieceSize, run(n), events(n), run(n + 1))
    ensures AllTimely(pieceSize, run, events, n + 1, events(n).t.written)
  {
    RunIsTimely(pieceSize, run, events, n);
    assert StepOf(pieceSize, run(n), events(n), run(n + 1));
    WriteIsTimely(pieceSize, run, events, n);
  }

  // In every run a box that a write evicts was last written no later than any
  // box that stays resident, unless the clock stood still from the last write
  // into the one that stays to that into the other.
  lemma OldestGo(pieceSize: nat, run: nat -> State, events: nat -> Event, n: nat, k: nat, i: nat)
    requires IsRun(pieceSize, run, events, n + 1) && events(n).Write? && k in events(n).t.evicted
    requires i < |run(n + 1).boxes| && run(n + 1).boxes[i].data.Some?
    ensures var last, lastOfI := LastWrite(pieceSize, events, n + 1, k), LastWrite(pieceSize, events, n + 1, i);
      last <= lastOfI || run(lastOfI).clock == run(last - 1).clock
  {
    WrittenIsTimely(pieceSize, run, events, n);
    var t := events(n).t;
    EvictedIsOlder(pieceSize, run(n), events(n), run(n + 1), k, i);
    var last, lastOfI := LastWrite(pieceSize, events, n + 1, k), LastWrite(pieceSize, events, n + 1, i);
    assert Timely(run, last, t.written[k]) && Timely(run, lastOfI, t.written[i]);
    if lastOfI < last {
      ClockGrows(pieceSize, run, events, lastOfI, last - 1);
    }
  }
}
