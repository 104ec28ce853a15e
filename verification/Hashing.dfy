// Hashing all pieces by a pool of workers: a feeder hands out the pieces in
// order, each worker hashes one piece at a time, and a collector files the
// results. Whatever the schedule, the sums are those of a sequential loop.

module Hashing {
  import opened Arith
  import opened Bytes
  import opened Pieces
  import opened Protocol

  // The channel of results holds this many that were not collected yet.
  const RESULTS := 3

  datatype Worker = Idle | Busy(piece: nat) | Gone

  datatype Result = Result(piece: nat, sum: Digest)

  // next is the piece that the feeder hands out next; after the last one it
  // closes its channel.
  datatype Pool = Pool(next: nat, workers: seq<Worker>, results: seq<Result>, collected: nat, sums: map<nat, Digest>)

  // The work: the bytes of each piece as they were read, and the hash.
  datatype Job = Job(pieces: seq<seq<byte>>, hash: seq<byte> -> Digest)
  {
    function Count(): nat { |pieces| }

    function Sum(i: nat): Digest
      requires i < Count()
    {
      hash(pieces[i])
    }
  }

  // ---- Steps ----

  // A worker takes the next piece: the channel has no buffer.
  ghost predicate Feed(job: Job, s: Pool, s': Pool, w: nat) {
    && s.next < job.Count() && w < |s.workers| && s.workers[w] == Idle
    && s' == s.(next := s.next + 1, workers := s.workers[w := Busy(s.next)])
  }

  // A worker puts its result into the channel, if there is room.
  ghost predicate Emit(job: Job, s: Pool, s': Pool, w: nat) {
    && w < |s.workers| && s.workers[w].Busy? && s.workers[w].piece < job.Count() && |s.results| < RESULTS
    && s' == s.(workers := s.workers[w := Idle],
                results := s.results + [Result(s.workers[w].piece, job.Sum(s.workers[w].piece))])
  }

  // A worker finds the channel closed.
  ghost predicate Leave(job: Job, s: Pool, s': Pool, w: nat) {
    && s.next == job.Count() && w < |s.workers| && s.workers[w] == Idle
    && s' == s.(workers := s.workers[w := Gone])
  }

  ghost predicate Collect(job: Job, s: Pool, s': Pool) {
    && s.collected < job.Count() && s.results != []
    && s' == s.(results := s.results[1..], collected := s.collected + 1,
                sums := s.sums[s.results[0].piece := s.results[0].sum])
  }

  ghost predicate Next(job: Job, s: Pool, s': Pool) {
    || (exists w :: Feed(job, s, s', w))
    || (exists w :: Emit(job, s, s', w))
    || (exists w :: Leave(job, s, s', w))
    || Collect(job, s, s')
  }

  // ---- The invariant ----

  ghost function BusyCount(ws: seq<Worker>): nat {
    if ws == [] then 0 else BusyCount(ws[1..]) + if ws[0].Busy? then 1 else 0
  }

  ghost function PresentCount(ws: seq<Worker>): nat {
    if ws == [] then 0 else PresentCount(ws[1..]) + if ws[0].Gone? then 0 else 1
  }

  ghost predicate AtWorker(s: Pool, i: nat) {
    exists w :: 0 <= w < |s.workers| && s.workers[w] == Busy(i)
  }

  ghost predicate InResults(s: Pool, i: nat) {
    exists r :: 0 <= r < |s.results| && s.results[r].piece == i
  }

  ghost predicate Inv(job: Job, s: Pool) {
    && s.workers != [] && s.next <= job.Count()
    && s.collected + |s.results| + BusyCount(s.workers) == s.next
    && (forall w :: 0 <= w < |s.workers| && s.workers[w].Busy? ==> s.workers[w].piece < s.next)
    && (forall w :: 0 <= w < |s.workers| && s.workers[w].Gone? ==> s.next == job.Count())
    && (forall r :: 0 <= r < |s.results| ==>
          s.results[r].piece < s.next && s.results[r].sum == job.Sum(s.results[r].piece))
    && (forall i :: i in s.sums ==> i < s.next && s.sums[i] == job.Sum(i))
    && (forall i: nat :: i < s.next ==> AtWorker(s, i) || InResults(s, i) || i in s.sums)
  }

  ghost predicate Init(s: Pool) {
    && s.workers != [] && (forall w :: 0 <= w < |s.workers| ==> s.workers[w] == Idle)
    && s == Pool(0, s.workers, [], 0, map[])
  }

  lemma {:induction false} CountsChange(ws: seq<Worker>, w: nat, x: Worker)
    requires w < |ws|
    ensures BusyCount(ws[w := x]) == BusyCount(ws) + (if x.Busy? then 1 else 0) - (if ws[w].Busy? then 1 else 0)
    ensures PresentCount(ws[w := x]) == PresentCount(ws) - (if x.Gone? then 1 else 0) + (if ws[w].Gone? then 1 else 0)
    decreases ws
  {
    if w == 0 {
      assert ws[0 := x][1..] == ws[1..];
    } else {
      CountsChange(ws[1..], w - 1, x);
      assert ws[w := x][1..] == ws[1..][w - 1 := x];
    }
  }

  lemma {:induction false} NobodyBusy(ws: seq<Worker>)
    ensures BusyCount(ws) == 0 <==> forall w :: 0 <= w < |ws| ==> !ws[w].Busy?
    decreases ws
  {
    if ws != [] {
      NobodyBusy(ws[1..]);
      assert forall w :: 0 < w < |ws| ==> ws[w] == ws[1..][w - 1];
    }
  }

  lemma InitKeeps(job: Job, s: Pool)
    requires Init(s)
    ensures Inv(job, s)
  {
    NobodyBusy(s.workers);
  }

  lemma FeedKeeps(job: Job, s: Pool, s': Pool, w: nat)
    requires Inv(job, s) && Feed(job, s, s', w)
    ensures Inv(job, s')
  {
    CountsChange(s.workers, w, Busy(s.next));
    forall i: nat | i < s'.next ensures AtWorker(s', i) || InResults(s', i) || i in s'.sums {
      if i == s.next {
        assert s'.workers[w] == Busy(i);
      } else if AtWorker(s, i) {
        var v :| 0 <= v < |s.workers| && s.workers[v] == Busy(i);
        assert s'.workers[v] == Busy(i);
      } else if InResults(s, i) {
        assert s'.results == s.results;
      }
    }
  }

  lemma EmitKeeps(job: Job, s: Pool, s': Pool, w: nat)
    requires Inv(job, s) && Emit(job, s, s', w)
    ensures Inv(job, s')
  {
    CountsChange(s.workers, w, Idle);
    var last := |s.results|;
    forall i: nat | i < s'.next ensures AtWorker(s', i) || InResults(s', i) || i in s'.sums {
      if i == s.workers[w].piece {
        assert s'.results[last].piece == i;
      } else if AtWorker(s, i) {
        var v :| 0 <= v < |s.workers| && s.workers[v] == Busy(i);
        assert s'.workers[v] == Busy(i);
      } else if InResults(s, i) {
        var r :| 0 <= r < |s.results| && s.results[r].piece == i;
        assert s'.results[r].piece == i;
      }
    }
  }

  lemma LeaveKeeps(job: Job, s: Pool, s': Pool, w: nat)
    requires Inv(job, s) && Leave(job, s, s', w)
    ensures Inv(job, s')
  {
    CountsChange(s.workers, w, Gone);
    forall i: nat | i < s'.next ensures AtWorker(s', i) || InResults(s', i) || i in s'.sums {
      if AtWorker(s, i) {
        var v :| 0 <= v < |s.workers| && s.workers[v] == Busy(i);
        assert s'.workers[v] == Busy(i);
      } else if InResults(s, i) {
        assert s'.results == s.results;
      }
    }
  }

  lemma CollectKeeps(job: Job, s: Pool, s': Pool)
    requires Inv(job, s) && Collect(job, s, s')
    ensures Inv(job, s')
  {
    forall i: nat | i < s'.next ensures AtWorker(s', i) || InResults(s', i) || i in s'.sums {
      if AtWorker(s, i) {
        assert s'.workers == s.workers;
      } else if InResults(s, i) {
        var r :| 0 <= r < |s.results| && s.results[r].piece == i;
        if r > 0 { assert s'.results[r - 1].piece == i; }
      }
    }
  }

  lemma NextKeeps(job: Job, s: Pool, s': Pool)
    requires Inv(job, s) && Next(job, s, s')
    ensures Inv(job, s')
  {
    if w :| Feed(job, s, s', w) {
      FeedKeeps(job, s, s', w);
    } else if w :| Emit(job, s, s', w) {
      EmitKeeps(job, s, s', w);
    } else if w :| Leave(job, s, s', w) {
      LeaveKeeps(job, s, s', w);
    } else {
      CollectKeeps(job, s, s');
    }
  }

  // ---- Results, deadlock, termination ----

  // What a sequential loop over the pieces computes.
  ghost predicate Sequential(job: Job, sums: map<nat, Digest>) {
    forall i: nat :: (i in sums <==> i < job.Count()) && (i in sums ==> sums[i] == job.Sum(i))
  }

  // Once as many results were collected as there are pieces, all of them are
  // there, each in its place.
  lemma CollectedIsSequential(job: Job, s: Pool)
    requires Inv(job, s) && s.collected == job.Count()
    ensures Sequential(job, s.sums) && s.results == [] && s.next == job.Count()
  {
    NobodyBusy(s.workers);
    forall i: nat | i < job.Count() ensures i in s.sums {
      assert AtWorker(s, i) || InResults(s, i) || i in s.sums;
    }
  }

  // No deadlock: until everything is collected, somebody can go on.
  lemma CanStep(job: Job, s: Pool) returns (s': Pool)
    requires Inv(job, s) && s.collected < job.Count()
    ensures Next(job, s, s')
  {
    NobodyBusy(s.workers);
    if s.results != [] {
      s' := s.(results := s.results[1..], collected := s.collected + 1,
               sums := s.sums[s.results[0].piece := s.results[0].sum]);
      assert Collect(job, s, s');
    } else if BusyCount(s.workers) > 0 {
      var w :| 0 <= w < |s.workers| && s.workers[w].Busy?;
      s' := s.(workers := s.workers[w := Idle],
               results := s.results + [Result(s.workers[w].piece, job.Sum(s.workers[w].piece))]);
      assert Emit(job, s, s', w);
    } else {
      assert s.workers[0] == Idle;
      s' := s.(next := s.next + 1, workers := s.workers[0 := Busy(s.next)]);
      assert Feed(job, s, s', 0);
    }
  }

  ghost function Measure(job: Job, s: Pool): nat
    requires Inv(job, s)
  {
    3 * (job.Count() - s.next) + 2 * BusyCount(s.workers) + |s.results| + PresentCount(s.workers)
  }

  lemma NextDrops(job: Job, s: Pool, s': Pool)
    requires Inv(job, s) && Next(job, s, s')
    ensures Inv(job, s') && Measure(job, s') < Measure(job, s)
  {
    NextKeeps(job, s, s');
    if w :| Feed(job, s, s', w) {
      CountsChange(s.workers, w, Busy(s.next));
    } else if w :| Emit(job, s, s', w) {
      CountsChange(s.workers, w, Idle);
    } else if w :| Leave(job, s, s', w) {
      CountsChange(s.workers, w, Gone);
    }
  }

  ghost predicate Stuck(job: Job, s: Pool) {
    forall s' :: !Next(job, s, s')
  }

  ghost predicate Runs(job: Job, run: nat -> Pool) {
    forall n: nat :: Next(job, run(n), run(n + 1)) || (Stuck(job, run(n)) && run(n + 1) == run(n))
  }

  lemma {:induction false} RunFinishes(job: Job, run: nat -> Pool, n: nat) returns (end: nat)
    requires Runs(job, run) && Inv(job, run(n))
    ensures n <= end && Inv(job, run(end)) && run(end).collected == job.Count()
    decreases Measure(job, run(n))
  {
    if run(n).collected < job.Count() {
      var s' := CanStep(job, run(n));
      assert Next(job, run(n), run(n + 1));
      NextDrops(job, run(n), run(n + 1));
      end := RunFinishes(job, run, n + 1);
    } else {
      end := n;
    }
  }

  // Every schedule of any positive number of workers ends with the sums of the
  // sequential loop.
  lemma EveryScheduleAgrees(job: Job, run: nat -> Pool)
    requires Runs(job, run) && Init(run(0))
    ensures exists end: nat :: run(end).collected == job.Count() && Sequential(job, run(end).sums)
  {
    InitKeeps(job, run(0));
    var end := RunFinishes(job, run, 0);
    CollectedIsSequential(job, run(end));
  }

  // ---- The pieces of a task ----

  // The pool counts the pieces by rounding up; it gets the same number and the
  // same length of the last one.
  lemma CountAgrees(totalLength: nat, pieceLength: nat)
    requires pieceLength > 0
    ensures (totalLength + pieceLength - 1) / pieceLength == CountPieces(totalLength, pieceLength).0
    ensures totalLength > 0 ==>
      totalLength - (CountPieces(totalLength, pieceLength).0 - 1) * pieceLength == CountPieces(totalLength, pieceLength).1
  {
    var q, r := totalLength / pieceLength, totalLength % pieceLength;
    DivBounds(totalLength, pieceLength);
    assert (q - 1) * pieceLength == q * pieceLength - pieceLength;
    assert (q + 1) * pieceLength == q * pieceLength + pieceLength;
    DivUnique(totalLength + pieceLength - 1, pieceLength, if r == 0 then q else q + 1);
  }

  // The job that the feeder makes of the files of a task.
  ghost function JobOf(task: Task, content: seq<byte>): Job
    requires task.Valid()
  {
    Job(seq(task.layout.Pieces(), i requires 0 <= i < task.layout.Pieces() => PieceBytes(task, content, i)), task.hash)
  }

  // The pieces that a finished pool finds to be good are exactly those whose
  // bytes have the right digest.
  lemma PoolFindsGoodPieces(task: Task, content: seq<byte>, s: Pool, k: nat)
    requires task.Valid() && Inv(JobOf(task, content), s) && s.collected == task.layout.Pieces()
    ensures k < task.layout.Pieces() <==> k in s.sums
    ensures k < task.layout.Pieces() ==>
      (s.sums[k] == task.sums[k] <==> task.hash(PieceBytes(task, content, k)) == task.sums[k])
  {
    CollectedIsSequential(JobOf(task, content), s);
  }
}
