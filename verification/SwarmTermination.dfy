// Every failure-free run of an honest swarm is finite, and it can only end
// when every node is complete.

module SwarmTermination {
  import opened Options
  import opened Bytes
  import opened Protocol
  import opened SessionProperties
  import opened Swarm
  import opened SwarmSafety

  // ---- Counting ----

  ghost function Total(a: seq<nat>): nat {
    if a == [] then 0 else a[0] + Total(a[1..])
  }

  lemma {:induction false} TotalDrops(a: seq<nat>, b: seq<nat>, i: nat)
    requires i < |a| == |b| && b[i] < a[i]
    requires forall j :: 0 <= j < |a| && j != i ==> b[j] == a[j]
    ensures Total(b) < Total(a)
    decreases |a|
  {
    if i == 0 {
      assert a[1..] == b[1..];
    } else {
      TotalDrops(a[1..], b[1..], i - 1);
    }
  }

  ghost function Count(p: Message -> bool, q: seq<Message>): nat {
    if q == [] then 0 else (if p(q[0]) then 1 else 0) + Count(p, q[1..])
  }

  lemma {:induction false} CountConcat(p: Message -> bool, q: seq<Message>, r: seq<Message>)
    ensures Count(p, q + r) == Count(p, q) + Count(p, r)
    decreases q
  {
    if q == [] {
      assert q + r == r;
    } else {
      CountConcat(p, q[1..], r);
      assert (q + r)[1..] == q[1..] + r;
    }
  }

  lemma {:induction false} CountSame(p: Message -> bool, p': Message -> bool, q: seq<Message>)
    requires forall j :: 0 <= j < |q| ==> p(q[j]) == p'(q[j])
    ensures Count(p, q) == Count(p', q)
    decreases q
  {
    if q != [] {
      assert p(q[0]) == p'(q[0]);
      forall j | 0 <= j < |q[1..]| ensures p(q[1..][j]) == p'(q[1..][j]) { assert q[1..][j] == q[j + 1]; }
      CountSame(p, p', q[1..]);
    }
  }

  lemma {:induction false} CountNone(p: Message -> bool, q: seq<Message>)
    requires forall j :: 0 <= j < |q| ==> !p(q[j])
    ensures Count(p, q) == 0
    decreases q
  {
    if q != [] {
      forall j | 0 <= j < |q[1..]| ensures !p(q[1..][j]) { assert q[1..][j] == q[j + 1]; }
      CountNone(p, q[1..]);
    }
  }

  // ---- The measure ----

  ghost function PendingAt(s: Swarm, i: nat): nat {
    if i !in s.links then 2 else if !s.links[i].accepted then 1 else 0
  }

  ghost function Unstored(counts: seq<int>): nat {
    if counts == [] then 0 else (if counts[0] != -1 then 1 else 0) + Unstored(counts[1..])
  }

  ghost function MissingBelow(task: Task, c: Core, n: nat): nat
    requires task.Valid()
  {
    if n == 0 then 0
    else MissingBelow(task, c, n - 1) + if n - 1 in c.pieces then 0 else Unstored(CountsOf(task, c, n - 1))
  }

  ghost predicate IsAnnouncement(m: Message) { m.Have? || m.Bitfield? }

  // A request or reply for a block that its agent has stored already.
  ghost predicate IsStale(task: Task, own: Core, m: Message)
    requires task.Valid()
  {
    match m
    case Request(k, begin, _) => BlockStored(own, k, begin / task.layout.blockLen)
    case Piece(k, begin, _) => BlockStored(own, k, begin / task.layout.blockLen)
    case _ => false
  }

  ghost function AnnouncementTest(): Message -> bool {
    m => IsAnnouncement(m)
  }

  ghost function StaleTest(task: Task, own: Core): Message -> bool
    requires task.Valid()
  {
    m => IsStale(task, own, m)
  }

  ghost function RequestTest(): Message -> bool {
    (m: Message) => m.Request?
  }

  ghost function AnnouncementsOn(l: Link): nat {
    Count(AnnouncementTest(), l.down) + Count(AnnouncementTest(), l.upward)
  }

  ghost function StaleOn(task: Task, own: Core, l: Link): nat
    requires task.Valid()
  {
    Count(StaleTest(task, own), l.down) + Count(StaleTest(task, own), l.upward)
  }

  ghost function RequestsOn(l: Link): nat {
    Count(RequestTest(), l.upward)
  }

  ghost function Pending(s: Swarm): seq<nat> {
    seq(|s.nodes|, i requires 0 <= i < |s.nodes| => PendingAt(s, i))
  }

  ghost function Missing(task: Task, s: Swarm): seq<nat>
    requires task.Valid()
  {
    seq(|s.nodes|, i requires 0 <= i < |s.nodes| => MissingBelow(task, s.nodes[i], task.layout.Pieces()))
  }

  ghost function Announcements(s: Swarm): seq<nat> {
    seq(|s.nodes|, i requires 0 <= i < |s.nodes| => if i in s.links then AnnouncementsOn(s.links[i]) else 0)
  }

  ghost function Stale(task: Task, s: Swarm): seq<nat>
    requires task.Valid()
  {
    seq(|s.nodes|, i requires 0 <= i < |s.nodes| => if i in s.links then StaleOn(task, s.nodes[i], s.links[i]) else 0)
  }

  ghost function Requests(s: Swarm): seq<nat> {
    seq(|s.nodes|, i requires 0 <= i < |s.nodes| => if i in s.links then RequestsOn(s.links[i]) else 0)
  }

  // Connections to make, blocks to store, announcements under way, useless
  // blocks under way, requests without a reply: compared in this order.
  datatype Measure = Measure(pending: nat, missing: nat, announcements: nat, stale: nat, requests: nat)

  ghost function MeasureOf(task: Task, s: Swarm): Measure
    requires task.Valid()
  {
    Measure(Total(Pending(s)), Total(Missing(task, s)), Total(Announcements(s)), Total(Stale(task, s)), Total(Requests(s)))
  }

  ghost predicate Below(a: Measure, b: Measure) {
    || a.pending < b.pending
    || (a.pending == b.pending && (a.missing < b.missing
    || (a.missing == b.missing && (a.announcements < b.announcements
    || (a.announcements == b.announcements && (a.stale < b.stale
    || (a.stale == b.stale && a.requests < b.requests)))))))
  }

  // ---- Blocks missing at one node ----

  lemma {:induction false} UnstoredSame(counts: seq<int>, counts': seq<int>)
    requires SameStored(counts, counts')
    ensures Unstored(counts) == Unstored(counts')
    decreases counts
  {
    if counts != [] {
      forall b | 0 <= b < |counts[1..]| ensures counts'[1..][b] == -1 <==> counts[1..][b] == -1 {
        assert counts'[1..][b] == counts'[b + 1] && counts[1..][b] == counts[b + 1];
      }
      UnstoredSame(counts[1..], counts'[1..]);
    }
  }

  lemma {:induction false} UnstoredDrops(counts: seq<int>, b: nat)
    requires b < |counts| && counts[b] != -1
    ensures Unstored(counts[b := -1]) == Unstored(counts) - 1
    decreases counts
  {
    var counts' := counts[b := -1];
    if b == 0 {
      assert counts'[1..] == counts[1..];
    } else {
      assert counts'[1..] == counts[1..][b - 1 := -1];
      UnstoredDrops(counts[1..], b - 1);
    }
  }

  lemma {:induction false} MissingSame(task: Task, c: Core, c': Core, n: nat)
    requires task.Valid() && c.pieces == c'.pieces
    requires forall k: nat :: k < n && k !in c.pieces ==> SameStored(CountsOf(task, c, k), CountsOf(task, c', k))
    ensures MissingBelow(task, c', n) == MissingBelow(task, c, n)
  {
    if n > 0 {
      MissingSame(task, c, c', n - 1);
      if n - 1 !in c.pieces { UnstoredSame(CountsOf(task, c, n - 1), CountsOf(task, c', n - 1)); }
    }
  }

  lemma OnlyAskedMissing(task: Task, c: Core, c': Core, n: nat)
    requires task.Valid() && OnlyAsked(task, c, c')
    ensures MissingBelow(task, c', n) == MissingBelow(task, c, n)
  {
    MissingSame(task, c, c', n);
  }

  // Storing a block that was missing is progress.
  lemma {:induction false} BlockIsProgress(task: Task, c: Core, m: Message, k: nat, b: nat, n: nat)
    requires task.Valid() && k < task.layout.Pieces() && k in c.active && k !in c.pieces && m.Piece?
    requires b < |c.active[k]| && c.active[k][b] != -1
    ensures MissingBelow(task, AfterBlock(task, c, m, k, b).0, n) <= MissingBelow(task, c, n)
    ensures k < n ==> MissingBelow(task, AfterBlock(task, c, m, k, b).0, n) < MissingBelow(task, c, n)
  {
    var c' := AfterBlock(task, c, m, k, b).0;
    if n > 0 {
      BlockIsProgress(task, c, m, k, b, n - 1);
      if n - 1 == k {
        UnstoredDrops(c.active[k], b);
      } else {
        assert CountsOf(task, c', n - 1) == CountsOf(task, c, n - 1);
      }
    }
  }

  // ---- Useless blocks at one node ----

  lemma StoredSame(task: Task, c: Core, c': Core)
    requires task.Valid() && OnlyAsked(task, c, c')
    ensures forall k: nat, b: nat :: BlockStored(c', k, b) <==> BlockStored(c, k, b)
  {
    forall k: nat, b: nat ensures BlockStored(c', k, b) <==> BlockStored(c, k, b) {
      if k in c'.active { assert SameStored(CountsOf(task, c, k), c'.active[k]); }
    }
  }

  // What is asked for is never a block that is stored already.
  lemma {:induction false} AsksFresh(task: Task, c: Core, have: set<nat>, out: seq<Message>, c': Core)
    requires task.Valid() && Accounts(task, c) && InRange(task, have) && Asks(task, c, have, out, c')
    ensures forall j :: 0 <= j < |out| ==> !IsStale(task, c', out[j]) && out[j].Request?
    decreases out
  {
    if out != [] {
      var k, b := out[0].piece, BlockOf(task, out[0]);
      var c1 := Bump(task, c, k, b);
      BumpKeeps(task, c, have, k, b);
      ChoiceIsOpen(task, c, have, k, b);
      AsksFresh(task, c1, have, out[1..], c');
      AsksKeeps(task, c1, have, out[1..], c');
      StoredSame(task, c1, c');
      assert c1.active[k][b] != -1 && !BlockStored(c1, k, b);
      forall j | 0 <= j < |out| ensures !IsStale(task, c', out[j]) && out[j].Request? {
        if j > 0 { assert out[j] == out[1..][j - 1]; }
      }
    }
  }

  lemma RequestedFresh(task: Task, c: Core, have: set<nat>, times: nat, out: seq<Message>, c': Core)
    requires task.Valid() && Accounts(task, c) && InRange(task, have) && Requested(task, c, have, times, out, c')
    ensures forall j :: 0 <= j < |out| ==> !IsStale(task, c', out[j]) && out[j].Request?
    ensures OnlyAsked(task, c, c') && MissingBelow(task, c', task.layout.Pieces()) == MissingBelow(task, c, task.layout.Pieces())
  {
    RequestedKeeps(task, c, have, times, out, c');
    OnlyAskedMissing(task, c, c', task.layout.Pieces());
    if Wants(c, have) { AsksFresh(task, c, have, out, c'); }
  }

  // The state after an honest block that was stored before: nothing is missing
  // more or less, and the requests that follow are for other blocks.
  lemma StaleBlock(task: Task, source: seq<byte>, own: Core, have: set<nat>, m: Message, e: Effect, out: seq<Message>)
    requires task.Valid() && Honest(task, source) && NodeOk(task, source, own) && InRange(task, have)
    requires m.Piece? && IsBlock(task, source, m, m.piece, DataBlock(task, m)) && IsStale(task, own, m)
    requires HandlesPiece(task, own, Some(have), m.piece, m.begin, m.data, Healthy, e, out)
    ensures e.announce == None && forall j :: 0 <= j < |out| ==> !IsStale(task, e.core, out[j]) && out[j].Request?
    ensures MissingBelow(task, e.core, task.layout.Pieces()) == MissingBelow(task, own, task.layout.Pieces())
    ensures forall k: nat, b: nat :: BlockStored(e.core, k, b) <==> BlockStored(own, k, b)
  {
    var k, b := m.piece, DataBlock(task, m);
    BlockIsStored(task, source, own, m, k, b);
    if k in own.pieces {
      RequestedFresh(task, own, have, 1, out, e.core);
      StoredSame(task, own, e.core);
    } else {
      HonestRecord(task, source, own, m, k, b);
      AfterBlockOk(task, source, own, m, k, b);
      assert ActiveOk(task, own, k);
      assert own.active[k][b := -1] == own.active[k];
      var c2 := AfterBlock(task, own, m, k, b).0;
      assert c2.active == own.active && c2.pieces == own.pieces;
      MissingSame(task, own, c2, task.layout.Pieces());
      RequestedFresh(task, c2, have, 1, out, e.core);
      StoredSame(task, c2, e.core);
    }
  }

  lemma FreshBlock(task: Task, source: seq<byte>, own: Core, have: set<nat>, m: Message, e: Effect, out: seq<Message>)
    requires task.Valid() && Honest(task, source) && NodeOk(task, source, own) && InRange(task, have)
    requires m.Piece? && IsBlock(task, source, m, m.piece, DataBlock(task, m)) && Known(own, m.piece)
    requires !IsStale(task, own, m)
    requires HandlesPiece(task, own, Some(have), m.piece, m.begin, m.data, Healthy, e, out)
    ensures MissingBelow(task, e.core, task.layout.Pieces()) < MissingBelow(task, own, task.layout.Pieces())
  {
    var k, b := m.piece, DataBlock(task, m);
    BlockIsStored(task, source, own, m, k, b);
    HonestRecord(task, source, own, m, k, b);
    AfterBlockOk(task, source, own, m, k, b);
    assert ActiveOk(task, own, k);
    BlockIsProgress(task, own, m, k, b, task.layout.Pieces());
    RequestedFresh(task, AfterBlock(task, own, m, k, b).0, have, 1, out, e.core);
  }

  // ---- Sums over the swarm when one node or link changes ----

  ghost predicate SameNodesBut(s: Swarm, s': Swarm, i: nat) {
    |s'.nodes| == |s.nodes| && forall j :: 0 <= j < |s.nodes| && j != i ==> s'.nodes[j] == s.nodes[j]
  }

  ghost predicate SameLinksBut(s: Swarm, s': Swarm, i: nat) {
    s'.links.Keys + {i} == s.links.Keys + {i} && forall j :: j in s.links && j != i ==> s'.links[j] == s.links[j]
  }

  lemma PendingDrops(s: Swarm, s': Swarm, i: nat)
    requires s'.nodes == s.nodes && SameLinksBut(s, s', i) && i < |s.nodes| && PendingAt(s', i) < PendingAt(s, i)
    ensures Total(Pending(s')) < Total(Pending(s))
  {
    forall j | 0 <= j < |s.nodes| && j != i ensures Pending(s')[j] == Pending(s)[j] {
      assert j in s'.links.Keys + {i} <==> j in s.links.Keys + {i};
    }
    TotalDrops(Pending(s), Pending(s'), i);
  }

  lemma PendingStays(s: Swarm, s': Swarm)
    requires |s'.nodes| == |s.nodes| && s'.links.Keys == s.links.Keys
    requires forall j :: j in s.links ==> s'.links[j].accepted == s.links[j].accepted
    ensures Total(Pending(s')) == Total(Pending(s))
  {
    assert Pending(s') == Pending(s);
  }

  lemma MissingDrops(task: Task, s: Swarm, s': Swarm, i: nat)
    requires task.Valid() && SameNodesBut(s, s', i) && i < |s.nodes|
    requires MissingBelow(task, s'.nodes[i], task.layout.Pieces()) < MissingBelow(task, s.nodes[i], task.layout.Pieces())
    ensures Total(Missing(task, s')) < Total(Missing(task, s))
  {
    TotalDrops(Missing(task, s), Missing(task, s'), i);
  }

  lemma MissingStays(task: Task, s: Swarm, s': Swarm, i: nat)
    requires task.Valid() && SameNodesBut(s, s', i) && i < |s.nodes|
    requires MissingBelow(task, s'.nodes[i], task.layout.Pieces()) == MissingBelow(task, s.nodes[i], task.layout.Pieces())
    ensures Total(Missing(task, s')) == Total(Missing(task, s))
  {
    assert Missing(task, s') == Missing(task, s);
  }

  lemma AnnouncementsDrop(s: Swarm, s': Swarm, i: nat)
    requires |s'.nodes| == |s.nodes| && i < |s.nodes| && i in s.links && s'.links.Keys == s.links.Keys && SameLinksBut(s, s', i)
    requires AnnouncementsOn(s'.links[i]) < AnnouncementsOn(s.links[i])
    ensures Total(Announcements(s')) < Total(Announcements(s))
  {
    TotalDrops(Announcements(s), Announcements(s'), i);
  }

  lemma AnnouncementsStay(s: Swarm, s': Swarm, i: nat)
    requires |s'.nodes| == |s.nodes| && i < |s.nodes| && i in s.links && s'.links.Keys == s.links.Keys && SameLinksBut(s, s', i)
    requires AnnouncementsOn(s'.links[i]) == AnnouncementsOn(s.links[i])
    ensures Total(Announcements(s')) == Total(Announcements(s))
  {
    assert Announcements(s') == Announcements(s);
  }

  lemma StaleDrops(task: Task, s: Swarm, s': Swarm, i: nat)
    requires task.Valid() && SameNodesBut(s, s', i) && i < |s.nodes| && i in s.links
    requires s'.links.Keys == s.links.Keys && SameLinksBut(s, s', i)
    requires StaleOn(task, s'.nodes[i], s'.links[i]) < StaleOn(task, s.nodes[i], s.links[i])
    ensures Total(Stale(task, s')) < Total(Stale(task, s))
  {
    TotalDrops(Stale(task, s), Stale(task, s'), i);
  }

  lemma StaleStays(task: Task, s: Swarm, s': Swarm, i: nat)
    requires task.Valid() && SameNodesBut(s, s', i) && i < |s.nodes| && i in s.links
    requires s'.links.Keys == s.links.Keys && SameLinksBut(s, s', i)
    requires StaleOn(task, s'.nodes[i], s'.links[i]) == StaleOn(task, s.nodes[i], s.links[i])
    ensures Total(Stale(task, s')) == Total(Stale(task, s))
  {
    assert Stale(task, s') == Stale(task, s);
  }

  lemma RequestsDrop(s: Swarm, s': Swarm, i: nat)
    requires |s'.nodes| == |s.nodes| && i < |s.nodes| && i in s.links && s'.links.Keys == s.links.Keys && SameLinksBut(s, s', i)
    requires RequestsOn(s'.links[i]) < RequestsOn(s.links[i])
    ensures Total(Requests(s')) < Total(Requests(s))
  {
    TotalDrops(Requests(s), Requests(s'), i);
  }

  // ---- Steps ----

  lemma AnnouncementDelivered(l: Link, l': Link, out: seq<Message>)
    requires l.down != [] && IsAnnouncement(l.down[0])
    requires l'.down == l.down[1..] && l'.upward == l.upward + out
    requires forall j :: 0 <= j < |out| ==> !IsAnnouncement(out[j])
    ensures AnnouncementsOn(l') < AnnouncementsOn(l)
  {
    CountConcat(AnnouncementTest(), l.upward, out);
    CountNone(AnnouncementTest(), out);
  }

  lemma BlockDelivered(task: Task, own: Core, own': Core, l: Link, l': Link, out: seq<Message>)
    requires task.Valid() && l.down != [] && IsStale(task, own, l.down[0]) && l.down[0].Piece?
    requires l'.down == l.down[1..] && l'.upward == l.upward + out
    requires forall k: nat, b: nat :: BlockStored(own', k, b) <==> BlockStored(own, k, b)
    requires forall j :: 0 <= j < |out| ==> !IsStale(task, own', out[j]) && out[j].Request?
    ensures AnnouncementsOn(l') == AnnouncementsOn(l)
    ensures StaleOn(task, own', l') < StaleOn(task, own, l)
  {
    CountConcat(AnnouncementTest(), l.upward, out);
    CountNone(AnnouncementTest(), out);
    StaleGone(task, own, own', l, l', out);
  }

  lemma StaleGone(task: Task, own: Core, own': Core, l: Link, l': Link, out: seq<Message>)
    requires task.Valid() && l.down != [] && IsStale(task, own, l.down[0]) && l.down[0].Piece?
    requires l'.down == l.down[1..] && l'.upward == l.upward + out
    requires forall k: nat, b: nat :: BlockStored(own', k, b) <==> BlockStored(own, k, b)
    requires forall j :: 0 <= j < |out| ==> !IsStale(task, own', out[j])
    ensures StaleOn(task, own', l') < StaleOn(task, own, l)
  {
    CountConcat(StaleTest(task, own'), l.upward, out);
    CountNone(StaleTest(task, own'), out);
    StaleSame(task, own, own', l.upward);
    StaleSame(task, own, own', l.down[1..]);
  }

  lemma StaleSame(task: Task, own: Core, own': Core, q: seq<Message>)
    requires task.Valid() && forall k: nat, b: nat :: BlockStored(own', k, b) <==> BlockStored(own, k, b)
    ensures Count(StaleTest(task, own'), q) == Count(StaleTest(task, own), q)
  {
    forall j | 0 <= j < |q| ensures StaleTest(task, own)(q[j]) == StaleTest(task, own')(q[j]) {
      SameStale(task, own, own', q[j]);
    }
    CountSame(StaleTest(task, own), StaleTest(task, own'), q);
  }

  lemma SameStale(task: Task, own: Core, own': Core, m: Message)
    requires task.Valid() && forall k: nat, b: nat :: BlockStored(own', k, b) <==> BlockStored(own, k, b)
    ensures IsStale(task, own, m) <==> IsStale(task, own', m)
  {
  }

  // What an agent knows about the message that it is about to handle.
  lemma NextFromUp(task: Task, source: seq<byte>, s: Swarm, s': Swarm, i: nat, e: Effect, out: seq<Message>)
    requires task.Valid() && Inv(task, source, s) && FromUp(task, s, s', i, e, out)
    ensures var l := s.links[i];
      && s.links[i].up < i < |s.nodes| && NodeOk(task, source, s.nodes[i]) && NodeOk(task, source, s.nodes[l.up])
      && DownOk(task, source, s.nodes[i], s.nodes[l.up].pieces, l.down[0])
      && InRange(task, l.haveUp) && InRange(task, Learned(l.haveUp, l.down[0]))
  {
    assert LinkInPlace(task, source, s, i);
    assert NodeOk(task, source, s.nodes[s.links[i].up]);
  }

  lemma HearingKeeps(task: Task, own: Core, have: set<nat>, m: Message, e: Effect, out: seq<Message>)
    requires task.Valid() && Accounts(task, own) && IsAnnouncement(m) && InRange(task, Learned(have, m))
    requires Handles(task, own, false, Some(have), Decoded(m), Healthy, e, out)
    ensures e.announce == None && forall j :: 0 <= j < |out| ==> out[j].Request?
    ensures MissingBelow(task, e.core, task.layout.Pieces()) == MissingBelow(task, own, task.layout.Pieces())
  {
    var times := if m.Have? then 5 else 1;
    RequestedFresh(task, own, Learned(have, m), times, out, e.core);
  }

  lemma MessageHandled(task: Task, s: Swarm, s': Swarm, i: nat, e: Effect, out: seq<Message>)
    requires task.Valid() && FromUp(task, s, s', i, e, out) && e.announce == None
    ensures s'.links[i].down == s.links[i].down[1..] && s'.links[i].upward == s.links[i].upward + out
    ensures SameNodesBut(s, s', i) && s'.links.Keys == s.links.Keys && SameLinksBut(s, s', i)
  {
  }

  lemma AgentHearsDrops(task: Task, source: seq<byte>, s: Swarm, s': Swarm, i: nat, e: Effect, out: seq<Message>)
    requires task.Valid() && Honest(task, source) && Inv(task, source, s) && FromUp(task, s, s', i, e, out)
    requires IsAnnouncement(s.links[i].down[0])
    ensures Total(Missing(task, s')) == Total(Missing(task, s))
    ensures Total(Announcements(s')) < Total(Announcements(s))
  {
    NextFromUp(task, source, s, s', i, e, out);
    var l := s.links[i];
    HearingKeeps(task, s.nodes[i], l.haveUp, l.down[0], e, out);
    MessageHandled(task, s, s', i, e, out);
    MissingStays(task, s, s', i);
    AnnouncementDelivered(l, s'.links[i], out);
    AnnouncementsDrop(s, s', i);
  }

  lemma AgentSkipsDrops(task: Task, source: seq<byte>, s: Swarm, s': Swarm, i: nat, e: Effect, out: seq<Message>)
    requires task.Valid() && Honest(task, source) && Inv(task, source, s) && FromUp(task, s, s', i, e, out)
    requires s.links[i].down[0].Piece? && IsStale(task, s.nodes[i], s.links[i].down[0])
    ensures Total(Missing(task, s')) == Total(Missing(task, s))
    ensures Total(Announcements(s')) == Total(Announcements(s))
    ensures Total(Stale(task, s')) < Total(Stale(task, s))
  {
    NextFromUp(task, source, s, s', i, e, out);
    var l := s.links[i];
    StaleBlock(task, source, s.nodes[i], l.haveUp, l.down[0], e, out);
    MessageHandled(task, s, s', i, e, out);
    MissingStays(task, s, s', i);
    BlockDelivered(task, s.nodes[i], e.core, l, s'.links[i], out);
    AnnouncementsStay(s, s', i);
    StaleDrops(task, s, s', i);
  }

  lemma AgentStoresDrops(task: Task, source: seq<byte>, s: Swarm, s': Swarm, i: nat, e: Effect, out: seq<Message>)
    requires task.Valid() && Honest(task, source) && Inv(task, source, s) && FromUp(task, s, s', i, e, out)
    requires s.links[i].down[0].Piece? && !IsStale(task, s.nodes[i], s.links[i].down[0])
    ensures Total(Missing(task, s')) < Total(Missing(task, s))
  {
    NextFromUp(task, source, s, s', i, e, out);
    FreshBlock(task, source, s.nodes[i], s.links[i].haveUp, s.links[i].down[0], e, out);
    MissingDrops(task, s, s', i);
  }

  lemma FromUpPending(task: Task, s: Swarm, s': Swarm, i: nat, e: Effect, out: seq<Message>)
    requires task.Valid() && FromUp(task, s, s', i, e, out)
    ensures Total(Pending(s')) == Total(Pending(s))
  {
    PendingStays(s, s');
  }

  lemma FromUpDrops(task: Task, source: seq<byte>, s: Swarm, s': Swarm, i: nat, e: Effect, out: seq<Message>)
    requires task.Valid() && Honest(task, source) && Inv(task, source, s) && FromUp(task, s, s', i, e, out)
    ensures Below(MeasureOf(task, s'), MeasureOf(task, s))
  {
    NextFromUp(task, source, s, s', i, e, out);
    FromUpPending(task, s, s', i, e, out);
    if IsAnnouncement(s.links[i].down[0]) {
      AgentHearsDrops(task, source, s, s', i, e, out);
    } else if IsStale(task, s.nodes[i], s.links[i].down[0]) {
      AgentSkipsDrops(task, source, s, s', i, e, out);
    } else {
      AgentStoresDrops(task, source, s, s', i, e, out);
    }
  }

  lemma AnnouncementReceived(l: Link, l': Link)
    requires l.upward != [] && IsAnnouncement(l.upward[0]) && l'.upward == l.upward[1..] && l'.down == l.down
    ensures AnnouncementsOn(l') < AnnouncementsOn(l)
  {
  }

  lemma RequestServed(task: Task, own: Core, l: Link, l': Link, reply: Message)
    requires task.Valid() && l.upward != [] && l.upward[0].Request? && reply.Piece?
    requires reply.piece == l.upward[0].piece && reply.begin == l.upward[0].begin
    requires l'.upward == l.upward[1..] && l'.down == l.down + [reply]
    ensures AnnouncementsOn(l') == AnnouncementsOn(l) && StaleOn(task, own, l') == StaleOn(task, own, l)
    ensures RequestsOn(l') < RequestsOn(l)
  {
    var ann, stale := AnnouncementTest(), StaleTest(task, own);
    CountConcat(ann, l.down, [reply]);
    CountConcat(stale, l.down, [reply]);
    assert Count(stale, [reply]) == if IsStale(task, own, reply) then 1 else 0;
  }

  lemma UpstreamHearsDrops(task: Task, source: seq<byte>, s: Swarm, s': Swarm, i: nat, e: Effect, out: seq<Message>)
    requires task.Valid() && Inv(task, source, s) && FromDown(task, s, s', i, e, out) && i < |s.nodes|
    requires s'.nodes == s.nodes && e.announce == None && IsAnnouncement(s.links[i].upward[0])
    ensures Total(Announcements(s')) < Total(Announcements(s))
  {
    var l := s.links[i];
    assert s'.links[i].down == l.down + [] == l.down;
    AnnouncementReceived(l, s'.links[i]);
    AnnouncementsDrop(s, s', i);
  }

  lemma RequestAnswered(task: Task, s: Swarm, s': Swarm, i: nat, e: Effect, out: seq<Message>)
    requires task.Valid() && FromDown(task, s, s', i, e, out)
    requires e.announce == None && e.outcome == Continue && s.links[i].upward[0].Request?
    ensures out != [] && out[0].Piece? && s'.links[i].down == s.links[i].down + [out[0]]
    ensures out[0].piece == s.links[i].upward[0].piece && out[0].begin == s.links[i].upward[0].begin
    ensures s'.links[i].upward == s.links[i].upward[1..] && s'.links.Keys == s.links.Keys && SameLinksBut(s, s', i)
  {
  }

  lemma UpstreamServesDrops(task: Task, source: seq<byte>, s: Swarm, s': Swarm, i: nat, e: Effect, out: seq<Message>)
    requires task.Valid() && Inv(task, source, s) && FromDown(task, s, s', i, e, out) && i < |s.nodes|
    requires s'.nodes == s.nodes && e.announce == None && e.outcome == Continue && s.links[i].upward[0].Request?
    ensures Total(Announcements(s')) == Total(Announcements(s)) && Total(Stale(task, s')) == Total(Stale(task, s))
    ensures Total(Requests(s')) < Total(Requests(s))
  {
    RequestAnswered(task, s, s', i, e, out);
    RequestServed(task, s.nodes[i], s.links[i], s'.links[i], out[0]);
    AnnouncementsStay(s, s', i);
    StaleStays(task, s, s', i);
    RequestsDrop(s, s', i);
  }

  lemma FromDownDrops(task: Task, source: seq<byte>, s: Swarm, s': Swarm, i: nat, e: Effect, out: seq<Message>)
    requires task.Valid() && Honest(task, source) && Inv(task, source, s) && FromDown(task, s, s', i, e, out)
    ensures Below(MeasureOf(task, s'), MeasureOf(task, s))
  {
    FromDownNodes(task, source, s, s', i, e, out);
    PendingStays(s, s');
    assert Missing(task, s') == Missing(task, s);
    assert LinkInPlace(task, source, s, i);
    assert UpwardOk(task, s.nodes[i], s.nodes[s.links[i].up].pieces, s.links[i].upward[0]);
    if IsAnnouncement(s.links[i].upward[0]) {
      UpstreamHearsDrops(task, source, s, s', i, e, out);
    } else {
      UpstreamServesDrops(task, source, s, s', i, e, out);
    }
  }

  lemma ConnectDrops(task: Task, s: Swarm, s': Swarm, i: nat)
    requires task.Valid() && i < |s.nodes| && s'.nodes == s.nodes && SameLinksBut(s, s', i) && PendingAt(s', i) < PendingAt(s, i)
    ensures Below(MeasureOf(task, s'), MeasureOf(task, s))
  {
    PendingDrops(s, s', i);
  }

  lemma DialDrops(task: Task, s: Swarm, s': Swarm)
    requires task.Valid() && exists i, u :: Dial(task, s, s', i, u)
    ensures Below(MeasureOf(task, s'), MeasureOf(task, s))
  {
    var i, u :| Dial(task, s, s', i, u);
    ConnectDrops(task, s, s', i);
  }

  lemma AcceptDrops(task: Task, source: seq<byte>, s: Swarm, s': Swarm)
    requires task.Valid() && Inv(task, source, s) && exists i :: Accept(s, s', i)
    ensures Below(MeasureOf(task, s'), MeasureOf(task, s))
  {
    var i :| Accept(s, s', i);
    assert LinkInPlace(task, source, s, i);
    ConnectDrops(task, s, s', i);
  }

  lemma NextDrops(task: Task, source: seq<byte>, s: Swarm, s': Swarm)
    requires task.Valid() && Honest(task, source) && Inv(task, source, s) && Next(task, s, s')
    ensures Below(MeasureOf(task, s'), MeasureOf(task, s))
  {
    if exists i, u :: Dial(task, s, s', i, u) {
      DialDrops(task, s, s');
    } else if exists i :: Accept(s, s', i) {
      AcceptDrops(task, source, s, s');
    } else if i, e, out :| FromUp(task, s, s', i, e, out) {
      FromUpDrops(task, source, s, s', i, e, out);
    } else {
      var i, e, out :| FromDown(task, s, s', i, e, out);
      FromDownDrops(task, source, s, s', i, e, out);
    }
  }

  // ---- Runs ----

  ghost predicate Done(task: Task, source: seq<byte>, s: Swarm)
    requires task.Valid()
  {
    forall i :: 0 <= i < |s.nodes| ==> Complete(task, s.nodes[i]) && s.nodes[i].content == source
  }

  // No deadlock: as long as some node is incomplete, a step is possible.
  lemma CanStep(task: Task, source: seq<byte>, s: Swarm) returns (s': Swarm)
    requires task.Valid() && Honest(task, source) && Inv(task, source, s) && !Done(task, source, s)
    ensures Next(task, s, s')
  {
    if forall j :: 0 < j < |s.nodes| ==> Complete(task, s.nodes[j]) || (j in s.links && Quiet(s.links[j])) {
      forall i | 0 <= i < |s.nodes| ensures Complete(task, s.nodes[i]) && s.nodes[i].content == source {
        QuiescentIsDone(task, source, s, i);
      }
      assert false;
    }
    var i :| 0 < i < |s.nodes| && !Complete(task, s.nodes[i]) && !(i in s.links && Quiet(s.links[i]));
    if i !in s.links {
      assert NodeOk(task, source, s.nodes[i]);
      CompleteWhenCounted(task, s.nodes[i]);
      s' := s.(links := s.links[i := Link(0, false, [], [Bitfield(s.nodes[i].pieces)], {}, {})]);
      assert Dial(task, s, s', i, 0);
    } else {
      assert LinkInPlace(task, source, s, i);
      s' := CanMove(task, source, s, i);
    }
  }

  lemma CanMove(task: Task, source: seq<byte>, s: Swarm, i: nat) returns (s': Swarm)
    requires task.Valid() && Honest(task, source) && Inv(task, source, s) && i in s.links && !Quiet(s.links[i])
    ensures Next(task, s, s')
  {
    var l := s.links[i];
    assert LinkInPlace(task, source, s, i);
    assert NodeOk(task, source, s.nodes[i]) && NodeOk(task, source, s.nodes[l.up]);
    if !l.accepted {
      s' := s.(links := s.links[i := l.(accepted := true, down := l.down + [Bitfield(s.nodes[l.up].pieces)], haveDown := {})]);
      assert Accept(s, s', i);
    } else if l.down != [] {
      assert DownOk(task, source, s.nodes[i], s.nodes[l.up].pieces, l.down[0]);
      var e, out := CanHandle(task, s.nodes[i], false, l.haveUp, l.down[0], Healthy);
      s' := Swarm(s.nodes[i := e.core],
        map j | j in s.links :: if j == i then AgentLink(l, i, e, out) else Announced(s.links[j], j, i, e.announce),
        s.failed || e.hangup || e.outcome != Continue);
      assert FromUp(task, s, s', i, e, out);
    } else {
      assert UpwardOk(task, s.nodes[i], s.nodes[l.up].pieces, l.upward[0]);
      var e, out := CanHandle(task, s.nodes[l.up], true, l.haveDown, l.upward[0], Healthy);
      s' := Swarm(s.nodes[l.up := e.core],
        map j | j in s.links :: if j == i then UpstreamLink(l, i, e, out) else Announced(s.links[j], j, l.up, e.announce),
        s.failed || e.hangup || e.outcome != Continue);
      assert FromDown(task, s, s', i, e, out);
    }
  }

  ghost predicate Stuck(task: Task, s: Swarm)
    requires task.Valid()
  {
    forall s' :: !Next(task, s, s')
  }

  // A run takes a step whenever it can.
  ghost predicate Runs(task: Task, run: nat -> Swarm)
    requires task.Valid()
  {
    forall n: nat :: Next(task, run(n), run(n + 1)) || (Stuck(task, run(n)) && run(n + 1) == run(n))
  }

  // Every failure-free run comes to a state after finitely many steps where no
  // step is left, and there every node of the chain holds exactly the source.
  lemma {:induction false} RunFinishes(task: Task, source: seq<byte>, run: nat -> Swarm, n: nat) returns (end: nat)
    requires task.Valid() && Honest(task, source) && Runs(task, run) && Inv(task, source, run(n))
    ensures n <= end && Inv(task, source, run(end)) && Stuck(task, run(end)) && Done(task, source, run(end))
    decreases MeasureOf(task, run(n)).pending, MeasureOf(task, run(n)).missing,
      MeasureOf(task, run(n)).announcements, MeasureOf(task, run(n)).stale, MeasureOf(task, run(n)).requests
  {
    if Stuck(task, run(n)) {
      if !Done(task, source, run(n)) { var s' := CanStep(task, source, run(n)); }
      end := n;
    } else {
      assert Next(task, run(n), run(n + 1));
      NextKeeps(task, source, run(n), run(n + 1));
      NextDrops(task, source, run(n), run(n + 1));
      end := RunFinishes(task, source, run, n + 1);
    }
  }

  lemma StuckStep(task: Task, run: nat -> Swarm, n: nat)
    requires task.Valid() && Runs(task, run) && Stuck(task, run(n))
    ensures run(n + 1) == run(n)
  {
    assert !Next(task, run(n), run(n + 1));
  }

  lemma {:induction false} StuckStays(task: Task, run: nat -> Swarm, end: nat, m: nat)
    requires task.Valid() && Runs(task, run) && Stuck(task, run(end)) && end <= m
    ensures run(m) == run(end)
    decreases m - end
  {
    if m > end {
      StuckStep(task, run, end);
      StuckStays(task, run, end + 1, m);
    }
  }

  // The run is over at the step with the number end.
  ghost predicate Over(task: Task, run: nat -> Swarm, end: nat)
    requires task.Valid()
  {
    Stuck(task, run(end)) && forall m: nat :: end <= m ==> run(m) == run(end)
  }

  // Every run is finite, and at its end every node holds exactly the source.
  lemma EveryRunFinishes(task: Task, source: seq<byte>, run: nat -> Swarm)
    requires task.Valid() && Honest(task, source) && Injective(task.hash)
    requires Init(task, source, run(0)) && Runs(task, run)
    ensures exists end: nat :: Over(task, run, end) && Done(task, source, run(end))
  {
    InitOk(task, source, run(0));
    var end := RunFinishes(task, source, run, 0);
    forall m: nat | end <= m ensures run(m) == run(end) { StuckStays(task, run, end, m); }
    assert Over(task, run, end);
  }

  // ---- Runs exist ----

  // The node takes over the pieces in the set, whose bytes it has on disk.
  ghost function NodeWith(task: Task, content: seq<byte>, pieces: set<nat>): Core
    requires task.Valid()
  {
    Core(pieces, map[], content, |pieces|, 0, 0)
  }

  lemma NodeStarts(task: Task, content: seq<byte>, pieces: set<nat>)
    requires task.Valid() && |content| == task.layout.size && pieces <= GoodPieces(task, content)
    ensures var c := NodeWith(task, content, pieces);
      Accounts(task, c) && Verified(task, c) && c.active == map[]
  {
  }

  // A server with the source and any agents, each with whatever is on its disk
  // and holding what it found good there or nothing, are a chain to start from.
  lemma ChainStarts(task: Task, source: seq<byte>, disks: seq<seq<byte>>, found: seq<bool>) returns (s: Swarm)
    requires task.Valid() && DigestsOf(task, source) && |found| == |disks|
    requires forall i :: 0 <= i < |disks| ==> |disks[i]| == task.layout.size
    ensures Init(task, source, s) && |s.nodes| == 1 + |disks| && s.nodes[0].content == source
    ensures forall i :: 0 <= i < |disks| ==>
      s.nodes[1 + i].content == disks[i] && s.nodes[1 + i].pieces == if found[i] then GoodPieces(task, disks[i]) else {}
  {
    RangeCard(task.layout.Pieces());
    var server := NodeWith(task, source, Range(task.layout.Pieces()));
    var agents := seq(|disks|, i requires 0 <= i < |disks| =>
      NodeWith(task, disks[i], if found[i] then GoodPieces(task, disks[i]) else {}));
    s := Swarm([server] + agents, map[], false);
    assert Range(task.layout.Pieces()) <= GoodPieces(task, source);
    NodeStarts(task, source, Range(task.layout.Pieces()));
    forall i | 0 <= i < |disks| ensures Accounts(task, agents[i]) && Verified(task, agents[i]) && agents[i].active == map[] {
      NodeStarts(task, disks[i], if found[i] then GoodPieces(task, disks[i]) else {});
    }
    forall i | 0 <= i < |s.nodes| ensures s.nodes[i] == if i == 0 then server else agents[i - 1] {
    }
  }

  ghost function SomeNext(task: Task, s: Swarm): Swarm
    requires task.Valid()
  {
    if Stuck(task, s) then s else
      assert exists s' :: Next(task, s, s');
      var s' :| Next(task, s, s');
      s'
  }

  ghost function RunFrom(task: Task, s: Swarm, n: nat): Swarm
    requires task.Valid()
  {
    if n == 0 then s else SomeNext(task, RunFrom(task, s, n - 1))
  }

  // From any state there is a run that takes a step whenever it can.
  lemma RunExists(task: Task, s: Swarm) returns (run: nat -> Swarm)
    requires task.Valid()
    ensures run(0) == s && Runs(task, run)
  {
    run := (n: nat) => RunFrom(task, s, n);
    forall n: nat ensures Next(task, run(n), run(n + 1)) || (Stuck(task, run(n)) && run(n + 1) == run(n)) {
      assert run(n + 1) == SomeNext(task, run(n));
    }
  }
}
