// Every reachable state of a failure-free swarm is consistent: no node ever
// refuses a message, no agent that wants a known piece is idle, and when all
// queues are empty every connected agent is complete.

module SwarmSafety {
  import opened Options
  import opened Arith
  import opened Bytes
  import opened Pieces
  import opened Protocol
  import opened SessionProperties
  import opened Swarm

  // ---- One session with honest data ----

  lemma RequestedGenuine(task: Task, source: seq<byte>, c: Core, c': Core)
    requires task.Valid() && Genuine(task, source, c) && OnlyAsked(task, c, c')
    ensures Genuine(task, source, c')
    ensures forall k :: Known(c, k) ==> Known(c', k)
  {
    forall x: nat | x < |source| && StoredByte(task, c', x) ensures StoredByte(task, c, x) {
      var k := task.layout.PieceAt(x);
      if k !in c'.pieces { assert SameStored(CountsOf(task, c, k), c'.active[k]); }
    }
  }

  // What is asked for is an existing block of a piece that the peer has, and
  // the piece is remembered as started.
  lemma {:induction false} AsksWellFormed(task: Task, c: Core, have: set<nat>, out: seq<Message>, c': Core)
    requires task.Valid() && Accounts(task, c) && InRange(task, have) && Asks(task, c, have, out, c')
    ensures forall j :: 0 <= j < |out| ==>
      && out[j].Request? && AsksFor(task, out[j], out[j].piece, BlockOf(task, out[j]))
      && out[j].piece in have && out[j].piece in c'.active
    decreases out
  {
    if out != [] {
      var c1 := Bump(task, c, out[0].piece, BlockOf(task, out[0]));
      BumpKeeps(task, c, have, out[0].piece, BlockOf(task, out[0]));
      ChoiceIsOpen(task, c, have, out[0].piece, BlockOf(task, out[0]));
      AsksWellFormed(task, c1, have, out[1..], c');
      AsksKeeps(task, c1, have, out[1..], c');
      assert out[0].piece in c1.active;
      forall j | 0 <= j < |out|
        ensures out[j].Request? && AsksFor(task, out[j], out[j].piece, BlockOf(task, out[j]))
          && out[j].piece in have && out[j].piece in c'.active
      {
        if j > 0 { assert out[j] == out[1..][j - 1]; }
      }
    }
  }

  lemma RequestedWellFormed(task: Task, c: Core, have: set<nat>, times: nat, out: seq<Message>, c': Core)
    requires task.Valid() && Accounts(task, c) && InRange(task, have) && Requested(task, c, have, times, out, c')
    ensures forall j :: 0 <= j < |out| ==>
      && out[j].Request? && AsksFor(task, out[j], out[j].piece, BlockOf(task, out[j]))
      && out[j].piece in have && out[j].piece in c'.active
    ensures Accounts(task, c') && OnlyAsked(task, c, c')
    ensures Wants(c', have) ==> |out| == times
  {
    RequestedKeeps(task, c, have, times, out, c');
    if Wants(c, have) { AsksWellFormed(task, c, have, out, c'); }
  }

  // All bytes of a held piece are genuine, so a reply carries the source.
  lemma ReplyIsBlock(task: Task, source: seq<byte>, c: Core, k: nat, b: nat)
    requires task.Valid() && Genuine(task, source, c) && task.layout.Aligned()
    requires k in c.pieces && k < task.layout.Pieces() && b < task.layout.Blocks(k)
    ensures task.layout.RequestLength(k, b) >= 0
    ensures var start := task.Start(k) + b * task.layout.blockLen;
      Window(c.content, start, task.layout.RequestLength(k, b)) == Window(source, start, task.layout.RequestLength(k, b))
  {
    RequestFits(task.layout, k, b);
    var start := task.Start(k) + b * task.layout.blockLen;
    forall x: nat | start <= x < start + task.layout.RequestLength(k, b) ensures x < |source| && c.content[x] == source[x] {
      BlockSpan(task.layout, k, b, x);
      assert StoredByte(task, c, x);
    }
    forall i | 0 <= i < task.layout.RequestLength(k, b)
      ensures Window(c.content, start, task.layout.RequestLength(k, b))[i]
        == Window(source, start, task.layout.RequestLength(k, b))[i]
    {
      assert start <= start + i < start + task.layout.RequestLength(k, b);
    }
  }

  // An honest block lies inside its piece and inside the files.
  lemma BlockFits(task: Task, source: seq<byte>, m: Message, k: nat, b: nat)
    requires task.Valid() && Honest(task, source) && IsBlock(task, source, m, k, b)
    ensures !PieceRefused(task, k, m.begin, |m.data|)
    ensures |m.data| == task.layout.RequestLength(k, b) && task.Start(k) + m.begin + |m.data| <= task.layout.size
  {
    RequestFits(task.layout, k, b);
    PieceSpan(task.layout, k, 0);
  }

  lemma WriteFits(content: seq<byte>, off: nat, p: seq<byte>)
    requires off + |p| <= |content|
    ensures Written(content, off, p, Healthy) == (Splice(content, off, p), true)
  {
    assert InFile(|content|, off, |p|) == |p|;
  }

  // content' is content with the source's bytes in block b of piece k.
  ghost predicate GotBlock(task: Task, source: seq<byte>, content: seq<byte>, content': seq<byte>, k: nat, b: nat)
    requires task.Valid()
  {
    && |content| == |content'| == |source|
    && forall x: nat :: x < |source| ==> content'[x] == if OwnBlock(task, k, b, x) then source[x] else content[x]
  }

  ghost predicate OwnBlock(task: Task, k: nat, b: nat, x: nat)
    requires task.Valid()
  {
    task.layout.PieceAt(x) == k && task.layout.BlockAt(x) == b
  }

  // Honest data is accepted and written where it came from.
  lemma BlockIsStored(task: Task, source: seq<byte>, c: Core, m: Message, k: nat, b: nat)
    requires task.Valid() && Honest(task, source) && Genuine(task, source, c) && IsBlock(task, source, m, k, b)
    ensures !PieceRefused(task, k, m.begin, |m.data|)
    ensures Written(c.content, task.Start(k) + m.begin, m.data, Healthy).1
    ensures GotBlock(task, source, c.content, Written(c.content, task.Start(k) + m.begin, m.data, Healthy).0, k, b)
  {
    BlockFits(task, source, m, k, b);
    WriteFits(c.content, task.Start(k) + m.begin, m.data);
    BlockLands(task, source, c, m, k, b);
  }

  lemma BlockLands(task: Task, source: seq<byte>, c: Core, m: Message, k: nat, b: nat)
    requires task.Valid() && task.layout.Aligned() && IsBlock(task, source, m, k, b)
    requires |c.content| == |source| == task.layout.size
    ensures GotBlock(task, source, c.content, Splice(c.content, task.Start(k) + m.begin, m.data), k, b)
  {
    var start := task.Start(k) + m.begin;
    var content := Splice(c.content, start, m.data);
    forall x: nat | x < |source| ensures content[x] == if OwnBlock(task, k, b, x) then source[x] else c.content[x] {
      BlockSpan(task.layout, k, b, x);
    }
  }

  // A piece whose blocks were all stored from honest data has the right digest.
  lemma FullPieceIsGood(task: Task, source: seq<byte>, content: seq<byte>, k: nat)
    requires task.Valid() && DigestsOf(task, source) && k < task.layout.Pieces() && |content| == |source|
    requires forall x: nat :: x < |source| && task.layout.PieceAt(x) == k ==> content[x] == source[x]
    ensures task.hash(PieceBytes(task, content, k)) == task.sums[k]
  {
    forall i | 0 <= i < task.layout.PieceLength(k)
      ensures PieceBytes(task, content, k)[i] == PieceBytes(task, source, k)[i]
    {
      PieceSpan(task.layout, k, task.Start(k) + i);
    }
    assert PieceBytes(task, content, k) == PieceBytes(task, source, k);
  }

  // The state after honest data for block b of a started piece: the block is
  // noted, and the piece is accepted when it was the last one.
  ghost function AfterBlock(task: Task, c: Core, m: Message, k: nat, b: nat): (Core, Recorded)
    requires task.Valid() && k < task.layout.Pieces() && k in c.active && b < |c.active[k]| && m.Piece?
  {
    var counts := c.active[k][b := -1];
    var c1 := Stored(task, c, k, m.begin, m.data, Healthy).(downloaded := c.downloaded + |m.data|);
    if AllStored(counts) then
      (c1.(active := c.active - {k}, pieces := c.pieces + {k}, goodPieces := c.goodPieces + 1,
           deploys := c.deploys + if c.goodPieces + 1 == task.layout.Pieces() then 1 else 0), Good)
    else (c1.(active := c.active[k := counts]), Partial)
  }

  lemma HonestRecord(task: Task, source: seq<byte>, c: Core, m: Message, k: nat, b: nat)
    requires task.Valid() && Honest(task, source) && NodeOk(task, source, c) && IsBlock(task, source, m, k, b)
    requires k in c.active
    ensures b < |c.active[k]|
    ensures AfterBlock(task, c, m, k, b)
      == Record(task, Stored(task, c, k, m.begin, m.data, Healthy), k, m.begin, |m.data|, Healthy)
  {
    assert ActiveOk(task, c, k);
    DivUnique(m.begin, task.layout.blockLen, b);
    if AllStored(c.active[k][b := -1]) { LastBlockIsGood(task, source, c, m, k, b); }
  }

  lemma LastBlockIsGood(task: Task, source: seq<byte>, c: Core, m: Message, k: nat, b: nat)
    requires task.Valid() && Honest(task, source) && NodeOk(task, source, c) && IsBlock(task, source, m, k, b)
    requires k in c.active && b < |c.active[k]| && AllStored(c.active[k][b := -1])
    ensures task.hash(PieceBytes(task, Stored(task, c, k, m.begin, m.data, Healthy).content, k)) == task.sums[k]
  {
    var c1 := Stored(task, c, k, m.begin, m.data, Healthy);
    BlockIsStored(task, source, c, m, k, b);
    forall x: nat | x < |source| && task.layout.PieceAt(x) == k ensures c1.content[x] == source[x] {
      StoredWhenAllStored(task, c, k, b, x);
    }
    FullPieceIsGood(task, source, c1.content, k);
  }

  lemma AfterBlockOk(task: Task, source: seq<byte>, c: Core, m: Message, k: nat, b: nat)
    requires task.Valid() && Honest(task, source) && NodeOk(task, source, c) && IsBlock(task, source, m, k, b)
    requires k in c.active && b < |c.active[k]|
    ensures NodeOk(task, source, AfterBlock(task, c, m, k, b).0)
    ensures forall j :: Known(c, j) ==> Known(AfterBlock(task, c, m, k, b).0, j)
  {
    HonestRecord(task, source, c, m, k, b);
    assert ActiveOk(task, c, k);
    BlockIsStored(task, source, c, m, k, b);
    StoredKeeps(task, c, k, m.begin, m.data, Healthy);
    RecordKeepsAccounts(task, Stored(task, c, k, m.begin, m.data, Healthy), k, m.begin, |m.data|, Healthy);
    var c2 := AfterBlock(task, c, m, k, b).0;
    forall x: nat | x < |source| && StoredByte(task, c2, x) ensures c2.content[x] == source[x] {
      StoredAfterBlock(task, c, m, k, b, x);
    }
  }

  // A byte that is stored after the block was stored before, or is in the block.
  lemma StoredAfterBlock(task: Task, c: Core, m: Message, k: nat, b: nat, x: nat)
    requires task.Valid() && Accounts(task, c) && m.Piece? && x < task.layout.size
    requires k < task.layout.Pieces() && k in c.active && b < |c.active[k]|
    requires StoredByte(task, AfterBlock(task, c, m, k, b).0, x)
    ensures OwnBlock(task, k, b, x) || StoredByte(task, c, x)
  {
    if task.layout.PieceAt(x) == k && AfterBlock(task, c, m, k, b).1 == Good {
      StoredWhenAllStored(task, c, k, b, x);
    }
  }

  // When block b is the last one missing, every other byte of the piece is stored.
  lemma StoredWhenAllStored(task: Task, c: Core, k: nat, b: nat, x: nat)
    requires task.Valid() && Accounts(task, c) && x < task.layout.size && task.layout.PieceAt(x) == k
    requires k in c.active && b < |c.active[k]| && AllStored(c.active[k][b := -1])
    ensures task.layout.BlockAt(x) == b || StoredByte(task, c, x)
  {
    ByteHasBlock(task.layout, x);
    assert ActiveOk(task, c, k);
    var counts := c.active[k][b := -1];
    assert counts[task.layout.BlockAt(x)] == -1;
  }

  // ---- The link of an agent that handles a message from upstream ----

  function Learned(have: set<nat>, m: Message): set<nat> {
    match m
    case Have(k) => have + {k}
    case Bitfield(pieces) => pieces
    case _ => have
  }

  ghost predicate Grows(c: Core, c': Core) {
    c.pieces <= c'.pieces && forall k :: Known(c, k) ==> Known(c', k)
  }

  lemma QueueShifts(queue: seq<Message>, k: nat)
    requires queue != [] && AnnouncedIn(queue, k)
    ensures Announces(queue[0], k) || AnnouncedIn(queue[1..], k)
  {
    var j :| 0 <= j < |queue| && Announces(queue[j], k);
    if j > 0 { assert queue[1..][j - 1] == queue[j]; }
  }

  lemma QueueExtends(queue: seq<Message>, more: seq<Message>, k: nat)
    requires AnnouncedIn(queue, k) || AnnouncedIn(more, k)
    ensures AnnouncedIn(queue + more, k)
  {
    if AnnouncedIn(queue, k) {
      var j :| 0 <= j < |queue| && Announces(queue[j], k);
      assert (queue + more)[j] == queue[j];
    } else {
      var j :| 0 <= j < |more| && Announces(more[j], k);
      assert (queue + more)[|queue| + j] == more[j];
    }
  }

  lemma AgentLinkKeeps(task: Task, source: seq<byte>, own: Core, own': Core, upPieces: set<nat>, l: Link, extra: seq<Message>)
    requires task.Valid() && LinkOk(task, source, own, upPieces, l) && l.accepted && l.down != [] && Grows(own, own')
    requires forall j :: 0 <= j < |extra| ==> UpwardOk(task, own', upPieces, extra[j])
    requires Wants(own', Learned(l.haveUp, l.down[0])) ==> exists j :: 0 <= j < |extra| && extra[j].Request?
    ensures LinkOk(task, source, own', upPieces,
      l.(down := l.down[1..], haveUp := Learned(l.haveUp, l.down[0]), upward := l.upward + extra))
  {
    var l' := l.(down := l.down[1..], haveUp := Learned(l.haveUp, l.down[0]), upward := l.upward + extra);
    assert DownOk(task, source, own, upPieces, l.down[0]);
    forall j | 0 <= j < |l'.down| ensures DownOk(task, source, own', upPieces, l'.down[j]) && !l'.down[j].Bitfield? {
      assert l'.down[j] == l.down[j + 1];
      assert DownOk(task, source, own, upPieces, l.down[j + 1]);
    }
    forall j | 0 <= j < |l'.upward| ensures UpwardOk(task, own', upPieces, l'.upward[j]) {
      if j < |l.upward| { assert UpwardOk(task, own, upPieces, l.upward[j]); }
      else { assert l'.upward[j] == extra[j - |l.upward|]; }
    }
    forall k | k in upPieces ensures k in l'.haveUp || k in own'.pieces || AnnouncedIn(l'.down, k) {
      if AnnouncedIn(l.down, k) { QueueShifts(l.down, k); }
    }
    if Wants(own', l'.haveUp) {
      var j :| 0 <= j < |extra| && extra[j].Request?;
      assert l'.upward[|l.upward| + j] == extra[j];
    }
  }

  lemma RequestsGoUp(task: Task, source: seq<byte>, c: Core, have: set<nat>, times: nat, out: seq<Message>, c': Core,
                     upPieces: set<nat>)
    requires task.Valid() && NodeOk(task, source, c) && InRange(task, upPieces) && have <= upPieces && times > 0
    requires Requested(task, c, have, times, out, c')
    ensures NodeOk(task, source, c') && c'.pieces == c.pieces && Grows(c, c')
    ensures forall j :: 0 <= j < |out| ==> UpwardOk(task, c', upPieces, out[j])
    ensures Wants(c', have) ==> |out| > 0 && out[0].Request?
  {
    RequestedWellFormed(task, c, have, times, out, c');
    RequestedGenuine(task, source, c, c');
  }

  lemma AgentKeeps(task: Task, source: seq<byte>, own: Core, upPieces: set<nat>, l: Link, i: nat, e: Effect, out: seq<Message>)
    requires task.Valid() && Honest(task, source) && NodeOk(task, source, own) && InRange(task, upPieces)
    requires LinkOk(task, source, own, upPieces, l) && l.accepted && l.down != []
    requires Handles(task, own, false, Some(l.haveUp), Decoded(l.down[0]), Healthy, e, out)
    ensures e.outcome == Continue && !e.hangup && NodeOk(task, source, e.core)
    ensures e.core.pieces == if e.announce == None then own.pieces else own.pieces + {e.announce.value}
    ensures LinkOk(task, source, e.core, upPieces, AgentLink(l, i, e, out))
  {
    assert DownOk(task, source, own, upPieces, l.down[0]);
    match l.down[0]
    case Have(k) =>
      RequestsGoUp(task, source, own, l.haveUp + {k}, 5, out, e.core, upPieces);
      AgentLinkKeeps(task, source, own, e.core, upPieces, l, out);
    case Bitfield(pieces) =>
      RequestsGoUp(task, source, own, pieces, 1, out, e.core, upPieces);
      AgentLinkKeeps(task, source, own, e.core, upPieces, l, out);
    case Piece(k, begin, data) =>
      AgentTakesPiece(task, source, own, upPieces, l, i, e, out);
  }

  lemma AgentTakesPiece(task: Task, source: seq<byte>, own: Core, upPieces: set<nat>, l: Link, i: nat,
                        e: Effect, out: seq<Message>)
    requires task.Valid() && Honest(task, source) && NodeOk(task, source, own) && InRange(task, upPieces)
    requires LinkOk(task, source, own, upPieces, l) && l.accepted && l.down != [] && l.down[0].Piece?
    requires Handles(task, own, false, Some(l.haveUp), Decoded(l.down[0]), Healthy, e, out)
    ensures e.outcome == Continue && !e.hangup && NodeOk(task, source, e.core)
    ensures e.core.pieces == if e.announce == None then own.pieces else own.pieces + {e.announce.value}
    ensures LinkOk(task, source, e.core, upPieces, AgentLink(l, i, e, out))
  {
    var m := l.down[0];
    var k, b := m.piece, DataBlock(task, m);
    assert DownOk(task, source, own, upPieces, m);
    BlockIsStored(task, source, own, m, k, b);
    if k in own.pieces {
      RequestsGoUp(task, source, own, l.haveUp, 1, out, e.core, upPieces);
      AgentLinkKeeps(task, source, own, e.core, upPieces, l, out);
    } else {
      HonestRecord(task, source, own, m, k, b);
      AfterBlockOk(task, source, own, m, k, b);
      var (c2, r) := AfterBlock(task, own, m, k, b);
      RequestsGoUp(task, source, c2, l.haveUp, 1, out, e.core, upPieces);
      assert e.announce == (if r == Good then Some(k) else None);
      AgentGotBlock(task, source, own, e.core, upPieces, l, i, e, out);
    }
  }

  // The requests that follow a stored block may come after the announcement of
  // the piece that it completed.
  lemma AgentGotBlock(task: Task, source: seq<byte>, own: Core, own': Core, upPieces: set<nat>, l: Link, i: nat,
                      e: Effect, out: seq<Message>)
    requires task.Valid() && LinkOk(task, source, own, upPieces, l) && l.accepted && l.down != [] && l.down[0].Piece?
    requires Grows(own, own') && e.have == Some(l.haveUp)
    requires e.announce.Some? ==> e.announce.value in own'.pieces
    requires forall j :: 0 <= j < |out| ==> UpwardOk(task, own', upPieces, out[j])
    requires Wants(own', l.haveUp) ==> |out| > 0 && out[0].Request?
    ensures LinkOk(task, source, own', upPieces, AgentLink(l, i, e, out))
  {
    var extra := if e.announce.Some? && e.announce.value !in l.haveUp then [Have(e.announce.value)] + out else out;
    forall j | 0 <= j < |extra| ensures UpwardOk(task, own', upPieces, extra[j]) {
      if |extra| > |out| && j > 0 { assert extra[j] == out[j - 1]; }
    }
    if Wants(own', l.haveUp) { assert extra[|extra| - |out|].Request?; }
    AgentLinkKeeps(task, source, own, own', upPieces, l, extra);
    assert AgentLink(l, i, e, out).upward == l.upward + extra;
  }

  // ---- The link of an agent whose upstream node handles a message ----

  lemma UpstreamLinkKeeps(task: Task, source: seq<byte>, own: Core, upPieces: set<nat>, l: Link,
                          have: set<nat>, extra: seq<Message>)
    requires task.Valid() && LinkOk(task, source, own, upPieces, l) && l.accepted && l.upward != [] && have <= own.pieces
    requires forall j :: 0 <= j < |extra| ==> DownOk(task, source, own, upPieces, extra[j]) && extra[j].Piece?
    requires l.upward[0].Request? ==> extra != []
    ensures LinkOk(task, source, own, upPieces, l.(upward := l.upward[1..], haveDown := have, down := l.down + extra))
  {
    var l' := l.(upward := l.upward[1..], haveDown := have, down := l.down + extra);
    forall j | 0 <= j < |l'.down| ensures DownOk(task, source, own, upPieces, l'.down[j]) {
      if j < |l.down| { assert DownOk(task, source, own, upPieces, l.down[j]); }
      else { assert l'.down[j] == extra[j - |l.down|]; }
    }
    forall j | 0 <= j < |l'.upward| ensures UpwardOk(task, own, upPieces, l'.upward[j]) {
      assert l'.upward[j] == l.upward[j + 1];
    }
    forall j | 0 < j < |l'.down| ensures !l'.down[j].Bitfield? {
      if j >= |l.down| { assert l'.down[j] == extra[j - |l.down|]; }
    }
    forall k | k in upPieces ensures k in l'.haveUp || k in own.pieces || AnnouncedIn(l'.down, k) {
      if AnnouncedIn(l.down, k) { QueueExtends(l.down, extra, k); }
    }
    if Wants(own, l'.haveUp) { StaysInFlight(l, l', extra); }
  }

  lemma StaysInFlight(l: Link, l': Link, extra: seq<Message>)
    requires InFlight(l) && l.upward != [] && l'.upward == l.upward[1..] && l'.down == l.down + extra
    requires l.upward[0].Request? ==> extra != [] && extra[0].Piece?
    ensures InFlight(l')
  {
    if j :| 0 <= j < |l.down| && l.down[j].Piece? {
      assert l'.down[j].Piece?;
    } else {
      var j :| 0 <= j < |l.upward| && l.upward[j].Request?;
      if j > 0 { assert l'.upward[j - 1] == l.upward[j]; } else { assert l'.down[|l.down|] == extra[0]; }
    }
  }

  // No request between honest nodes is refused, and the reply is genuine.
  lemma UpstreamKeeps(task: Task, source: seq<byte>, own: Core, up: Core, l: Link, i: nat, e: Effect, out: seq<Message>)
    requires task.Valid() && Honest(task, source) && NodeOk(task, source, up) && NodeOk(task, source, own)
    requires LinkOk(task, source, own, up.pieces, l) && l.accepted && l.upward != []
    requires Handles(task, up, true, Some(l.haveDown), Decoded(l.upward[0]), Healthy, e, out)
    ensures e.outcome == Continue && !e.hangup && e.core == up && e.announce == None
    ensures LinkOk(task, source, own, up.pieces, UpstreamLink(l, i, e, out))
  {
    assert UpwardOk(task, own, up.pieces, l.upward[0]);
    match l.upward[0]
    case Have(k) =>
      UpstreamLinkKeeps(task, source, own, up.pieces, l, l.haveDown + {k}, []);
      assert l.down + [] == l.down;
    case Bitfield(pieces) =>
      UpstreamLinkKeeps(task, source, own, up.pieces, l, pieces, []);
      assert l.down + [] == l.down;
    case Request(k, begin, length) =>
      var b := BlockOf(task, l.upward[0]);
      RequestFits(task.layout, k, b);
      ReplyIsBlock(task, source, up, k, b);
      DivUnique(begin, task.layout.blockLen, b);
      UpstreamLinkKeeps(task, source, own, up.pieces, l, l.haveDown, out);
  }

  // ---- The other links of a node that finished a piece ----

  lemma NeighbourKeeps(task: Task, source: seq<byte>, own: Core, upPieces: set<nat>, l: Link, owner: nat, node: nat, a: nat)
    requires task.Valid() && LinkOk(task, source, own, upPieces, l) && owner != node && l.up == node
    ensures LinkOk(task, source, own, upPieces + {a}, Announced(l, owner, node, Some(a)))
  {
    var l' := Announced(l, owner, node, Some(a));
    forall j | 0 <= j < |l'.down| ensures DownOk(task, source, own, upPieces + {a}, l'.down[j]) {
      if j < |l.down| { assert DownOk(task, source, own, upPieces, l.down[j]); }
    }
    forall j | 0 <= j < |l'.upward| ensures UpwardOk(task, own, upPieces + {a}, l'.upward[j]) {
      assert UpwardOk(task, own, upPieces, l.upward[j]);
    }
    if l.accepted {
      forall k | k in upPieces + {a} ensures k in l'.haveUp || k in own.pieces || AnnouncedIn(l'.down, k) {
        if k in upPieces && AnnouncedIn(l.down, k) {
          var j :| 0 <= j < |l.down| && Announces(l.down[j], k);
          assert l'.down[j] == l.down[j];
        } else if k == a && a !in l.haveDown {
          assert l'.down[|l.down|] == Have(a);
        }
      }
    }
    if Wants(own, l'.haveUp) {
      if j :| 0 <= j < |l.down| && l.down[j].Piece? { assert l'.down[j] == l.down[j]; }
    }
  }

  // ---- The invariant ----

  lemma InitOk(task: Task, source: seq<byte>, s: Swarm)
    requires task.Valid() && Honest(task, source) && Injective(task.hash) && Init(task, source, s)
    ensures Inv(task, source, s)
  {
    forall i | 0 <= i < |s.nodes| ensures NodeOk(task, source, s.nodes[i]) {
      VerifiedIsGenuine(task, source, s.nodes[i]);
    }
  }

  // Without collisions, a piece with the right digest is the source's piece.
  lemma VerifiedIsGenuine(task: Task, source: seq<byte>, c: Core)
    requires task.Valid() && DigestsOf(task, source) && Injective(task.hash)
    requires Accounts(task, c) && Verified(task, c) && c.active == map[]
    ensures Genuine(task, source, c)
  {
    forall x: nat | x < |source| && StoredByte(task, c, x) ensures c.content[x] == source[x] {
      var k := task.layout.PieceAt(x);
      PieceSpan(task.layout, k, x);
      assert PieceBytes(task, c.content, k) == PieceBytes(task, source, k);
      assert PieceBytes(task, source, k)[x - task.Start(k)] == source[x];
      assert PieceBytes(task, c.content, k)[x - task.Start(k)] == c.content[x];
    }
  }

  lemma DialKeeps(task: Task, source: seq<byte>, s: Swarm, s': Swarm, i: nat, u: nat)
    requires task.Valid() && Inv(task, source, s) && Dial(task, s, s', i, u)
    ensures Inv(task, source, s')
  {
    forall j | j in s'.links ensures LinkInPlace(task, source, s', j) {
      if j != i { assert LinkInPlace(task, source, s, j); }
    }
  }

  lemma AcceptKeeps(task: Task, source: seq<byte>, s: Swarm, s': Swarm, i: nat)
    requires task.Valid() && Inv(task, source, s) && Accept(s, s', i)
    ensures Inv(task, source, s')
  {
    forall j | j in s'.links ensures LinkInPlace(task, source, s', j) {
      assert LinkInPlace(task, source, s, j);
      if j == i {
        var l := s'.links[i];
        var pieces := s.nodes[l.up].pieces;
        assert l.down == [Bitfield(pieces)];
        forall k | k in pieces ensures AnnouncedIn(l.down, k) { assert Announces(l.down[0], k); }
      }
    }
  }

  lemma FromUpNodes(task: Task, source: seq<byte>, s: Swarm, s': Swarm, i: nat, e: Effect, out: seq<Message>)
    requires task.Valid() && Honest(task, source) && Inv(task, source, s) && FromUp(task, s, s', i, e, out)
    ensures s.links[i].up < i && e.outcome == Continue && !e.hangup && NodeOk(task, source, e.core)
    ensures e.core.pieces == if e.announce == None then s.nodes[i].pieces else s.nodes[i].pieces + {e.announce.value}
    ensures LinkOk(task, source, e.core, s.nodes[s.links[i].up].pieces, AgentLink(s.links[i], i, e, out))
  {
    assert LinkInPlace(task, source, s, i);
    var up := s.nodes[s.links[i].up];
    assert NodeOk(task, source, up);
    AgentKeeps(task, source, s.nodes[i], up.pieces, s.links[i], i, e, out);
  }

  lemma FromUpKeeps(task: Task, source: seq<byte>, s: Swarm, s': Swarm, i: nat, e: Effect, out: seq<Message>)
    requires task.Valid() && Honest(task, source) && Inv(task, source, s) && FromUp(task, s, s', i, e, out)
    ensures Inv(task, source, s')
  {
    FromUpKeepsNodes(task, source, s, s', i, e, out);
    forall j | j in s'.links ensures LinkInPlace(task, source, s', j) {
      FromUpLink(task, source, s, s', i, e, out, j);
    }
  }

  lemma FromUpKeepsNodes(task: Task, source: seq<byte>, s: Swarm, s': Swarm, i: nat, e: Effect, out: seq<Message>)
    requires task.Valid() && Honest(task, source) && Inv(task, source, s) && FromUp(task, s, s', i, e, out)
    ensures !s'.failed && |s'.nodes| > 0 && Complete(task, s'.nodes[0])
    ensures forall j :: 0 <= j < |s'.nodes| ==> NodeOk(task, source, s'.nodes[j])
  {
    FromUpNodes(task, source, s, s', i, e, out);
  }

  lemma FromUpLink(task: Task, source: seq<byte>, s: Swarm, s': Swarm, i: nat, e: Effect, out: seq<Message>, j: nat)
    requires task.Valid() && Honest(task, source) && Inv(task, source, s) && FromUp(task, s, s', i, e, out) && j in s'.links
    ensures LinkInPlace(task, source, s', j)
  {
    FromUpNodes(task, source, s, s', i, e, out);
    assert LinkInPlace(task, source, s, j);
    if j != i { NeighbourAfter(task, source, s, s', i, e, j); }
  }

  // A link that is not the one a message came from, after its upstream node
  // may have got a piece.
  lemma NeighbourAfter(task: Task, source: seq<byte>, s: Swarm, s': Swarm, i: nat, e: Effect, j: nat)
    requires task.Valid() && i < |s.nodes| && s'.nodes == s.nodes[i := e.core]
    requires j in s.links && LinkInPlace(task, source, s, j) && j != i
    requires e.core.pieces == if e.announce == None then s.nodes[i].pieces else s.nodes[i].pieces + {e.announce.value}
    requires j in s'.links && s'.links[j] == Announced(s.links[j], j, i, e.announce)
    ensures LinkInPlace(task, source, s', j)
  {
    if s.links[j].up == i && e.announce != None {
      NeighbourKeeps(task, source, s.nodes[j], s.nodes[i].pieces, s.links[j], j, i, e.announce.value);
    }
  }

  lemma FromDownNodes(task: Task, source: seq<byte>, s: Swarm, s': Swarm, i: nat, e: Effect, out: seq<Message>)
    requires task.Valid() && Honest(task, source) && Inv(task, source, s) && FromDown(task, s, s', i, e, out)
    ensures s'.nodes == s.nodes && !s'.failed && e.announce == None && i < |s.nodes| && s.links[i].up < i
    ensures LinkOk(task, source, s.nodes[i], s.nodes[s.links[i].up].pieces, UpstreamLink(s.links[i], i, e, out))
  {
    assert LinkInPlace(task, source, s, i);
    var up := s.nodes[s.links[i].up];
    assert NodeOk(task, source, up) && NodeOk(task, source, s.nodes[i]);
    UpstreamKeeps(task, source, s.nodes[i], up, s.links[i], i, e, out);
  }

  lemma FromDownKeeps(task: Task, source: seq<byte>, s: Swarm, s': Swarm, i: nat, e: Effect, out: seq<Message>)
    requires task.Valid() && Honest(task, source) && Inv(task, source, s) && FromDown(task, s, s', i, e, out)
    ensures Inv(task, source, s') && s'.nodes == s.nodes
  {
    FromDownNodes(task, source, s, s', i, e, out);
    forall j | j in s'.links ensures LinkInPlace(task, source, s', j) {
      assert LinkInPlace(task, source, s, j);
    }
  }

  // The invariant is inductive; in particular no step of an honest swarm ever
  // closes a connection, crashes a node or finds a bad piece.
  lemma NextKeeps(task: Task, source: seq<byte>, s: Swarm, s': Swarm)
    requires task.Valid() && Honest(task, source) && Inv(task, source, s) && Next(task, s, s')
    ensures Inv(task, source, s') && !s'.failed
  {
    if i, u :| Dial(task, s, s', i, u) {
      DialKeeps(task, source, s, s', i, u);
    } else if i :| Accept(s, s', i) {
      AcceptKeeps(task, source, s, s', i);
    } else if i, e, out :| FromUp(task, s, s', i, e, out) {
      FromUpKeeps(task, source, s, s', i, e, out);
    } else {
      var i, e, out :| FromDown(task, s, s', i, e, out);
      FromDownKeeps(task, source, s, s', i, e, out);
    }
  }

  lemma {:induction false} RunOk(task: Task, source: seq<byte>, run: nat -> Swarm, n: nat)
    requires task.Valid() && Honest(task, source) && Injective(task.hash) && Init(task, source, run(0))
    requires forall i: nat :: i < n ==> Next(task, run(i), run(i + 1))
    ensures Inv(task, source, run(n))
  {
    if n == 0 {
      InitOk(task, source, run(0));
    } else {
      RunOk(task, source, run, n - 1);
      assert Next(task, run(n - 1), run(n - 1 + 1));
      NextKeeps(task, source, run(n - 1), run(n));
    }
  }

  // ---- What the invariant means ----

  // No stall: an agent that knows of a missing piece at its upstream node has
  // a request or a reply under way.
  lemma NoStall(task: Task, source: seq<byte>, s: Swarm, i: nat, k: nat)
    requires task.Valid() && Inv(task, source, s) && i in s.links
    requires k in s.links[i].haveUp && i < |s.nodes| && k !in s.nodes[i].pieces
    ensures InFlight(s.links[i])
  {
    assert LinkInPlace(task, source, s, i);
  }

  ghost predicate Quiet(l: Link) {
    l.accepted && l.down == [] && l.upward == []
  }

  // Quiescence means done: when every agent is complete or connected and all
  // queues are empty, every node holds exactly the source.
  lemma {:induction false} QuiescentIsDone(task: Task, source: seq<byte>, s: Swarm, i: nat)
    requires task.Valid() && Inv(task, source, s) && i < |s.nodes|
    requires forall j :: 0 < j < |s.nodes| ==> Complete(task, s.nodes[j]) || (j in s.links && Quiet(s.links[j]))
    ensures Complete(task, s.nodes[i]) && s.nodes[i].content == source
    decreases i
  {
    if i in s.links && Quiet(s.links[i]) {
      var l := s.links[i];
      assert LinkInPlace(task, source, s, i);
      QuiescentIsDone(task, source, s, l.up);
    }
    assert NodeOk(task, source, s.nodes[i]);
    forall x: nat | x < |source| ensures s.nodes[i].content[x] == source[x] {
      ByteHasBlock(task.layout, x);
      assert StoredByte(task, s.nodes[i], x);
    }
  }
}
