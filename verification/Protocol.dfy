// What one download session does with one incoming message, as a relation
// between its state before and after. The class in Session.dfy is proved to
// behave this way, and Swarm.dfy joins many such sessions by queues.

module Protocol {
  import opened Options
  import opened Bytes
  import opened Pieces

  type Digest = seq<byte>

  // A task: its layout, the longest block that is accepted, and the digest
  // that every piece must have.
  datatype Task = Task(layout: Layout, maxBlockLen: nat, hash: seq<byte> -> Digest, sums: seq<Digest>)
  {
    predicate Valid() {
      layout.Valid() && |sums| == layout.Pieces()
    }

    function Start(piece: nat): nat
      requires Valid()
    {
      piece * layout.pieceLen
    }
  }

  datatype Message =
    | Have(piece: nat)
    | Bitfield(pieces: set<nat>)
    | Request(piece: nat, begin: nat, length: nat)
    | Piece(piece: nat, begin: nat, data: seq<byte>)

  // A decoded message, or what is wrong with it.
  datatype Incoming = Decoded(message: Message) | BadBitfield | Malformed

  // What the files do during the event: a write may stop after some bytes, a
  // read may fail.
  datatype Disk = Healthy | WriteStops(after: nat) | ReadFails

  // The part of a session's state that its peers can influence. A piece that
  // is being downloaded has a count for each of its blocks.
  datatype Core = Core(
    pieces: set<nat>,
    active: map<nat, seq<int>>,
    content: seq<byte>,
    goodPieces: nat,
    downloaded: nat,
    deploys: nat)

  // Continue: keep the peer. Closed: drop it. Crashed: the process dies.
  datatype Outcome = Continue | Closed | Crashed

  datatype Effect = Effect(
    core: Core,
    have: Option<set<nat>>,
    announce: Option<nat>,
    hangup: bool,
    outcome: Outcome)

  ghost predicate InRange(task: Task, pieces: set<nat>)
    requires task.Valid()
  {
    forall k :: k in pieces ==> k < task.layout.Pieces()
  }

  ghost predicate ActiveOk(task: Task, c: Core, k: nat)
    requires task.Valid() && k in c.active
  {
    && k < task.layout.Pieces() && k !in c.pieces
    && CountsOk(c.active[k], task.layout.Blocks(k))
  }

  // The counts of a started piece of n blocks: one block at least is missing.
  ghost predicate CountsOk(counts: seq<int>, n: nat) {
    |counts| == n && (forall b :: 0 <= b < n ==> counts[b] >= -1) && !AllStored(counts)
  }

  // The accounting invariant of a session.
  ghost predicate Accounts(task: Task, c: Core)
    requires task.Valid()
  {
    && |c.content| == task.layout.size
    && InRange(task, c.pieces)
    && c.goodPieces == |c.pieces|
    && (forall k :: k in c.active ==> ActiveOk(task, c, k))
    && c.deploys <= 1
    && (c.deploys == 1 ==> c.goodPieces == task.layout.Pieces())
  }

  function PieceBytes(task: Task, content: seq<byte>, k: nat): seq<byte>
    requires task.Valid()
  {
    Window(content, task.Start(k), task.layout.PieceLength(k))
  }

  // Every piece that the session claims to hold has the right digest on disk.
  ghost predicate Verified(task: Task, c: Core)
    requires task.Valid() && InRange(task, c.pieces)
  {
    forall k :: k in c.pieces ==> task.hash(PieceBytes(task, c.content, k)) == task.sums[k]
  }

  // ---- Requesting blocks ----

  ghost predicate Wants(c: Core, have: set<nat>) {
    !(have <= c.pieces)
  }

  ghost predicate HasUnrequestedBlock(c: Core, have: set<nat>) {
    exists j :: j in c.active && j in have && 0 in c.active[j]
  }

  ghost predicate HasUnstartedPiece(c: Core, have: set<nat>) {
    exists j :: j in have && j !in c.pieces && j !in c.active
  }

  // Block b of piece k may be asked for next: an untouched block of a started
  // piece, else the first block of a new piece, else the least requested block
  // of a started piece. Which piece it is depends on the map order and on chance.
  ghost predicate MayChoose(c: Core, have: set<nat>, k: nat, b: nat) {
    && k in have && k !in c.pieces
    && if HasUnrequestedBlock(c, have) then k in c.active && FirstUnrequested(c.active[k], b)
       else if HasUnstartedPiece(c, have) then k !in c.active && b == 0
       else k in c.active && LeastRequested(c.active[k], b)
  }

  function CountsOf(task: Task, c: Core, k: nat): seq<int>
    requires task.Valid()
  {
    if k in c.active then c.active[k] else seq(task.layout.Blocks(k), _ => 0)
  }

  function Bump(task: Task, c: Core, k: nat, b: nat): Core
    requires task.Valid()
  {
    var counts := CountsOf(task, c, k);
    if b < |counts| then c.(active := c.active[k := counts[b := counts[b] + 1]]) else c
  }

  // The message is the request for block b of piece k.
  ghost predicate AsksFor(task: Task, m: Message, k: nat, b: nat)
    requires task.Valid()
  {
    && m.Request? && k < task.layout.Pieces() && b < task.layout.Blocks(k)
    && m.piece == k && m.begin == b * task.layout.blockLen && m.length == task.layout.RequestLength(k, b)
  }

  ghost predicate Asks(task: Task, c: Core, have: set<nat>, out: seq<Message>, c': Core)
    requires task.Valid()
    decreases out
  {
    if out == [] then c' == c else
      && out[0].Request? && AsksNext(task, c, have, out[0])
      && Asks(task, Bump(task, c, out[0].piece, BlockOf(task, out[0])), have, out[1..], c')
  }

  function BlockOf(task: Task, m: Message): nat
    requires task.Valid() && m.Request?
  {
    m.begin / task.layout.blockLen
  }

  ghost predicate AsksNext(task: Task, c: Core, have: set<nat>, m: Message)
    requires task.Valid() && m.Request?
  {
    AsksFor(task, m, m.piece, BlockOf(task, m)) && MayChoose(c, have, m.piece, BlockOf(task, m))
  }

  // Asking a peer that has the pieces in have, a number of times: one request
  // each time when it has something that is missing here, and none otherwise.
  ghost predicate Requested(task: Task, c: Core, have: set<nat>, times: nat, out: seq<Message>, c': Core)
    requires task.Valid()
  {
    if Wants(c, have) then |out| == times && Asks(task, c, have, out, c')
    else out == [] && c' == c
  }

  // Forgetting a request for a block, when its peer goes away or times out.
  function Forget(c: Core, k: nat, b: nat): Core {
    if k in c.active && b < |c.active[k]| && c.active[k][b] > 0
    then c.(active := c.active[k := c.active[k][b := c.active[k][b] - 1]])
    else c
  }

  // ---- Serving and storing blocks ----

  predicate RequestRefused(task: Task, c: Core, k: nat, begin: nat, length: nat)
    requires task.Valid()
  {
    || k >= task.layout.Pieces() || k !in c.pieces
    || begin >= task.layout.pieceLen || begin + length > task.layout.pieceLen
  }

  predicate PieceRefused(task: Task, k: nat, begin: nat, length: nat)
    requires task.Valid()
  {
    || k >= task.layout.Pieces()
    || begin >= task.layout.pieceLen || begin + length > task.layout.pieceLen
    || length > task.maxBlockLen
  }

  predicate DiskStops(content: seq<byte>, off: nat, p: seq<byte>, disk: Disk) {
    disk.WriteStops? && 0 < InFile(|content|, off, |p|) && disk.after <= InFile(|content|, off, |p|)
  }

  // The content after a write, and whether the write reports success: a tail
  // past the end of the files must be zero.
  function Written(content: seq<byte>, off: nat, p: seq<byte>, disk: Disk): (r: (seq<byte>, bool)) {
    if DiskStops(content, off, p, disk) then (Splice(content, off, p[..disk.after]), false)
    else (Splice(content, off, p), AllZero(p[InFile(|content|, off, |p|)..]))
  }

  datatype Recorded = Ignored | Partial | Good | Bad | OutsidePiece

  // Checking a piece whose blocks are all stored, and accepting it.
  ghost function Checked(task: Task, c: Core, k: nat, disk: Disk): (Core, Recorded)
    requires task.Valid() && k < task.layout.Pieces()
  {
    if disk.ReadFails? || task.hash(PieceBytes(task, c.content, k)) != task.sums[k] then (c, Bad)
    else (c.(pieces := c.pieces + {k},
             goodPieces := c.goodPieces + 1,
             deploys := c.deploys + if c.goodPieces + 1 == task.layout.Pieces() then 1 else 0), Good)
  }

  // Noting that block b of an active piece is stored, and checking the piece
  // when it was the last one.
  ghost function Note(task: Task, c: Core, k: nat, b: nat, length: nat, disk: Disk): (Core, Recorded)
    requires task.Valid() && k < task.layout.Pieces() && k in c.active && b < |c.active[k]|
  {
    var counts := c.active[k][b := -1];
    var c1 := c.(downloaded := c.downloaded + length);
    if !AllStored(counts) then (c1.(active := c.active[k := counts]), Partial)
    else Checked(task, c1.(active := c.active - {k}), k, disk)
  }

  ghost function Record(task: Task, c: Core, k: nat, begin: nat, length: nat, disk: Disk): (Core, Recorded)
    requires task.Valid() && k < task.layout.Pieces()
  {
    var b := begin / task.layout.blockLen;
    if k !in c.active then (c, Ignored)
    else if b >= |c.active[k]| then (c, OutsidePiece)
    else Note(task, c, k, b, length, disk)
  }

  // ---- One message ----

  ghost predicate HandlesHave(task: Task, c: Core, client: bool, have: Option<set<nat>>, k: nat,
                              e: Effect, out: seq<Message>)
    requires task.Valid()
  {
    e.announce == None && !e.hangup &&
    if have == None then out == [] && e.core == c && e.have == have && e.outcome == Crashed
    else if k >= task.layout.Pieces() then out == [] && e.core == c && e.have == have && e.outcome == Closed
    else
      && e.have == Some(have.value + {k}) && e.outcome == Continue
      && if client then out == [] && e.core == c else Requested(task, c, e.have.value, 5, out, e.core)
  }

  ghost predicate HandlesBitfield(task: Task, c: Core, client: bool, pieces: set<nat>, e: Effect, out: seq<Message>)
    requires task.Valid()
  {
    && e.announce == None && !e.hangup && e.have == Some(pieces) && e.outcome == Continue
    && if client then out == [] && e.core == c else Requested(task, c, pieces, 1, out, e.core)
  }

  ghost predicate HandlesRequest(task: Task, c: Core, have: Option<set<nat>>, k: nat, begin: nat, length: nat,
                                 disk: Disk, e: Effect, out: seq<Message>)
    requires task.Valid()
  {
    e.announce == None && !e.hangup && e.core == c && e.have == have &&
    if have == None then out == [] && e.outcome == Crashed
    else if RequestRefused(task, c, k, begin, length) || disk.ReadFails? then out == [] && e.outcome == Closed
    else
      && out == [Piece(k, begin, Window(c.content, task.Start(k) + begin, length))]
      && e.outcome == Continue
  }

  ghost predicate HandlesPiece(task: Task, c: Core, have: Option<set<nat>>, k: nat, begin: nat, data: seq<byte>,
                               disk: Disk, e: Effect, out: seq<Message>)
    requires task.Valid()
  {
    e.have == have &&
    if have == None then
      out == [] && e.core == c && e.announce == None && !e.hangup && e.outcome == Crashed
    else if PieceRefused(task, k, begin, |data|) then
      out == [] && e.core == c && e.announce == None && !e.hangup && e.outcome == Closed
    else if k in c.pieces then
      Requested(task, c, have.value, 1, out, e.core) && e.announce == None && !e.hangup && e.outcome == Continue
    else
      var (content, ok) := Written(c.content, task.Start(k) + begin, data, disk);
      var c1 := c.(content := content);
      if !ok then
        out == [] && e.core == c1 && e.announce == None && !e.hangup && e.outcome == Closed
      else
        var (c2, r) := Record(task, c1, k, begin, |data|, disk);
        if r == OutsidePiece then
          out == [] && e.core == c2 && e.announce == None && !e.hangup && e.outcome == Crashed
        else
          && Requested(task, c2, have.value, 1, out, e.core)
          && e.announce == (if r == Good then Some(k) else None)
          && e.hangup == (r == Bad)
          && e.outcome == Continue
  }

  // The session in state c gets incoming from a peer that is (or is not) a
  // client and is known to have the pieces in have. It sends out to that peer
  // after announcing a finished piece to everyone.
  ghost predicate Handles(task: Task, c: Core, client: bool, have: Option<set<nat>>, incoming: Incoming,
                          disk: Disk, e: Effect, out: seq<Message>)
    requires task.Valid()
  {
    match incoming
    case Malformed => out == [] && e == Effect(c, have, None, false, Closed)
    case BadBitfield => out == [] && e == Effect(c, None, None, false, Closed)
    case Decoded(Have(k)) => HandlesHave(task, c, client, have, k, e, out)
    case Decoded(Bitfield(s)) => HandlesBitfield(task, c, client, s, e, out)
    case Decoded(Request(k, begin, length)) => HandlesRequest(task, c, have, k, begin, length, disk, e, out)
    case Decoded(Piece(k, begin, data)) => HandlesPiece(task, c, have, k, begin, data, disk, e, out)
  }
}
