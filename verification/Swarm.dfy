// A chain of sessions: node 0 is the server, every agent dials a node before
// it in the chain, and each connection is a pair of first-in first-out queues.

module Swarm {
  import opened Options
  import opened Bytes
  import opened Protocol
  import opened SessionProperties

  // The connection that one agent dialled. The down queue carries messages
  // from the upstream node to the agent, the upward queue the other way.
  // haveUp is what the agent knows the upstream node to have, haveDown the reverse.
  datatype Link = Link(
    up: nat,
    accepted: bool,
    down: seq<Message>,
    upward: seq<Message>,
    haveUp: set<nat>,
    haveDown: set<nat>)

  // links[i] is the connection that agent i dialled. A run has failed when some
  // node has closed a connection or crashed because of a message.
  datatype Swarm = Swarm(nodes: seq<Core>, links: map<nat, Link>, failed: bool)

  // ---- Steps ----

  function Announced(l: Link, owner: nat, node: nat, a: Option<nat>): Link {
    if a == None then l
    else if owner == node && a.value !in l.haveUp then l.(upward := l.upward + [Have(a.value)])
    else if owner != node && l.up == node && l.accepted && a.value !in l.haveDown
    then l.(down := l.down + [Have(a.value)])
    else l
  }

  // The agent reaches a node before it and sends what it has. An agent that
  // found itself complete does not connect.
  ghost predicate Dial(task: Task, s: Swarm, s': Swarm, i: nat, u: nat)
    requires task.Valid()
  {
    && u < i < |s.nodes| && i !in s.links
    && s.nodes[i].goodPieces != task.layout.Pieces()
    && s' == s.(links := s.links[i := Link(u, false, [], [Bitfield(s.nodes[i].pieces)], {}, {})])
  }

  // The upstream session adds the peer and sends what it has.
  ghost predicate Accept(s: Swarm, s': Swarm, i: nat) {
    && i in s.links && !s.links[i].accepted && s.links[i].up < |s.nodes|
    && s' == s.(links := s.links[i := s.links[i].(accepted := true,
         down := s.links[i].down + [Bitfield(s.nodes[s.links[i].up].pieces)], haveDown := {})])
  }

  // The agent handles the oldest message from its upstream node.
  ghost predicate FromUp(task: Task, s: Swarm, s': Swarm, i: nat, e: Effect, out: seq<Message>)
    requires task.Valid()
  {
    && i < |s.nodes| && i in s.links && s.links[i].accepted && s.links[i].down != []
    && Handles(task, s.nodes[i], false, Some(s.links[i].haveUp), Decoded(s.links[i].down[0]), Healthy, e, out)
    && s'.nodes == s.nodes[i := e.core]
    && s'.links.Keys == s.links.Keys
    && (forall j :: j in s.links && j != i ==> s'.links[j] == Announced(s.links[j], j, i, e.announce))
    && s'.links[i] == AgentLink(s.links[i], i, e, out)
    && (s'.failed <==> s.failed || e.hangup || e.outcome != Continue)
  }

  function AgentLink(l: Link, i: nat, e: Effect, out: seq<Message>): Link
    requires l.down != []
  {
    var l1 := l.(down := l.down[1..], haveUp := if e.have == None then {} else e.have.value);
    var l2 := Announced(l1, i, i, e.announce);
    l2.(upward := l2.upward + out)
  }

  // The upstream node handles the oldest message from the agent.
  ghost predicate FromDown(task: Task, s: Swarm, s': Swarm, i: nat, e: Effect, out: seq<Message>)
    requires task.Valid()
  {
    && i in s.links && s.links[i].up < |s.nodes| && s.links[i].accepted && s.links[i].upward != []
    && Handles(task, s.nodes[s.links[i].up], true, Some(s.links[i].haveDown), Decoded(s.links[i].upward[0]), Healthy, e, out)
    && s'.nodes == s.nodes[s.links[i].up := e.core]
    && s'.links.Keys == s.links.Keys
    && (forall j :: j in s.links && j != i ==> s'.links[j] == Announced(s.links[j], j, s.links[i].up, e.announce))
    && s'.links[i] == UpstreamLink(s.links[i], i, e, out)
    && (s'.failed <==> s.failed || e.hangup || e.outcome != Continue)
  }

  function UpstreamLink(l: Link, i: nat, e: Effect, out: seq<Message>): Link
    requires l.upward != []
  {
    var l1 := l.(upward := l.upward[1..], haveDown := if e.have == None then {} else e.have.value);
    var l2 := Announced(l1, i, l.up, e.announce);
    l2.(down := l2.down + out)
  }

  ghost predicate Next(task: Task, s: Swarm, s': Swarm)
    requires task.Valid()
  {
    || (exists i, u :: Dial(task, s, s', i, u))
    || (exists i :: Accept(s, s', i))
    || (exists i, e, out :: FromUp(task, s, s', i, e, out))
    || (exists i, e, out :: FromDown(task, s, s', i, e, out))
  }

  // ---- The invariant ----

  // The block that byte x belongs to is stored.
  ghost predicate StoredByte(task: Task, c: Core, x: nat)
    requires task.Valid()
  {
    BlockStored(c, task.layout.PieceAt(x), task.layout.BlockAt(x))
  }

  ghost predicate Genuine(task: Task, source: seq<byte>, c: Core)
    requires task.Valid()
  {
    && |c.content| == |source| == task.layout.size
    && forall x: nat :: x < |source| && StoredByte(task, c, x) ==> c.content[x] == source[x]
  }

  ghost predicate Known(c: Core, k: nat) {
    k in c.pieces || k in c.active
  }

  // The message carries block b of piece k of the source.
  ghost predicate IsBlock(task: Task, source: seq<byte>, m: Message, k: nat, b: nat)
    requires task.Valid()
  {
    && m.Piece? && k < task.layout.Pieces() && b < task.layout.Blocks(k) && task.layout.RequestLength(k, b) >= 0
    && m.piece == k && m.begin == b * task.layout.blockLen
    && m.data == Window(source, task.Start(k) + m.begin, task.layout.RequestLength(k, b))
  }

  function DataBlock(task: Task, m: Message): nat
    requires task.Valid() && m.Piece?
  {
    m.begin / task.layout.blockLen
  }

  ghost predicate DownOk(task: Task, source: seq<byte>, own: Core, upPieces: set<nat>, m: Message)
    requires task.Valid()
  {
    match m
    case Have(k) => k in upPieces
    case Bitfield(pieces) => pieces <= upPieces
    case Request(_, _, _) => false
    case Piece(k, _, _) => IsBlock(task, source, m, k, DataBlock(task, m)) && Known(own, k)
  }

  ghost predicate UpwardOk(task: Task, own: Core, upPieces: set<nat>, m: Message)
    requires task.Valid()
  {
    match m
    case Have(k) => k in own.pieces
    case Bitfield(pieces) => pieces <= own.pieces
    case Request(k, _, _) => AsksFor(task, m, k, BlockOf(task, m)) && k in upPieces && Known(own, k)
    case Piece(_, _, _) => false
  }

  ghost predicate Announces(m: Message, k: nat) {
    m == Have(k) || (m.Bitfield? && k in m.pieces)
  }

  ghost predicate AnnouncedIn(queue: seq<Message>, k: nat) {
    exists j :: 0 <= j < |queue| && Announces(queue[j], k)
  }

  // A request or its reply is under way.
  ghost predicate InFlight(l: Link) {
    || (exists j :: 0 <= j < |l.down| && l.down[j].Piece?)
    || (exists j :: 0 <= j < |l.upward| && l.upward[j].Request?)
  }

  // What both ends of a link know of each other is true.
  ghost predicate Truthful(task: Task, source: seq<byte>, own: Core, upPieces: set<nat>, l: Link)
    requires task.Valid()
  {
    && l.haveUp <= upPieces && l.haveDown <= own.pieces
    && (forall j :: 0 <= j < |l.down| ==> DownOk(task, source, own, upPieces, l.down[j]))
    && (forall j :: 0 <= j < |l.upward| ==> UpwardOk(task, own, upPieces, l.upward[j]))
  }

  // A bitfield comes before everything else, and nothing comes before the
  // connection is accepted.
  ghost predicate Ordered(l: Link) {
    && (forall j :: 0 < j < |l.down| ==> !l.down[j].Bitfield?)
    && (l.down != [] && l.down[0].Bitfield? ==> l.haveUp == {})
    && (!l.accepted ==> l.down == [] && l.haveUp == {})
  }

  // Whatever the upstream node has is known to the agent, or announced to it,
  // or already here.
  ghost predicate Informed(own: Core, upPieces: set<nat>, l: Link) {
    l.accepted ==> forall k :: k in upPieces ==> k in l.haveUp || k in own.pieces || AnnouncedIn(l.down, k)
  }

  // An agent that wants a piece that its upstream node is known to have is
  // not idle.
  ghost predicate Busy(own: Core, l: Link) {
    Wants(own, l.haveUp) ==> InFlight(l)
  }

  ghost predicate LinkOk(task: Task, source: seq<byte>, own: Core, upPieces: set<nat>, l: Link)
    requires task.Valid()
  {
    Truthful(task, source, own, upPieces, l) && Ordered(l) && Informed(own, upPieces, l) && Busy(own, l)
  }

  ghost predicate NodeOk(task: Task, source: seq<byte>, c: Core)
    requires task.Valid()
  {
    Accounts(task, c) && Genuine(task, source, c)
  }

  ghost predicate Complete(task: Task, c: Core)
    requires task.Valid()
  {
    c.pieces == Range(task.layout.Pieces())
  }

  ghost predicate LinkInPlace(task: Task, source: seq<byte>, s: Swarm, i: nat)
    requires task.Valid() && i in s.links
  {
    && i < |s.nodes| && s.links[i].up < i
    && LinkOk(task, source, s.nodes[i], s.nodes[s.links[i].up].pieces, s.links[i])
  }

  ghost predicate Inv(task: Task, source: seq<byte>, s: Swarm)
    requires task.Valid()
  {
    && !s.failed
    && |s.nodes| > 0 && Complete(task, s.nodes[0])
    && (forall i :: 0 <= i < |s.nodes| ==> NodeOk(task, source, s.nodes[i]))
    && (forall i :: i in s.links ==> LinkInPlace(task, source, s, i))
  }

  // The task is what the server made of the source, with blocks that fit.
  ghost predicate Honest(task: Task, source: seq<byte>)
    requires task.Valid()
  {
    DigestsOf(task, source) && task.layout.Aligned() && task.layout.blockLen <= task.maxBlockLen
  }

  // Before anyone has dialled: the server has everything and the agents have
  // whatever good pieces they found on disk.
  ghost predicate Init(task: Task, source: seq<byte>, s: Swarm)
    requires task.Valid()
  {
    && !s.failed && s.links == map[] && |s.nodes| > 0 && Complete(task, s.nodes[0])
    && forall i :: 0 <= i < |s.nodes| ==>
         Accounts(task, s.nodes[i]) && s.nodes[i].active == map[] && Verified(task, s.nodes[i])
  }
}
