// The nodes of the chain are sessions: what a session object does with the raw
// bytes of a message is the step that the chain takes, on every connection.

module Nodes {
  import opened Options
  import opened Bytes
  import opened Protocol
  import opened Swarm
  import opened Wire
  import S = Sessions

  // Connection i ends at node n, which dialled or accepted it.
  ghost predicate EndsAt(l: Link, i: nat, n: nat) {
    i == n || (l.up == n && l.accepted)
  }

  // What node n has sent on connection i and is not yet handled, and what it
  // knows the other end to have.
  function Outgoing(l: Link, i: nat, n: nat): seq<Message> {
    if i == n then l.upward else l.down
  }

  function Known(l: Link, i: nat, n: nat): set<nat> {
    if i == n then l.haveUp else l.haveDown
  }

  // The peer object at the end of connection i: all that was ever sent has been
  // handled or is still under way.
  ghost predicate PeerOf(p: S.Peer, l: Link, i: nat, n: nat, handled: seq<Message>)
    reads p
  {
    && p.client == (i != n) && p.have == Some(Known(l, i, n))
    && p.sent == handled + Outgoing(l, i, n)
  }

  ghost predicate OnePeerEach(ends: map<nat, S.Peer>) {
    forall i, j :: i in ends && j in ends && i != j ==> ends[i] != ends[j]
  }

  // The session is node n of the chain, and ends are its peers by connection.
  ghost predicate IsNode(session: S.Session, n: nat, ends: map<nat, S.Peer>, handled: map<nat, seq<Message>>, s: Swarm)
    reads session, session.activePieces.Values, session.peers.Values, ends.Values
  {
    && session.Valid() && n < |s.nodes| && session.View() == s.nodes[n]
    && ends.Values == session.peers.Values && handled.Keys == ends.Keys
    && OnePeerEach(ends)
    && (forall i :: i in ends <==> i in s.links && EndsAt(s.links[i], i, n))
    && (forall i :: i in ends ==> PeerOf(ends[i], s.links[i], i, n, handled[i]))
  }

  // ---- The chain after a step ----

  function AfterUp(s: Swarm, i: nat, e: Effect, out: seq<Message>): Swarm
    requires i < |s.nodes| && i in s.links && s.links[i].down != []
  {
    Swarm(s.nodes[i := e.core],
          map j | j in s.links :: if j == i then AgentLink(s.links[i], i, e, out) else Announced(s.links[j], j, i, e.announce),
          s.failed || e.hangup || e.outcome != Continue)
  }

  function AfterDown(s: Swarm, i: nat, e: Effect, out: seq<Message>): Swarm
    requires i in s.links && s.links[i].up < |s.nodes| && s.links[i].upward != []
  {
    Swarm(s.nodes[s.links[i].up := e.core],
          map j | j in s.links :: if j == i then UpstreamLink(s.links[i], i, e, out)
                                  else Announced(s.links[j], j, s.links[i].up, e.announce),
          s.failed || e.hangup || e.outcome != Continue)
  }

  // What an announcement puts on a connection of the node: a HAVE for a piece
  // that the other end is not known to have.
  lemma AnnouncedAt(l: Link, i: nat, n: nat, a: Option<nat>)
    requires EndsAt(l, i, n)
    ensures Known(Announced(l, i, n, a), i, n) == Known(l, i, n) && EndsAt(Announced(l, i, n, a), i, n)
    ensures Outgoing(Announced(l, i, n, a), i, n)
      == Outgoing(l, i, n) + if a.Some? && a.value !in Known(l, i, n) then [Have(a.value)] else []
  {
  }

  // A connection of other nodes is left alone, and so is the direction that
  // the other end of this one sends in.
  lemma AnnouncedElsewhere(l: Link, i: nat, n: nat, a: Option<nat>)
    ensures !EndsAt(l, i, n) ==> Announced(l, i, n, a) == l
    ensures EndsAt(l, i, n) && i == n ==> Announced(l, i, n, a) == l.(upward := Announced(l, i, n, a).upward)
    ensures EndsAt(l, i, n) && i != n ==> Announced(l, i, n, a) == l.(down := Announced(l, i, n, a).down)
  {
  }

  // A message that makes a piece held teaches nothing of the peer.
  lemma NoticeKeepsHave(task: Task, c: Core, client: bool, have: set<nat>, m: Message, e: Effect, out: seq<Message>)
    requires Answers(task, c, client, Some(have), m, e, out)
    ensures e.have.Some? && (e.announce.Some? ==> e.have == Some(have))
  {
  }

  function Notice(have: set<nat>, a: Option<nat>): seq<Message> {
    if a.Some? && a.value !in have then [Have(a.value)] else []
  }

  lemma InSequence(handled: seq<Message>, queue: seq<Message>, notice: seq<Message>, out: seq<Message>)
    ensures (handled + queue) + notice + out == handled + (queue + notice + out)
    ensures (handled + queue) + notice == handled + (queue + notice)
  {
  }

  lemma OtherPeer(q: S.Peer, sent: seq<Message>, l: Link, i: nat, n: nat, handled: seq<Message>, a: Option<nat>)
    requires q.client == (i != n) && q.have == Some(Known(l, i, n)) && sent == handled + Outgoing(l, i, n)
    requires EndsAt(l, i, n) && q.sent == sent + Notice(Known(l, i, n), a)
    ensures PeerOf(q, Announced(l, i, n, a), i, n, handled) && EndsAt(Announced(l, i, n, a), i, n)
  {
    AnnouncedAt(l, i, n, a);
    InSequence(handled, Outgoing(l, i, n), Notice(Known(l, i, n), a), []);
  }

  lemma AgentPeer(p: S.Peer, sent: seq<Message>, l: Link, n: nat, handled: seq<Message>, e: Effect, out: seq<Message>)
    requires !p.client && sent == handled + l.upward && l.down != []
    requires p.have == e.have && e.have.Some? && (e.announce.Some? ==> e.have == Some(l.haveUp))
    requires p.sent == sent + Notice(l.haveUp, e.announce) + out
    ensures PeerOf(p, AgentLink(l, n, e, out), n, n, handled)
  {
    InSequence(handled, l.upward, Notice(l.haveUp, e.announce), out);
  }

  lemma UpstreamPeer(p: S.Peer, sent: seq<Message>, l: Link, i: nat, n: nat, handled: seq<Message>, e: Effect, out: seq<Message>)
    requires p.client && sent == handled + l.down && EndsAt(l, i, n) && i != n && l.upward != []
    requires p.have == e.have && e.have.Some? && (e.announce.Some? ==> e.have == Some(l.haveDown))
    requires p.sent == sent + Notice(l.haveDown, e.announce) + out
    ensures PeerOf(p, UpstreamLink(l, i, e, out), i, n, handled) && EndsAt(UpstreamLink(l, i, e, out), i, n)
  {
    InSequence(handled, l.down, Notice(l.haveDown, e.announce), out);
  }

  // ---- One message ----

  // What the peers had been sent when the session was node n.
  ghost predicate WasNode(ends: map<nat, S.Peer>, sent: map<nat, seq<Message>>, n: nat, handled: map<nat, seq<Message>>, s: Swarm) {
    && n < |s.nodes| && handled.Keys == sent.Keys == ends.Keys
    && OnePeerEach(ends)
    && (forall i :: i in ends <==> i in s.links && EndsAt(s.links[i], i, n))
    && (forall i :: i in ends ==> ends[i].client == (i != n) && sent[i] == handled[i] + Outgoing(s.links[i], i, n))
  }

  // What the session did about a message on connection i: it answered the peer
  // that it came from, and gave a notice to every peer.
  ghost predicate Handled(session: S.Session, ends: map<nat, S.Peer>, sent: map<nat, seq<Message>>, i: nat, n: nat, s: Swarm,
                          e: Effect, out: seq<Message>)
    reads session, session.activePieces.Values, session.peers.Values, ends.Values
  {
    && session.Valid() && ends.Values == session.peers.Values && session.View() == e.core
    && i in ends && sent.Keys == ends.Keys && (forall j :: j in ends ==> j in s.links)
    && ends[i].have == e.have && e.have.Some? && (e.announce.Some? ==> e.have == Some(Known(s.links[i], i, n)))
    && ends[i].sent == sent[i] + Notice(Known(s.links[i], i, n), e.announce) + out
    && forall j :: j in ends && j != i ==>
         ends[j].have == Some(Known(s.links[j], j, n)) && ends[j].sent == sent[j] + Notice(Known(s.links[j], j, n), e.announce)
  }

  // The session does this about a message while no file fails.
  ghost predicate Answers(task: Task, c: Core, client: bool, have: Option<set<nat>>, m: Message, e: Effect, out: seq<Message>) {
    task.Valid() && exists disk :: disk == Healthy && Handles(task, c, client, have, Decoded(m), disk, e, out)
  }

  function NoticeTo(have: Option<set<nat>>, a: Option<nat>): seq<Message> {
    if have.Some? then Notice(have.value, a) else []
  }

  // A message off the wire, for any session and peer.
  method Receive(session: S.Session, p: S.Peer, message: seq<byte>, ghost m: Message)
    returns (o: Outcome, ghost e: Effect, ghost out: seq<Message>)
    requires session.Valid() && p in session.peers.Values && p.have.Some? && Sendable(session.task.layout.Pieces(), m)
    requires message == Print(session.task.layout.Pieces(), m) && message != []
    modifies session`content, session`activePieces, session`downloaded, session`pieceSet, session`goodPieces, session`deploys
    modifies session.activePieces.Values`downloaderCount, p`have, p`ourRequests, p`closed, p`sent, session.peers.Values`sent
    ensures session.Valid() && session.peers == old(session.peers)
    ensures o == e.outcome && session.View() == e.core && p.have == e.have
    ensures Answers(session.task, old(session.View()), p.client, old(p.have), m, e, out)
    ensures p.sent == old(p.sent) + NoticeTo(old(p.have), e.announce) + out
    ensures forall q :: q in session.peers.Values && q != p ==> q.sent == old(q.sent) + NoticeTo(old(q.have), e.announce)
  {
    ghost var a, hangup;
    PrintThenParse(session.task.layout.Pieces(), m);
    o, a, hangup, out := session.GeneralMessage(p, message, Healthy);
    e := Effect(session.View(), p.have, a, hangup, o);
  }

  lemma Snapshot(session: S.Session, n: nat, ends: map<nat, S.Peer>, handled: map<nat, seq<Message>>, s: Swarm)
    returns (sent: map<nat, seq<Message>>)
    requires IsNode(session, n, ends, handled, s)
    ensures WasNode(ends, sent, n, handled, s)
    ensures forall j :: j in ends ==>
      ends[j] in session.peers.Values && sent[j] == ends[j].sent && ends[j].have == Some(Known(s.links[j], j, n))
  {
    sent := map j | j in ends :: ends[j].sent;
    forall j | j in ends
      ensures ends[j] in session.peers.Values && ends[j].have == Some(Known(s.links[j], j, n)) && ends[j].client == (j != n)
      ensures ends[j].sent == handled[j] + Outgoing(s.links[j], j, n)
    {
      assert ends[j] in ends.Values && PeerOf(ends[j], s.links[j], j, n, handled[j]);
    }
  }

  method Handle(session: S.Session, p: S.Peer, message: seq<byte>, ghost i: nat, ghost n: nat, ghost ends: map<nat, S.Peer>,
                ghost handled: map<nat, seq<Message>>, ghost s: Swarm, ghost m: Message)
    returns (o: Outcome, ghost e: Effect, ghost out: seq<Message>, ghost sent: map<nat, seq<Message>>)
    requires IsNode(session, n, ends, handled, s) && i in ends && p == ends[i]
    requires Sendable(session.task.layout.Pieces(), m)
    requires message == Print(session.task.layout.Pieces(), m) && message != []
    modifies session`content, session`activePieces, session`downloaded, session`pieceSet, session`goodPieces, session`deploys
    modifies session.activePieces.Values`downloaderCount, p`have, p`ourRequests, p`closed, p`sent, session.peers.Values`sent
    ensures o == e.outcome && WasNode(ends, sent, n, handled, s) && Handled(session, ends, sent, i, n, s, e, out)
    ensures Answers(session.task, s.nodes[n], i != n, Some(Known(s.links[i], i, n)), m, e, out)
  {
    sent := Snapshot(session, n, ends, handled, s);
    o, e, out := Receive(session, p, message, m);
    NoticeKeepsHave(session.task, s.nodes[n], i != n, Known(s.links[i], i, n), m, e, out);
  }

  lemma UpStep(task: Task, s: Swarm, n: nat, e: Effect, out: seq<Message>)
    requires task.Valid() && n < |s.nodes| && n in s.links && s.links[n].accepted && s.links[n].down != []
    requires Answers(task, s.nodes[n], false, Some(s.links[n].haveUp), s.links[n].down[0], e, out)
    ensures FromUp(task, s, AfterUp(s, n, e, out), n, e, out)
  {
    assert AfterUp(s, n, e, out).links.Keys == s.links.Keys;
  }

  lemma DownStep(task: Task, s: Swarm, i: nat, e: Effect, out: seq<Message>)
    requires task.Valid() && i in s.links && s.links[i].up < |s.nodes| && s.links[i].accepted && s.links[i].upward != []
    requires Answers(task, s.nodes[s.links[i].up], true, Some(s.links[i].haveDown), s.links[i].upward[0], e, out)
    ensures FromDown(task, s, AfterDown(s, i, e, out), i, e, out)
  {
    assert AfterDown(s, i, e, out).links.Keys == s.links.Keys;
  }

  lemma NodeAfterUp(session: S.Session, n: nat, ends: map<nat, S.Peer>, sent: map<nat, seq<Message>>,
                    handled: map<nat, seq<Message>>, s: Swarm, e: Effect, out: seq<Message>)
    requires n in ends && WasNode(ends, sent, n, handled, s) && Handled(session, ends, sent, n, n, s, e, out)
    requires s.links[n].down != []
    ensures IsNode(session, n, ends, handled, AfterUp(s, n, e, out))
  {
    var s' := AfterUp(s, n, e, out);
    forall j | j in ends ensures EndsAt(s'.links[j], j, n) && PeerOf(ends[j], s'.links[j], j, n, handled[j]) {
      if j == n { AgentPeer(ends[n], sent[n], s.links[n], n, handled[n], e, out); }
      else { OtherPeer(ends[j], sent[j], s.links[j], j, n, handled[j], e.announce); }
    }
    forall j | j in s'.links && EndsAt(s'.links[j], j, n) ensures j in ends {
      AnnouncedElsewhere(s.links[j], j, n, e.announce);
    }
  }

  lemma NodeAfterDown(session: S.Session, i: nat, n: nat, ends: map<nat, S.Peer>, sent: map<nat, seq<Message>>,
                      handled: map<nat, seq<Message>>, s: Swarm, e: Effect, out: seq<Message>)
    requires i in ends && i != n && WasNode(ends, sent, n, handled, s) && Handled(session, ends, sent, i, n, s, e, out)
    requires s.links[i].upward != []
    ensures s.links[i].up == n && IsNode(session, n, ends, handled, AfterDown(s, i, e, out))
  {
    assert EndsAt(s.links[i], i, n);
    var s' := AfterDown(s, i, e, out);
    forall j | j in ends ensures EndsAt(s'.links[j], j, n) && PeerOf(ends[j], s'.links[j], j, n, handled[j]) {
      if j == i { UpstreamPeer(ends[i], sent[i], s.links[i], i, n, handled[i], e, out); }
      else { OtherPeer(ends[j], sent[j], s.links[j], j, n, handled[j], e.announce); }
    }
    forall j | j in s'.links && EndsAt(s'.links[j], j, n) ensures j in ends {
      AnnouncedElsewhere(s.links[j], j, n, e.announce);
    }
  }

  // The agent takes the oldest message from its upstream node off the wire: a
  // step of the chain, after which it is still its node.
  method TakeFromUp(session: S.Session, p: S.Peer, message: seq<byte>, ghost n: nat, ghost ends: map<nat, S.Peer>,
                    ghost handled: map<nat, seq<Message>>, ghost s: Swarm)
    returns (o: Outcome, ghost e: Effect, ghost out: seq<Message>)
    requires IsNode(session, n, ends, handled, s) && n in ends && p == ends[n]
    requires s.links[n].accepted && s.links[n].down != [] && Sendable(session.task.layout.Pieces(), s.links[n].down[0])
    requires message == Print(session.task.layout.Pieces(), s.links[n].down[0]) && message != []
    modifies session`content, session`activePieces, session`downloaded, session`pieceSet, session`goodPieces, session`deploys
    modifies session.activePieces.Values`downloaderCount, p`have, p`ourRequests, p`closed, p`sent, session.peers.Values`sent
    ensures o == e.outcome && FromUp(session.task, s, AfterUp(s, n, e, out), n, e, out)
    ensures IsNode(session, n, ends, handled, AfterUp(s, n, e, out))
  {
    ghost var sent;
    o, e, out, sent := Handle(session, p, message, n, n, ends, handled, s, s.links[n].down[0]);
    UpStep(session.task, s, n, e, out);
    NodeAfterUp(session, n, ends, sent, handled, s, e, out);
  }

  // A node takes the oldest message from an agent that connected to it.
  method TakeFromDown(session: S.Session, p: S.Peer, message: seq<byte>, ghost i: nat, ghost n: nat,
                      ghost ends: map<nat, S.Peer>, ghost handled: map<nat, seq<Message>>, ghost s: Swarm)
    returns (o: Outcome, ghost e: Effect, ghost out: seq<Message>)
    requires IsNode(session, n, ends, handled, s) && i in ends && i != n && p == ends[i]
    requires s.links[i].upward != [] && Sendable(session.task.layout.Pieces(), s.links[i].upward[0])
    requires message == Print(session.task.layout.Pieces(), s.links[i].upward[0]) && message != []
    modifies session`content, session`activePieces, session`downloaded, session`pieceSet, session`goodPieces, session`deploys
    modifies session.activePieces.Values`downloaderCount, p`have, p`ourRequests, p`closed, p`sent, session.peers.Values`sent
    ensures o == e.outcome && FromDown(session.task, s, AfterDown(s, i, e, out), i, e, out)
    ensures IsNode(session, n, ends, handled, AfterDown(s, i, e, out))
  {
    assert EndsAt(s.links[i], i, n);
    ghost var sent;
    o, e, out, sent := Handle(session, p, message, i, n, ends, handled, s, s.links[i].upward[0]);
    DownStep(session.task, s, i, e, out);
    NodeAfterDown(session, i, n, ends, sent, handled, s, e, out);
  }

  // ---- The other nodes ----

  // A message that a node takes was sent by the node at the other end, which is
  // not otherwise concerned: for it, one more message is handled.
  lemma OthersAfterUp(session: S.Session, m: nat, ends: map<nat, S.Peer>, handled: map<nat, seq<Message>>, s: Swarm,
                      n: nat, e: Effect, out: seq<Message>)
    requires IsNode(session, m, ends, handled, s) && n != m && n < |s.nodes| && n in s.links && s.links[n].down != []
    requires e.have.Some?
    ensures IsNode(session, m, ends, if n in ends then handled[n := handled[n] + [s.links[n].down[0]]] else handled,
                   AfterUp(s, n, e, out))
  {
    var s' := AfterUp(s, n, e, out);
    var handled' := if n in ends then handled[n := handled[n] + [s.links[n].down[0]]] else handled;
    forall j | j in ends ensures EndsAt(s'.links[j], j, m) && PeerOf(ends[j], s'.links[j], j, m, handled'[j]) {
      assert PeerOf(ends[j], s.links[j], j, m, handled[j]);
      OtherEnd(s.links[j], j, n, m, e.announce);
      if j == n { HeadHandled(handled[n], s.links[n].down); }
    }
    forall j | j in s'.links && EndsAt(s'.links[j], j, m) ensures j in ends {
      OtherEnd(s.links[j], j, n, m, e.announce);
    }
  }

  lemma HeadHandled(handled: seq<Message>, queue: seq<Message>)
    requires queue != []
    ensures handled + queue == (handled + [queue[0]]) + queue[1..]
  {
    assert queue == [queue[0]] + queue[1..];
  }

  // An announcement of node n does not change what node m sends.
  lemma OtherEnd(l: Link, i: nat, n: nat, m: nat, a: Option<nat>)
    requires n != m
    ensures EndsAt(Announced(l, i, n, a), i, m) <==> EndsAt(l, i, m)
    ensures EndsAt(l, i, m) ==> Outgoing(Announced(l, i, n, a), i, m) == Outgoing(l, i, m)
    ensures Known(Announced(l, i, n, a), i, m) == Known(l, i, m)
  {
  }

  lemma OthersAfterDown(session: S.Session, m: nat, ends: map<nat, S.Peer>, handled: map<nat, seq<Message>>, s: Swarm,
                        i: nat, e: Effect, out: seq<Message>)
    requires IsNode(session, m, ends, handled, s) && i in s.links && s.links[i].up != m && s.links[i].up < |s.nodes|
    requires s.links[i].up != i && s.links[i].upward != [] && e.have.Some?
    ensures IsNode(session, m, ends, if i in ends then handled[i := handled[i] + [s.links[i].upward[0]]] else handled,
                   AfterDown(s, i, e, out))
  {
    var s', up := AfterDown(s, i, e, out), s.links[i].up;
    var handled' := if i in ends then handled[i := handled[i] + [s.links[i].upward[0]]] else handled;
    forall j | j in ends ensures EndsAt(s'.links[j], j, m) && PeerOf(ends[j], s'.links[j], j, m, handled'[j]) {
      assert PeerOf(ends[j], s.links[j], j, m, handled[j]);
      OtherEnd(s.links[j], j, up, m, e.announce);
      if j == i { HeadHandled(handled[i], s.links[i].upward); }
    }
    forall j | j in s'.links && EndsAt(s'.links[j], j, m) ensures j in ends {
      OtherEnd(s.links[j], j, up, m, e.announce);
    }
  }

  // ---- Connecting ----

  function AfterDial(s: Swarm, n: nat, u: nat): Swarm
    requires n < |s.nodes|
  {
    s.(links := s.links[n := Link(u, false, [], [Bitfield(s.nodes[n].pieces)], {}, {})])
  }

  function AfterAccept(s: Swarm, i: nat): Swarm
    requires i in s.links && s.links[i].up < |s.nodes|
  {
    s.(links := s.links[i := s.links[i].(accepted := true,
      down := s.links[i].down + [Bitfield(s.nodes[s.links[i].up].pieces)], haveDown := {})])
  }

  // An agent that is not complete connects to a node before it.
  method Connect(session: S.Session, address: string, ghost n: nat, ghost u: nat, ghost ends: map<nat, S.Peer>,
                 ghost handled: map<nat, seq<Message>>, ghost s: Swarm) returns (p: S.Peer)
    requires IsNode(session, n, ends, handled, s) && n !in s.links && u < n && address !in session.peers
    requires session.goodPieces != session.task.layout.Pieces()
    modifies session`peers
    ensures Dial(session.task, s, AfterDial(s, n, u), n, u)
    ensures IsNode(session, n, ends[n := p], handled[n := []], AfterDial(s, n, u))
  {
    ghost var peers := session.peers;
    p := session.AddPeer(address, false);
    ValuesAdded(peers, address, p);
    NewEnd(session, p, n, n, ends, handled, s, AfterDial(s, n, u));
  }

  // The node before it takes the connection.
  method TakeConnection(session: S.Session, address: string, ghost i: nat, ghost n: nat, ghost ends: map<nat, S.Peer>,
                        ghost handled: map<nat, seq<Message>>, ghost s: Swarm) returns (p: S.Peer)
    requires IsNode(session, n, ends, handled, s) && i in s.links && i != n && s.links[i].up == n && !s.links[i].accepted
    requires s.links[i].down == [] && address !in session.peers
    modifies session`peers
    ensures Accept(s, AfterAccept(s, i), i)
    ensures IsNode(session, n, ends[i := p], handled[i := []], AfterAccept(s, i))
  {
    ghost var peers := session.peers;
    p := session.AddPeer(address, true);
    ValuesAdded(peers, address, p);
    NewEnd(session, p, i, n, ends, handled, s, AfterAccept(s, i));
  }

  // The session got one more peer, at the end of connection i.
  lemma NewEnd(session: S.Session, p: S.Peer, i: nat, n: nat, ends: map<nat, S.Peer>, handled: map<nat, seq<Message>>,
               s: Swarm, s': Swarm)
    requires session.Valid() && n < |s.nodes| && s'.nodes == s.nodes && session.View() == s.nodes[n]
    requires i !in ends && p !in ends.Values && handled.Keys == ends.Keys && session.peers.Values == ends.Values + {p}
    requires OnePeerEach(ends)
    requires forall j :: j in ends <==> j in s.links && EndsAt(s.links[j], j, n)
    requires forall j :: j in ends ==> PeerOf(ends[j], s.links[j], j, n, handled[j])
    requires i in s'.links && EndsAt(s'.links[i], i, n) && PeerOf(p, s'.links[i], i, n, [])
    requires s'.links.Keys == s.links.Keys + {i} && forall j :: j in s.links && j != i ==> s'.links[j] == s.links[j]
    ensures IsNode(session, n, ends[i := p], handled[i := []], s')
  {
    ValuesAdded(ends, i, p);
    OneMorePeer(ends, i, p);
  }

  lemma ValuesAdded<K, V>(m: map<K, V>, k: K, v: V)
    requires k !in m
    ensures m[k := v].Values == m.Values + {v}
  {
    assert m[k := v][k] == v;
    forall x | x in m.Values ensures x in m[k := v].Values {
      var j :| j in m && m[j] == x;
      assert m[k := v][j] == x;
    }
  }

  lemma OneMorePeer(ends: map<nat, S.Peer>, i: nat, p: S.Peer)
    requires OnePeerEach(ends) && i !in ends && p !in ends.Values
    ensures OnePeerEach(ends[i := p])
  {
    assert forall j :: j in ends ==> ends[j] in ends.Values;
  }

  // A connection that others make or take is none of a node's own, or stays as it is.
  lemma OthersAfterDial(session: S.Session, m: nat, ends: map<nat, S.Peer>, handled: map<nat, seq<Message>>, s: Swarm,
                        n: nat, u: nat)
    requires IsNode(session, m, ends, handled, s) && n < |s.nodes| && n != m && n !in s.links
    ensures IsNode(session, m, ends, handled, AfterDial(s, n, u))
  {
  }

  lemma OthersAfterAccept(session: S.Session, m: nat, ends: map<nat, S.Peer>, handled: map<nat, seq<Message>>, s: Swarm, i: nat)
    requires IsNode(session, m, ends, handled, s) && i in s.links && s.links[i].up < |s.nodes| && s.links[i].up != m
    ensures IsNode(session, m, ends, handled, AfterAccept(s, i))
  {
    assert i in ends ==> PeerOf(ends[i], s.links[i], i, m, handled[i]);
  }
}
