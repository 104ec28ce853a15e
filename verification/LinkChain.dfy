// The dispatch chain: which agents are in it, in which order, and which nodes
// an agent of the chain tries to reach.

module LinkChains {
  import opened Bytes
  import opened Options
  import opened Protocol
  import opened SessionProperties
  import opened Swarm
  import opened SwarmSafety
  import opened SwarmTermination

  datatype TaskStatus = TaskNotExist | TaskExist | TaskInit | TaskInProgress | TaskCompleted | TaskFailed | TaskFileNotExist

  function Address(host: string, port: string): string {
    host + ":" + port
  }

  predicate Running(infos: map<string, TaskStatus>, ip: string) {
    ip in infos && infos[ip] == TaskInProgress
  }

  // The agents that were told to download and agreed, in the order given.
  ghost function Chosen(ips: seq<string>, infos: map<string, TaskStatus>): seq<string> {
    if ips == [] then []
    else
      var last := ips[|ips| - 1];
      Chosen(ips[..|ips| - 1], infos) + if Running(infos, last) then [last] else []
  }

  ghost predicate Distinct(s: seq<string>) {
    forall j, k :: 0 <= j < k < |s| ==> s[j] != s[k]
  }

  ghost predicate Before(ips: seq<string>, x: string, y: string) {
    exists a, b :: 0 <= a < b < |ips| && ips[a] == x && ips[b] == y
  }

  lemma {:induction false} ChosenMembers(ips: seq<string>, infos: map<string, TaskStatus>)
    ensures forall ip :: ip in Chosen(ips, infos) <==> ip in ips && Running(infos, ip)
    decreases |ips|
  {
    if ips != [] {
      ChosenMembers(ips[..|ips| - 1], infos);
      assert ips == ips[..|ips| - 1] + [ips[|ips| - 1]];
    }
  }

  // Neither the order nor the distinctness of the agents is lost.
  lemma {:induction false} ChosenKeepsOrder(ips: seq<string>, infos: map<string, TaskStatus>)
    ensures forall j, k :: 0 <= j < k < |Chosen(ips, infos)| ==> Before(ips, Chosen(ips, infos)[j], Chosen(ips, infos)[k])
    ensures Distinct(ips) ==> Distinct(Chosen(ips, infos))
    decreases |ips|
  {
    if ips != [] {
      var init, last := ips[..|ips| - 1], ips[|ips| - 1];
      ChosenKeepsOrder(init, infos);
      ChosenMembers(init, infos);
      var c := Chosen(ips, infos);
      forall j, k | 0 <= j < k < |c| ensures Before(ips, c[j], c[k]) {
        if k < |Chosen(init, infos)| {
          BeforeExtends(init, last, c[j], c[k]);
        } else {
          assert c[j] == Chosen(init, infos)[j] && c[j] in Chosen(init, infos);
          var a :| 0 <= a < |init| && init[a] == c[j];
          assert ips[a] == c[j] && ips[|ips| - 1] == c[k];
        }
      }
      if Distinct(ips) {
        assert last !in init;
      }
    }
  }

  lemma BeforeExtends(init: seq<string>, last: string, x: string, y: string)
    requires Before(init, x, y)
    ensures Before(init + [last], x, y)
  {
    var a, b :| 0 <= a < b < |init| && init[a] == x && init[b] == y;
    assert (init + [last])[a] == x && (init + [last])[b] == y;
  }

  // The server comes first, then the chosen agents.
  ghost predicate IsChain(addrs: seq<string>, server: string, agents: seq<string>, agentPort: string) {
    && |addrs| == 1 + |agents| && addrs[0] == server
    && forall j :: 0 <= j < |agents| ==> addrs[1 + j] == Address(agents[j], agentPort)
  }

  method CreateLinkChain(host: string, dataPort: string, agentDataPort: string, ips: seq<string>,
                         infos: map<string, TaskStatus>) returns (addrs: seq<string>)
    ensures IsChain(addrs, Address(host, dataPort), Chosen(ips, infos), agentDataPort)
    ensures |addrs| == 1 + |Chosen(ips, infos)| && addrs[0] == host + ":" + dataPort
    ensures forall j :: 0 <= j < |Chosen(ips, infos)| ==> addrs[1 + j] == Chosen(ips, infos)[j] + ":" + agentDataPort
  {
    var dispatchAddrs := new string[1 + |ips|](_ => "");
    dispatchAddrs[0] := Address(host, dataPort);
    var idx := 1;
    for k := 0 to |ips|
      invariant idx == 1 + |Chosen(ips[..k], infos)| <= 1 + k
      invariant IsChain(dispatchAddrs[..idx], Address(host, dataPort), Chosen(ips[..k], infos), agentDataPort)
    {
      assert ips[..k + 1][..k] == ips[..k];
      var ip := ips[k];
      if ip in infos && infos[ip] == TaskInProgress {
        dispatchAddrs[idx] := Address(ip, agentDataPort);
        idx := idx + 1;
      }
    }
    assert ips[..|ips|] == ips;
    addrs := dispatchAddrs[..idx];
  }

  lemma SameHost(host: string, host': string, port: string)
    requires Address(host, port) == Address(host', port)
    ensures host == host'
  {
    var a, a' := Address(host, port), Address(host', port);
    assert |host| == |host'|;
    assert a[..|host|] == host && a'[..|host'|] == host';
  }

  // All addresses of the chain differ, if the agents do and the server's
  // address is not the one of an agent.
  lemma ChainIsDistinct(addrs: seq<string>, server: string, ips: seq<string>, infos: map<string, TaskStatus>, agentPort: string)
    requires IsChain(addrs, server, Chosen(ips, infos), agentPort) && Distinct(ips)
    requires forall ip :: ip in ips ==> Address(ip, agentPort) != server
    ensures Distinct(addrs)
  {
    var agents := Chosen(ips, infos);
    ChosenKeepsOrder(ips, infos);
    ChosenMembers(ips, infos);
    forall j, k | 0 <= j < k < |addrs| ensures addrs[j] != addrs[k] {
      assert addrs[k] == Address(agents[k - 1], agentPort) && agents[k - 1] in ips;
      if j > 0 && addrs[j] == addrs[k] {
        assert addrs[j] == Address(agents[j - 1], agentPort);
        SameHost(agents[j - 1], agents[k - 1], agentPort);
      }
    }
  }

  // ---- Dialling ----

  const MAX_RETRY_CONNECT_TIMES := 10

  // What became of an attempt to connect.
  datatype Attempt = DialFailed | HeaderFailed | HungUp | Connected

  // The position of the node that is dialled, and the failures before. A dial
  // that fails is fatal: the connection that was not made is closed before the
  // failure is counted.
  datatype Dialer = Dialer(indexInChain: int, connFailCount: nat)
  {
    // Where the next attempt goes.
    function Target(): nat {
      var index := if connFailCount >= MAX_RETRY_CONNECT_TIMES then indexInChain - 1 else indexInChain;
      if index < 0 then 0 else index
    }

    // The dialer after an attempt, if the process is still alive.
    function After(attempt: Attempt): Option<Dialer> {
      match attempt
      case DialFailed => None
      case HeaderFailed => Some(Dialer(Target() - 1, connFailCount))
      case HungUp => Some(Dialer(Target(), connFailCount))
      case Connected => Some(Dialer(Target(), 0))
    }

    function AfterAll(attempts: seq<Attempt>): Option<Dialer> {
      if attempts == [] then Some(this)
      else
        match AfterAll(attempts[..|attempts| - 1])
        case None => None
        case Some(d) => d.After(attempts[|attempts| - 1])
    }
  }

  // The part of an agent's session that looks for an upstream node.
  class Uplink {
    var addrs: seq<string>
    var indexInChain: int
    var connFailCount: nat

    constructor ()
      ensures addrs == [] && View() == Dialer(0, 0)
    {
      addrs := [];
      indexInChain := 0;
      connFailCount := 0;
    }

    ghost function View(): Dialer
      reads this
    {
      Dialer(indexInChain, connFailCount)
    }

    // The chain arrives: an agent starts with the node just before its own
    // last position in it.
    method FindSelf(addrs: seq<string>, self: string)
      modifies this`addrs, this`indexInChain
      ensures this.addrs == addrs
      ensures forall i :: 0 < i < |addrs| && addrs[i] == self && self !in addrs[i + 1..] ==> indexInChain == i - 1
      ensures (forall i :: 0 < i < |addrs| ==> addrs[i] != self) ==> indexInChain == old(indexInChain)
    {
      this.addrs := addrs;
      var idx := |addrs| - 1;
      while idx > 0
        invariant -1 <= idx < |addrs| && (addrs != [] ==> 0 <= idx)
        invariant forall i :: idx < i < |addrs| ==> addrs[i] != self
        invariant indexInChain == old(indexInChain)
      {
        if self == addrs[idx] {
          indexInChain := idx - 1;
          break;
        }
        idx := idx - 1;
      }
    }

    // One attempt to connect, whatever comes of it.
    method TryNewPeer(attempt: Attempt) returns (peer: string, alive: bool)
      requires addrs != [] && indexInChain < |addrs|
      modifies this`indexInChain, this`connFailCount
      ensures old(View()).Target() < |addrs| && peer == addrs[old(View()).Target()]
      ensures old(connFailCount) < 10 && old(indexInChain) >= 0 ==> peer == addrs[old(indexInChain)]
      ensures old(connFailCount) >= 10 && old(indexInChain) >= 1 ==> peer == addrs[old(indexInChain) - 1]
      ensures old(indexInChain) < 0 ==> peer == addrs[0]
      ensures (if alive then Some(View()) else None) == old(View()).After(attempt) && indexInChain < |addrs|
    {
      alive := true;
      if connFailCount >= MAX_RETRY_CONNECT_TIMES {
        indexInChain := indexInChain - 1;
      }
      if indexInChain < 0 {
        indexInChain := 0;
      }
      peer := addrs[indexInChain];
      match attempt
      case DialFailed => alive := false;
      case HeaderFailed => indexInChain := indexInChain - 1;
      case HungUp =>
      case Connected => connFailCount := 0;
    }

    // The session of agent i starts: it dials the node just before itself.
    method Start(addrs: seq<string>, i: nat, attempt: Attempt) returns (peer: string, alive: bool)
      requires View() == Dialer(0, 0) && 0 < i < |addrs| && Distinct(addrs)
      modifies this`addrs, this`indexInChain, this`connFailCount
      ensures this.addrs == addrs && peer == addrs[i - 1]
      ensures (if alive then Some(View()) else None) == Dialer(i - 1, 0).After(attempt)
    {
      FindSelf(addrs, addrs[i]);
      peer, alive := TryNewPeer(attempt);
    }
  }

  function HeaderFailures(attempts: seq<Attempt>): nat {
    if attempts == [] then 0
    else HeaderFailures(attempts[..|attempts| - 1]) + if attempts[|attempts| - 1] == HeaderFailed then 1 else 0
  }

  // Attempts are survived exactly when no dial among them failed. Then only the
  // refused headers have moved the target up, and never beyond the server.
  lemma {:induction false} SurvivesIff(d: Dialer, attempts: seq<Attempt>)
    requires d.connFailCount == 0 && d.indexInChain >= 0
    ensures d.AfterAll(attempts).Some? <==> DialFailed !in attempts
    ensures d.AfterAll(attempts).Some? ==>
      var d' := d.AfterAll(attempts).value;
      && d'.connFailCount == 0
      && d'.Target() == if HeaderFailures(attempts) <= d.indexInChain then d.indexInChain - HeaderFailures(attempts) else 0
    decreases |attempts|
  {
    if attempts != [] {
      SurvivesIff(d, attempts[..|attempts| - 1]);
      assert attempts == attempts[..|attempts| - 1] + [attempts[|attempts| - 1]];
    }
  }

  // One dead node is enough to kill an agent, wherever it is in the chain.
  lemma DeadNodeIsFatal(i: nat)
    requires i > 0
    ensures Dialer(i - 1, 0).AfterAll([DialFailed]) == None
  {
    SurvivesIff(Dialer(i - 1, 0), [DialFailed]);
  }

  // A node that closes each connection without answering is tried again for ever.
  lemma {:induction false} HangupIsRetried(d: Dialer, attempts: seq<Attempt>)
    requires d.connFailCount == 0 && d.indexInChain >= 0
    requires forall k :: 0 <= k < |attempts| ==> attempts[k] == HungUp
    ensures d.AfterAll(attempts) == Some(d)
    decreases |attempts|
  {
    if attempts != [] { HangupIsRetried(d, attempts[..|attempts| - 1]); }
  }

  // An agent at position i only ever dials nodes before itself, and it never
  // goes back to a later one.
  lemma {:induction false} DialsUpstream(d: Dialer, i: nat, attempts: seq<Attempt>, n: nat)
    requires 0 < i && d.indexInChain < i && n <= |attempts| && d.AfterAll(attempts).Some?
    ensures d.AfterAll(attempts).value.indexInChain < i && d.AfterAll(attempts).value.Target() < i
    ensures d.AfterAll(attempts[..n]).Some? && d.AfterAll(attempts).value.Target() <= d.AfterAll(attempts[..n]).value.Target()
    decreases |attempts|
  {
    if attempts != [] && n < |attempts| {
      var init := attempts[..|attempts| - 1];
      DialsUpstream(d, i, init, n);
      assert init[..n] == attempts[..n];
    } else if attempts != [] {
      DialsUpstream(d, i, attempts[..|attempts| - 1], 0);
      assert attempts[..n] == attempts;
    }
  }

  // So when an attempt of agent i succeeds, after any others that it survived,
  // it is a step that the swarm may take, to a node before i.
  lemma ConnectIsStep(task: Task, source: seq<byte>, s: Swarm, i: nat, attempts: seq<Attempt>) returns (s': Swarm)
    requires task.Valid() && Inv(task, source, s)
    requires 0 < i < |s.nodes| && i !in s.links && !Complete(task, s.nodes[i]) && DialFailed !in attempts
    ensures Dialer(i - 1, 0).AfterAll(attempts).Some?
    ensures var u := Dialer(i - 1, 0).AfterAll(attempts).value.Target();
      u < i && Dial(task, s, s', i, u) && Inv(task, source, s') && Walk(s', i, 1) == u
  {
    SurvivesIff(Dialer(i - 1, 0), attempts);
    DialsUpstream(Dialer(i - 1, 0), i, attempts, 0);
    var u := Dialer(i - 1, 0).AfterAll(attempts).value.Target();
    assert NodeOk(task, source, s.nodes[i]);
    CompleteWhenCounted(task, s.nodes[i]);
    s' := s.(links := s.links[i := Link(u, false, [], [Bitfield(s.nodes[i].pieces)], {}, {})]);
    DialKeeps(task, source, s, s', i, u);
    assert Walk(s', i, 0) == i;
  }

  // ---- Upstream paths ----

  // The node that is reached from node i in n steps along the connections.
  ghost function Walk(s: Swarm, i: nat, n: nat): nat {
    if n == 0 then i
    else
      var j := Walk(s, i, n - 1);
      if j in s.links then s.links[j].up else j
  }

  // Every walk strictly descends the chain, and after at most i steps it is at
  // a node that is not connected to another one.
  lemma WalkEnds(task: Task, source: seq<byte>, s: Swarm, i: nat) returns (n: nat)
    requires task.Valid() && Inv(task, source, s) && i < |s.nodes|
    ensures n <= i && Walk(s, i, n) <= i && Walk(s, i, n) !in s.links
    ensures forall m: nat :: m < n ==> Walk(s, i, m) in s.links && Walk(s, i, m + 1) < Walk(s, i, m)
  {
    n := 0;
    while Walk(s, i, n) in s.links
      invariant Walk(s, i, n) + n <= i
      invariant forall m: nat :: m < n ==> Walk(s, i, m) in s.links && Walk(s, i, m + 1) < Walk(s, i, m)
      decreases i - n
    {
      assert LinkInPlace(task, source, s, Walk(s, i, n));
      n := n + 1;
    }
  }

  ghost predicate IsRun(task: Task, run: nat -> Swarm, n: nat)
    requires task.Valid()
  {
    forall m: nat :: m < n ==> Next(task, run(m), run(m + 1))
  }

  // A node that is not connected is as it was at the start, and one that was
  // complete at the start never connects.
  ghost predicate StartedApart(task: Task, s0: Swarm, s: Swarm)
    requires task.Valid()
  {
    && |s.nodes| == |s0.nodes|
    && (forall j :: 0 <= j < |s.nodes| && j !in s.links ==> s.nodes[j] == s0.nodes[j])
    && (forall j :: j in s.links ==> j < |s0.nodes| && !Complete(task, s0.nodes[j]))
  }

  lemma DialStaysApart(task: Task, source: seq<byte>, s0: Swarm, s: Swarm, s': Swarm, i: nat, u: nat)
    requires task.Valid() && Inv(task, source, s) && Dial(task, s, s', i, u) && StartedApart(task, s0, s)
    ensures StartedApart(task, s0, s')
  {
    assert NodeOk(task, source, s.nodes[i]);
    CompleteWhenCounted(task, s.nodes[i]);
  }

  // A step on a link changes no node that has none.
  lemma LinkStepStaysApart(task: Task, s0: Swarm, s: Swarm, s': Swarm, i: nat)
    requires task.Valid() && StartedApart(task, s0, s) && i in s.links && s'.links.Keys == s.links.Keys
    requires |s'.nodes| == |s.nodes| && forall j :: 0 <= j < |s.nodes| && j != i ==> s'.nodes[j] == s.nodes[j]
    ensures StartedApart(task, s0, s')
  {
    forall j | 0 <= j < |s'.nodes| && j !in s'.links ensures s'.nodes[j] == s0.nodes[j] {
      assert j !in s'.links.Keys;
    }
    forall j | j in s'.links ensures j < |s0.nodes| && !Complete(task, s0.nodes[j]) {
      assert j in s'.links.Keys;
    }
  }

  lemma AcceptStaysApart(task: Task, s0: Swarm, s: Swarm, s': Swarm, i: nat)
    requires task.Valid() && Accept(s, s', i) && StartedApart(task, s0, s)
    ensures StartedApart(task, s0, s')
  {
    assert s'.links.Keys == s.links.Keys;
    LinkStepStaysApart(task, s0, s, s', i);
  }

  lemma FromUpStaysApart(task: Task, s0: Swarm, s: Swarm, s': Swarm, i: nat, e: Effect, out: seq<Message>)
    requires task.Valid() && FromUp(task, s, s', i, e, out) && StartedApart(task, s0, s)
    ensures StartedApart(task, s0, s')
  {
    LinkStepStaysApart(task, s0, s, s', i);
  }

  lemma FromDownStaysApart(task: Task, source: seq<byte>, s0: Swarm, s: Swarm, s': Swarm, i: nat, e: Effect, out: seq<Message>)
    requires task.Valid() && Honest(task, source) && Inv(task, source, s) && FromDown(task, s, s', i, e, out)
    requires StartedApart(task, s0, s)
    ensures StartedApart(task, s0, s')
  {
    FromDownNodes(task, source, s, s', i, e, out);
    LinkStepStaysApart(task, s0, s, s', i);
  }

  lemma StepStaysApart(task: Task, source: seq<byte>, s0: Swarm, s: Swarm, s': Swarm)
    requires task.Valid() && Honest(task, source) && Inv(task, source, s) && Next(task, s, s') && StartedApart(task, s0, s)
    ensures StartedApart(task, s0, s')
  {
    if i, u :| Dial(task, s, s', i, u) {
      DialStaysApart(task, source, s0, s, s', i, u);
    } else if i :| Accept(s, s', i) {
      AcceptStaysApart(task, s0, s, s', i);
    } else if i, e, out :| FromUp(task, s, s', i, e, out) {
      FromUpStaysApart(task, s0, s, s', i, e, out);
    } else {
      var i, e, out :| FromDown(task, s, s', i, e, out);
      FromDownStaysApart(task, source, s0, s, s', i, e, out);
    }
  }

  lemma {:induction false} RunStaysApart(task: Task, source: seq<byte>, run: nat -> Swarm, n: nat)
    requires task.Valid() && Honest(task, source) && Injective(task.hash) && Init(task, source, run(0)) && IsRun(task, run, n)
    ensures Inv(task, source, run(n)) && StartedApart(task, run(0), run(n))
  {
    RunOk(task, source, run, n);
    if n > 0 {
      RunStaysApart(task, source, run, n - 1);
      assert Next(task, run(n - 1), run(n - 1 + 1));
      StepStaysApart(task, source, run(0), run(n - 1), run(n));
    }
  }

  // An agent that has not connected yet can: node u is in reach.
  ghost predicate MayDial(task: Task, s: Swarm, i: nat, u: nat)
    requires task.Valid()
  {
    exists s' :: Dial(task, s, s', i, u)
  }

  lemma UnlinkedMayDial(task: Task, source: seq<byte>, s: Swarm, i: nat)
    requires task.Valid() && Inv(task, source, s) && i < |s.nodes| && i !in s.links
    ensures Complete(task, s.nodes[i]) || (i > 0 && MayDial(task, s, i, i - 1))
  {
    if !Complete(task, s.nodes[i]) { var s' := ConnectIsStep(task, source, s, i, []); }
  }

  // In every state of every run the walk from any node ends at a node that was
  // complete at the start, as the server is, or at an agent that has yet to
  // connect; either is as it was at the start.
  lemma PathsEnd(task: Task, source: seq<byte>, run: nat -> Swarm, n: nat, i: nat) returns (steps: nat)
    requires task.Valid() && Honest(task, source) && Injective(task.hash) && Init(task, source, run(0)) && IsRun(task, run, n)
    requires i < |run(0).nodes|
    ensures steps <= i && |run(n).nodes| == |run(0).nodes| && Walk(run(n), i, steps) <= i
    ensures forall m: nat :: m < steps ==> Walk(run(n), i, m + 1) < Walk(run(n), i, m)
    ensures var end := Walk(run(n), i, steps);
      && end !in run(n).links && run(n).nodes[end] == run(0).nodes[end]
      && (Complete(task, run(0).nodes[end]) || (end > 0 && MayDial(task, run(n), end, end - 1)))
  {
    RunStaysApart(task, source, run, n);
    steps := WalkEnds(task, source, run(n), i);
    UnlinkedMayDial(task, source, run(n), Walk(run(n), i, steps));
  }

  // When nothing is left to do, exactly the nodes that were complete at the
  // start have no upstream connection; the server is one of them.
  lemma PathsOfTheEnd(task: Task, source: seq<byte>, run: nat -> Swarm, n: nat, j: nat)
    requires task.Valid() && Honest(task, source) && Injective(task.hash) && Init(task, source, run(0)) && IsRun(task, run, n)
    requires Stuck(task, run(n)) && j < |run(0).nodes|
    ensures j !in run(n).links <==> Complete(task, run(0).nodes[j])
    ensures Complete(task, run(0).nodes[0])
  {
    RunStaysApart(task, source, run, n);
    if j !in run(n).links && !Complete(task, run(n).nodes[j]) {
      var s' := ConnectIsStep(task, source, run(n), j, []);
      assert Next(task, run(n), s');
    }
  }
}
