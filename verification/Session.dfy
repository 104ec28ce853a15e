// The download session: an object that its event loop updates in place, one
// message at a time. Its methods are proved to take the steps of Protocol.dfy.

module Sessions {
  import opened Options
  import opened Arith
  import opened Bytes
  import opened Pieces
  import opened Bitsets
  import opened Protocol
  import opened SessionProperties
  import opened Wire

  const MAX_OUR_REQUESTS := 5

  // Numbers of the wire format have 32 bits.
  predicate Fits(task: Task)
    requires task.Valid()
  {
    task.layout.pieceLen < WORD && task.layout.Pieces() <= WORD
  }

  // The key belongs to a block of the task.
  ghost predicate KeyOk(task: Task, key: nat)
    requires task.Valid()
  {
    && KeyPiece(key) < task.layout.Pieces()
    && KeyBegin(key) / task.layout.blockLen < task.layout.Blocks(KeyPiece(key))
  }

  lemma BlockKey(task: Task, piece: nat, block: nat)
    requires task.Valid() && Fits(task) && piece < task.layout.Pieces() && block < task.layout.Blocks(piece)
    ensures block * task.layout.blockLen < WORD
    ensures KeyOk(task, PackKey(piece, block * task.layout.blockLen))
    ensures (block * task.layout.blockLen) / task.layout.blockLen == block
  {
    var begin := block * task.layout.blockLen;
    PiecesTileFile(task.layout);
    DivUnique(begin, task.layout.blockLen, block);
    BlockCountCovers(begin, task.layout.PieceLength(piece), task.layout.blockLen);
    KeyRoundTrip(piece, begin);
  }

  class Peer {
    const address: string
    const client: bool
    var have: Option<set<nat>>
    var ourRequests: set<nat>
    var sent: seq<Message>
    var closed: bool

    constructor (address: string, client: bool)
      ensures this.address == address && this.client == client
      ensures have == Some({}) && ourRequests == {} && sent == [] && !closed
    {
      this.address := address;
      this.client := client;
      have := Some({});
      ourRequests := {};
      sent := [];
      closed := false;
    }

    ghost predicate Ok(task: Task)
      requires task.Valid()
      reads this
    {
      (have.Some? ==> InRange(task, have.value)) && forall key :: key in ourRequests ==> KeyOk(task, key)
    }

    method SendRequest(piece: nat, begin: nat, length: nat)
      requires begin < WORD
      modifies this`ourRequests, this`sent
      ensures ourRequests == old(ourRequests) + {PackKey(piece, begin)}
      ensures sent == old(sent) + [Request(piece, begin, length)]
    {
      ourRequests := ourRequests + {PackKey(piece, begin)};
      sent := sent + [Request(piece, begin, length)];
    }
  }

  // What a peer is told when piece a was finished: nothing if it is known to
  // have the piece.
  ghost function Notice(have: Option<set<nat>>, a: Option<nat>): seq<Message> {
    if a.Some? && have.Some? && a.value !in have.value then [Have(a.value)] else []
  }

  lemma OneRequest(task: Task, c: Core, have: set<nat>, k: nat, b: nat, c': Core)
    requires task.Valid() && Fits(task) && k < task.layout.Pieces() && b < task.layout.Blocks(k)
    requires MayChoose(c, have, k, b) && c' == Bump(task, c, k, b)
    ensures Requested(task, c, have, 1, [Request(k, b * task.layout.blockLen, RequestSize(task, k, b))], c')
  {
    BlockKey(task, k, b);
    var m := Request(k, b * task.layout.blockLen, RequestSize(task, k, b));
    assert AsksNext(task, c, have, m);
    assert Asks(task, Bump(task, c, k, b), have, [m][1..], c');
  }

  lemma BumpActive(task: Task, c: Core, k: nat, b: nat)
    requires task.Valid() && Accounts(task, c) && k in c.active && b < |c.active[k]| && c.active[k][b] >= 0
    ensures Accounts(task, Bump(task, c, k, b))
  {
    var c' := Bump(task, c, k, b);
    assert ActiveOk(task, c, k);
    forall j | j in c'.active ensures ActiveOk(task, c', j) {
      assert ActiveOk(task, c, j);
      if j == k { BumpKeepsCounts(c.active[k], task.layout.Blocks(k), b); }
    }
  }

  ghost predicate ChosenFrom(counts: seq<int>, b: nat, endGame: bool) {
    if endGame then LeastRequested(counts, b) else FirstUnrequested(counts, b)
  }

  ghost predicate NothingToChoose(counts: seq<int>, endGame: bool) {
    if endGame then forall i :: 0 <= i < |counts| ==> counts[i] < 0 else 0 !in counts
  }

  // One request was sent, for block b of the active piece k.
  ghost predicate Took(task: Task, c: Core, c': Core, k: nat, b: nat, endGame: bool, sent: seq<Message>, sent': seq<Message>)
    requires task.Valid()
  {
    && k < task.layout.Pieces() && b < task.layout.Blocks(k)
    && k in c.active && ChosenFrom(c.active[k], b, endGame) && c' == Bump(task, c, k, b)
    && sent' == sent + [Request(k, b * task.layout.blockLen, RequestSize(task, k, b))]
  }

  // The choice that was made among the active pieces is one that may be made.
  lemma ActiveRequest(task: Task, c: Core, c': Core, have: set<nat>, k: nat, b: nat, endGame: bool,
                      sent: seq<Message>, sent': seq<Message>) returns (out: seq<Message>)
    requires task.Valid() && Fits(task) && Accounts(task, c) && k in have && Took(task, c, c', k, b, endGame, sent, sent')
    requires endGame ==> !HasUnrequestedBlock(c, have) && !HasUnstartedPiece(c, have)
    ensures sent' == sent + out && Requested(task, c, have, 1, out, c')
  {
    assert ActiveOk(task, c, k);
    out := [Request(k, b * task.layout.blockLen, RequestSize(task, k, b))];
    OneRequest(task, c, have, k, b, c');
  }

  // A started piece without requests.
  ghost function Started(task: Task, c: Core, k: nat): Core
    requires task.Valid()
  {
    c.(active := c.active[k := seq(task.layout.Blocks(k), _ => 0)])
  }

  lemma StartedOk(task: Task, c: Core, k: nat)
    requires task.Valid() && Accounts(task, c) && k < task.layout.Pieces() && k !in c.pieces && k !in c.active
    ensures Accounts(task, Started(task, c, k))
  {
    var c' := Started(task, c, k);
    PieceHasBlock(task, k);
    assert c'.active[k][0] != -1;
    forall j | j in c'.active ensures ActiveOk(task, c', j) {
      if j != k { assert ActiveOk(task, c, j); }
    }
  }

  lemma FirstOfNewPiece(task: Task, c: Core, c': Core, have: set<nat>, k: nat, b: nat,
                        sent: seq<Message>, sent': seq<Message>) returns (out: seq<Message>)
    requires task.Valid() && Fits(task) && Accounts(task, c) && k in have && k !in c.pieces && k !in c.active
    requires Took(task, Started(task, c, k), c', k, b, false, sent, sent') && !HasUnrequestedBlock(c, have)
    ensures sent' == sent + out && Requested(task, c, have, 1, out, c')
  {
    out := [Request(k, b * task.layout.blockLen, RequestSize(task, k, b))];
    assert FirstUnrequested(Started(task, c, k).active[k], b);
    PieceHasBlock(task, k);
    assert Started(task, c, k).active[k][0] == 0;
    assert c'.active == Bump(task, c, k, b).active;
    OneRequest(task, c, have, k, b, c');
  }

  lemma NothingWanted(task: Task, c: Core, have: set<nat>)
    requires task.Valid() && Accounts(task, c) && !HasUnstartedPiece(c, have)
    requires forall j :: j in c.active && j in have ==> NothingToChoose(c.active[j], true)
    ensures !Wants(c, have) && forall j :: j in c.active ==> j !in have
  {
    forall j | j in c.active ensures j !in have {
      assert ActiveOk(task, c, j);
      if j in have {
        var b := FirstLeast(c.active[j]);
      }
    }
  }

  lemma StartedNotExhausted(task: Task, c: Core, k: nat)
    requires task.Valid() && k < task.layout.Pieces()
    ensures !NothingToChoose(Started(task, c, k).active[k], false)
  {
    PieceHasBlock(task, k);
    assert Started(task, c, k).active[k][0] == 0;
  }

  lemma AsksFirst(task: Task, c: Core, have: set<nat>, m: Message, rest: seq<Message>, c': Core)
    requires task.Valid() && m.Request? && AsksNext(task, c, have, m)
    requires Asks(task, Bump(task, c, m.piece, BlockOf(task, m)), have, rest, c')
    ensures Asks(task, c, have, [m] + rest, c')
  {
    assert ([m] + rest)[1..] == rest;
  }

  lemma HeadFirst(out: seq<Message>, more: seq<Message>)
    requires out != []
    ensures out + more == [out[0]] + (out[1..] + more)
  {
    assert out == [out[0]] + out[1..];
  }

  lemma AsksRest(task: Task, c: Core, have: set<nat>, out: seq<Message>, c': Core)
    requires task.Valid() && Asks(task, c, have, out, c') && out != []
    ensures out[0].Request? && AsksNext(task, c, have, out[0])
    ensures Asks(task, Bump(task, c, out[0].piece, BlockOf(task, out[0])), have, out[1..], c')
  {
  }

  lemma {:induction false} AsksConcat(task: Task, c: Core, c1: Core, c2: Core, have: set<nat>,
                                      out: seq<Message>, more: seq<Message>)
    requires task.Valid() && Asks(task, c, have, out, c1) && Asks(task, c1, have, more, c2)
    ensures Asks(task, c, have, out + more, c2)
    decreases out
  {
    if out == [] {
      assert [] + more == more;
    } else {
      var m := out[0];
      AsksRest(task, c, have, out, c1);
      AsksConcat(task, Bump(task, c, m.piece, BlockOf(task, m)), c1, c2, have, out[1..], more);
      AsksFirst(task, c, have, m, out[1..] + more, c2);
      HeadFirst(out, more);
    }
  }

  lemma InOrder(sent: seq<Message>, out: seq<Message>, more: seq<Message>)
    ensures (sent + out) + more == sent + (out + more)
  {
  }

  lemma RequestedMore(task: Task, c: Core, c1: Core, c2: Core, have: set<nat>, times: nat, out: seq<Message>, more: seq<Message>)
    requires task.Valid() && Accounts(task, c) && InRange(task, have)
    requires Requested(task, c, have, times, out, c1) && Requested(task, c1, have, 1, more, c2)
    ensures Requested(task, c, have, times + 1, out + more, c2)
  {
    RequestedKeeps(task, c, have, times, out, c1);
    if Wants(c, have) { AsksConcat(task, c, c1, c2, have, out, more); }
  }

  // A write, the record that follows it and the request that follows both.
  ghost predicate PieceSteps(task: Task, c: Core, have: set<nat>, k: nat, begin: nat, data: seq<byte>, disk: Disk,
                             c1: Core, ok: bool, r: Recorded, c2: Core, out: seq<Message>)
    requires task.Valid() && k < task.layout.Pieces()
  {
    && ok == Written(c.content, task.Start(k) + begin, data, disk).1
    && (!ok ==> c1 == Stored(task, c, k, begin, data, disk) && r == Ignored)
    && (ok ==> (c1, r) == Record(task, Stored(task, c, k, begin, data, disk), k, begin, |data|, disk))
    && if ok && r != OutsidePiece then Requested(task, c1, have, 1, out, c2) else c2 == c1 && out == []
  }

  lemma PieceHandled(task: Task, c: Core, have: set<nat>, k: nat, begin: nat, data: seq<byte>, disk: Disk,
                     c1: Core, ok: bool, r: Recorded, c2: Core, out: seq<Message>)
    requires task.Valid() && k !in c.pieces && !PieceRefused(task, k, begin, |data|)
    requires PieceSteps(task, c, have, k, begin, data, disk, c1, ok, r, c2, out)
    ensures HandlesPiece(task, c, Some(have), k, begin, data, disk,
      Effect(c2, Some(have), if r == Good then Some(k) else None, r == Bad,
             if !ok then Closed else if r == OutsidePiece then Crashed else Continue), out)
  {
  }

  method CheckPieces(task: Task, content: seq<byte>) returns (good: nat, goodBits: set<nat>)
    requires task.Valid()
    ensures goodBits == GoodPieces(task, content) && good == |goodBits|
  {
    good, goodBits := 0, {};
    for i := 0 to task.layout.Pieces()
      invariant goodBits == set k: nat | k in Range(i) && task.hash(PieceBytes(task, content, k)) == task.sums[k]
      invariant good == |goodBits|
    {
      if task.hash(PieceBytes(task, content, i)) == task.sums[i] {
        good := good + 1;
        goodBits := goodBits + {i};
      }
    }
  }

  // Every block that a key stands for is counted once less, unless it is
  // stored or was not counted at all; nothing else changes.
  ghost predicate ForgetsAll(task: Task, c: Core, c': Core, keys: set<nat>)
    requires task.Valid()
  {
    && c' == c.(active := c'.active) && c'.active.Keys == c.active.Keys
    && forall k :: k in c.active ==> ForgetsBlocks(task, c.active[k], c'.active[k], k, keys)
  }

  ghost predicate ForgetsBlocks(task: Task, counts: seq<int>, counts': seq<int>, k: nat, keys: set<nat>)
    requires task.Valid()
  {
    && |counts'| == |counts|
    && forall b: nat :: b < |counts| ==>
      counts'[b] == LessRequested(counts[b], |KeysOf(task, keys, k, b)|)
  }

  function LessRequested(count: int, n: nat): int {
    if count <= 0 then count else if n < count then count - n else 0
  }

  // The keys that stand for block b of piece k.
  ghost function KeysOf(task: Task, keys: set<nat>, k: nat, b: nat): set<nat>
    requires task.Valid()
  {
    set key | key in keys && KeyPiece(key) == k && KeyBegin(key) / task.layout.blockLen == b
  }

  lemma KeyBlock(task: Task, c: Core, key: nat)
    requires task.Valid() && Accounts(task, c) && KeyOk(task, key)
    ensures KeyPiece(key) in c.active ==> KeyBegin(key) / task.layout.blockLen < |c.active[KeyPiece(key)]|
  {
    if KeyPiece(key) in c.active { assert ActiveOk(task, c, KeyPiece(key)); }
  }

  lemma OneMoreKey(task: Task, done: set<nat>, key: nat, k: nat, b: nat)
    requires task.Valid() && key !in done
    ensures |KeysOf(task, done + {key}, k, b)|
      == |KeysOf(task, done, k, b)| + if KeyPiece(key) == k && KeyBegin(key) / task.layout.blockLen == b then 1 else 0
  {
    if KeyPiece(key) == k && KeyBegin(key) / task.layout.blockLen == b {
      assert KeysOf(task, done + {key}, k, b) == KeysOf(task, done, k, b) + {key};
    } else {
      assert KeysOf(task, done + {key}, k, b) == KeysOf(task, done, k, b);
    }
  }

  lemma ForgetsSameLength(task: Task, c: Core, c1: Core, done: set<nat>, key: nat)
    requires task.Valid() && ForgetsAll(task, c, c1, done)
    ensures KeyPiece(key) in c.active <==> KeyPiece(key) in c1.active
    ensures KeyPiece(key) in c.active ==> |c1.active[KeyPiece(key)]| == |c.active[KeyPiece(key)]|
  {
    if KeyPiece(key) in c.active {
      assert KeyPiece(key) in c1.active.Keys;
      assert ForgetsBlocks(task, c.active[KeyPiece(key)], c1.active[KeyPiece(key)], KeyPiece(key), done);
    }
  }

  lemma ForgetsOneMore(task: Task, c: Core, c1: Core, done: set<nat>, key: nat)
    requires task.Valid() && ForgetsAll(task, c, c1, done) && key !in done
    requires KeyPiece(key) in c.active ==> KeyBegin(key) / task.layout.blockLen < |c.active[KeyPiece(key)]|
    ensures ForgetsAll(task, c, Forget(c1, KeyPiece(key), KeyBegin(key) / task.layout.blockLen), done + {key})
  {
    var piece, block := KeyPiece(key), KeyBegin(key) / task.layout.blockLen;
    var c2 := Forget(c1, piece, block);
    forall k | k in c.active ensures ForgetsBlocks(task, c.active[k], c2.active[k], k, done + {key}) {
      assert ForgetsBlocks(task, c.active[k], c1.active[k], k, done);
      forall b: nat | b < |c.active[k]|
        ensures c2.active[k][b] == LessRequested(c.active[k][b], |KeysOf(task, done + {key}, k, b)|)
      {
        OneMoreKey(task, done, key, k, b);
        assert c1.active[k][b] == LessRequested(c.active[k][b], |KeysOf(task, done, k, b)|);
      }
    }
  }

  lemma OneKey(task: Task, k: nat, b: nat, key: nat, j: nat, i: nat)
    requires task.Valid() && Fits(task) && k < task.layout.Pieces() && b < task.layout.Blocks(k)
    requires key == k * WORD + b * task.layout.blockLen
    ensures |KeysOf(task, {key}, j, i)| == if j == k && i == b then 1 else 0
  {
    BlockKey(task, k, b);
    KeyRoundTrip(k, b * task.layout.blockLen);
    OneMoreKey(task, {}, key, j, i);
    assert {} + {key} == {key};
    assert KeysOf(task, {}, j, i) == {};
  }

  // One key lowers the count of its block by one, unless it is not above zero,
  // and no other count.
  lemma OneKeyForgotten(task: Task, c: Core, c': Core, k: nat, b: nat, key: nat, j: nat, i: nat)
    requires task.Valid() && Fits(task) && Accounts(task, c) && k in c.active && b < |c.active[k]|
    requires key == k * WORD + b * task.layout.blockLen && ForgetsAll(task, c, c', {key})
    requires j in c.active && i < |c.active[j]|
    ensures j in c'.active && i < |c'.active[j]|
    ensures c'.active[j][i] == if j == k && i == b && c.active[k][b] > 0 then c.active[k][b] - 1 else c.active[j][i]
  {
    assert ActiveOk(task, c, k);
    OneKey(task, k, b, key, j, i);
    assert j in c'.active.Keys;
    assert ForgetsBlocks(task, c.active[j], c'.active[j], j, {key});
  }

  class Session {
    const task: Task
    var pieceSet: set<nat>
    var goodPieces: nat
    var downloaded: nat
    var activePieces: map<nat, ActivePiece>
    var content: seq<byte>
    var deploys: nat
    var peers: map<string, Peer>

    ghost function View(): Core
      reads this, activePieces.Values
    {
      Core(pieceSet, map k | k in activePieces :: activePieces[k].downloaderCount,
           content, goodPieces, downloaded, deploys)
    }

    ghost predicate Separate()
      reads this
    {
      forall j, k :: j in activePieces && k in activePieces && j != k ==> activePieces[j] != activePieces[k]
    }

    ghost predicate PeersOk()
      requires task.Valid()
      reads this, peers.Values
    {
      forall q :: q in peers.Values ==> q.Ok(task)
    }

    ghost predicate Valid()
      reads this, activePieces.Values, peers.Values
    {
      && task.Valid() && Fits(task)
      && Separate()
      && Accounts(task, View())
      && (forall a :: a in peers ==> peers[a].address == a)
      && PeersOk()
    }

    // A client starts with the pieces that it found good on disk and with an
    // empty piece set otherwise.
    constructor Client(task: Task, content: seq<byte>, found: bool)
      requires task.Valid() && Fits(task) && |content| == task.layout.size
      ensures Valid() && this.task == task && this.content == content && peers == map[] && activePieces == map[]
      ensures deploys == 0 && downloaded == 0 && Verified(task, View())
      ensures pieceSet == if found then GoodPieces(task, content) else {}
    {
      this.task := task;
      this.content := content;
      activePieces := map[];
      deploys, downloaded := 0, 0;
      peers := map[];
      goodPieces, pieceSet := 0, {};
      new;
      if found {
        goodPieces, pieceSet := CheckPieces(task, content);
      }
      assert View().active == map[];
    }

    // The server claims every piece: the digests of the task are those of its files.
    constructor Server(task: Task, content: seq<byte>)
      requires task.Valid() && Fits(task) && DigestsOf(task, content)
      ensures Valid() && this.task == task && this.content == content && peers == map[] && activePieces == map[]
      ensures deploys == 0 && downloaded == 0 && Verified(task, View()) && pieceSet == Range(task.layout.Pieces())
    {
      this.task := task;
      this.content := content;
      activePieces := map[];
      deploys, downloaded := 0, 0;
      peers := map[];
      goodPieces := task.layout.Pieces();
      pieceSet := {};
      new;
      for index := 0 to task.layout.Pieces()
        invariant pieceSet == Range(index)
        invariant this.task == task && this.content == content && activePieces == map[] && deploys == 0 && downloaded == 0
        invariant peers == map[] && goodPieces == task.layout.Pieces()
      {
        pieceSet := pieceSet + {index};
      }
      RangeCard(task.layout.Pieces());
      assert View().active == map[];
    }

    // A new connection: the peer is told what is held here.
    method AddPeer(address: string, client: bool) returns (p: Peer)
      requires Valid()
      modifies this`peers
      ensures fresh(p) && peers == old(peers)[address := p] && Valid() && p.Ok(task) && View() == old(View())
      ensures p.client == client && p.have == Some({}) && p.ourRequests == {} && p.sent == [Bitfield(pieceSet)]
    {
      ghost var c := View();
      p := new Peer(address, client);
      peers := peers[address := p];
      p.sent := [Bitfield(pieceSet)];
      assert View() == c;
    }

    // ---- Choosing and requesting a block ----

    method CheckRange(p: Peer, start: nat, end: nat) returns (piece: int)
      requires Valid() && p.have.Some? && end <= task.layout.Pieces()
      ensures piece != -1 ==> 0 <= piece && piece in p.have.value && piece !in pieceSet && piece !in activePieces
      ensures piece == -1 ==> forall i :: start <= i < end && i in p.have.value ==> i in pieceSet || i in activePieces
    {
      var i := start;
      while i < end
        invariant start <= i
        invariant forall j :: start <= j < i && j < end && j in p.have.value ==> j in pieceSet || j in activePieces
      {
        if i !in pieceSet && i in p.have.value {
          if i !in activePieces {
            return i;
          }
        }
        i := i + 1;
      }
      return -1;
    }

    // The starting point is chosen at random.
    method ChoosePiece(p: Peer) returns (piece: int)
      requires Valid() && p.have.Some? && InRange(task, p.have.value)
      ensures piece != -1 ==> 0 <= piece && piece in p.have.value && piece !in pieceSet && piece !in activePieces
      ensures piece == -1 ==> !HasUnstartedPiece(View(), p.have.value)
    {
      var n := task.layout.Pieces();
      PiecesTileFile(task.layout);
      assert 0 < n;
      var start: nat :| start < n;
      piece := CheckRange(p, start, n);
      if piece == -1 {
        piece := CheckRange(p, 0, start);
      }
    }

    method RequestBlockImp(p: Peer, piece: nat, block: nat)
      requires task.Valid() && piece < task.layout.Pieces() && block < task.layout.Blocks(piece)
      requires block * task.layout.blockLen < WORD
      modifies p`ourRequests, p`sent
      ensures p.sent == old(p.sent) + [Request(piece, block * task.layout.blockLen, RequestSize(task, piece, block))]
      ensures p.ourRequests == old(p.ourRequests) + {PackKey(piece, block * task.layout.blockLen)}
    {
      RequestIsPositive(task, piece, block);
      var begin := block * task.layout.blockLen;
      var length := task.layout.blockLen;
      if piece == task.layout.Pieces() - 1 {
        var left := CountPieces(task.layout.size, task.layout.pieceLen).1 - begin;
        if left < length {
          length := left;
        }
      }
      p.SendRequest(piece, begin, length);
    }

    // Picks a block of the piece and sends the request for it.
    method RequestChosen(p: Peer, v: ActivePiece, piece: nat, endGame: bool) returns (eof: bool, ghost b: nat)
      requires task.Valid() && Fits(task) && piece < task.layout.Pieces() && p.Ok(task)
      requires |v.downloaderCount| == task.layout.Blocks(piece)
      modifies v`downloaderCount, p`ourRequests, p`sent
      ensures p.Ok(task)
      ensures eof ==> v.downloaderCount == old(v.downloaderCount) && p.sent == old(p.sent)
      ensures eof ==> NothingToChoose(v.downloaderCount, endGame)
      ensures !eof ==> b < task.layout.Blocks(piece)
      ensures !eof ==> p.sent == old(p.sent) + [Request(piece, b * task.layout.blockLen, RequestSize(task, piece, b))]
      ensures !eof ==> ChosenFrom(old(v.downloaderCount), b, endGame)
      ensures !eof ==> v.downloaderCount == old(v.downloaderCount)[b := old(v.downloaderCount[b]) + 1]
    {
      var block := v.ChooseBlockToDownload(endGame);
      b := 0;
      if block >= 0 {
        b := block;
        BlockKey(task, piece, block);
        RequestBlockImp(p, piece, block);
        eof := false;
      } else {
        eof := true;
      }
    }

    // Requests one block of an active piece, or reports that there is none to request.
    method RequestBlock2(p: Peer, piece: nat, endGame: bool) returns (eof: bool, ghost b: nat)
      requires Valid() && p.Ok(task) && piece in activePieces
      modifies {activePieces[piece]}`downloaderCount, p`ourRequests, p`sent
      ensures Valid() && p.Ok(task)
      ensures eof ==> View() == old(View()) && p.sent == old(p.sent)
      ensures eof ==> NothingToChoose(activePieces[piece].downloaderCount, endGame)
      ensures !eof ==> Took(task, old(View()), View(), piece, b, endGame, old(p.sent), p.sent)
    {
      ghost var c := View();
      assert ActiveOk(task, c, piece);
      eof, b := RequestChosen(p, activePieces[piece], piece, endGame);
      if eof {
        assert View().active == c.active;
      } else {
        assert View().active == Bump(task, c, piece, b).active;
        BumpActive(task, c, piece, b);
      }
    }

    // The loop over the active pieces, in whatever order the map gives them.
    method RequestActive(p: Peer, endGame: bool) returns (found: bool, eof: bool, ghost k: nat, ghost b: nat)
      requires Valid() && p.have.Some? && p.Ok(task)
      modifies activePieces.Values`downloaderCount, p`ourRequests, p`sent
      ensures Valid() && p.Ok(task)
      ensures !found ==> View() == old(View()) && p.sent == old(p.sent)
      ensures !found ==> forall j :: j in activePieces && j in p.have.value ==>
        NothingToChoose(activePieces[j].downloaderCount, endGame)
      ensures !found && eof ==> exists j :: j in activePieces && j in p.have.value
      ensures found ==> !eof && k in p.have.value && Took(task, old(View()), View(), k, b, endGame, old(p.sent), p.sent)
    {
      k, b := 0, 0;
      eof := false;
      ghost var c := View();
      var todo := activePieces.Keys;
      while todo != {}
        invariant todo <= activePieces.Keys
        invariant View() == c && Valid() && p.Ok(task) && p.sent == old(p.sent)
        invariant forall j :: j in activePieces.Keys - todo && j in p.have.value ==>
          NothingToChoose(activePieces[j].downloaderCount, endGame)
        invariant eof ==> exists j :: j in activePieces && j in p.have.value
        decreases todo
      {
        var j :| j in todo;
        todo := todo - {j};
        if j in p.have.value {
          k := j;
          eof, b := RequestBlock2(p, j, endGame);
          if !eof {
            return true, false, k, b;
          }
        }
      }
      return false, eof, k, b;
    }

    method StartPiece(piece: nat)
      requires Valid() && piece < task.layout.Pieces() && piece !in pieceSet && piece !in activePieces
      modifies this`activePieces
      ensures Valid() && View() == Started(task, old(View()), piece) && piece in activePieces
      ensures activePieces.Keys == old(activePieces.Keys) + {piece} && fresh(activePieces[piece])
      ensures activePieces.Values <= old(activePieces.Values) + {activePieces[piece]}
    {
      ghost var c := View();
      var v := new ActivePiece(task.layout.PieceLength(piece), task.layout.blockLen);
      activePieces := activePieces[piece := v];
      assert View().active == Started(task, c, piece).active;
      StartedOk(task, c, piece);
    }

    method RequestNewPiece(p: Peer, piece: nat) returns (eof: bool, ghost out: seq<Message>)
      requires Valid() && p.have.Some? && p.Ok(task) && !HasUnrequestedBlock(View(), p.have.value)
      requires piece in p.have.value && piece !in pieceSet && piece !in activePieces
      modifies this`activePieces, p`ourRequests, p`sent
      ensures Valid() && p.Ok(task) && !eof
      ensures Requested(task, old(View()), p.have.value, 1, out, View())
      ensures p.sent == old(p.sent) + out
      ensures fresh(activePieces.Values - old(activePieces.Values))
    {
      ghost var c, sent := View(), p.sent;
      StartPiece(piece);
      ghost var b;
      eof, b := RequestBlock2(p, piece, false);
      StartedNotExhausted(task, c, piece);
      out := FirstOfNewPiece(task, c, View(), p.have.value, piece, b, sent, p.sent);
    }

    // One request goes to a peer that has a piece which is missing here, and
    // none to any other peer, whatever the order of the map and the random start.
    method RequestBlock(p: Peer) returns (eof: bool, ghost out: seq<Message>)
      requires Valid() && p.have.Some? && p.Ok(task)
      modifies this`activePieces, activePieces.Values`downloaderCount, p`ourRequests, p`sent
      ensures Valid() && p.Ok(task) && !eof
      ensures Requested(task, old(View()), p.have.value, 1, out, View())
      ensures p.sent == old(p.sent) + out
      ensures fresh(activePieces.Values - old(activePieces.Values))
    {
      ghost var c, sent := View(), p.sent;
      var found;
      ghost var k, b;
      found, eof, k, b := RequestActive(p, false);
      if found {
        out := ActiveRequest(task, c, View(), p.have.value, k, b, false, sent, p.sent);
        return;
      }
      assert !HasUnrequestedBlock(c, p.have.value);
      var piece := ChoosePiece(p);
      if piece < 0 {
        eof, out := RequestEndGame(p);
      } else {
        eof, out := RequestNewPiece(p, piece);
      }
    }

    method RequestEndGame(p: Peer) returns (eof: bool, ghost out: seq<Message>)
      requires Valid() && p.have.Some? && p.Ok(task)
      requires !HasUnrequestedBlock(View(), p.have.value) && !HasUnstartedPiece(View(), p.have.value)
      modifies activePieces.Values`downloaderCount, p`ourRequests, p`sent
      ensures Valid() && p.Ok(task) && !eof
      ensures Requested(task, old(View()), p.have.value, 1, out, View())
      ensures p.sent == old(p.sent) + out
    {
      ghost var c, sent := View(), p.sent;
      out := [];
      var found;
      ghost var k, b;
      found, eof, k, b := RequestActive(p, true);
      if found {
        out := ActiveRequest(task, c, View(), p.have.value, k, b, true, sent, p.sent);
      } else {
        NothingWanted(task, c, p.have.value);
      }
    }

    method RequestBlocks(p: Peer, times: nat) returns (ghost out: seq<Message>)
      requires Valid() && p.have.Some? && p.Ok(task)
      modifies this`activePieces, activePieces.Values`downloaderCount, p`ourRequests, p`sent
      ensures Valid() && p.Ok(task)
      ensures Requested(task, old(View()), p.have.value, times, out, View())
      ensures p.sent == old(p.sent) + out
      ensures fresh(activePieces.Values - old(activePieces.Values))
    {
      ghost var c := View();
      out := [];
      for i := 0 to times
        invariant Valid() && p.Ok(task) && fresh(activePieces.Values - old(activePieces.Values))
        invariant Requested(task, c, p.have.value, i, out, View()) && p.sent == old(p.sent) + out
      {
        ghost var c1 := View();
        var eof;
        ghost var more;
        eof, more := RequestBlock(p);
        RequestedMore(task, c, c1, View(), p.have.value, i, out, more);
        InOrder(old(p.sent), out, more);
        out := out + more;
      }
    }

    // ---- Forgetting requests ----

    // A request for the block is not counted any more.
    method RemoveRequest(piece: nat, block: nat)
      requires Valid() && (piece in activePieces ==> block < |activePieces[piece].downloaderCount|)
      modifies activePieces.Values`downloaderCount
      ensures Valid() && View() == Forget(old(View()), piece, block)
    {
      ForgetKeeps(task, View(), piece, block);
      if piece in activePieces {
        CountOneLess(piece, block);
      }
    }

    method CountOneLess(piece: nat, block: nat)
      requires Separate() && piece in activePieces && block < |activePieces[piece].downloaderCount|
      modifies {activePieces[piece]}`downloaderCount
      ensures View() == Forget(old(View()), piece, block)
    {
      ghost var c := View();
      var v := activePieces[piece];
      if v.downloaderCount[block] > 0 {
        v.downloaderCount := v.downloaderCount[block := v.downloaderCount[block] - 1];
      }
      assert View().active == Forget(c, piece, block).active;
    }

    // All requests to a peer are forgotten, in whatever order.
    method RemoveRequests(p: Peer)
      requires Valid() && p.Ok(task)
      modifies activePieces.Values`downloaderCount, p`ourRequests
      ensures Valid() && p.Ok(task) && p.ourRequests == {}
      ensures ForgetsAll(task, old(View()), View(), old(p.ourRequests))
    {
      ghost var c := View();
      var todo := p.ourRequests;
      ghost var done := {};
      while todo != {}
        invariant Valid() && p.Ok(task) && p.ourRequests == old(p.ourRequests)
        invariant todo !! done && todo + done == p.ourRequests
        invariant ForgetsAll(task, c, View(), done)
        decreases todo
      {
        var key :| key in todo;
        RemoveKey(key, c, done);
        todo, done := todo - {key}, done + {key};
      }
      assert done == p.ourRequests;
      ForgetKeys(p);
    }

    method RemoveKey(key: nat, ghost c: Core, ghost done: set<nat>)
      requires Valid() && KeyOk(task, key) && key !in done && ForgetsAll(task, c, View(), done)
      modifies activePieces.Values`downloaderCount
      ensures Valid() && ForgetsAll(task, c, View(), done + {key})
    {
      ghost var c1 := View();
      KeyBlock(task, c1, key);
      RemoveRequest(KeyPiece(key), KeyBegin(key) / task.layout.blockLen);
      ForgetsSameLength(task, c, c1, done, key);
      ForgetsOneMore(task, c, c1, done, key);
    }

    method ForgetKeys(p: Peer)
      requires Valid() && p.Ok(task)
      modifies p`ourRequests
      ensures Valid() && p.Ok(task) && p.ourRequests == {} && View() == old(View())
    {
      ghost var c := View();
      p.ourRequests := {};
      assert View() == c;
    }

    method ClosePeer(p: Peer)
      requires Valid() && p.Ok(task)
      modifies this`peers, activePieces.Values`downloaderCount, p`ourRequests, p`closed
      ensures Valid() && p.closed && p.ourRequests == {} && peers == old(peers) - {p.address}
      ensures ForgetsAll(task, old(View()), View(), old(p.ourRequests))
    {
      RemoveRequests(p);
      DropPeer(p);
    }

    method DropPeer(p: Peer)
      requires Valid()
      modifies this`peers, p`closed
      ensures Valid() && p.closed && peers == old(peers) - {p.address} && View() == old(View())
    {
      ghost var c := View();
      p.closed := true;
      peers := peers - {p.address};
      assert View() == c;
    }

    // ---- Storing a block ----

    // What the peers were sent since the old state: the notice of one piece.
    twostate predicate Notified(a: Option<nat>)
      reads this, peers.Values
    {
      peers == old(peers) && forall q :: q in old(peers.Values) ==> q.sent == old(q.sent) + Notice(old(q.have), a)
    }

    // Telling every peer that does not have the piece.
    method Announce(piece: nat)
      requires task.Valid() && PeersOk()
      modifies peers.Values`sent
      ensures Notified(Some(piece)) && PeersOk()
      ensures forall q :: q in peers.Values && q.have.Some? && piece !in q.have.value ==>
        q.sent == old(q.sent) + [Have(piece)]
      ensures forall q :: q in peers.Values && (q.have.None? || piece in q.have.value) ==> q.sent == old(q.sent)
    {
      var todo := peers.Values;
      while todo != {}
        invariant todo <= peers.Values
        invariant forall q :: q in todo ==> q.sent == old(q.sent)
        invariant forall q :: q in peers.Values - todo ==> q.sent == old(q.sent) + Notice(q.have, Some(piece))
        decreases todo
      {
        var q :| q in todo;
        todo := todo - {q};
        if q.have.Some? && piece !in q.have.value {
          q.sent := q.sent + [Have(piece)];
        }
      }
    }

    // The digest of the piece as it is stored, compared with the one of the task.
    method CheckPiece(piece: nat, disk: Disk) returns (good: bool)
      requires task.Valid() && piece < task.layout.Pieces()
      ensures good <==> !disk.ReadFails? && task.hash(PieceBytes(task, content, piece)) == task.sums[piece]
    {
      if disk.ReadFails? {
        return false;
      }
      var bytes := Window(content, task.Start(piece), task.layout.PieceLength(piece));
      good := task.hash(bytes) == task.sums[piece];
    }

    // All blocks of the piece are stored: it is accepted when it is good.
    method CheckAndAccept(piece: nat, disk: Disk) returns (r: Recorded)
      requires task.Valid() && piece < task.layout.Pieces()
      modifies this`pieceSet, this`goodPieces, this`deploys
      ensures (View(), r) == Checked(task, old(View()), piece, disk)
    {
      ghost var c := View();
      var good := CheckPiece(piece, disk);
      if !good {
        return Bad;
      }
      pieceSet := pieceSet + {piece};
      goodPieces := goodPieces + 1;
      if goodPieces == task.layout.Pieces() {
        deploys := deploys + 1;
      }
      assert View().active == c.active;
      return Good;
    }

    method MarkStored(piece: nat, block: nat, length: nat) returns (complete: bool)
      requires Separate() && piece in activePieces && block < |activePieces[piece].downloaderCount|
      modifies this`downloaded, {activePieces[piece]}`downloaderCount
      ensures var counts := old(View()).active[piece][block := -1];
        && View() == old(View()).(active := old(View()).active[piece := counts], downloaded := old(downloaded) + length)
        && (complete <==> AllStored(counts))
    {
      ghost var c := View();
      var v := activePieces[piece];
      var count := v.RecordBlock(block);
      downloaded := downloaded + length;
      assert View().active == c.active[piece := v.downloaderCount];
      complete := v.IsComplete();
    }

    method NoteBlock(piece: nat, block: nat, length: nat, disk: Disk) returns (r: Recorded)
      requires task.Valid() && Separate() && piece < task.layout.Pieces()
      requires piece in activePieces && block < |activePieces[piece].downloaderCount|
      modifies this`activePieces, this`downloaded, this`pieceSet, this`goodPieces, this`deploys
      modifies {activePieces[piece]}`downloaderCount
      ensures (View(), r) == Note(task, old(View()), piece, block, length, disk)
      ensures activePieces == old(activePieces) || activePieces == old(activePieces) - {piece}
    {
      ghost var c := View();
      var complete := MarkStored(piece, block, length);
      if !complete {
        return Partial;
      }
      activePieces := activePieces - {piece};
      assert View().active == c.active - {piece};
      r := CheckAndAccept(piece, disk);
    }

    method Record(piece: nat, begin: nat, length: nat, disk: Disk) returns (r: Recorded)
      requires task.Valid() && Separate() && piece < task.layout.Pieces()
      modifies this`activePieces, this`downloaded, this`pieceSet, this`goodPieces, this`deploys
      modifies activePieces.Values`downloaderCount
      ensures (View(), r) == Protocol.Record(task, old(View()), piece, begin, length, disk)
      ensures activePieces == old(activePieces) || activePieces == old(activePieces) - {piece}
    {
      if piece !in activePieces {
        return Ignored;
      }
      var block := begin / task.layout.blockLen;
      if block >= |activePieces[piece].downloaderCount| {
        return OutsidePiece;
      }
      r := NoteBlock(piece, block, length, disk);
    }

    method RecordSafely(piece: nat, begin: nat, length: nat, disk: Disk) returns (r: Recorded)
      requires Valid() && piece < task.layout.Pieces() && piece !in pieceSet
      modifies this`activePieces, this`downloaded, this`pieceSet, this`goodPieces, this`deploys
      modifies activePieces.Values`downloaderCount
      ensures Valid() && activePieces.Values <= old(activePieces.Values)
      ensures (View(), r) == Protocol.Record(task, old(View()), piece, begin, length, disk)
    {
      RecordKeepsAccounts(task, View(), piece, begin, length, disk);
      r := Record(piece, begin, length, disk);
    }

    // A bad piece costs the connection, a good one is announced.
    method Report(p: Peer, piece: nat, r: Recorded)
      requires Valid() && p.Ok(task)
      modifies p`closed, peers.Values`sent
      ensures View() == old(View()) && Valid() && p.Ok(task)
      ensures p.closed == (old(p.closed) || r == Bad)
      ensures Notified(if r == Good then Some(piece) else None)
    {
      ghost var c := View();
      if r == Bad {
        p.closed := true;
      } else if r == Good {
        Announce(piece);
      }
      assert View().active == c.active;
    }

    method ForgetKey(p: Peer, key: nat)
      requires Valid() && p.Ok(task)
      modifies p`ourRequests
      ensures View() == old(View()) && Valid() && p.Ok(task)
      ensures p.ourRequests == old(p.ourRequests) - {key}
    {
      ghost var c := View();
      p.ourRequests := p.ourRequests - {key};
      assert View().active == c.active;
    }

    method RecordAndReport(p: Peer, piece: nat, begin: nat, length: nat, disk: Disk) returns (r: Recorded)
      requires Valid() && p.Ok(task) && piece < task.layout.Pieces() && piece !in pieceSet
      modifies this`activePieces, this`downloaded, this`pieceSet, this`goodPieces, this`deploys
      modifies activePieces.Values`downloaderCount, p`closed, peers.Values`sent
      ensures Valid() && p.Ok(task) && activePieces.Values <= old(activePieces.Values)
      ensures (View(), r) == Protocol.Record(task, old(View()), piece, begin, length, disk)
      ensures p.closed == (old(p.closed) || r == Bad)
      ensures Notified(if r == Good then Some(piece) else None)
    {
      r := RecordSafely(piece, begin, length, disk);
      Report(p, piece, r);
    }

    method RecordBlock(p: Peer, piece: nat, begin: nat, length: nat, disk: Disk) returns (r: Recorded)
      requires Valid() && p.Ok(task) && piece < task.layout.Pieces() && piece !in pieceSet && begin < WORD
      modifies this`activePieces, this`downloaded, this`pieceSet, this`goodPieces, this`deploys
      modifies activePieces.Values`downloaderCount, p`ourRequests, p`closed, peers.Values`sent
      ensures Valid() && p.Ok(task)
      ensures (View(), r) == Protocol.Record(task, old(View()), piece, begin, length, disk)
      ensures p.ourRequests == old(p.ourRequests) - {PackKey(piece, begin)}
      ensures p.closed == (old(p.closed) || r == Bad)
      ensures Notified(if r == Good then Some(piece) else None)
      ensures forall q :: q in peers.Values && r == Good && q.have.Some? && piece !in q.have.value ==>
        q.sent == old(q.sent) + [Have(piece)]
      ensures forall q :: q in peers.Values && (r != Good || q.have.None? || piece in q.have.value) ==> q.sent == old(q.sent)
      ensures activePieces.Values <= old(activePieces.Values)
    {
      ForgetKey(p, PackKey(piece, begin));
      r := RecordAndReport(p, piece, begin, length, disk);
    }

    // ---- One message ----

    // What the peers were sent since the old state: the notice of one piece,
    // and out to the peer that the message came from.
    twostate predicate Delivered(p: Peer, a: Option<nat>, out: seq<Message>)
      reads this, peers.Values, p
    {
      && peers == old(peers)
      && p.sent == old(p.sent) + (if p in old(peers.Values) then Notice(old(p.have), a) else []) + out
      && forall q :: q in old(peers.Values) && q != p ==> q.sent == old(q.sent) + Notice(old(q.have), a)
    }

    // The write of a block to the files.
    method WriteAt(data: seq<byte>, off: nat, disk: Disk) returns (ok: bool)
      requires Valid()
      modifies this`content
      ensures (content, ok) == Written(old(content), off, data, disk)
      ensures View() == old(View()).(content := content) && Valid()
    {
      ghost var c := View();
      var (content', ok') := Written(content, off, data, disk);
      content, ok := content', ok';
      assert View() == c.(content := content');
      ContentKeeps(task, c, content');
    }

    method StoreBlock(p: Peer, k: nat, begin: nat, data: seq<byte>, disk: Disk) returns (ok: bool, r: Recorded)
      requires Valid() && p.Ok(task) && k < task.layout.Pieces() && k !in pieceSet && begin < WORD
      modifies this`content, this`activePieces, this`downloaded, this`pieceSet, this`goodPieces, this`deploys
      modifies activePieces.Values`downloaderCount, p`ourRequests, p`closed, peers.Values`sent
      ensures Valid() && p.Ok(task) && activePieces.Values <= old(activePieces.Values)
      ensures ok == Written(old(content), task.Start(k) + begin, data, disk).1
      ensures !ok ==> View() == Stored(task, old(View()), k, begin, data, disk) && r == Ignored
      ensures ok ==> (View(), r) == Protocol.Record(task, Stored(task, old(View()), k, begin, data, disk), k, begin, |data|, disk)
      ensures p.closed == (old(p.closed) || r == Bad)
      ensures Delivered(p, if r == Good then Some(k) else None, [])
    {
      r := Ignored;
      ok := WriteAt(data, task.Start(k) + begin, disk);
      if ok {
        r := RecordBlock(p, k, begin, |data|, disk);
      }
    }

    // The data of a block of a piece that is not held yet is stored, and the
    // next block is requested.
    method StoreAndRequest(p: Peer, k: nat, begin: nat, data: seq<byte>, disk: Disk)
      returns (ok: bool, r: Recorded, ghost c1: Core, ghost out: seq<Message>)
      requires Valid() && p.Ok(task) && p.have.Some? && begin < WORD && k < task.layout.Pieces() && k !in pieceSet
      modifies this`content, this`activePieces, this`downloaded, this`pieceSet, this`goodPieces, this`deploys
      modifies activePieces.Values`downloaderCount, p`ourRequests, p`closed, p`sent, peers.Values`sent
      ensures Valid() && p.Ok(task) && fresh(activePieces.Values - old(activePieces.Values))
      ensures PieceSteps(task, old(View()), p.have.value, k, begin, data, disk, c1, ok, r, View(), out)
      ensures Delivered(p, if r == Good then Some(k) else None, out) && p.closed == (old(p.closed) || r == Bad)
    {
      out := [];
      ok, r := StoreBlock(p, k, begin, data, disk);
      c1 := View();
      if ok && r != OutsidePiece {
        var eof;
        eof, out := RequestBlock(p);
      }
    }

    method TakePiece(p: Peer, k: nat, begin: nat, data: seq<byte>, disk: Disk)
      returns (o: Outcome, ghost a: Option<nat>, ghost hangup: bool, ghost out: seq<Message>)
      requires Valid() && p.Ok(task) && p.have.Some? && begin < WORD
      requires k !in pieceSet && !PieceRefused(task, k, begin, |data|)
      modifies this`content, this`activePieces, this`downloaded, this`pieceSet, this`goodPieces, this`deploys
      modifies activePieces.Values`downloaderCount, p`ourRequests, p`closed, p`sent, peers.Values`sent
      ensures Valid() && p.Ok(task) && fresh(activePieces.Values - old(activePieces.Values))
      ensures HandlesPiece(task, old(View()), p.have, k, begin, data, disk, Effect(View(), p.have, a, hangup, o), out)
      ensures Delivered(p, a, out) && p.closed == (old(p.closed) || hangup)
    {
      ghost var c := View();
      var ok, r;
      ghost var c1;
      ok, r, c1, out := StoreAndRequest(p, k, begin, data, disk);
      a, hangup := if r == Good then Some(k) else None, r == Bad;
      o := if !ok then Closed else if r == OutsidePiece then Crashed else Continue;
      PieceHandled(task, c, p.have.value, k, begin, data, disk, c1, ok, r, View(), out);
    }

    method OnHave(p: Peer, k: nat) returns (o: Outcome, ghost out: seq<Message>)
      requires Valid() && p.Ok(task)
      modifies this`activePieces, activePieces.Values`downloaderCount, p`have, p`ourRequests, p`sent
      ensures Valid() && p.Ok(task) && fresh(activePieces.Values - old(activePieces.Values))
      ensures HandlesHave(task, old(View()), p.client, old(p.have), k, Effect(View(), p.have, None, false, o), out)
      ensures p.sent == old(p.sent) + out
    {
      out := [];
      if p.have == None {
        return Crashed, out;
      }
      if k >= task.layout.Pieces() {
        return Closed, out;
      }
      Learn(p, Some(p.have.value + {k}));
      if !p.client {
        out := RequestBlocks(p, MAX_OUR_REQUESTS);
      }
      o := Continue;
    }

    method Learn(p: Peer, have: Option<set<nat>>)
      requires Valid() && p.Ok(task) && (have.Some? ==> InRange(task, have.value))
      modifies p`have
      ensures Valid() && p.Ok(task) && View() == old(View()) && p.have == have
    {
      ghost var c := View();
      p.have := have;
      assert View().active == c.active;
    }

    method OnBitfield(p: Peer, data: seq<byte>) returns (o: Outcome, ghost out: seq<Message>)
      requires Valid() && p.Ok(task)
      modifies this`activePieces, activePieces.Values`downloaderCount, p`have, p`ourRequests, p`sent
      ensures Valid() && p.Ok(task) && fresh(activePieces.Values - old(activePieces.Values))
      ensures if |data| != ByteCount(task.layout.Pieces()) || !SpareClear(data, task.layout.Pieces())
        then p.have == None && o == Closed && View() == old(View()) && out == []
        else HandlesBitfield(task, old(View()), p.client, Elements(data, task.layout.Pieces()),
                             Effect(View(), p.have, None, false, o), out)
      ensures p.sent == old(p.sent) + out
    {
      out := [];
      var bits := NewBitsetFromBytes(task.layout.Pieces(), data);
      if bits == null {
        Learn(p, None);
        return Closed, out;
      }
      Learn(p, Some(Elements(data, task.layout.Pieces())));
      if !p.client {
        var eof;
        eof, out := RequestBlock(p);
      }
      o := Continue;
    }

    method OnRequest(p: Peer, k: nat, begin: nat, length: nat, disk: Disk) returns (o: Outcome, ghost out: seq<Message>)
      requires Valid() && p.Ok(task)
      modifies p`sent
      ensures View() == old(View()) && Valid() && p.Ok(task)
      ensures HandlesRequest(task, View(), p.have, k, begin, length, disk, Effect(View(), p.have, None, false, o), out)
      ensures p.sent == old(p.sent) + out
    {
      ghost var c := View();
      out := [];
      if p.have == None {
        return Crashed, out;
      }
      if k >= task.layout.Pieces() || k !in pieceSet {
        return Closed, out;
      }
      if begin >= task.layout.pieceLen || begin + length > task.layout.pieceLen {
        return Closed, out;
      }
      if disk.ReadFails? {
        return Closed, out;
      }
      var data := Window(content, task.Start(k) + begin, length);
      p.sent := p.sent + [Piece(k, begin, data)];
      out := [Piece(k, begin, data)];
      assert View() == c;
      o := Continue;
    }

    // A block that passed the checks: it is ignored if the piece is held.
    method PieceInRange(p: Peer, k: nat, begin: nat, data: seq<byte>, disk: Disk)
      returns (o: Outcome, ghost a: Option<nat>, ghost hangup: bool, ghost out: seq<Message>)
      requires Valid() && p.Ok(task) && p.have.Some? && begin < WORD && !PieceRefused(task, k, begin, |data|)
      modifies this`content, this`activePieces, this`downloaded, this`pieceSet, this`goodPieces, this`deploys
      modifies activePieces.Values`downloaderCount, p`ourRequests, p`closed, p`sent, peers.Values`sent
      ensures Valid() && p.Ok(task) && fresh(activePieces.Values - old(activePieces.Values))
      ensures HandlesPiece(task, old(View()), p.have, k, begin, data, disk, Effect(View(), p.have, a, hangup, o), out)
      ensures Delivered(p, a, out) && p.closed == (old(p.closed) || hangup)
    {
      if k in pieceSet {
        a, hangup := None, false;
        var eof;
        eof, out := RequestBlock(p);
        o := Continue;
      } else {
        o, a, hangup, out := TakePiece(p, k, begin, data, disk);
      }
    }

    method OnPiece(p: Peer, k: nat, begin: nat, data: seq<byte>, disk: Disk)
      returns (o: Outcome, ghost a: Option<nat>, ghost hangup: bool, ghost out: seq<Message>)
      requires Valid() && p.Ok(task) && begin < WORD
      modifies this`content, this`activePieces, this`downloaded, this`pieceSet, this`goodPieces, this`deploys
      modifies activePieces.Values`downloaderCount, p`ourRequests, p`closed, p`sent, peers.Values`sent
      ensures Valid() && p.Ok(task) && fresh(activePieces.Values - old(activePieces.Values))
      ensures HandlesPiece(task, old(View()), p.have, k, begin, data, disk, Effect(View(), p.have, a, hangup, o), out)
      ensures Delivered(p, a, out) && p.closed == (old(p.closed) || hangup)
    {
      out, a, hangup := [], None, false;
      if p.have == None {
        return Crashed, a, hangup, out;
      }
      if k >= task.layout.Pieces() {
        return Closed, a, hangup, out;
      }
      if begin >= task.layout.pieceLen || begin + |data| > task.layout.pieceLen || |data| > task.maxBlockLen {
        return Closed, a, hangup, out;
      }
      o, a, hangup, out := PieceInRange(p, k, begin, data, disk);
    }

    method HaveMessage(p: Peer, message: seq<byte>, ghost disk: Disk) returns (o: Outcome, ghost out: seq<Message>)
      requires Valid() && p.Ok(task) && message != [] && message[0] == 0
      modifies this`activePieces, activePieces.Values`downloaderCount, p`have, p`ourRequests, p`sent
      ensures Valid() && p.Ok(task) && fresh(activePieces.Values - old(activePieces.Values))
      ensures Handles(task, old(View()), p.client, old(p.have), Parse(task.layout.Pieces(), message), disk,
                      Effect(View(), p.have, None, false, o), out)
      ensures Delivered(p, None, out)
    {
      out := [];
      if |message| != 5 {
        return Closed, out;
      }
      o, out := OnHave(p, BytesToUint32(message[1..5]));
    }

    method BitfieldMessage(p: Peer, message: seq<byte>, ghost disk: Disk) returns (o: Outcome, ghost out: seq<Message>)
      requires Valid() && p.Ok(task) && message != [] && message[0] == 1
      modifies this`activePieces, activePieces.Values`downloaderCount, p`have, p`ourRequests, p`sent
      ensures Valid() && p.Ok(task) && fresh(activePieces.Values - old(activePieces.Values))
      ensures Handles(task, old(View()), p.client, old(p.have), Parse(task.layout.Pieces(), message), disk,
                      Effect(View(), p.have, None, false, o), out)
      ensures Delivered(p, None, out)
    {
      o, out := OnBitfield(p, message[1..]);
    }

    method RequestMessage(p: Peer, message: seq<byte>, disk: Disk) returns (o: Outcome, ghost out: seq<Message>)
      requires Valid() && p.Ok(task) && message != [] && message[0] == 2
      modifies p`sent
      ensures Valid() && p.Ok(task)
      ensures Handles(task, old(View()), p.client, p.have, Parse(task.layout.Pieces(), message), disk,
                      Effect(View(), p.have, None, false, o), out)
      ensures Delivered(p, None, out)
    {
      out := [];
      if |message| != 13 {
        return Closed, out;
      }
      o, out := OnRequest(p, BytesToUint32(message[1..5]), BytesToUint32(message[5..9]), BytesToUint32(message[9..13]), disk);
    }

    method PieceMessage(p: Peer, message: seq<byte>, disk: Disk)
      returns (o: Outcome, ghost a: Option<nat>, ghost hangup: bool, ghost out: seq<Message>)
      requires Valid() && p.Ok(task) && message != [] && message[0] == 3
      modifies this`content, this`activePieces, this`downloaded, this`pieceSet, this`goodPieces, this`deploys
      modifies activePieces.Values`downloaderCount, p`ourRequests, p`closed, p`sent, peers.Values`sent
      ensures Valid() && p.Ok(task) && fresh(activePieces.Values - old(activePieces.Values))
      ensures Handles(task, old(View()), p.client, p.have, Parse(task.layout.Pieces(), message), disk,
                      Effect(View(), p.have, a, hangup, o), out)
      ensures Delivered(p, a, out) && p.closed == (old(p.closed) || hangup)
    {
      out, a, hangup := [], None, false;
      if |message| < 9 {
        return Closed, a, hangup, out;
      }
      WordBound(message[5..9]);
      o, a, hangup, out := OnPiece(p, BytesToUint32(message[1..5]), BytesToUint32(message[5..9]), message[9..], disk);
    }

    method OtherMessage(p: Peer, message: seq<byte>, disk: Disk) returns (o: Outcome, ghost out: seq<Message>)
      requires Valid() && p.Ok(task) && message != [] && message[0] != 3
      modifies this`activePieces, activePieces.Values`downloaderCount, p`have, p`ourRequests, p`sent
      ensures Valid() && p.Ok(task) && fresh(activePieces.Values - old(activePieces.Values))
      ensures Handles(task, old(View()), p.client, old(p.have), Parse(task.layout.Pieces(), message), disk,
                      Effect(View(), p.have, None, false, o), out)
      ensures Delivered(p, None, out)
    {
      out := [];
      if message[0] == 0 {
        o, out := HaveMessage(p, message, disk);
      } else if message[0] == 1 {
        o, out := BitfieldMessage(p, message, disk);
      } else if message[0] == 2 {
        o, out := RequestMessage(p, message, disk);
      } else {
        o := Closed;
      }
    }

    method Dispatch(p: Peer, message: seq<byte>, disk: Disk)
      returns (o: Outcome, ghost a: Option<nat>, ghost hangup: bool, ghost out: seq<Message>)
      requires Valid() && p.Ok(task) && message != []
      modifies this`content, this`activePieces, this`downloaded, this`pieceSet, this`goodPieces, this`deploys
      modifies activePieces.Values`downloaderCount, p`have, p`ourRequests, p`closed, p`sent, peers.Values`sent
      ensures Valid() && p.Ok(task) && fresh(activePieces.Values - old(activePieces.Values))
      ensures Handles(task, old(View()), p.client, old(p.have), Parse(task.layout.Pieces(), message), disk,
                      Effect(View(), p.have, a, hangup, o), out)
      ensures Delivered(p, a, out) && p.closed == (old(p.closed) || hangup)
    {
      a, hangup := None, false;
      if message[0] == 3 {
        o, a, hangup, out := PieceMessage(p, message, disk);
      } else {
        o, out := OtherMessage(p, message, disk);
      }
    }

    // The event loop hands over one message of a peer: the session takes the
    // step of the protocol, and sends exactly what the step says.
    method GeneralMessage(p: Peer, message: seq<byte>, disk: Disk)
      returns (o: Outcome, ghost a: Option<nat>, ghost hangup: bool, ghost out: seq<Message>)
      requires Valid() && p.Ok(task) && message != []
      modifies this`content, this`activePieces, this`downloaded, this`pieceSet, this`goodPieces, this`deploys
      modifies activePieces.Values`downloaderCount, p`have, p`ourRequests, p`closed, p`sent, peers.Values`sent
      ensures Valid() && p.Ok(task) && fresh(activePieces.Values - old(activePieces.Values))
      ensures Handles(task, old(View()), p.client, old(p.have), Parse(task.layout.Pieces(), message), disk,
                      Effect(View(), p.have, a, hangup, o), out)
      ensures Delivered(p, a, out) && p.closed == (old(p.closed) || hangup)
      ensures forall q :: q in peers.Values && q != p ==>
        q.sent == old(q.sent) + if a.Some? && q.have.Some? && a.value !in q.have.value then [Have(a.value)] else []
      ensures old(Verified(task, View())) ==> Verified(task, View()) && KeepsHeld(task, old(View()), View())
    {
      ghost var c, have := View(), p.have;
      o, a, hangup, out := Dispatch(p, message, disk);
      if Verified(task, c) {
        HandlesKeepsVerified(task, c, p.client, have, Parse(task.layout.Pieces(), message), disk,
                             Effect(View(), p.have, a, hangup, o), out);
      }
    }
  }
}
