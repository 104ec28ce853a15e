// What a session answers to each message, in terms of its state alone: which
// blocks it asks for and in which order, what it serves, and what it stores.

module Answers {
  import opened Options
  import opened Bytes
  import opened Pieces
  import opened Protocol
  import opened SessionProperties

  // ---- Requests ----

  // The counts of piece k, all zero when it is not started, with one request
  // more for block b.
  ghost function OneMore(task: Task, c: Core, k: nat, b: nat): seq<int>
    requires task.Valid()
  {
    if k in c.active && b < |c.active[k]| then c.active[k][b := c.active[k][b] + 1]
    else seq(task.layout.Blocks(k), i => if i == b then 1 else 0)
  }

  lemma BumpIsOneMore(task: Task, c: Core, have: set<nat>, k: nat, b: nat)
    requires task.Valid() && Accounts(task, c) && InRange(task, have) && MayChoose(c, have, k, b)
    ensures Bump(task, c, k, b) == c.(active := c.active[k := OneMore(task, c, k, b)])
  {
    ChoiceIsOpen(task, c, have, k, b);
    assert Bump(task, c, k, b).active[k] == OneMore(task, c, k, b);
  }

  // Of several requests the first is for a block of a piece that the peer has
  // and that is not held; its count goes up by one, and the others follow.
  lemma FirstRequest(task: Task, c: Core, have: set<nat>, times: nat, out: seq<Message>, c': Core)
    requires task.Valid() && Accounts(task, c) && InRange(task, have) && Requested(task, c, have, times, out, c')
    requires times > 0 && !(have <= c.pieces)
    ensures |out| == times && out[0].Request? && out[0].piece in have && out[0].piece !in c.pieces
    ensures out[0].piece < task.layout.Pieces() && out[0].begin == BlockOf(task, out[0]) * task.layout.blockLen
    ensures BlockOf(task, out[0]) < task.layout.Blocks(out[0].piece)
    ensures var c1 := c.(active := c.active[out[0].piece := OneMore(task, c, out[0].piece, BlockOf(task, out[0]))]);
      Accounts(task, c1) && Requested(task, c1, have, times - 1, out[1..], c') && (times == 1 ==> c' == c1)
  {
    var k, b := out[0].piece, BlockOf(task, out[0]);
    BumpKeeps(task, c, have, k, b);
    BumpIsOneMore(task, c, have, k, b);
  }

  // The bytes that are asked for are exactly those of the block.
  lemma RequestSpan(task: Task, c: Core, have: set<nat>, times: nat, out: seq<Message>, c': Core, x: nat)
    requires task.Valid() && Accounts(task, c) && InRange(task, have) && Requested(task, c, have, times, out, c')
    requires times > 0 && !(have <= c.pieces) && task.layout.Aligned()
    ensures out != [] && out[0].Request?
    ensures task.Start(out[0].piece) + out[0].begin <= x < task.Start(out[0].piece) + out[0].begin + out[0].length
      <==> x < task.layout.size && x / task.layout.pieceLen == out[0].piece
           && x % task.layout.pieceLen / task.layout.blockLen == BlockOf(task, out[0])
  {
    FirstRequest(task, c, have, times, out, c');
    BlockSpan(task.layout, out[0].piece, BlockOf(task, out[0]), x);
  }

  // An untouched block of a started piece comes first, and the first one of its piece.
  lemma UntouchedFirst(task: Task, c: Core, have: set<nat>, times: nat, out: seq<Message>, c': Core, j: nat)
    requires task.Valid() && Accounts(task, c) && InRange(task, have) && Requested(task, c, have, times, out, c')
    requires times > 0 && j in have && j in c.active && 0 in c.active[j]
    ensures out != [] && out[0].Request?
    ensures var k, b := out[0].piece, BlockOf(task, out[0]);
      && k in c.active && b < |c.active[k]| && c.active[k][b] == 0
      && (forall i :: 0 <= i < b ==> c.active[k][i] != 0)
      && (times == 1 ==> c'.active.Keys == c.active.Keys)
  {
    assert ActiveOk(task, c, j);
    FirstRequest(task, c, have, times, out, c');
  }

  // If there is none, a piece is started with its first block.
  lemma NewPieceNext(task: Task, c: Core, have: set<nat>, times: nat, out: seq<Message>, c': Core, j: nat)
    requires task.Valid() && Accounts(task, c) && InRange(task, have) && Requested(task, c, have, times, out, c')
    requires times > 0 && j in have && j !in c.pieces && j !in c.active
    requires forall i :: i in have && i in c.active ==> 0 !in c.active[i]
    ensures out != [] && out[0].Request? && out[0].piece !in c.active && out[0].begin == 0
    ensures times == 1 ==> c'.active.Keys == c.active.Keys + {out[0].piece}
  {
    FirstRequest(task, c, have, times, out, c');
  }

  // If there is none either, a block is asked for again: the first of those of
  // its piece that were asked for least.
  lemma LeastAskedLast(task: Task, c: Core, have: set<nat>, times: nat, out: seq<Message>, c': Core)
    requires task.Valid() && Accounts(task, c) && InRange(task, have) && Requested(task, c, have, times, out, c')
    requires times > 0 && !(have <= c.pieces)
    requires forall i :: i in have && i in c.active ==> 0 !in c.active[i]
    requires forall i :: i in have ==> i in c.pieces || i in c.active
    ensures out != [] && out[0].Request?
    ensures var k, b := out[0].piece, BlockOf(task, out[0]);
      && k in c.active && b < |c.active[k]| && c.active[k][b] > 0
      && (forall i :: 0 <= i < |c.active[k]| ==> c.active[k][i] == -1 || c.active[k][b] <= c.active[k][i])
      && (forall i :: 0 <= i < b ==> c.active[k][i] != c.active[k][b])
      && (times == 1 ==> c'.active.Keys == c.active.Keys)
  {
    FirstRequest(task, c, have, times, out, c');
    assert ActiveOk(task, c, out[0].piece);
  }

  // Forgetting a request takes back what asking for it did.
  lemma ForgetUndoesAsking(task: Task, c: Core, have: set<nat>, out: seq<Message>, c': Core)
    requires task.Valid() && Accounts(task, c) && InRange(task, have) && Requested(task, c, have, 1, out, c')
    requires !(have <= c.pieces)
    ensures out != [] && out[0].Request?
    ensures out[0].piece in c.active ==> Forget(c', out[0].piece, BlockOf(task, out[0])) == c
    ensures out[0].piece !in c.active ==>
      Forget(c', out[0].piece, BlockOf(task, out[0]))
        == c.(active := c.active[out[0].piece := seq(task.layout.Blocks(out[0].piece), _ => 0)])
  {
    FirstRequest(task, c, have, 1, out, c');
    var k, b := out[0].piece, BlockOf(task, out[0]);
    var back := Forget(c', k, b);
    if k in c.active {
      assert ActiveOk(task, c, k);
      assert back.active[k] == c.active[k];
      assert back.active == c.active;
    } else {
      assert back.active[k] == seq(task.layout.Blocks(k), _ => 0);
    }
  }

  // ---- What each message is answered ----

  // A HAVE is learned; an upstream peer with a missing piece gets five requests.
  lemma HaveAnswer(task: Task, c: Core, client: bool, have: set<nat>, k: nat, disk: Disk, e: Effect, out: seq<Message>)
    requires task.Valid() && Handles(task, c, client, Some(have), Decoded(Have(k)), disk, e, out)
    ensures k >= task.layout.Pieces() ==> e.outcome == Closed && out == [] && e.core == c && e.have == Some(have)
    ensures k < task.layout.Pieces() ==> e.outcome == Continue && e.have == Some(have + {k})
    ensures k < task.layout.Pieces() && !client && !(have + {k} <= c.pieces) ==>
      |out| == 5 && Requested(task, c, have + {k}, 5, out, e.core)
    ensures k < task.layout.Pieces() && (client || have + {k} <= c.pieces) ==> out == [] && e.core == c
  {
  }

  // A bitfield replaces what was known, and one request follows.
  lemma BitfieldAnswer(task: Task, c: Core, client: bool, have: Option<set<nat>>, s: set<nat>, disk: Disk,
                       e: Effect, out: seq<Message>)
    requires task.Valid() && Handles(task, c, client, have, Decoded(Bitfield(s)), disk, e, out)
    ensures e.outcome == Continue && e.have == Some(s)
    ensures !client && !(s <= c.pieces) ==> |out| == 1 && Requested(task, c, s, 1, out, e.core)
    ensures client || s <= c.pieces ==> out == [] && e.core == c
  {
  }

  // A request is answered exactly when it is for bytes of a held piece that can
  // be read, and then with these bytes.
  lemma RequestAnswer(task: Task, c: Core, client: bool, have: set<nat>, k: nat, begin: nat, length: nat, disk: Disk,
                      e: Effect, out: seq<Message>)
    requires task.Valid() && Handles(task, c, client, Some(have), Decoded(Request(k, begin, length)), disk, e, out)
    requires |c.content| == task.layout.size && InRange(task, c.pieces)
    ensures e.core == c && e.have == Some(have)
    ensures e.outcome == Continue
      <==> k in c.pieces && begin < task.layout.pieceLen && begin + length <= task.layout.pieceLen && disk != ReadFails
    ensures e.outcome != Continue ==> e.outcome == Closed && out == []
    ensures e.outcome == Continue ==>
      && |out| == 1 && out[0].Piece? && out[0].piece == k && out[0].begin == begin && |out[0].data| == length
      && forall i :: 0 <= i < length ==>
           out[0].data[i] == if task.Start(k) + begin + i < |c.content| then c.content[task.Start(k) + begin + i] else 0
  {
  }

  // A block that is refused, or of a held piece, stores nothing.
  lemma BlockNotStored(task: Task, c: Core, client: bool, have: set<nat>, k: nat, begin: nat, data: seq<byte>, disk: Disk,
                       e: Effect, out: seq<Message>)
    requires task.Valid() && Handles(task, c, client, Some(have), Decoded(Piece(k, begin, data)), disk, e, out)
    requires Accounts(task, c) && InRange(task, have)
    requires k in c.pieces || k >= task.layout.Pieces() || begin >= task.layout.pieceLen
      || begin + |data| > task.layout.pieceLen || |data| > task.maxBlockLen
    ensures e.announce == None && !e.hangup
    ensures e.outcome == Continue ==> OnlyAsked(task, c, e.core) && k in c.pieces
    ensures e.outcome == Continue
      <==> begin < task.layout.pieceLen && begin + |data| <= task.layout.pieceLen && |data| <= task.maxBlockLen
           && k < task.layout.Pieces()
    ensures e.outcome != Continue ==> e.core == c && out == [] && e.outcome == Closed
  {
    if k in c.pieces && !PieceRefused(task, k, begin, |data|) {
      RequestedKeeps(task, c, have, 1, out, e.core);
    }
  }

  // The block is the last one that is missing of piece k.
  ghost predicate LastMissing(c: Core, k: nat, b: nat) {
    k in c.active && forall i :: 0 <= i < |c.active[k]| && i != b ==> c.active[k][i] == -1
  }

  // The block lies inside its piece and is short enough.
  predicate Fits(task: Task, k: nat, begin: nat, length: nat)
    requires task.Valid()
  {
    && k < task.layout.Pieces() && begin < task.layout.pieceLen
    && begin + length <= task.layout.PieceLength(k) && length <= task.maxBlockLen
  }

  lemma WrittenInPiece(task: Task, content: seq<byte>, k: nat, begin: nat, data: seq<byte>)
    requires task.Valid() && |content| == task.layout.size && Fits(task, k, begin, |data|)
    ensures !PieceRefused(task, k, begin, |data|)
    ensures Written(content, task.Start(k) + begin, data, Healthy) == (Splice(content, task.Start(k) + begin, data), true)
  {
    PiecesTileFile(task.layout);
    PieceSpan(task.layout, k, 0);
  }

  lemma StoredWhen(counts: seq<int>, b: nat)
    requires b < |counts|
    ensures AllStored(counts[b := -1]) <==> forall i :: 0 <= i < |counts| && i != b ==> counts[i] == -1
  {
    var stored := counts[b := -1];
    if AllStored(stored) {
      forall i | 0 <= i < |counts| && i != b ensures counts[i] == -1 {
        assert stored[i] == -1;
      }
    }
  }

  // What is recorded before the next block is asked for.
  ghost predicate BlockRecorded(task: Task, c: Core, k: nat, b: nat, length: nat, content: seq<byte>, c2: Core, r: Recorded)
    requires task.Valid() && k < task.layout.Pieces()
  {
    && c2.content == content && c2.downloaded == c.downloaded + length
    && (r == Partial <==> !LastMissing(c, k, b))
    && (r == Good <==> LastMissing(c, k, b) && task.hash(PieceBytes(task, content, k)) == task.sums[k])
    && (r == Bad <==> LastMissing(c, k, b) && task.hash(PieceBytes(task, content, k)) != task.sums[k])
    && c2.pieces == (if r == Good then c.pieces + {k} else c.pieces)
    && (r == Partial ==> StoredBlock(c2, k, b))
  }

  lemma RecordedAnswer(task: Task, c: Core, k: nat, begin: nat, length: nat, content: seq<byte>)
    requires task.Valid() && Accounts(task, c) && k in c.active && begin / task.layout.blockLen < |c.active[k]|
    requires |content| == |c.content|
    ensures k < task.layout.Pieces() && k !in c.pieces
    ensures var (c2, r) := Record(task, c.(content := content), k, begin, length, Healthy);
      Accounts(task, c2) && BlockRecorded(task, c, k, begin / task.layout.blockLen, length, content, c2, r)
  {
    assert ActiveOk(task, c, k);
    ContentKeeps(task, c, content);
    StoredWhen(c.active[k], begin / task.layout.blockLen);
    RecordKeepsAccounts(task, c.(content := content), k, begin, length, Healthy);
  }

  lemma AskedAfter(task: Task, c: Core, have: set<nat>, out: seq<Message>, c': Core, k: nat)
    requires task.Valid() && Accounts(task, c) && InRange(task, have) && Requested(task, c, have, 1, out, c')
    ensures c'.content == c.content && c'.pieces == c.pieces && c'.downloaded == c.downloaded
    ensures k in c.pieces ==> k !in c'.active
    ensures k in c.active ==> k in c'.active && SameStored(c.active[k], c'.active[k])
  {
    RequestedKeeps(task, c, have, 1, out, c');
    if k in c'.active { assert ActiveOk(task, c', k); }
  }

  // What the session holds and does after block b of piece k, with content as
  // the new content: it is stored and counted, and not asked for any more. With
  // the last missing block the piece is held and announced if it has its digest,
  // and given up otherwise.
  ghost predicate BlockEffect(task: Task, c: Core, k: nat, b: nat, length: nat, content: seq<byte>, e: Effect)
    requires task.Valid() && k < task.layout.Pieces()
  {
    && e.outcome == Continue && e.core.content == content && e.core.downloaded == c.downloaded + length
    && if !LastMissing(c, k, b) then
         && e.core.pieces == c.pieces && e.announce == None && !e.hangup && StoredBlock(e.core, k, b)
       else if task.hash(PieceBytes(task, content, k)) == task.sums[k] then
         e.core.pieces == c.pieces + {k} && e.announce == Some(k) && !e.hangup && k !in e.core.active
       else e.core.pieces == c.pieces && e.announce == None && e.hangup
  }

  lemma HandledBlock(task: Task, c: Core, client: bool, have: set<nat>, k: nat, begin: nat, data: seq<byte>,
                     e: Effect, out: seq<Message>)
    requires task.Valid() && Handles(task, c, client, Some(have), Decoded(Piece(k, begin, data)), Healthy, e, out)
    requires |c.content| == task.layout.size && Fits(task, k, begin, |data|) && k !in c.pieces
    ensures var c1 := c.(content := Splice(c.content, task.Start(k) + begin, data));
      var (c2, r) := Record(task, c1, k, begin, |data|, Healthy);
      r != OutsidePiece ==>
        && Requested(task, c2, have, 1, out, e.core) && e.outcome == Continue
        && e.announce == (if r == Good then Some(k) else None) && e.hangup == (r == Bad)
  {
    WrittenInPiece(task, c.content, k, begin, data);
  }

  lemma AnsweredBlock(task: Task, c: Core, k: nat, b: nat, length: nat, content: seq<byte>, c2: Core, r: Recorded, e: Effect,
                      have: set<nat>, out: seq<Message>)
    requires task.Valid() && k < task.layout.Pieces() && BlockRecorded(task, c, k, b, length, content, c2, r)
    requires Accounts(task, c2) && InRange(task, have) && Requested(task, c2, have, 1, out, e.core)
    requires e.outcome == Continue && e.announce == (if r == Good then Some(k) else None) && e.hangup == (r == Bad)
    ensures BlockEffect(task, c, k, b, length, content, e)
  {
    AskedAfter(task, c2, have, out, e.core, k);
  }

  lemma BlockAnswer(task: Task, c: Core, client: bool, have: set<nat>, k: nat, begin: nat, data: seq<byte>,
                    e: Effect, out: seq<Message>)
    requires task.Valid() && Handles(task, c, client, Some(have), Decoded(Piece(k, begin, data)), Healthy, e, out)
    requires Accounts(task, c) && InRange(task, have) && Fits(task, k, begin, |data|)
    requires k in c.active && begin / task.layout.blockLen < |c.active[k]|
    ensures BlockEffect(task, c, k, begin / task.layout.blockLen, |data|, Splice(c.content, task.Start(k) + begin, data), e)
  {
    var content, b := Splice(c.content, task.Start(k) + begin, data), begin / task.layout.blockLen;
    RecordedAnswer(task, c, k, begin, |data|, content);
    HandledBlock(task, c, client, have, k, begin, data, e, out);
    var (c2, r) := Record(task, c.(content := content), k, begin, |data|, Healthy);
    AnsweredBlock(task, c, k, b, |data|, content, c2, r, e, have, out);
  }

  // A block of a piece that is neither held nor started is written to the files,
  // and nothing is noted of it.
  lemma UnstartedBlock(task: Task, c: Core, client: bool, have: set<nat>, k: nat, begin: nat, data: seq<byte>,
                       e: Effect, out: seq<Message>)
    requires task.Valid() && Handles(task, c, client, Some(have), Decoded(Piece(k, begin, data)), Healthy, e, out)
    requires Accounts(task, c) && InRange(task, have) && Fits(task, k, begin, |data|) && k !in c.pieces && k !in c.active
    ensures e.outcome == Continue && e.announce == None && !e.hangup
    ensures OnlyAsked(task, c.(content := Splice(c.content, task.Start(k) + begin, data)), e.core)
  {
    var content := Splice(c.content, task.Start(k) + begin, data);
    WrittenInPiece(task, c.content, k, begin, data);
    ContentKeeps(task, c, content);
    RequestedKeeps(task, c.(content := content), have, 1, out, e.core);
  }

  // A block whose write fails is not noted, and costs the connection: the files
  // have what was written before the failure.
  lemma FailedWriteAnswer(task: Task, c: Core, client: bool, have: set<nat>, k: nat, begin: nat, data: seq<byte>,
                          after: nat, e: Effect, out: seq<Message>)
    requires task.Valid() && Handles(task, c, client, Some(have), Decoded(Piece(k, begin, data)), WriteStops(after), e, out)
    requires |c.content| == task.layout.size && Fits(task, k, begin, |data|) && k !in c.pieces && after <= |data| && data != []
    ensures e.outcome == Closed && out == [] && e.announce == None && !e.hangup
    ensures e.core == c.(content := Splice(c.content, task.Start(k) + begin, data[..after]))
  {
    PiecesTileFile(task.layout);
    PieceSpan(task.layout, k, 0);
  }

  // So does a block with anything but zeros behind the end of the files.
  lemma TailAnswer(task: Task, c: Core, client: bool, have: set<nat>, k: nat, begin: nat, data: seq<byte>, j: nat,
                   e: Effect, out: seq<Message>)
    requires task.Valid() && Handles(task, c, client, Some(have), Decoded(Piece(k, begin, data)), Healthy, e, out)
    requires |c.content| == task.layout.size && k < task.layout.Pieces() && k !in c.pieces
    requires begin < task.layout.pieceLen && begin + |data| <= task.layout.pieceLen && |data| <= task.maxBlockLen
    requires j < |data| && task.Start(k) + begin + j >= task.layout.size && data[j] != 0
    ensures e.outcome == Closed && out == [] && e.announce == None && !e.hangup
    ensures e.core == c.(content := Splice(c.content, task.Start(k) + begin, data))
  {
    var tail := data[InFile(|c.content|, task.Start(k) + begin, |data|)..];
    assert tail[j - InFile(|c.content|, task.Start(k) + begin, |data|)] != 0;
  }
}
