// What every message keeps, whatever the peer sends: the accounting of a
// session and the integrity of the pieces it holds.

module SessionProperties {
  import opened Options
  import opened Arith
  import opened Bytes
  import opened Pieces
  import opened Protocol

  // Requests change nothing but the counts of blocks that are not stored.
  ghost predicate OnlyAsked(task: Task, c: Core, c': Core)
    requires task.Valid()
  {
    && c' == c.(active := c'.active)
    && c.active.Keys <= c'.active.Keys
    && forall k :: k in c'.active ==> SameStored(CountsOf(task, c, k), c'.active[k])
  }

  ghost predicate SameStored(counts: seq<int>, counts': seq<int>) {
    && |counts'| == |counts|
    && forall b :: 0 <= b < |counts| ==> (counts'[b] == -1 <==> counts[b] == -1)
  }

  lemma PieceHasBlock(task: Task, k: nat)
    requires task.Valid() && k < task.layout.Pieces()
    ensures task.layout.Blocks(k) > 0
  {
    PiecesTileFile(task.layout);
    BlockCountCovers(0, task.layout.PieceLength(k), task.layout.blockLen);
  }

  // A piece is as long as the part of the files at its place.
  lemma PieceLengthInFile(task: Task, k: nat)
    requires task.Valid() && k < task.layout.Pieces()
    ensures task.layout.PieceLength(k) == InFile(task.layout.size, task.Start(k), task.layout.pieceLen)
  {
    PiecesTileFile(task.layout);
    PieceSpan(task.layout, k, 0);
    if k < task.layout.Pieces() - 1 {
      MulLe(k + 1, task.layout.Pieces() - 1, task.layout.pieceLen);
    }
  }

  lemma ChoiceIsOpen(task: Task, c: Core, have: set<nat>, k: nat, b: nat)
    requires task.Valid() && Accounts(task, c) && MayChoose(c, have, k, b) && InRange(task, have)
    ensures b < |CountsOf(task, c, k)| == task.layout.Blocks(k) && CountsOf(task, c, k)[b] >= 0
  {
    PieceHasBlock(task, k);
    if k in c.active { assert ActiveOk(task, c, k); }
  }

  lemma BumpKeepsCounts(counts: seq<int>, n: nat, b: nat)
    requires b < |counts| == n && counts[b] >= 0 && forall j :: 0 <= j < n ==> counts[j] >= -1
    ensures CountsOk(counts[b := counts[b] + 1], n) && SameStored(counts, counts[b := counts[b] + 1])
  {
    assert counts[b := counts[b] + 1][b] != -1;
  }

  lemma BumpKeeps(task: Task, c: Core, have: set<nat>, k: nat, b: nat)
    requires task.Valid() && Accounts(task, c) && MayChoose(c, have, k, b) && InRange(task, have)
    ensures Accounts(task, Bump(task, c, k, b)) && OnlyAsked(task, c, Bump(task, c, k, b))
  {
    ChoiceIsOpen(task, c, have, k, b);
    var c' := Bump(task, c, k, b);
    forall j | j in c'.active ensures ActiveOk(task, c', j) && SameStored(CountsOf(task, c, j), c'.active[j]) {
      if j in c.active { assert ActiveOk(task, c, j); }
      if j == k { BumpKeepsCounts(CountsOf(task, c, k), task.layout.Blocks(k), b); }
    }
  }

  lemma OnlyAskedTwice(task: Task, c: Core, c1: Core, c2: Core)
    requires task.Valid() && OnlyAsked(task, c, c1) && OnlyAsked(task, c1, c2)
    ensures OnlyAsked(task, c, c2)
  {
    forall k | k in c2.active ensures SameStored(CountsOf(task, c, k), c2.active[k]) {
      assert SameStored(CountsOf(task, c1, k), c2.active[k]);
      if k in c1.active { assert SameStored(CountsOf(task, c, k), c1.active[k]); }
    }
  }

  lemma {:induction false} AsksKeeps(task: Task, c: Core, have: set<nat>, out: seq<Message>, c': Core)
    requires task.Valid() && Accounts(task, c) && InRange(task, have) && Asks(task, c, have, out, c')
    ensures Accounts(task, c') && OnlyAsked(task, c, c')
    decreases out
  {
    if out != [] {
      var k := out[0].piece;
      var b := BlockOf(task, out[0]);
      var c1 := Bump(task, c, k, b);
      BumpKeeps(task, c, have, k, b);
      AsksKeeps(task, c1, have, out[1..], c');
      OnlyAskedTwice(task, c, c1, c');
    }
  }

  lemma RequestedKeeps(task: Task, c: Core, have: set<nat>, times: nat, out: seq<Message>, c': Core)
    requires task.Valid() && Accounts(task, c) && InRange(task, have) && Requested(task, c, have, times, out, c')
    ensures Accounts(task, c') && OnlyAsked(task, c, c')
  {
    if Wants(c, have) { AsksKeeps(task, c, have, out, c'); }
  }

  // Work conservation: as long as the peer has a piece that is missing here,
  // there is a block to ask it for, and the block is not stored yet.
  lemma SomeChoice(task: Task, c: Core, have: set<nat>) returns (k: nat, b: nat)
    requires task.Valid() && Accounts(task, c) && InRange(task, have) && Wants(c, have)
    ensures MayChoose(c, have, k, b) && k < task.layout.Pieces()
    ensures b < |CountsOf(task, c, k)| == task.layout.Blocks(k) && CountsOf(task, c, k)[b] >= 0
  {
    if HasUnrequestedBlock(c, have) {
      k :| k in c.active && k in have && 0 in c.active[k];
      b := FirstZero(c.active[k]);
      assert ActiveOk(task, c, k);
    } else if HasUnstartedPiece(c, have) {
      k :| k in have && k !in c.pieces && k !in c.active;
      b := 0;
    } else {
      k :| k in have && k !in c.pieces;
      assert ActiveOk(task, c, k);
      b := FirstLeast(c.active[k]);
    }
    ChoiceIsOpen(task, c, have, k, b);
  }

  lemma FirstZero(counts: seq<int>) returns (b: nat)
    requires 0 in counts
    ensures FirstUnrequested(counts, b)
  {
    b := 0;
    while counts[b] != 0
      invariant b < |counts| && forall j :: 0 <= j < b ==> counts[j] != 0
      decreases |counts| - b
    {
      b := b + 1;
    }
  }

  lemma FirstLeast(counts: seq<int>) returns (b: nat)
    requires CountsOk(counts, |counts|)
    ensures LeastRequested(counts, b)
  {
    var i := 0;
    var best := -1;
    while i < |counts|
      invariant 0 <= i <= |counts| && -1 <= best < i
      invariant best == -1 ==> forall j :: 0 <= j < i ==> counts[j] == -1
      invariant best >= 0 ==> LeastRequested(counts[..i], best)
    {
      if counts[i] >= 0 && (best == -1 || counts[i] < counts[best]) { best := i; }
      i := i + 1;
    }
    assert counts[..i] == counts;
    b := best;
  }

  lemma {:induction false} CanAsk(task: Task, c: Core, have: set<nat>, times: nat) returns (out: seq<Message>, c': Core)
    requires task.Valid() && Accounts(task, c) && InRange(task, have) && Wants(c, have)
    ensures |out| == times && Asks(task, c, have, out, c')
    decreases times
  {
    if times == 0 { return [], c; }
    var k, b := SomeChoice(task, c, have);
    var m := Request(k, b * task.layout.blockLen, RequestSize(task, k, b));
    DivUnique(b * task.layout.blockLen, task.layout.blockLen, b);
    BumpKeeps(task, c, have, k, b);
    var rest;
    rest, c' := CanAsk(task, Bump(task, c, k, b), have, times - 1);
    out := [m] + rest;
  }

  lemma RequestIsPositive(task: Task, k: nat, b: nat)
    requires task.Valid() && k < task.layout.Pieces() && b < task.layout.Blocks(k)
    ensures 0 < task.layout.RequestLength(k, b) <= task.layout.blockLen
  {
    DivUnique(b * task.layout.blockLen, task.layout.blockLen, b);
    BlockCountCovers(b * task.layout.blockLen, task.layout.PieceLength(k), task.layout.blockLen);
  }

  function RequestSize(task: Task, k: nat, b: nat): (r: nat)
    requires task.Valid() && k < task.layout.Pieces() && b < task.layout.Blocks(k)
  {
    RequestIsPositive(task, k, b);
    task.layout.RequestLength(k, b)
  }

  lemma CanRequest(task: Task, c: Core, have: set<nat>, times: nat) returns (out: seq<Message>, c': Core)
    requires task.Valid() && Accounts(task, c) && InRange(task, have)
    ensures Requested(task, c, have, times, out, c')
  {
    if Wants(c, have) { out, c' := CanAsk(task, c, have, times); } else { out, c' := [], c; }
  }

  // ---- Storing a block ----

  lemma RecordKeepsAccounts(task: Task, c: Core, k: nat, begin: nat, length: nat, disk: Disk)
    requires task.Valid() && k < task.layout.Pieces() && k !in c.pieces && Accounts(task, c)
    ensures Accounts(task, Record(task, c, k, begin, length, disk).0)
  {
    var (c', r) := Record(task, c, k, begin, length, disk);
    FewerThanAll(task, c, k);
    assert |c.pieces + {k}| == |c.pieces| + 1;
    forall j | j in c'.active ensures ActiveOk(task, c', j) {
      assert ActiveOk(task, c, j);
    }
  }

  lemma FewerThanAll(task: Task, c: Core, k: nat)
    requires task.Valid() && k < task.layout.Pieces() && k !in c.pieces && InRange(task, c.pieces)
    ensures |c.pieces| < task.layout.Pieces()
  {
    RangeCard(task.layout.Pieces());
    assert c.pieces < Range(task.layout.Pieces());
    ProperSubsetCard(c.pieces, Range(task.layout.Pieces()));
  }

  function Range(n: nat): (r: set<nat>)
    ensures forall i: nat :: i in r <==> i < n
  {
    if n == 0 then {} else Range(n - 1) + {n - 1}
  }

  lemma {:induction false} RangeCard(n: nat)
    ensures |Range(n)| == n
  {
    if n > 0 {
      RangeCard(n - 1);
    }
  }

  lemma ProperSubsetCard<T>(a: set<T>, b: set<T>)
    requires a < b
    ensures |a| < |b|
  {
    assert b == a + (b - a);
    assert |b| == |a| + |b - a|;
  }

  lemma SubsetCard<T>(a: set<T>, b: set<T>)
    requires a <= b
    ensures |a| <= |b|
  {
    assert b == a + (b - a);
  }

  // The pieces whose stored bytes have the right digest.
  ghost function GoodPieces(task: Task, content: seq<byte>): set<nat>
    requires task.Valid()
  {
    set k: nat | k in Range(task.layout.Pieces()) && task.hash(PieceBytes(task, content, k)) == task.sums[k]
  }

  lemma GoodPiecesAre(task: Task, content: seq<byte>, k: nat)
    requires task.Valid()
    ensures k in GoodPieces(task, content) <==>
      && k < task.layout.Pieces()
      && task.hash(Window(content, k * task.layout.pieceLen, task.layout.PieceLength(k))) == task.sums[k]
  {
  }

  // A session holds all pieces exactly when the number of good ones says so.
  lemma CompleteWhenCounted(task: Task, c: Core)
    requires task.Valid() && Accounts(task, c)
    ensures c.goodPieces <= task.layout.Pieces()
    ensures c.goodPieces == task.layout.Pieces() <==> c.pieces == Range(task.layout.Pieces())
  {
    RangeCard(task.layout.Pieces());
    SubsetCard(c.pieces, Range(task.layout.Pieces()));
    if c.pieces < Range(task.layout.Pieces()) { ProperSubsetCard(c.pieces, Range(task.layout.Pieces())); }
  }

  // A write into one piece's span leaves the bytes of every other piece alone.
  lemma WriteStaysInPiece(task: Task, content: seq<byte>, k: nat, begin: nat, p: seq<byte>, j: nat)
    requires task.Valid() && k < task.layout.Pieces() && j < task.layout.Pieces() && j != k
    requires begin + |p| <= task.layout.pieceLen
    ensures PieceBytes(task, Splice(content, task.Start(k) + begin, p), j) == PieceBytes(task, content, j)
  {
    var l := task.layout;
    PiecesTileFile(l);
    if j < k {
      MulLe(j + 1, k, l.pieceLen);
    } else {
      MulLe(k + 1, j, l.pieceLen);
    }
    assert (j + 1) * l.pieceLen == j * l.pieceLen + l.pieceLen;
    assert (k + 1) * l.pieceLen == k * l.pieceLen + l.pieceLen;
    WindowApart(content, task.Start(k) + begin, p, task.Start(j), l.PieceLength(j));
  }

  // What a message may do to the pieces that are already held: nothing.
  ghost predicate KeepsHeld(task: Task, c: Core, c': Core)
    requires task.Valid() && InRange(task, c.pieces)
  {
    && c.pieces <= c'.pieces
    && forall j :: j in c.pieces ==> PieceBytes(task, c'.content, j) == PieceBytes(task, c.content, j)
  }

  // The state after the data of a block was written and before anything else.
  ghost function Stored(task: Task, c: Core, k: nat, begin: nat, data: seq<byte>, disk: Disk): Core
    requires task.Valid()
  {
    c.(content := Written(c.content, task.Start(k) + begin, data, disk).0)
  }

  lemma ContentKeeps(task: Task, c: Core, content: seq<byte>)
    requires task.Valid() && Accounts(task, c) && |content| == |c.content|
    ensures Accounts(task, c.(content := content))
  {
    var c' := c.(content := content);
    forall j | j in c'.active ensures ActiveOk(task, c', j) { assert ActiveOk(task, c, j); }
  }

  lemma StoredKeeps(task: Task, c: Core, k: nat, begin: nat, data: seq<byte>, disk: Disk)
    requires task.Valid() && Accounts(task, c) && k !in c.pieces && !PieceRefused(task, k, begin, |data|)
    ensures Accounts(task, Stored(task, c, k, begin, data, disk))
    ensures KeepsHeld(task, c, Stored(task, c, k, begin, data, disk))
  {
    var c1 := Stored(task, c, k, begin, data, disk);
    forall j | j in c.pieces ensures PieceBytes(task, c1.content, j) == PieceBytes(task, c.content, j) {
      WriteStaysInPiece(task, c.content, k, begin, data, j);
      if DiskStops(c.content, task.Start(k) + begin, data, disk) {
        WriteStaysInPiece(task, c.content, k, begin, data[..disk.after], j);
      }
    }
    forall j | j in c1.active ensures ActiveOk(task, c1, j) { assert ActiveOk(task, c, j); }
  }

  lemma RecordKeepsVerified(task: Task, c: Core, k: nat, begin: nat, length: nat, disk: Disk)
    requires task.Valid() && k < task.layout.Pieces() && InRange(task, c.pieces) && Verified(task, c)
    ensures var c' := Record(task, c, k, begin, length, disk).0;
      InRange(task, c'.pieces) && Verified(task, c') && KeepsHeld(task, c, c')
  {
  }

  // The number of deployments goes with completion.
  ghost predicate DeploysWhenDone(task: Task, c: Core, c': Core)
    requires task.Valid()
  {
    c'.deploys == c.deploys + if c'.goodPieces == task.layout.Pieces() && c.goodPieces != task.layout.Pieces() then 1 else 0
  }

  lemma RequestedAccounts(task: Task, c: Core, have: set<nat>, times: nat, out: seq<Message>, c': Core)
    requires task.Valid() && Accounts(task, c) && InRange(task, have) && Requested(task, c, have, times, out, c')
    ensures Accounts(task, c') && DeploysWhenDone(task, c, c') && c'.goodPieces == c.goodPieces && c'.deploys == c.deploys
  {
    RequestedKeeps(task, c, have, times, out, c');
  }

  lemma PieceKeepsAccounts(task: Task, c: Core, have: set<nat>, k: nat, begin: nat, data: seq<byte>,
                           disk: Disk, e: Effect, out: seq<Message>)
    requires task.Valid() && Accounts(task, c) && InRange(task, have) && k !in c.pieces
    requires !PieceRefused(task, k, begin, |data|) && HandlesPiece(task, c, Some(have), k, begin, data, disk, e, out)
    ensures Accounts(task, e.core) && DeploysWhenDone(task, c, e.core)
  {
    FewerThanAll(task, c, k);
    StoredKeeps(task, c, k, begin, data, disk);
    var c1 := Stored(task, c, k, begin, data, disk);
    RecordKeepsAccounts(task, c1, k, begin, |data|, disk);
    if e.outcome == Continue {
      RequestedAccounts(task, Record(task, c1, k, begin, |data|, disk).0, have, 1, out, e.core);
    }
  }

  // The accounting invariant survives every message of every peer, and a
  // deployment starts exactly when the last missing piece is accepted.
  lemma HandlesKeepsAccounts(task: Task, c: Core, client: bool, have: Option<set<nat>>, incoming: Incoming,
                             disk: Disk, e: Effect, out: seq<Message>)
    requires task.Valid() && Accounts(task, c) && Handles(task, c, client, have, incoming, disk, e, out)
    requires have.Some? ==> InRange(task, have.value)
    requires incoming.Decoded? && incoming.message.Bitfield? ==> InRange(task, incoming.message.pieces)
    ensures Accounts(task, e.core) && DeploysWhenDone(task, c, e.core)
    ensures e.have.Some? ==> InRange(task, e.have.value)
  {
    match incoming
    case Malformed =>
    case BadBitfield =>
    case Decoded(Have(k)) =>
      if have.Some? && k < task.layout.Pieces() && !client {
        RequestedAccounts(task, c, e.have.value, 5, out, e.core);
      }
    case Decoded(Bitfield(s)) =>
      if !client { RequestedAccounts(task, c, s, 1, out, e.core); }
    case Decoded(Request(k, begin, length)) =>
    case Decoded(Piece(k, begin, data)) =>
      if have.Some? && !PieceRefused(task, k, begin, |data|) {
        if k in c.pieces {
          RequestedAccounts(task, c, have.value, 1, out, e.core);
        } else {
          PieceKeepsAccounts(task, c, have.value, k, begin, data, disk, e, out);
        }
      }
  }

  // A stored block of a started piece is still stored, unless the piece is bad.
  ghost predicate StaysStored(c: Core, c': Core, bad: Option<nat>) {
    forall k: nat, b: nat :: StoredBlock(c, k, b) && bad != Some(k) ==> BlockStored(c', k, b)
  }

  // The block is here for good or as part of a started piece.
  ghost predicate BlockStored(c: Core, k: nat, b: nat) {
    k in c.pieces || StoredBlock(c, k, b)
  }

  ghost predicate StoredBlock(c: Core, k: nat, b: nat) {
    k in c.active && b < |c.active[k]| && c.active[k][b] == -1
  }

  lemma OnlyAskedStaysStored(task: Task, c: Core, c': Core)
    requires task.Valid() && OnlyAsked(task, c, c')
    ensures StaysStored(c, c', None)
  {
    forall k: nat, b: nat | StoredBlock(c, k, b) ensures StoredBlock(c', k, b) {
      assert SameStored(CountsOf(task, c, k), c'.active[k]);
    }
  }

  lemma RequestedStaysStored(task: Task, c: Core, have: set<nat>, times: nat, out: seq<Message>, c': Core)
    requires task.Valid() && Accounts(task, c) && InRange(task, have) && Requested(task, c, have, times, out, c')
    ensures StaysStored(c, c', None) && c'.pieces == c.pieces
  {
    RequestedKeeps(task, c, have, times, out, c');
    OnlyAskedStaysStored(task, c, c');
  }

  lemma RecordStaysStored(task: Task, c: Core, k: nat, begin: nat, length: nat, disk: Disk)
    requires task.Valid() && k < task.layout.Pieces()
    ensures var (c', r) := Record(task, c, k, begin, length, disk);
      StaysStored(c, c', if r == Bad then Some(k) else None) && c.pieces <= c'.pieces
  {
  }

  lemma PieceStaysStored(task: Task, c: Core, have: set<nat>, k: nat, begin: nat, data: seq<byte>,
                         disk: Disk, e: Effect, out: seq<Message>)
    requires task.Valid() && Accounts(task, c) && InRange(task, have) && k !in c.pieces
    requires !PieceRefused(task, k, begin, |data|) && HandlesPiece(task, c, Some(have), k, begin, data, disk, e, out)
    ensures StaysStored(c, e.core, if e.hangup then Some(k) else None)
  {
    StoredKeeps(task, c, k, begin, data, disk);
    var c1 := Stored(task, c, k, begin, data, disk);
    RecordKeepsAccounts(task, c1, k, begin, |data|, disk);
    RecordStaysStored(task, c1, k, begin, |data|, disk);
    if e.outcome == Continue {
      var c2 := Record(task, c1, k, begin, |data|, disk).0;
      RequestedStaysStored(task, c2, have, 1, out, e.core);
      StaysStoredThen(c1, c2, e.core, if e.hangup then Some(k) else None);
    }
  }

  lemma StaysStoredThen(c: Core, c1: Core, c2: Core, bad: Option<nat>)
    requires StaysStored(c, c1, bad) && StaysStored(c1, c2, None) && c2.pieces == c1.pieces
    ensures StaysStored(c, c2, bad)
  {
  }

  // Over a whole message a block that is stored stays so while its piece is
  // active. Only the message that makes a piece bad gives its blocks up.
  lemma HandlesKeepsStored(task: Task, c: Core, client: bool, have: Option<set<nat>>, incoming: Incoming,
                           disk: Disk, e: Effect, out: seq<Message>)
    requires task.Valid() && Accounts(task, c) && Handles(task, c, client, have, incoming, disk, e, out)
    requires have.Some? ==> InRange(task, have.value)
    requires incoming.Decoded? && incoming.message.Bitfield? ==> InRange(task, incoming.message.pieces)
    ensures e.hangup ==> incoming.Decoded? && incoming.message.Piece?
    ensures StaysStored(c, e.core, if e.hangup then Some(incoming.message.piece) else None)
  {
    match incoming
    case Malformed =>
    case BadBitfield =>
    case Decoded(Have(k)) =>
      if have.Some? && k < task.layout.Pieces() && !client {
        RequestedStaysStored(task, c, e.have.value, 5, out, e.core);
      }
    case Decoded(Bitfield(s)) =>
      if !client { RequestedStaysStored(task, c, s, 1, out, e.core); }
    case Decoded(Request(k, begin, length)) =>
    case Decoded(Piece(k, begin, data)) =>
      if have.Some? && !PieceRefused(task, k, begin, |data|) {
        if k in c.pieces {
          RequestedStaysStored(task, c, have.value, 1, out, e.core);
        } else {
          PieceStaysStored(task, c, have.value, k, begin, data, disk, e, out);
        }
      }
  }

  // Integrity: whatever arrives, every held piece still has the right digest,
  // and the bytes of the pieces held before are not touched.
  lemma HandlesKeepsVerified(task: Task, c: Core, client: bool, have: Option<set<nat>>, incoming: Incoming,
                             disk: Disk, e: Effect, out: seq<Message>)
    requires task.Valid() && Accounts(task, c) && Handles(task, c, client, have, incoming, disk, e, out)
    requires have.Some? ==> InRange(task, have.value)
    requires incoming.Decoded? && incoming.message.Bitfield? ==> InRange(task, incoming.message.pieces)
    requires Verified(task, c)
    ensures InRange(task, e.core.pieces) && Verified(task, e.core) && KeepsHeld(task, c, e.core)
  {
    match incoming
    case Malformed =>
    case BadBitfield =>
    case Decoded(Have(k)) =>
      if have.Some? && k < task.layout.Pieces() && !client {
        RequestedKeeps(task, c, e.have.value, 5, out, e.core);
      }
    case Decoded(Bitfield(s)) =>
      if !client { RequestedKeeps(task, c, s, 1, out, e.core); }
    case Decoded(Request(k, begin, length)) =>
    case Decoded(Piece(k, begin, data)) =>
      if have.Some? && !PieceRefused(task, k, begin, |data|) {
        if k in c.pieces {
          RequestedKeeps(task, c, have.value, 1, out, e.core);
        } else {
          StoredKeeps(task, c, k, begin, data, disk);
          var c1 := Stored(task, c, k, begin, data, disk);
          RecordKeepsAccounts(task, c1, k, begin, |data|, disk);
          RecordKeepsVerified(task, c1, k, begin, |data|, disk);
          if e.outcome == Continue {
            RequestedKeeps(task, Record(task, c1, k, begin, |data|, disk).0, have.value, 1, out, e.core);
          }
        }
      }
  }

  lemma CanTakePiece(task: Task, c: Core, have: set<nat>, k: nat, begin: nat, data: seq<byte>, disk: Disk)
    returns (e: Effect, out: seq<Message>)
    requires task.Valid() && Accounts(task, c) && InRange(task, have)
    ensures HandlesPiece(task, c, Some(have), k, begin, data, disk, e, out)
  {
    var c' := c;
    out := [];
    if PieceRefused(task, k, begin, |data|) {
      e := Effect(c, Some(have), None, false, Closed);
    } else if k in c.pieces {
      out, c' := CanRequest(task, c, have, 1);
      e := Effect(c', Some(have), None, false, Continue);
    } else {
      var c1 := Stored(task, c, k, begin, data, disk);
      StoredKeeps(task, c, k, begin, data, disk);
      RecordKeepsAccounts(task, c1, k, begin, |data|, disk);
      var (c2, r) := Record(task, c1, k, begin, |data|, disk);
      if !Written(c.content, task.Start(k) + begin, data, disk).1 {
        e := Effect(c1, Some(have), None, false, Closed);
      } else if r == OutsidePiece {
        e := Effect(c2, Some(have), None, false, Crashed);
      } else {
        out, c' := CanRequest(task, c2, have, 1);
        e := Effect(c', Some(have), if r == Good then Some(k) else None, r == Bad, Continue);
      }
    }
  }

  // Every message has a reaction, whatever the state.
  lemma CanHandle(task: Task, c: Core, client: bool, have: set<nat>, m: Message, disk: Disk)
    returns (e: Effect, out: seq<Message>)
    requires task.Valid() && Accounts(task, c) && InRange(task, have)
    requires m.Bitfield? ==> InRange(task, m.pieces)
    ensures Handles(task, c, client, Some(have), Decoded(m), disk, e, out)
  {
    var c' := c;
    out := [];
    match m
    case Have(k) =>
      if k >= task.layout.Pieces() { e := Effect(c, Some(have), None, false, Closed); return; }
      if !client { out, c' := CanRequest(task, c, have + {k}, 5); }
      e := Effect(c', Some(have + {k}), None, false, Continue);
    case Bitfield(pieces) =>
      if !client { out, c' := CanRequest(task, c, pieces, 1); }
      e := Effect(c', Some(pieces), None, false, Continue);
    case Request(k, begin, length) =>
      if RequestRefused(task, c, k, begin, length) || disk.ReadFails? {
        e := Effect(c, Some(have), None, false, Closed);
      } else {
        out := [Piece(k, begin, Window(c.content, task.Start(k) + begin, length))];
        e := Effect(c, Some(have), None, false, Continue);
      }
    case Piece(k, begin, data) =>
      e, out := CanTakePiece(task, c, have, k, begin, data, disk);
  }

  // Asking once sends exactly one request, for a block that is not stored, of a
  // piece that is missing here and that the peer has; it sends none exactly
  // when the peer has no such piece.
  lemma WorkConserved(task: Task, c: Core, have: set<nat>, out: seq<Message>, c': Core)
    requires task.Valid() && Accounts(task, c) && InRange(task, have) && Requested(task, c, have, 1, out, c')
    ensures |out| <= 1 && (out != [] <==> exists k :: k in have && k !in c.pieces)
    ensures out != [] ==> out[0].Request? && out[0].piece in have && out[0].piece !in c.pieces
    ensures out != [] ==>
      var k, b := out[0].piece, BlockOf(task, out[0]);
      && AsksFor(task, out[0], k, b) && b < |CountsOf(task, c, k)| && CountsOf(task, c, k)[b] != -1
      && c' == c.(active := c.active[k := CountsOf(task, c, k)[b := CountsOf(task, c, k)[b] + 1]])
  {
    if Wants(c, have) {
      var k, b := out[0].piece, BlockOf(task, out[0]);
      ChoiceIsOpen(task, c, have, k, b);
      assert k in have && k !in c.pieces;
      assert out[1..] == [] && Asks(task, Bump(task, c, k, b), have, out[1..], c');
    }
  }

  // ---- Whole runs ----

  lemma ForgetKeeps(task: Task, c: Core, k: nat, b: nat)
    requires task.Valid() && Accounts(task, c)
    ensures Accounts(task, Forget(c, k, b)) && OnlyAsked(task, c, Forget(c, k, b))
  {
    var c' := Forget(c, k, b);
    if c' != c {
      assert ActiveOk(task, c, k);
      ForgetKeepsCounts(c.active[k], task.layout.Blocks(k), b);
    }
    forall j | j in c'.active ensures ActiveOk(task, c', j) && SameStored(CountsOf(task, c, j), c'.active[j]) {
      assert ActiveOk(task, c, j);
    }
  }

  lemma ForgetKeepsCounts(counts: seq<int>, n: nat, b: nat)
    requires b < |counts| && counts[b] > 0 && CountsOk(counts, n)
    ensures CountsOk(counts[b := counts[b] - 1], n) && SameStored(counts, counts[b := counts[b] - 1])
  {
    assert counts[b := counts[b] - 1][b] != -1;
  }

  // One event: a message from some peer, whatever it is known to have and
  // whatever the files do, or the loss of one outstanding request.
  ghost predicate Event(task: Task, c: Core, c': Core)
    requires task.Valid()
  {
    || (exists client, have, incoming, disk, e, out ::
        && Handles(task, c, client, have, incoming, disk, e, out) && e.core == c'
        && (have.Some? ==> InRange(task, have.value))
        && (incoming.Decoded? && incoming.message.Bitfield? ==> InRange(task, incoming.message.pieces)))
    || (exists k, b :: c' == Forget(c, k, b))
  }

  lemma EventKeeps(task: Task, c: Core, c': Core)
    requires task.Valid() && Accounts(task, c) && Verified(task, c) && Event(task, c, c')
    ensures Accounts(task, c') && Verified(task, c') && KeepsHeld(task, c, c')
    ensures DeploysWhenDone(task, c, c')
  {
    if k, b :| c' == Forget(c, k, b) {
      ForgetKeeps(task, c, k, b);
    } else {
      var client, have, incoming, disk, e, out :|
        && Handles(task, c, client, have, incoming, disk, e, out) && e.core == c'
        && (have.Some? ==> InRange(task, have.value))
        && (incoming.Decoded? && incoming.message.Bitfield? ==> InRange(task, incoming.message.pieces));
      HandlesKeepsAccounts(task, c, client, have, incoming, disk, e, out);
      HandlesKeepsVerified(task, c, client, have, incoming, disk, e, out);
    }
  }

  // Over a whole run under arbitrary peers, held pieces stay held and verified
  // and a session deploys at most once, when it has become complete.
  lemma {:induction false} RunKeeps(task: Task, run: nat -> Core, n: nat)
    requires task.Valid() && Accounts(task, run(0)) && Verified(task, run(0)) && run(0).deploys == 0
    requires forall i: nat :: i < n ==> Event(task, run(i), run(i + 1))
    ensures Accounts(task, run(n)) && Verified(task, run(n)) && KeepsHeld(task, run(0), run(n))
    ensures run(n).deploys
      == if run(n).goodPieces == task.layout.Pieces() && run(0).goodPieces != task.layout.Pieces() then 1 else 0
  {
    if n > 0 {
      RunKeeps(task, run, n - 1);
      assert Event(task, run(n - 1), run(n - 1 + 1));
      EventKeeps(task, run(n - 1), run(n));
      CompleteStays(task, run(n - 1), run(n));
      CompleteStays(task, run(0), run(n - 1));
      KeepsHeldTwice(task, run(0), run(n - 1), run(n));
    }
  }

  lemma KeepsHeldTwice(task: Task, c: Core, c1: Core, c2: Core)
    requires task.Valid() && InRange(task, c.pieces) && InRange(task, c1.pieces)
    requires KeepsHeld(task, c, c1) && KeepsHeld(task, c1, c2)
    ensures KeepsHeld(task, c, c2)
  {
    forall j | j in c.pieces ensures PieceBytes(task, c2.content, j) == PieceBytes(task, c.content, j) {
      assert j in c1.pieces;
    }
  }

  lemma CompleteStays(task: Task, c: Core, c': Core)
    requires task.Valid() && Accounts(task, c) && Accounts(task, c') && KeepsHeld(task, c, c')
    ensures c.goodPieces <= c'.goodPieces <= task.layout.Pieces()
  {
    SubsetCard(c.pieces, c'.pieces);
    CompleteWhenCounted(task, c');
  }

  ghost predicate Injective(hash: seq<byte> -> Digest) {
    forall x, y :: hash(x) == hash(y) ==> x == y
  }

  ghost predicate DigestsOf(task: Task, source: seq<byte>)
    requires task.Valid()
  {
    && |source| == task.layout.size
    && forall k: nat :: k < task.layout.Pieces() ==> task.sums[k] == task.hash(PieceBytes(task, source, k))
  }

  // With a hash without collisions, a complete session holds the source files.
  lemma CompleteIsSource(task: Task, c: Core, source: seq<byte>)
    requires task.Valid() && Accounts(task, c) && Verified(task, c)
    requires Injective(task.hash) && DigestsOf(task, source)
    requires c.goodPieces == task.layout.Pieces()
    ensures c.content == source
  {
    CompleteWhenCounted(task, c);
    forall x: nat | x < |source| ensures c.content[x] == source[x] {
      var k := task.layout.PieceAt(x);
      ByteHasBlock(task.layout, x);
      PieceSpan(task.layout, k, x);
      assert k in c.pieces;
      assert PieceBytes(task, c.content, k) == PieceBytes(task, source, k);
      assert PieceBytes(task, source, k)[x - task.Start(k)] == source[x];
      assert PieceBytes(task, c.content, k)[x - task.Start(k)] == c.content[x];
    }
  }

  // ---- Crashes ----

  // The session dies on a message that needs the bitset of a peer whose
  // bitfield was rejected, and on zeros that lie in the last piece, when it is
  // started, behind its last block.
  predicate Kills(task: Task, c: Core, have: Option<set<nat>>, m: Message)
    requires task.Valid()
  {
    if have == None then !m.Bitfield?
    else
      && m.Piece? && m.piece in c.active && m.piece == task.layout.Pieces() - 1
      && m.begin < task.layout.pieceLen && m.begin + |m.data| <= task.layout.pieceLen && |m.data| <= task.maxBlockLen
      && task.layout.Blocks(m.piece) * task.layout.blockLen <= m.begin && AllZero(m.data)
  }

  // Whatever the files do.
  lemma CrashesIff(task: Task, c: Core, client: bool, have: Option<set<nat>>, incoming: Incoming,
                   disk: Disk, e: Effect, out: seq<Message>)
    requires task.Valid() && Accounts(task, c) && Handles(task, c, client, have, incoming, disk, e, out)
    ensures e.outcome == Crashed <==> incoming.Decoded? && Kills(task, c, have, incoming.message)
  {
    if incoming.Decoded? && incoming.message.Piece? && have.Some? {
      var m := incoming.message;
      if m.piece in c.active {
        assert ActiveOk(task, c, m.piece);
        BlockOutside(task.layout.Blocks(m.piece), task.layout.blockLen, m.begin);
        BlocksCover(task, m.piece);
        if task.layout.Blocks(m.piece) * task.layout.blockLen <= m.begin < task.layout.pieceLen {
          BehindTheEnd(task, c.content, m.piece, m.begin, m.data, disk);
        }
      }
    }
  }

  // What is behind the last piece is not in any file, so only zeros can be
  // written there, and no file can fail.
  lemma BehindTheEnd(task: Task, content: seq<byte>, k: nat, begin: nat, data: seq<byte>, disk: Disk)
    requires task.Valid() && |content| == task.layout.size && k < task.layout.Pieces()
    requires task.layout.PieceLength(k) <= begin < task.layout.pieceLen
    ensures k == task.layout.Pieces() - 1 && Written(content, task.Start(k) + begin, data, disk).1 == AllZero(data)
  {
    PiecesTileFile(task.layout);
    BlocksCover(task, k);
    assert InFile(|content|, task.Start(k) + begin, |data|) == 0;
    assert data[0..] == data;
  }

  lemma BlockOutside(n: nat, blockLen: nat, begin: nat)
    requires blockLen > 0
    ensures n <= begin / blockLen <==> n * blockLen <= begin
  {
    DivBounds(begin, blockLen);
    if n <= begin / blockLen { MulLe(n, begin / blockLen, blockLen); } else { MulLe(begin / blockLen + 1, n, blockLen); }
  }

  // A block that starts inside its own piece never kills the session; only the
  // last piece can be shorter than what the range check lets through.
  lemma OwnPieceIsSafe(task: Task, c: Core, client: bool, have: set<nat>, m: Message, disk: Disk, e: Effect, out: seq<Message>)
    requires task.Valid() && Accounts(task, c) && Handles(task, c, client, Some(have), Decoded(m), disk, e, out)
    requires m.Piece? && m.piece < task.layout.Pieces() ==>
      m.begin < task.layout.PieceLength(m.piece) || m.piece != task.layout.Pieces() - 1
    ensures e.outcome != Crashed
  {
    CrashesIff(task, c, client, Some(have), Decoded(m), disk, e, out);
    if m.Piece? && m.piece in c.active {
      assert ActiveOk(task, c, m.piece);
      BlocksCover(task, m.piece);
    }
  }

  // With pieces of one block, as configured, no block is fatal.
  lemma OneBlockIsSafe(task: Task, c: Core, client: bool, have: set<nat>, m: Message, disk: Disk, e: Effect, out: seq<Message>)
    requires task.Valid() && Accounts(task, c) && Handles(task, c, client, Some(have), Decoded(m), disk, e, out)
    requires task.layout.pieceLen <= task.layout.blockLen
    ensures e.outcome != Crashed
  {
    CrashesIff(task, c, client, Some(have), Decoded(m), disk, e, out);
    if m.Piece? && m.piece in c.active {
      assert ActiveOk(task, c, m.piece);
      PieceHasBlock(task, m.piece);
      MulLe(1, task.layout.Blocks(m.piece), task.layout.blockLen);
    }
  }

  lemma BlocksCover(task: Task, k: nat)
    requires task.Valid() && k < task.layout.Pieces()
    ensures task.layout.PieceLength(k) <= task.layout.Blocks(k) * task.layout.blockLen
    ensures k != task.layout.Pieces() - 1 ==> task.layout.PieceLength(k) == task.layout.pieceLen
  {
    DivBounds(task.layout.PieceLength(k) + task.layout.blockLen - 1, task.layout.blockLen);
  }

  // Five bytes in pieces of four and blocks of two: a zero byte sent as bytes
  // 2..3 of the last piece, which has one byte, passes every check and is fatal.
  lemma ShortPieceCrash(hash: seq<byte> -> Digest, sums: seq<Digest>, e: Effect, out: seq<Message>)
    requires |sums| == 2
    requires var task := Task(Layout(5, 4, 2), 2, hash, sums);
      var c := Core({}, map[1 := [1]], [1, 2, 3, 4, 5], 0, 0, 0);
      task.Valid() && Handles(task, c, false, Some({1}), Decoded(Piece(1, 2, [0])), Healthy, e, out)
    ensures var task := Task(Layout(5, 4, 2), 2, hash, sums);
      Accounts(task, Core({}, map[1 := [1]], [1, 2, 3, 4, 5], 0, 0, 0))
    ensures e.outcome == Crashed
  {
    var task := Task(Layout(5, 4, 2), 2, hash, sums);
    var c := Core({}, map[1 := [1]], [1, 2, 3, 4, 5], 0, 0, 0);
    assert task.layout.Pieces() == 2 && task.layout.Blocks(1) == 1;
    assert c.active[1][0] != -1;
    forall k | k in c.active ensures ActiveOk(task, c, k) {}
    CrashesIff(task, c, false, Some({1}), Decoded(Piece(1, 2, [0])), Healthy, e, out);
  }
}
