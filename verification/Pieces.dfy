// The piece and block geometry of a task, and the bookkeeping of a piece that
// is being downloaded.

module Pieces {
  import opened Arith

  // How many pieces a file set of totalSize bytes has, and how long the last one is.
  function CountPieces(totalSize: nat, pieceLen: nat): (r: (nat, nat))
    requires pieceLen > 0
  {
    var totalPieces := totalSize / pieceLen;
    var lastPieceLength := totalSize % pieceLen;
    if lastPieceLength == 0 then (totalPieces, pieceLen) else (totalPieces + 1, lastPieceLength)
  }

  // The layout of a task: every length is a parameter.
  datatype Layout = Layout(size: nat, pieceLen: nat, blockLen: nat)
  {
    predicate Valid() {
      size > 0 && pieceLen > 0 && blockLen > 0
    }

    function Pieces(): nat
      requires Valid()
    {
      CountPieces(size, pieceLen).0
    }

    function PieceLength(piece: nat): nat
      requires Valid()
    {
      if piece < Pieces() - 1 then pieceLen else CountPieces(size, pieceLen).1
    }

    // The number of blocks of a piece.
    function Blocks(piece: nat): nat
      requires Valid()
    {
      (PieceLength(piece) + blockLen - 1) / blockLen
    }

    // The length that is requested for a block: only the last piece is clipped.
    function RequestLength(piece: nat, block: nat): int
      requires Valid()
    {
      var left := CountPieces(size, pieceLen).1 - block * blockLen;
      if piece == Pieces() - 1 && left < blockLen then left else blockLen
    }

    // Every piece but the last is a whole number of blocks.
    predicate Aligned()
      requires Valid()
    {
      pieceLen % blockLen == 0
    }

    function PieceAt(x: nat): nat requires Valid() { x / pieceLen }

    function BlockAt(x: nat): nat requires Valid() { (x % pieceLen) / blockLen }
  }

  // The pieces cover the file set exactly; the count is the ceiling that the
  // hashing of all pieces uses.
  lemma PiecesTileFile(l: Layout)
    requires l.Valid()
    ensures l.Pieces() >= 1
    ensures 0 < CountPieces(l.size, l.pieceLen).1 <= l.pieceLen
    ensures (l.Pieces() - 1) * l.pieceLen + CountPieces(l.size, l.pieceLen).1 == l.size
    ensures l.Pieces() == (l.size + l.pieceLen - 1) / l.pieceLen
  {
    var q := l.size / l.pieceLen;
    DivBounds(l.size, l.pieceLen);
    if l.size % l.pieceLen == 0 {
      DivUnique(l.size + l.pieceLen - 1, l.pieceLen, q);
    } else {
      assert (q + 1) * l.pieceLen == q * l.pieceLen + l.pieceLen;
      DivUnique(l.size + l.pieceLen - 1, l.pieceLen, q + 1);
    }
  }

  // A byte of the file set is in piece k exactly when it is in k's span.
  lemma PieceSpan(l: Layout, k: nat, x: nat)
    requires l.Valid() && k < l.Pieces()
    ensures k * l.pieceLen <= x < k * l.pieceLen + l.PieceLength(k) <==> x < l.size && l.PieceAt(x) == k
    ensures k * l.pieceLen + l.PieceLength(k) <= l.size
  {
    PiecesTileFile(l);
    DivBounds(x, l.pieceLen);
    var last := l.Pieces() - 1;
    if k < last {
      MulLe(k + 1, last, l.pieceLen);
      assert (k + 1) * l.pieceLen == k * l.pieceLen + l.pieceLen;
    }
    if k * l.pieceLen <= x < k * l.pieceLen + l.PieceLength(k) {
      DivUnique(x, l.pieceLen, k);
    }
  }

  // Every byte of the file set is in a piece, and in a block of that piece.
  lemma ByteHasBlock(l: Layout, x: nat)
    requires l.Valid() && x < l.size
    ensures l.PieceAt(x) < l.Pieces()
    ensures l.BlockAt(x) < l.Blocks(l.PieceAt(x))
  {
    var k := l.PieceAt(x);
    ByteHasPiece(l, x);
    PieceSpan(l, k, x);
    DivBounds(x, l.pieceLen);
    BlockCountCovers(x % l.pieceLen, l.PieceLength(k), l.blockLen);
    DivBounds(x % l.pieceLen, l.blockLen);
  }

  lemma ByteHasPiece(l: Layout, x: nat)
    requires l.Valid() && x < l.size
    ensures l.PieceAt(x) < l.Pieces()
  {
    PiecesTileFile(l);
    DivBounds(x, l.pieceLen);
    assert l.Pieces() * l.pieceLen == (l.Pieces() - 1) * l.pieceLen + l.pieceLen;
    if l.Pieces() <= l.PieceAt(x) {
      MulLe(l.Pieces(), l.PieceAt(x), l.pieceLen);
    }
  }

  lemma BlockCountCovers(begin: nat, length: nat, blockLen: nat)
    requires blockLen > 0
    ensures begin / blockLen < (length + blockLen - 1) / blockLen <==> (begin / blockLen) * blockLen < length
  {
    var q := begin / blockLen;
    var n := (length + blockLen - 1) / blockLen;
    DivBounds(length + blockLen - 1, blockLen);
    if q < n { MulLe(q + 1, n, blockLen); } else { MulLe(n, q, blockLen); }
    assert (q + 1) * blockLen == q * blockLen + blockLen;
  }

  // The blocks of all pieces tile the file set: a byte is in the span that is
  // requested for block b of piece k exactly when that is its own block.
  lemma BlockSpan(l: Layout, k: nat, b: nat, x: nat)
    requires l.Valid() && l.Aligned() && k < l.Pieces() && b < l.Blocks(k)
    ensures var start := k * l.pieceLen + b * l.blockLen;
      start <= x < start + l.RequestLength(k, b) <==> x < l.size && l.PieceAt(x) == k && l.BlockAt(x) == b
  {
    RequestFits(l, k, b);
    PieceSpan(l, k, x);
    var begin := x - k * l.pieceLen;
    if 0 <= begin < l.PieceLength(k) {
      DivUnique(x, l.pieceLen, k);
      InBlock(begin, l.blockLen, b);
    }
  }

  lemma InBlock(x: nat, blockLen: nat, b: nat)
    requires blockLen > 0
    ensures x / blockLen == b <==> b * blockLen <= x < b * blockLen + blockLen
  {
    DivBounds(x, blockLen);
    if b * blockLen <= x < b * blockLen + blockLen { DivUnique(x, blockLen, b); }
  }

  // A block that is asked for lies inside its piece and is not empty.
  lemma RequestFits(l: Layout, k: nat, b: nat)
    requires l.Valid() && l.Aligned() && k < l.Pieces() && b < l.Blocks(k)
    ensures 0 < l.RequestLength(k, b) <= l.blockLen
    ensures b * l.blockLen + l.RequestLength(k, b) <= l.PieceLength(k) <= l.pieceLen
    ensures l.RequestLength(k, b) < l.blockLen ==> b * l.blockLen + l.RequestLength(k, b) == l.PieceLength(k)
  {
    PiecesTileFile(l);
    DivUnique(b * l.blockLen, l.blockLen, b);
    BlockCountCovers(b * l.blockLen, l.PieceLength(k), l.blockLen);
    if k < l.Pieces() - 1 {
      var q := l.pieceLen / l.blockLen;
      DivBounds(l.pieceLen, l.blockLen);
      if b >= q { MulLe(q, b, l.blockLen); }
      MulLe(b + 1, q, l.blockLen);
      assert (b + 1) * l.blockLen == b * l.blockLen + l.blockLen;
    }
  }

  // The requests of a task all stay inside their pieces exactly when the block
  // length divides the piece length or there is only one piece.
  lemma RequestsFitIff(l: Layout)
    requires l.Valid()
    ensures (forall k, b | 0 <= k < l.Pieces() && 0 <= b < l.Blocks(k) ::
              b * l.blockLen + l.RequestLength(k, b) <= l.pieceLen)
        <==> l.Aligned() || l.Pieces() == 1
  {
    PiecesTileFile(l);
    if l.Aligned() {
      forall k, b | 0 <= k < l.Pieces() && 0 <= b < l.Blocks(k)
        ensures b * l.blockLen + l.RequestLength(k, b) <= l.pieceLen
      {
        RequestFits(l, k, b);
      }
    } else if l.Pieces() > 1 {
      var q := l.pieceLen / l.blockLen;
      DivBounds(l.pieceLen, l.blockLen);
      BlockCountCovers(l.pieceLen, l.pieceLen, l.blockLen);
      assert q < l.Blocks(0) && l.RequestLength(0, q) == l.blockLen;
      assert !(q * l.blockLen + l.RequestLength(0, q) <= l.pieceLen);
    }
  }

  // ---- The blocks of a piece that is being downloaded ----
  // A count of -1 means that the block is stored, any other count is the
  // number of requests that are believed to be outstanding.

  ghost predicate FirstUnrequested(counts: seq<int>, b: int) {
    && 0 <= b < |counts| && counts[b] == 0
    && forall j :: 0 <= j < b ==> counts[j] != 0
  }

  ghost predicate LeastRequested(counts: seq<int>, b: int) {
    && 0 <= b < |counts| && counts[b] >= 0
    && (forall j :: 0 <= j < b ==> counts[j] < 0 || counts[b] < counts[j])
    && (forall j :: b <= j < |counts| ==> counts[j] < 0 || counts[b] <= counts[j])
  }

  ghost predicate AllStored(counts: seq<int>) {
    forall j :: 0 <= j < |counts| ==> counts[j] == -1
  }

  class ActivePiece {
    var downloaderCount: seq<int>
    const pieceLength: nat

    constructor (pieceLength: nat, blockLen: nat)
      requires blockLen > 0
      ensures downloaderCount == seq((pieceLength + blockLen - 1) / blockLen, _ => 0)
      ensures this.pieceLength == pieceLength
    {
      this.downloaderCount := seq((pieceLength + blockLen - 1) / blockLen, _ => 0);
      this.pieceLength := pieceLength;
    }

    method ChooseBlockToDownload(endgame: bool) returns (index: int)
      modifies this`downloaderCount
      ensures -1 <= index < |old(downloaderCount)|
      ensures index >= 0 && !endgame ==> FirstUnrequested(old(downloaderCount), index)
      ensures index >= 0 && endgame ==> LeastRequested(old(downloaderCount), index)
      ensures index >= 0 ==> downloaderCount == old(downloaderCount)[index := old(downloaderCount[index]) + 1]
      ensures index < 0 ==> downloaderCount == old(downloaderCount)
      ensures index < 0 && !endgame ==> 0 !in downloaderCount
      ensures index < 0 && endgame ==> forall j :: 0 <= j < |downloaderCount| ==> downloaderCount[j] < 0
    {
      if endgame {
        index := ChooseBlockToDownloadEndgame();
      } else {
        index := ChooseBlockToDownloadNormal();
      }
    }

    method ChooseBlockToDownloadNormal() returns (index: int)
      modifies this`downloaderCount
      ensures -1 <= index < |old(downloaderCount)|
      ensures index >= 0 ==> FirstUnrequested(old(downloaderCount), index)
      ensures index >= 0 ==> downloaderCount == old(downloaderCount)[index := 1]
      ensures index < 0 ==> downloaderCount == old(downloaderCount) && 0 !in downloaderCount
    {
      for i := 0 to |downloaderCount|
        invariant downloaderCount == old(downloaderCount)
        invariant forall j :: 0 <= j < i ==> downloaderCount[j] != 0
      {
        if downloaderCount[i] == 0 {
          downloaderCount := downloaderCount[i := downloaderCount[i] + 1];
          return i;
        }
      }
      return -1;
    }

    method ChooseBlockToDownloadEndgame() returns (index: int)
      modifies this`downloaderCount
      ensures -1 <= index < |old(downloaderCount)|
      ensures index >= 0 ==> LeastRequested(old(downloaderCount), index)
      ensures index >= 0 ==> downloaderCount == old(downloaderCount)[index := old(downloaderCount[index]) + 1]
      ensures index < 0 ==> downloaderCount == old(downloaderCount)
      ensures index < 0 ==> forall j :: 0 <= j < |downloaderCount| ==> downloaderCount[j] < 0
    {
      index := -1;
      var minCount := -1;
      for i := 0 to |downloaderCount|
        invariant -1 <= index < i
        invariant downloaderCount == old(downloaderCount)
        invariant index == -1 ==> minCount == -1 && forall j :: 0 <= j < i ==> downloaderCount[j] < 0
        invariant index >= 0 ==> minCount == downloaderCount[index] && LeastRequested(downloaderCount[..i], index)
      {
        var v := downloaderCount[i];
        if v >= 0 && (minCount == -1 || minCount > v) {
          index, minCount := i, v;
        }
      }
      if index > -1 {
        assert downloaderCount[..|downloaderCount|] == downloaderCount;
        downloaderCount := downloaderCount[index := downloaderCount[index] + 1];
      }
    }

    // The code indexes the slice: a block outside of it is a crash, which the
    // session accounts for before it calls this.
    method RecordBlock(index: nat) returns (requestCount: int)
      requires index < |downloaderCount|
      modifies this`downloaderCount
      ensures requestCount == old(downloaderCount[index])
      ensures downloaderCount == old(downloaderCount)[index := -1]
    {
      requestCount := downloaderCount[index];
      downloaderCount := downloaderCount[index := -1];
    }

    method IsComplete() returns (complete: bool)
      ensures complete <==> AllStored(downloaderCount)
    {
      for i := 0 to |downloaderCount|
        invariant forall j :: 0 <= j < i ==> downloaderCount[j] == -1
      {
        if downloaderCount[i] != -1 {
          return false;
        }
      }
      return true;
    }
  }
}
