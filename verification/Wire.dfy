// The bytes of the four messages, and the keys under which outstanding
// requests are kept.

module Wire {
  import opened Bytes
  import opened Bitsets
  import opened Protocol

  const WORD := 0x1_0000_0000

  // The byte with the value n.
  function ToByte(n: nat): byte
    requires n < 0x100
  {
    if n == 0 then 0 else ToByte(n - 1) + 1
  }

  lemma {:induction false} ByteRoundTrip(n: nat)
    requires n < 0x100
    ensures ToByte(n) as nat == n
  {
    if n > 0 {
      ByteRoundTrip(n - 1);
      NextByte(ToByte(n - 1));
    }
  }

  lemma NextByte(b: byte)
    requires b as nat < 0xFF
    ensures (b + 1) as nat == b as nat + 1
  {
  }

  // The number whose digits to the base 256 are the bytes, the highest first.
  function BytesToUint32(b: seq<byte>): nat {
    if b == [] then 0 else 0x100 * BytesToUint32(b[..|b| - 1]) + b[|b| - 1] as nat
  }

  function Digits(n: nat, k: nat): (r: seq<byte>)
    ensures |r| == k
  {
    if k == 0 then [] else Digits(n / 0x100, k - 1) + [ToByte(n % 0x100)]
  }

  function Uint32ToBytes(n: nat): (r: seq<byte>)
    ensures |r| == 4
  {
    Digits(n, 4)
  }

  lemma FourDigits(n: nat)
    requires n < WORD
    ensures Uint32ToBytes(n)
      == [ToByte(n / 0x100_0000), ToByte(n / 0x1_0000 % 0x100), ToByte(n / 0x100 % 0x100), ToByte(n % 0x100)]
  {
    assert n / 0x100 / 0x100 == n / 0x1_0000;
    assert n / 0x1_0000 / 0x100 == n / 0x100_0000;
    var a, b, c := Digits(n / 0x100_0000, 1), Digits(n / 0x1_0000, 2), Digits(n / 0x100, 3);
    assert b == a + [ToByte(n / 0x1_0000 % 0x100)];
    assert c == b + [ToByte(n / 0x100 % 0x100)];
  }

  function Power256(k: nat): nat { if k == 0 then 1 else 0x100 * Power256(k - 1) }

  lemma {:induction false} DigitsRoundTrip(n: nat, k: nat)
    requires n < Power256(k)
    ensures BytesToUint32(Digits(n, k)) == n
  {
    if k > 0 {
      var high, low := Digits(n / 0x100, k - 1), ToByte(n % 0x100);
      DigitsRoundTrip(n / 0x100, k - 1);
      ByteRoundTrip(n % 0x100);
      assert (high + [low])[..|high + [low]| - 1] == high;
    }
  }

  lemma Uint32RoundTrip(n: nat)
    requires n < WORD
    ensures BytesToUint32(Uint32ToBytes(n)) == n
  {
    assert Power256(4) == 0x100 * (0x100 * Power256(2)) == WORD;
    DigitsRoundTrip(n, 4);
  }

  lemma {:induction false} BytesBound(b: seq<byte>)
    ensures BytesToUint32(b) < Power256(|b|)
    decreases |b|
  {
    if b != [] { BytesBound(b[..|b| - 1]); }
  }

  lemma WordBound(b: seq<byte>)
    requires |b| == 4
    ensures BytesToUint32(b) < WORD
  {
    assert Power256(4) == 0x100 * (0x100 * Power256(2)) == WORD;
    BytesBound(b);
  }

  // What a non-empty message of a task with the given number of pieces says.
  ghost function Parse(pieces: nat, message: seq<byte>): (r: Incoming)
    requires message != []
    ensures r.Decoded? && r.message.Bitfield? ==> forall k :: k in r.message.pieces ==> k < pieces
  {
    if message[0] == 0 then
      if |message| != 5 then Malformed else Decoded(Have(BytesToUint32(message[1..5])))
    else if message[0] == 1 then
      var data := message[1..];
      if |data| != ByteCount(pieces) || !SpareClear(data, pieces) then BadBitfield
      else Decoded(Bitfield(Elements(data, pieces)))
    else if message[0] == 2 then
      if |message| != 13 then Malformed
      else Decoded(Request(BytesToUint32(message[1..5]), BytesToUint32(message[5..9]), BytesToUint32(message[9..13])))
    else if message[0] == 3 then
      if |message| < 9 then Malformed
      else Decoded(Piece(BytesToUint32(message[1..5]), BytesToUint32(message[5..9]), message[9..]))
    else Malformed
  }

  // The message can be written on the wire of a task with that many pieces.
  ghost predicate Sendable(pieces: nat, m: Message) {
    match m
    case Have(k) => k < WORD
    case Bitfield(s) => forall k :: k in s ==> k < pieces
    case Request(k, begin, length) => k < WORD && begin < WORD && length < WORD
    case Piece(k, begin, data) => k < WORD && begin < WORD
  }

  ghost function Print(pieces: nat, m: Message): seq<byte>
    requires Sendable(pieces, m)
  {
    match m
    case Have(k) => [0] + Uint32ToBytes(k)
    case Bitfield(s) => [1] + Encode(s, pieces)
    case Request(k, begin, length) => [2] + Uint32ToBytes(k) + Uint32ToBytes(begin) + Uint32ToBytes(length)
    case Piece(k, begin, data) => [3] + Uint32ToBytes(k) + Uint32ToBytes(begin) + data
  }

  // Every message that can be sent is understood as what it was.
  lemma PrintThenParse(pieces: nat, m: Message)
    requires Sendable(pieces, m)
    ensures Print(pieces, m) != [] && Parse(pieces, Print(pieces, m)) == Decoded(m)
  {
    var p := Print(pieces, m);
    match m
    case Have(k) =>
      Uint32RoundTrip(k);
      assert p[1..5] == Uint32ToBytes(k);
    case Bitfield(s) =>
      assert p[1..] == Encode(s, pieces);
    case Request(k, begin, length) =>
      Uint32RoundTrip(k);
      Uint32RoundTrip(begin);
      Uint32RoundTrip(length);
      assert p[1..5] == Uint32ToBytes(k);
      assert p[5..9] == Uint32ToBytes(begin);
      assert p[9..13] == Uint32ToBytes(length);
    case Piece(k, begin, data) =>
      Uint32RoundTrip(k);
      Uint32RoundTrip(begin);
      assert p[1..5] == Uint32ToBytes(k);
      assert p[5..9] == Uint32ToBytes(begin);
      assert p[9..] == data;
  }

  lemma SameValue(x: byte, y: byte)
    requires x as nat == y as nat
    ensures x == y
  {
  }

  lemma {:induction false} BytesAreDigits(b: seq<byte>)
    ensures Digits(BytesToUint32(b), |b|) == b
    decreases |b|
  {
    if b != [] {
      var init, last := b[..|b| - 1], b[|b| - 1];
      BytesAreDigits(init);
      ByteRoundTrip(last as nat);
      SameValue(ToByte(last as nat), last);
      LowDigit(BytesToUint32(init), last as nat);
      assert b == init + [last];
    }
  }

  lemma LowDigit(high: nat, low: nat)
    requires low < 0x100
    ensures (0x100 * high + low) / 0x100 == high && (0x100 * high + low) % 0x100 == low
  {
  }

  lemma FieldIsPrinted(message: seq<byte>, at: nat)
    requires at + 4 <= |message|
    ensures BytesToUint32(message[at..at + 4]) < WORD
    ensures Uint32ToBytes(BytesToUint32(message[at..at + 4])) == message[at..at + 4]
  {
    WordBound(message[at..at + 4]);
    BytesAreDigits(message[at..at + 4]);
  }

  lemma InFields(message: seq<byte>, k: nat, l: nat)
    requires 1 <= k <= l <= |message|
    ensures message == [message[0]] + message[1..k] + message[k..l] + message[l..]
  {
  }

  lemma HaveIsPrinted(pieces: nat, message: seq<byte>)
    requires |message| == 5 && message[0] == 0
    ensures var k := BytesToUint32(message[1..5]); k < WORD && message == Print(pieces, Have(k))
  {
    FieldIsPrinted(message, 1);
    assert message == [message[0]] + message[1..5];
  }

  lemma RequestIsPrinted(pieces: nat, message: seq<byte>)
    requires |message| == 13 && message[0] == 2
    ensures var k, begin, length := BytesToUint32(message[1..5]), BytesToUint32(message[5..9]), BytesToUint32(message[9..13]);
      k < WORD && begin < WORD && length < WORD && message == Print(pieces, Request(k, begin, length))
  {
    FieldIsPrinted(message, 1);
    FieldIsPrinted(message, 5);
    FieldIsPrinted(message, 9);
    InFields(message, 5, 9);
    assert message[9..] == message[9..13];
  }

  lemma PieceIsPrinted(pieces: nat, message: seq<byte>)
    requires |message| >= 9 && message[0] == 3
    ensures var k, begin := BytesToUint32(message[1..5]), BytesToUint32(message[5..9]);
      k < WORD && begin < WORD && message == Print(pieces, Piece(k, begin, message[9..]))
  {
    FieldIsPrinted(message, 1);
    FieldIsPrinted(message, 5);
    InFields(message, 5, 9);
  }

  lemma BitfieldIsPrinted(pieces: nat, message: seq<byte>)
    requires message != [] && message[0] == 1 && |message[1..]| == ByteCount(pieces) && SpareClear(message[1..], pieces)
    ensures message == Print(pieces, Bitfield(Elements(message[1..], pieces)))
  {
    SameSetSameBytes(message[1..], Encode(Elements(message[1..], pieces), pieces), pieces);
    assert message == [message[0]] + message[1..];
  }

  // Nothing else is understood: what is decoded is the print of what it says.
  lemma ParseThenPrint(pieces: nat, message: seq<byte>)
    requires message != [] && Parse(pieces, message).Decoded?
    ensures Sendable(pieces, Parse(pieces, message).message)
    ensures message == Print(pieces, Parse(pieces, message).message)
  {
    match Parse(pieces, message).message
    case Have(_) => HaveIsPrinted(pieces, message);
    case Bitfield(_) => BitfieldIsPrinted(pieces, message);
    case Request(_, _, _) => RequestIsPrinted(pieces, message);
    case Piece(_, _, _) => PieceIsPrinted(pieces, message);
  }

  // The four bytes at that place are the number, the highest byte first.
  ghost predicate NumberAt(p: seq<byte>, at: nat, n: nat) {
    && at + 4 <= |p|
    && p[at] as nat == n / 0x100_0000 && p[at + 1] as nat == n / 0x1_0000 % 0x100
    && p[at + 2] as nat == n / 0x100 % 0x100 && p[at + 3] as nat == n % 0x100
  }

  lemma NumberIsAt(p: seq<byte>, at: nat, n: nat)
    requires n < WORD && at + 4 <= |p| && p[at..at + 4] == Uint32ToBytes(n)
    ensures NumberAt(p, at, n)
  {
    FourDigits(n);
    DigitAt(p, at, Uint32ToBytes(n), 0, n / 0x100_0000);
    DigitAt(p, at, Uint32ToBytes(n), 1, n / 0x1_0000 % 0x100);
    DigitAt(p, at, Uint32ToBytes(n), 2, n / 0x100 % 0x100);
    DigitAt(p, at, Uint32ToBytes(n), 3, n % 0x100);
  }

  lemma DigitAt(p: seq<byte>, at: nat, q: seq<byte>, j: nat, digit: nat)
    requires digit < 0x100 && |q| == 4 && j < 4 && at + 4 <= |p| && p[at..at + 4] == q && q[j] == ToByte(digit)
    ensures p[at + j] as nat == digit
  {
    ByteRoundTrip(digit);
    assert p[at..at + 4][j] == p[at + j];
  }

  // Which byte of a message says what.
  lemma HaveBytes(pieces: nat, k: nat)
    requires k < WORD
    ensures var p := Print(pieces, Have(k)); |p| == 5 && p[0] == 0 && NumberAt(p, 1, k)
  {
    var p := Print(pieces, Have(k));
    assert p[1..5] == Uint32ToBytes(k);
    NumberIsAt(p, 1, k);
  }

  lemma BitfieldBytes(pieces: nat, s: set<nat>, i: nat)
    requires (forall k :: k in s ==> k < pieces) && i < pieces
    ensures var p := Print(pieces, Bitfield(s));
      |p| == 1 + (pieces + 7) / 8 && p[0] == 1 && (i in s <==> p[1 + i / 8] & (128 >> (i % 8)) != 0)
  {
    assert i in Elements(Encode(s, pieces), pieces) <==> BitAt(Encode(s, pieces), i);
  }

  lemma RequestBytes(pieces: nat, k: nat, begin: nat, length: nat)
    requires k < WORD && begin < WORD && length < WORD
    ensures var p := Print(pieces, Request(k, begin, length));
      |p| == 13 && p[0] == 2 && NumberAt(p, 1, k) && NumberAt(p, 5, begin) && NumberAt(p, 9, length)
  {
    var p := Print(pieces, Request(k, begin, length));
    assert p[1..5] == Uint32ToBytes(k);
    assert p[5..9] == Uint32ToBytes(begin);
    assert p[9..13] == Uint32ToBytes(length);
    NumberIsAt(p, 1, k);
    NumberIsAt(p, 5, begin);
    NumberIsAt(p, 9, length);
  }

  lemma PieceBytesAre(pieces: nat, k: nat, begin: nat, data: seq<byte>)
    requires k < WORD && begin < WORD
    ensures var p := Print(pieces, Piece(k, begin, data));
      |p| == 9 + |data| && p[0] == 3 && NumberAt(p, 1, k) && NumberAt(p, 5, begin) && p[9..] == data
  {
    var p := Print(pieces, Piece(k, begin, data));
    assert p[1..5] == Uint32ToBytes(k);
    assert p[5..9] == Uint32ToBytes(begin);
    NumberIsAt(p, 1, k);
    NumberIsAt(p, 5, begin);
  }

  // The encoders fill a buffer in place.
  method PutUint32(buf: array<byte>, at: nat, n: nat)
    requires at + 4 <= buf.Length && n < WORD
    modifies buf
    ensures buf[..at] == old(buf[..at]) && buf[at..at + 4] == Uint32ToBytes(n) && buf[at + 4..] == old(buf[at + 4..])
  {
    FourDigits(n);
    buf[at] := ToByte(n / 0x100_0000);
    buf[at + 1] := ToByte(n / 0x1_0000 % 0x100);
    buf[at + 2] := ToByte(n / 0x100 % 0x100);
    buf[at + 3] := ToByte(n % 0x100);
  }

  method SendHave(piece: nat, ghost pieces: nat) returns (msg: array<byte>)
    requires piece < WORD
    ensures fresh(msg) && msg[..] == Print(pieces, Have(piece))
  {
    msg := new byte[5](_ => 0);
    msg[0] := 0;
    PutUint32(msg, 1, piece);
  }

  method SendBitfield(bs: Bitset) returns (msg: array<byte>)
    requires bs.Valid()
    ensures fresh(msg) && msg[..] == Print(bs.n, Bitfield(bs.Contents()))
  {
    msg := new byte[bs.b.Length + 1](_ => 0);
    msg[0] := 1;
    forall i | 0 <= i < bs.b.Length { msg[i + 1] := bs.b[i]; }
    SameSetSameBytes(bs.b[..], Encode(bs.Contents(), bs.n), bs.n);
    assert msg[..] == [1] + bs.b[..];
  }

  method SendRequest(piece: nat, begin: nat, length: nat, ghost pieces: nat) returns (msg: array<byte>)
    requires piece < WORD && begin < WORD && length < WORD
    ensures fresh(msg) && msg[..] == Print(pieces, Request(piece, begin, length))
  {
    msg := new byte[13](_ => 0);
    msg[0] := 2;
    PutUint32(msg, 1, piece);
    assert msg[..5] == [2] + Uint32ToBytes(piece);
    PutUint32(msg, 5, begin);
    assert msg[..9] == [2] + Uint32ToBytes(piece) + Uint32ToBytes(begin);
    PutUint32(msg, 9, length);
    assert msg[13..] == [];
  }

  // ---- Keys of outstanding requests ----

  function PackKey(piece: nat, begin: nat): nat
    requires begin < WORD
  {
    piece * WORD + begin
  }

  function KeyPiece(key: nat): nat { key / WORD }

  function KeyBegin(key: nat): nat { key % WORD }

  lemma KeyRoundTrip(piece: nat, begin: nat)
    requires begin < WORD
    ensures KeyPiece(PackKey(piece, begin)) == piece && KeyBegin(PackKey(piece, begin)) == begin
  {
  }
}
