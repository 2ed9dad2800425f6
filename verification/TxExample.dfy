/** The worked example of EIP-155, byte by byte. */
module TxExample {
  import opened Wrappers
  import opened Bytes
  import opened Rlp
  import opened LegacyTx
  import opened WireLiterals

  const RECIPIENT: Address := [
    0x35, 0x35, 0x35, 0x35, 0x35, 0x35, 0x35, 0x35, 0x35, 0x35, 0x35, 0x35, 0x35, 0x35, 0x35, 0x35,
    0x35, 0x35, 0x35, 0x35]

  const PRICE: seq<byte> := [0x04, 0xa8, 0x17, 0xc8, 0x00]
  const LIMIT: seq<byte> := [0x52, 0x08]
  const VALUE: seq<byte> := [0x0d, 0xe0, 0xb6, 0xb3, 0xa7, 0x64, 0x00, 0x00]

  const TRANSFER: Tx := Tx(9, 20_000_000_000, 21_000, Some(RECIPIENT), 1_000_000_000_000_000_000, [], 1)

  const R: Scalar := [
    0x28, 0xef, 0x61, 0x34, 0x0b, 0xd9, 0x39, 0xbc, 0x21, 0x95, 0xfe, 0x53, 0x75, 0x67, 0x86, 0x60,
    0x03, 0xe1, 0xa1, 0x5d, 0x3c, 0x71, 0xff, 0x63, 0xe1, 0x59, 0x06, 0x20, 0xaa, 0x63, 0x62, 0x76]
  const S: Scalar := [
    0x67, 0xcb, 0xe9, 0xd8, 0x99, 0x7f, 0x76, 0x1a, 0xec, 0xb7, 0x03, 0x30, 0x4b, 0x38, 0x00, 0xcc,
    0xf5, 0x55, 0xc9, 0xf3, 0xdc, 0x64, 0x21, 0x4b, 0x29, 0x7f, 0xb1, 0x96, 0x6a, 0x3b, 0x6d, 0x83]

  /** Nonce, gas price, gas limit, recipient, value and data, as they are in the list. */
  function BaseBytes(recipient: seq<byte>, price: seq<byte>, limit: seq<byte>, value: seq<byte>): seq<byte> {
    [0x09] + ([0x85] + price) + ([0x82] + limit) + ([0x94] + recipient) + ([0x88] + value) + [0x80]
  }

  const BASE: seq<byte> := BaseBytes(RECIPIENT, PRICE, LIMIT, VALUE)

  lemma Numbers()
    ensures BigEndian(0) == [] && BigEndian(21_000) == LIMIT
  {
  }

  /** One more digit. */
  lemma Digit(v: nat, high: nat, low: byte, be: seq<byte>)
    requires v == 256 * high + low && v > 0 && BigEndian(high) == be
    ensures BigEndian(v) == be + [low]
  {
    assert v / 256 == high && v % 256 == low;
  }

  lemma Price()
    ensures BigEndian(20_000_000_000) == PRICE
  {
    hide BigEndian;
    Numbers();
    Digit(4, 0, 0x04, []);
    Digit(1_192, 4, 0xa8, [0x04]);
    Digit(305_175, 1_192, 0x17, [0x04, 0xa8]);
    Digit(78_125_000, 305_175, 0xc8, [0x04, 0xa8, 0x17]);
    Digit(20_000_000_000, 78_125_000, 0x00, [0x04, 0xa8, 0x17, 0xc8]);
  }

  lemma Value()
    ensures BigEndian(1_000_000_000_000_000_000) == VALUE
  {
    hide BigEndian;
    Numbers();
    Digit(13, 0, 0x0d, []);
    Digit(3_552, 13, 0xe0, [0x0d]);
    Digit(909_494, 3_552, 0xb6, [0x0d, 0xe0]);
    Digit(232_830_643, 909_494, 0xb3, [0x0d, 0xe0, 0xb6]);
    Digit(59_604_644_775, 232_830_643, 0xa7, [0x0d, 0xe0, 0xb6, 0xb3]);
    Digit(15_258_789_062_500, 59_604_644_775, 0x64, [0x0d, 0xe0, 0xb6, 0xb3, 0xa7]);
    Digit(3_906_250_000_000_000, 15_258_789_062_500, 0x00, [0x0d, 0xe0, 0xb6, 0xb3, 0xa7, 0x64]);
    Digit(1_000_000_000_000_000_000, 3_906_250_000_000_000, 0x00, [0x0d, 0xe0, 0xb6, 0xb3, 0xa7, 0x64, 0x00]);
  }

  lemma SmallPiece(v: uint128)
    requires 0 < v < 0x80
    ensures EncodeUint(v) == [v]
  {
    hide EncodeUint, Header;
    UintItem(v);
    assert BigEndian(v) == [v];
  }

  lemma NumberPiece(v: uint128, be: seq<byte>, h: byte)
    requires BigEndian(v) == be && |be| < 56 && |be| != 1 && h == 0x80 + |be|
    ensures EncodeUint(v) == [h] + be
  {
    hide EncodeUint, BigEndian, Header;
    UintItem(v);
    ShortHeader(0x80, |be|);
  }

  lemma StringPiece(b: seq<byte>, h: byte)
    requires |b| < 56 && |b| != 1 && h == 0x80 + |b|
    ensures EncodeBytes(b) == [h] + b
  {
    hide Header;
    ShortHeader(0x80, |b|);
  }

  lemma ZeroPieces()
    ensures EncodeUint(0) == [0x80] && EncodeBytes([]) == [0x80]
  {
    hide EncodeUint, BigEndian, EncodeBytes;
    Numbers();
    NumberPiece(0, [], 0x80);
    StringPiece([], 0x80);
  }

  lemma NumberPieces()
    ensures EncodeUint(20_000_000_000) == [0x85] + PRICE && EncodeUint(21_000) == [0x82] + LIMIT
    ensures EncodeUint(1_000_000_000_000_000_000) == [0x88] + VALUE
  {
    assert |PRICE| == 5 && |LIMIT| == 2 && |VALUE| == 8;
    hide EncodeUint, BigEndian, PRICE, LIMIT, VALUE;
    Numbers();
    Price();
    Value();
    NumberPiece(20_000_000_000, PRICE, 0x85);
    NumberPiece(21_000, LIMIT, 0x82);
    NumberPiece(1_000_000_000_000_000_000, VALUE, 0x88);
  }

  lemma BasePieces()
    ensures BaseFields(TRANSFER)
            == [[0x09], [0x85] + PRICE, [0x82] + LIMIT, [0x94] + RECIPIENT, [0x88] + VALUE, [0x80]]
  {
    assert |RECIPIENT| == 20;
    hide EncodeUint, EncodeBytes, RECIPIENT, PRICE, LIMIT, VALUE;
    SmallPiece(9);
    NumberPieces();
    ZeroPieces();
    StringPiece(RECIPIENT, 0x94);
  }

  lemma JoinThree(a: seq<byte>, b: seq<byte>, c: seq<byte>)
    ensures Join([a, b, c]) == a + b + c
  {
    hide Join;
    JoinOne(a);
    JoinSnoc([a], b);
    JoinSnoc([a, b], c);
    assert [a] + [b] == [a, b] && [a, b] + [c] == [a, b, c];
  }

  lemma JoinSix(a: seq<byte>, b: seq<byte>, c: seq<byte>, d: seq<byte>, e: seq<byte>, f: seq<byte>)
    ensures Join([a, b, c, d, e, f]) == a + b + c + d + e + f
  {
    hide Join;
    JoinThree(a, b, c);
    JoinThree(d, e, f);
    JoinAppend([a, b, c], [d, e, f]);
    assert [a, b, c, d, e, f] == [a, b, c] + [d, e, f];
    assert a + b + c + (d + e + f) == a + b + c + d + e + f;
  }

  lemma BaseJoined()
    ensures Join(BaseFields(TRANSFER)) == BASE && |BASE| == 41
  {
    assert |RECIPIENT| == 20 && |PRICE| == 5 && |LIMIT| == 2 && |VALUE| == 8;
    hide Join, BaseFields, RECIPIENT, PRICE, LIMIT, VALUE;
    BasePieces();
    JoinSix([0x09], [0x85] + PRICE, [0x82] + LIMIT, [0x94] + RECIPIENT, [0x88] + VALUE, [0x80]);
  }

  /** A list of the base fields and three more is its header and all of them in a row. */
  lemma ListOf(tail: seq<seq<byte>>, a: seq<byte>, b: seq<byte>, c: seq<byte>)
    requires tail == [a, b, c] && 41 + |a| + |b| + |c| < U64
    ensures var n := 41 + |a| + |b| + |c|;
            && |Join(BaseFields(TRANSFER) + tail)| == n
            && EncodeList(BaseFields(TRANSFER) + tail) == Header(0xc0, n) + (BASE + (a + b + c))
  {
    hide Join, BaseFields, Header, BASE;
    BaseJoined();
    JoinThree(a, b, c);
    JoinAppend(BaseFields(TRANSFER), tail);
  }

  lemma PreimageIs(tx: Tx)
    ensures |Join(BaseFields(tx) + SigningTail(tx))| < U64
    ensures Preimage(tx) == EncodeList(BaseFields(tx) + SigningTail(tx))
  {
    assert |SigningTail(tx)| == 3;
    hide Join, BaseFields, SigningTail, EncodeList;
    SigningTailShort(tx);
    FieldsFit(tx, SigningTail(tx));
  }

  lemma SigningPieces()
    ensures SigningTail(TRANSFER) == [[0x01], [0x80], [0x80]]
  {
    assert TRANSFER.chainId == 1;
    hide EncodeUint, EncodeBytes, TRANSFER;
    SmallPiece(1);
    ZeroPieces();
  }

  /** What is hashed for this transfer on chain 1. */
  lemma PreimageExample()
    ensures Preimage(TRANSFER) == [0xec] + (BASE + ([0x01] + [0x80] + [0x80]))
  {
    hide Join, BaseFields, SigningTail, Header, BASE, EncodeList, TRANSFER, Preimage;
    PreimageIs(TRANSFER);
    SigningPieces();
    ListOf(SigningTail(TRANSFER), [0x01], [0x80], [0x80]);
    ShortHeader(0xc0, 44);
  }

  lemma RawIs(tx: Tx, sig: Signature)
    requires Recoverable(sig)
    ensures |Join(BaseFields(tx) + SignedTail(tx, sig))| < U64
    ensures Raw(tx, sig) == EncodeList(BaseFields(tx) + SignedTail(tx, sig))
  {
    assert |SignedTail(tx, sig)| == 3;
    hide Join, BaseFields, SignedTail, EncodeList;
    SignedTailShort(tx, sig);
    FieldsFit(tx, SignedTail(tx, sig));
  }

  lemma TailPieces()
    ensures SignedTail(TRANSFER, Signature(R, S, 0)) == [[0x25], [0xa0] + R, [0xa0] + S]
    ensures |R| == |S| == 32
  {
    assert VOf(TRANSFER, Signature(R, S, 0)) == 37;
    Scalars();
    hide EncodeUint, EncodeBytes, TRANSFER, Strip, R, S, VOf;
    SmallPiece(37);
    StringPiece(R, 0xa0);
    StringPiece(S, 0xa0);
  }

  lemma RawOf(sig: Signature, b: seq<byte>, c: seq<byte>)
    requires Recoverable(sig) && SignedTail(TRANSFER, sig) == [[0x25], b, c] && |b| == |c| == 33
    ensures Raw(TRANSFER, sig) == [0xf8, 0x6c] + (BASE + ([0x25] + b + c))
  {
    hide Join, BaseFields, SignedTail, Header, BASE, EncodeList, TRANSFER, Raw;
    RawIs(TRANSFER, sig);
    ListOf(SignedTail(TRANSFER, sig), [0x25], b, c);
    OneLengthByte();
  }

  /** The raw transaction with the example's signature. */
  lemma RawExample()
    ensures Raw(TRANSFER, Signature(R, S, 0)) == [0xf8, 0x6c] + (BASE + ([0x25] + ([0xa0] + R) + ([0xa0] + S)))
  {
    hide SignedTail, BASE, TRANSFER, Raw, R, S;
    TailPieces();
    RawOf(Signature(R, S, 0), [0xa0] + R, [0xa0] + S);
  }

  lemma Scalars()
    ensures Strip(R) == R && Strip(S) == S
  {
    assert R[0] != 0 && S[0] != 0;
  }

  lemma OneLengthByte()
    ensures Header(0xc0, 108) == [0xf8, 0x6c]
  {
    assert BigEndian(108) == [108];
    hide Header, BigEndian;
    LongHeaderIs(0xc0, 108, [108]);
  }
}
