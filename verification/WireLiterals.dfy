/** The formats in plain numbers: what the bytes on the wire are, in terms of no constant or helper of the codecs. */
module WireLiterals {
  import opened Wrappers
  import opened Bytes
  import opened PbWire
  import opened EngineResponse
  import opened EngineRequest
  import opened EngineClient
  import opened Rlp
  import LegacyTx

  // ------------------------------------------------------------------ tags

  /** Below field number 16 a tag is one byte: eight times the number, and 2 more when a length follows. */
  lemma TagBytes(num: nat, v: nat, raw: seq<byte>)
    requires num < 16
    ensures 0 < v ==> UintField(num, v)[0] == 8 * num
    ensures RawAlwaysField(num, raw)[0] == 8 * num + 2
  {
  }

  /** A tag ending in 0 announces a number. */
  lemma NumberFollows(num: nat, v: uint64, rest: seq<byte>)
    requires num < 0x2000_0000_0000_0000
    ensures Next(Varint(8 * num) + Varint(v) + rest) == Got(Field(num, 0, v, []), rest)
  {
    hide ReadVarint, Varint;
    ConcatAssoc(Varint(8 * num), Varint(v), rest);
    VarintRoundTrip(8 * num, Varint(v) + rest);
    VarintRoundTrip(v, rest);
  }

  /** A tag ending in 2 announces a length, which must be at most 2^31 - 1 and be there. */
  lemma LengthFollows(num: nat, n: uint64, rest: seq<byte>)
    requires num < 0x2000_0000_0000_0000
    ensures Next(Varint(8 * num + 2) + Varint(n) + rest)
         == if n <= 0x7FFF_FFFF && n <= |rest| then Got(Field(num, 2, 0, rest[..n]), rest[n..]) else Malformed
  {
    hide ReadVarint, Varint;
    ConcatAssoc(Varint(8 * num + 2), Varint(n), rest);
    VarintRoundTrip(8 * num + 2, Varint(n) + rest);
    VarintRoundTrip(n, rest);
  }

  /** A tag ending in 1 is skipped with 8 bytes, one ending in 5 with 4. */
  lemma FixedSkipped(num: nat, wide: seq<byte>, narrow: seq<byte>, rest: seq<byte>)
    requires num < 0x2000_0000_0000_0000 && |wide| == 8 && |narrow| == 4
    ensures Next(Varint(8 * num + 1) + wide + rest) == Next(rest)
    ensures Next(Varint(8 * num + 5) + narrow + rest) == Next(rest)
  {
    FixedOne(num, 1, wide, rest);
    FixedOne(num, 5, narrow, rest);
  }

  lemma FixedOne(num: nat, wire: nat, fixed: seq<byte>, rest: seq<byte>)
    requires num < 0x2000_0000_0000_0000 && ((wire == 1 && |fixed| == 8) || (wire == 5 && |fixed| == 4))
    ensures Next(Varint(8 * num + wire) + fixed + rest) == Next(rest)
  {
    hide ReadVarint, Varint, Next;
    ConcatAssoc(Varint(8 * num + wire), fixed, rest);
    AfterTag(num, wire, fixed + rest);
    assert (fixed + rest)[|fixed|..] == rest;
  }

  /** What the reader does after a tag that announces neither a number nor a length. */
  lemma AfterTag(num: nat, wire: nat, body: seq<byte>)
    requires num < 0x2000_0000_0000_0000 && wire < 8 && wire != 0 && wire != 2
    ensures Next(Varint(8 * num + wire) + body)
         == if wire == 1 && |body| >= 8 then Next(body[8..])
            else if wire == 5 && |body| >= 4 then Next(body[4..]) else Malformed
  {
    hide ReadVarint;
    VarintRoundTrip(8 * num + wire, body);
    TagParts(num, wire);
    hide Varint;
  }

  /** Tags ending in 3, 4, 6 and 7 are refused, and so is a fixed-width field that is cut off. */
  lemma OthersRefused(num: nat, wire: nat, rest: seq<byte>)
    requires num < 0x2000_0000_0000_0000 && wire < 8
    requires wire in {3, 4, 6, 7} || (wire == 1 && |rest| < 8) || (wire == 5 && |rest| < 4)
    ensures Next(Varint(8 * num + wire) + rest) == Malformed
  {
    hide Varint, Next;
    AfterTag(num, wire, rest);
  }

  lemma TagParts(num: nat, wire: nat)
    requires wire < 8
    ensures (8 * num + wire) / 8 == num && (8 * num + wire) % 8 == wire
  {
  }

  const TESTING: seq<byte> := [0x74, 0x65, 0x73, 0x74, 0x69, 0x6e, 0x67]

  lemma SmallVarints()
    ensures Varint(150) == [0x96, 0x01] && Varint(8) == [0x08] && Varint(18) == [0x12] && Varint(7) == [0x07]
  {
  }

  /** The examples of the encoding document: field 1 holding 150, and field 2 holding "testing". */
  lemma Examples()
    ensures UintField(1, 150) == [0x08, 0x96, 0x01] && RawAlwaysField(2, TESTING) == [0x12, 0x07] + TESTING
    ensures Next([0x08, 0x96, 0x01]) == Got(Field(1, 0, 150, []), [])
    ensures Next([0x12, 0x07] + TESTING) == Got(Field(2, 2, 0, TESTING), [])
  {
    assert |TESTING| == 7;
    hide Varint, Next, TESTING;
    SmallVarints();
    NumberFollows(1, 150, []);
    LengthFollows(2, 7, TESTING);
    assert Varint(8) + Varint(150) + [] == [0x08, 0x96, 0x01];
    assert TESTING[..7] == TESTING && TESTING[7..] == [];
  }

  // ------------------------------------------------------------------ requests

  /** A request for a small chain id begins 08, the chain id, 12, 14 and the sender. */
  lemma RequestStart(r: SimRequest)
    requires RequestInRange(r) && 0 < r.chainID < 128
    ensures [0x08, r.chainID, 0x12, 0x14] + r.from <= WriteRequest(r)
  {
    hide RawField, UintField, Word, AccountPieces, Join, InRange, AccountInRange;
    var pieces := HeadPieces(r) + AccountPieces(r.state) + [UintField(9, r.blockNumber), UintField(10, r.timestamp)];
    assert pieces == [pieces[0]] + ([pieces[1]] + pieces[2..]);
    JoinCons(pieces[0], [pieces[1]] + pieces[2..]);
    JoinCons(pieces[1], pieces[2..]);
    StartBytes(r.chainID, r.from);
  }

  lemma StartBytes(chainID: uint64, sender: Address)
    requires 0 < chainID < 128
    ensures UintField(1, chainID) == [0x08, chainID] && RawField(2, sender) == [0x12, 0x14] + sender
  {
    assert Varint(18) == [0x12] && Varint(20) == [0x14] && Varint(8) == [0x08];
  }

  /** Numbers are refused from 2^256 on. */
  lemma WordLimit(n: int)
    ensures EncodeWord(Some(n)).Ok?
       <==> 0 <= n < 0x1_0000_0000_0000_0000_0000_0000_0000_0000_0000_0000_0000_0000_0000_0000_0000_0000
  {
    Pow256Limit();
  }

  lemma Pow256Limit()
    ensures Pow256(32) == 0x1_0000_0000_0000_0000_0000_0000_0000_0000_0000_0000_0000_0000_0000_0000_0000_0000
  {
    PowWidths();
    Squared(8);
    Squared(16);
  }

  lemma {:induction false} Squared(k: nat)
    ensures Pow256(2 * k) == Pow256(k) * Pow256(k)
  {
    PowAdds(k, k);
  }

  lemma {:induction false} PowAdds(a: nat, b: nat)
    ensures Pow256(a + b) == Pow256(a) * Pow256(b)
  {
    if b > 0 {
      PowAdds(a, b - 1);
      assert Pow256(a) * (256 * Pow256(b - 1)) == 256 * (Pow256(a) * Pow256(b - 1));
    }
  }

  // ------------------------------------------------------------------ RLP

  lemma ShortHeader(base: nat, len: nat)
    requires (base == 0x80 || base == 0xc0) && len < 56
    ensures Header(base, len) == [base + len]
  {
  }

  lemma LongHeaderIs(base: nat, len: nat, be: seq<byte>)
    requires (base == 0x80 || base == 0xc0) && 56 <= len < U64 && BigEndian(len) == be
    ensures Header(base, len) == [base + 55 + |be|] + be
  {
    LongHeader(base, len);
  }

  lemma ShortNumbers()
    ensures BigEndian(0) == [] && BigEndian(15) == [15] && BigEndian(56) == [56] && BigEndian(1024) == [4, 0]
  {
    assert BigEndian(4) == [4];
  }

  /** Well-known encodings of strings: "dog", the empty string and single bytes. */
  lemma StringExamples()
    ensures EncodeBytes([0x64, 0x6f, 0x67]) == [0x83, 0x64, 0x6f, 0x67]
    ensures EncodeBytes([]) == [0x80] && EncodeBytes([0x0f]) == [0x0f] && EncodeBytes([0x80]) == [0x81, 0x80]
    ensures EncodeBytes([0x04, 0x00]) == [0x82, 0x04, 0x00]
  {
    hide Header;
    ShortHeader(0x80, 0);
    ShortHeader(0x80, 1);
    ShortHeader(0x80, 2);
    ShortHeader(0x80, 3);
  }

  /** Of the numbers 0, 15 and 1024. */
  lemma NumberExamples()
    ensures EncodeUint(0) == [0x80] && EncodeUint(15) == [0x0f] && EncodeUint(1024) == [0x82, 0x04, 0x00]
  {
    hide Header, EncodeUint, EncodeBytes, BigEndian;
    ShortNumbers();
    StringExamples();
    LegacyTx.UintItem(0);
    LegacyTx.UintItem(15);
    LegacyTx.UintItem(1024);
  }

  /** Of the empty list, and of "cat" with "dog". */
  lemma ListExamples()
    ensures Join([]) == [] && EncodeList([]) == [0xc0]
    ensures var cat, dog: seq<byte> := [0x83, 0x63, 0x61, 0x74], [0x83, 0x64, 0x6f, 0x67];
            Join([cat, dog]) == cat + dog && EncodeList([cat, dog]) == [0xc8] + cat + dog
  {
    hide Header;
    var cat, dog: seq<byte> := [0x83, 0x63, 0x61, 0x74], [0x83, 0x64, 0x6f, 0x67];
    ShortHeader(0xc0, 0);
    ShortHeader(0xc0, 8);
    JoinCons(cat, [dog]);
    JoinOne(dog);
    assert [cat] + [dog] == [cat, dog];
  }

  /** From 56 bytes on the length has its own bytes: b8 and f8 with one, b9 and f9 with two. */
  lemma LongHeaders()
    ensures Header(0x80, 55) == [0xb7] && Header(0x80, 56) == [0xb8, 0x38] && Header(0x80, 1024) == [0xb9, 0x04, 0x00]
    ensures Header(0xc0, 55) == [0xf7] && Header(0xc0, 56) == [0xf8, 0x38] && Header(0xc0, 1024) == [0xf9, 0x04, 0x00]
  {
    hide Header, BigEndian;
    ShortNumbers();
    ShortHeader(0x80, 55);
    ShortHeader(0xc0, 55);
    LongHeaderIs(0x80, 56, [56]);
    LongHeaderIs(0xc0, 56, [56]);
    LongHeaderIs(0x80, 1024, [4, 0]);
    LongHeaderIs(0xc0, 1024, [4, 0]);
  }
}
