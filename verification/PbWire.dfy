/** The protobuf wire codec: "Base 128 Varints", "Message Structure" and "Length-Delimited Records"
    of the Protocol Buffers encoding document. */
module PbWire {
  import opened Bytes

  const VARINT: nat := 0
  const FIXED64: nat := 1
  const BYTES: nat := 2
  const FIXED32: nat := 5

  const MAX_LENGTH: nat := 0x7FFF_FFFF
  const MAX_FIELD: nat := 0x1FFF_FFFF_FFFF_FFFF

  // ------------------------------------------------------------------ varints

  function Pow128(k: nat): (p: nat)
    ensures 0 < p
  {
    if k == 0 then 1 else 128 * Pow128(k - 1)
  }

  function Varint(v: nat): (r: seq<byte>)
    ensures 0 < |r|
  {
    if v < 128 then [v] else [v % 128 + 128] + Varint(v / 128)
  }

  datatype VarintResult = Truncated | Value(v: uint64, rest: seq<byte>)

  /** The reading loop from its i-th round on, with the value `acc` collected so far. A shift by
      7 * i keeps the low 64 bits, and the bits it brings in are above those of `acc`. */
  function ReadVarintFrom(b: seq<byte>, i: nat, acc: nat): (r: VarintResult)
    requires i <= 10 && acc < Pow128(i) && acc < U64
    ensures r.Value? ==> |r.rest| < |b|
    decreases 10 - i
  {
    if i == 10 || b == [] then Truncated
    else
      var next := Collect(acc, b[0], i);
      if b[0] < 128 then Value(next, b[1..]) else ReadVarintFrom(b[1..], i + 1, next)
  }

  function Collect(acc: nat, c: byte, i: nat): (r: nat)
    requires i < 10 && acc < Pow128(i) && acc < U64
    ensures r < Pow128(i + 1) && r < U64
  {
    CollectFits(acc, c, i);
    acc + (c % 128) * Pow128(i) % U64
  }

  function ReadVarint(b: seq<byte>): (r: VarintResult)
    ensures r.Value? ==> |r.rest| < |b|
  {
    ReadVarintFrom(b, 0, 0)
  }

  lemma Pow128Values()
    ensures Pow128(1) == 0x80 && Pow128(2) == 0x4000 && Pow128(3) == 0x20_0000 && Pow128(4) == 0x1000_0000
    ensures Pow128(5) == 0x8_0000_0000 && Pow128(6) == 0x400_0000_0000 && Pow128(7) == 0x2_0000_0000_0000
    ensures Pow128(8) == 0x100_0000_0000_0000 && Pow128(9) == 0x8000_0000_0000_0000
    ensures Pow128(10) == 0x40_0000_0000_0000_0000
  {
  }

  lemma CollectFits(acc: nat, c: byte, i: nat)
    requires i < 10 && acc < Pow128(i) && acc < U64
    ensures acc + (c % 128) * Pow128(i) % U64 < Pow128(i + 1)
    ensures acc + (c % 128) * Pow128(i) % U64 < U64
  {
    Pow128Values();
    if i == 9 {
      assert (c % 128) * Pow128(9) % U64 == (c % 2) * Pow128(9);
    } else {
      assert (c % 128) * Pow128(i) <= 127 * Pow128(i) < U64;
    }
  }

  /** The ten rounds of the reading loop in 64-bit words: masking is a remainder, shifting left by 7 * i a product
      modulo 2^64, and or-ing in above the 7 * i bits collected so far an addition. */
  lemma WordRounds(acc: bv64, c: bv64)
    ensures acc < 0x1 ==> acc | ((c & 0x7f) << 0) == acc + (c % 128) * 0x1
    ensures acc < 0x80 ==> acc | ((c & 0x7f) << 7) == acc + (c % 128) * 0x80
    ensures acc < 0x4000 ==> acc | ((c & 0x7f) << 14) == acc + (c % 128) * 0x4000
    ensures acc < 0x200000 ==> acc | ((c & 0x7f) << 21) == acc + (c % 128) * 0x200000
    ensures acc < 0x10000000 ==> acc | ((c & 0x7f) << 28) == acc + (c % 128) * 0x10000000
    ensures acc < 0x800000000 ==> acc | ((c & 0x7f) << 35) == acc + (c % 128) * 0x800000000
    ensures acc < 0x40000000000 ==> acc | ((c & 0x7f) << 42) == acc + (c % 128) * 0x40000000000
    ensures acc < 0x2000000000000 ==> acc | ((c & 0x7f) << 49) == acc + (c % 128) * 0x2000000000000
    ensures acc < 0x100000000000000 ==> acc | ((c & 0x7f) << 56) == acc + (c % 128) * 0x100000000000000
    ensures acc < 0x8000000000000000 ==> acc | ((c & 0x7f) << 63) == acc + (c % 128) * 0x8000000000000000
  {
  }

  /** One round of the writing loop: the low seven bits with the high bit set, and the shift right. */
  lemma WordLow(v: bv64)
    ensures (v & 0xff) | 0x80 == (v % 128) + 128 && v >> 7 == v / 128
  {
  }

  lemma CollectExact(acc: nat, v: nat, i: nat)
    requires i < 10 && acc < Pow128(i) && acc < U64 && v * Pow128(i) < U64
    ensures Collect(acc, if v < 128 then v else v % 128 + 128, i) == acc + (v % 128) * Pow128(i)
    ensures acc + (v % 128) * Pow128(i) + (v / 128) * Pow128(i + 1) == acc + v * Pow128(i)
  {
    var low, high, p := v % 128, v / 128, Pow128(i);
    assert v == low + 128 * high;
    assert v * p == low * p + high * (128 * p);
    assert low * p <= v * p;
  }

  lemma LongerValueEarlier(v: nat, i: nat)
    requires 128 <= v && i < 10 && v * Pow128(i) < U64
    ensures i < 9
  {
    Pow128Values();
    assert 128 * Pow128(i) <= v * Pow128(i);
  }

  lemma {:induction false} VarintRoundTripFrom(v: nat, rest: seq<byte>, i: nat, acc: nat)
    requires i < 10 && acc < Pow128(i) && acc < U64 && v * Pow128(i) < U64 && acc + v * Pow128(i) < U64
    requires 0 < v || i == 0
    ensures ReadVarintFrom(Varint(v) + rest, i, acc) == Value(acc + v * Pow128(i), rest)
    decreases v
  {
    CollectExact(acc, v, i);
    var all := Varint(v) + rest;
    if v < 128 {
      assert all[1..] == rest;
      assert v % 128 == v;
    } else {
      Pow128Values();
      LongerValueEarlier(v, i);
      var next := acc + (v % 128) * Pow128(i);
      assert all[1..] == Varint(v / 128) + rest;
      VarintRoundTripFrom(v / 128, rest, i + 1, next);
    }
  }

  /** Every uint64 survives being written and read back, whatever follows it. */
  lemma VarintRoundTrip(v: uint64, rest: seq<byte>)
    ensures ReadVarint(Varint(v) + rest) == Value(v, rest)
  {
    assert v * Pow128(0) == v;
    VarintRoundTripFrom(v, rest, 0, 0);
  }

  lemma {:induction false} VarintLength(v: nat, k: nat)
    requires 0 < k && v < Pow128(k)
    ensures |Varint(v)| <= k
    decreases v
  {
    if v >= 128 {
      assert k > 1;
      VarintLength(v / 128, k - 1);
    }
  }

  /** A uint64 takes at most ten bytes. */
  lemma VarintTenBytes(v: uint64)
    ensures 1 <= |Varint(v)| <= 10
  {
    Pow128Values();
    VarintLength(v, 10);
  }

  lemma {:induction false} ReadVarintExtends(b: seq<byte>, more: seq<byte>, i: nat, acc: nat)
    requires i <= 10 && acc < Pow128(i) && acc < U64
    requires ReadVarintFrom(b, i, acc).Value?
    ensures ReadVarintFrom(b + more, i, acc) ==
            var r := ReadVarintFrom(b, i, acc); Value(r.v, r.rest + more)
    decreases 10 - i
  {
    assert (b + more)[1..] == b[1..] + more;
    if b[0] >= 128 {
      ReadVarintExtends(b[1..], more, i + 1, Collect(acc, b[0], i));
    }
  }

  // ------------------------------------------------------------------ fields

  datatype Field = Field(num: nat, wire: nat, uint: nat, raw: seq<byte>)

  function UintValue(num: nat, v: nat): Field {
    Field(num, VARINT, v, [])
  }

  function RawValue(num: nat, raw: seq<byte>): Field {
    Field(num, BYTES, 0, raw)
  }

  function UintField(num: nat, v: nat): seq<byte> {
    if v == 0 then [] else Varint(num * 8 + VARINT) + Varint(v)
  }

  function RawAlwaysField(num: nat, raw: seq<byte>): seq<byte> {
    Varint(num * 8 + BYTES) + Varint(|raw|) + raw
  }

  function RawField(num: nat, raw: seq<byte>): seq<byte> {
    if raw == [] then [] else RawAlwaysField(num, raw)
  }

  datatype NextResult = End | Malformed | Got(field: Field, rest: seq<byte>)

  /** The next field; fixed-width fields are skipped. */
  function Next(b: seq<byte>): NextResult
    decreases |b|
  {
    if b == [] then End
    else
      match ReadVarint(b)
      case Truncated => Malformed
      case Value(tag, body) =>
        var num, wire := tag / 8, tag % 8;
        if wire == VARINT then
          match ReadVarint(body)
          case Truncated => Malformed
          case Value(v, rest) => Got(UintValue(num, v), rest)
        else if wire == BYTES then
          match ReadVarint(body)
          case Truncated => Malformed
          case Value(n, rest) =>
            if n > |rest| || n > MAX_LENGTH then Malformed else Got(RawValue(num, rest[..n]), rest[n..])
        else if wire == FIXED64 || wire == FIXED32 then
          var n := if wire == FIXED32 then 4 else 8;
          if |body| < n then Malformed else Next(body[n..])
        else Malformed
  }

  lemma {:induction false} ReadVarintAdvances(b: seq<byte>, i: nat, acc: nat)
    requires i <= 10 && acc < Pow128(i) && acc < U64
    ensures var r := ReadVarintFrom(b, i, acc); r.Value? ==> r.rest == b[|b| - |r.rest|..]
    decreases 10 - i
  {
    if i < 10 && b != [] && b[0] >= 128 {
      ReadVarintAdvances(b[1..], i + 1, Collect(acc, b[0], i));
    }
  }

  /** Every field takes at least two bytes, whatever the input. */
  lemma {:induction false} NextConsumes(b: seq<byte>)
    ensures Next(b).Got? ==> |Next(b).rest| + 2 <= |b|
    decreases |b|
  {
    hide ReadVarintFrom;
    if b != [] && ReadVarint(b).Value? {
      var tag, body := ReadVarint(b).v, ReadVarint(b).rest;
      if (tag % 8 == FIXED64 && |body| >= 8) || (tag % 8 == FIXED32 && |body| >= 4) {
        NextConsumes(body[if tag % 8 == FIXED32 then 4 else 8..]);
      }
    }
  }

  /** The reader only moves forward: what is left is the end of what there was. */
  lemma {:induction false} NextAdvances(b: seq<byte>)
    ensures Next(b).Got? ==> |Next(b).rest| <= |b| && Next(b).rest == b[|b| - |Next(b).rest|..]
    decreases |b|
  {
    hide ReadVarintFrom;
    if b != [] && ReadVarint(b).Value? {
      ReadVarintAdvances(b, 0, 0);
      var tag, body := ReadVarint(b).v, ReadVarint(b).rest;
      if tag % 8 == VARINT || tag % 8 == BYTES {
        ReadVarintAdvances(body, 0, 0);
      } else if tag % 8 == FIXED64 && |body| >= 8 {
        NextAdvances(body[8..]);
      } else if tag % 8 == FIXED32 && |body| >= 4 {
        NextAdvances(body[4..]);
      }
    }
  }

  lemma NextUint(num: nat, v: uint64, rest: seq<byte>)
    requires num <= MAX_FIELD && v != 0
    ensures Next(UintField(num, v) + rest) == Got(UintValue(num, v), rest)
  {
    hide ReadVarint, Varint;
    var tag := num * 8 + VARINT;
    assert UintField(num, v) + rest == Varint(tag) + (Varint(v) + rest);
    VarintRoundTrip(tag, Varint(v) + rest);
    VarintRoundTrip(v, rest);
  }

  lemma NextRaw(num: nat, raw: seq<byte>, rest: seq<byte>)
    requires num <= MAX_FIELD && |raw| <= MAX_LENGTH
    ensures Next(RawAlwaysField(num, raw) + rest) == Got(RawValue(num, raw), rest)
  {
    hide ReadVarint, Varint;
    var tag := num * 8 + BYTES;
    assert RawAlwaysField(num, raw) + rest == Varint(tag) + (Varint(|raw|) + (raw + rest));
    VarintRoundTrip(tag, Varint(|raw|) + (raw + rest));
    VarintRoundTrip(|raw|, raw + rest);
    assert (raw + rest)[..|raw|] == raw && (raw + rest)[|raw|..] == rest;
  }

  /** What is read first does not depend on what comes later. */
  lemma {:induction false} NextExtends(b: seq<byte>, more: seq<byte>)
    ensures Next(b).Got? ==> Next(b + more) == Got(Next(b).field, Next(b).rest + more)
    ensures Next(b).End? ==> Next(b + more) == Next(more)
    decreases |b|
  {
    hide ReadVarintFrom;
    if b == [] {
      assert b + more == more;
    } else if ReadVarint(b).Value? {
      ReadVarintExtends(b, more, 0, 0);
      var tag, body := ReadVarint(b).v, ReadVarint(b).rest;
      if tag % 8 == VARINT {
        if ReadVarint(body).Value? {
          ReadVarintExtends(body, more, 0, 0);
        }
      } else if tag % 8 == BYTES {
        if ReadVarint(body).Value? {
          ReadVarintExtends(body, more, 0, 0);
          var n, rest := ReadVarint(body).v, ReadVarint(body).rest;
          if n <= |rest| {
            assert (rest + more)[..n] == rest[..n] && (rest + more)[n..] == rest[n..] + more;
          }
        }
      } else if tag % 8 == FIXED64 || tag % 8 == FIXED32 {
        var n := if tag % 8 == FIXED32 then 4 else 8;
        if |body| >= n {
          assert (body + more)[n..] == body[n..] + more;
          NextExtends(body[n..], more);
        }
      }
    }
  }
}
