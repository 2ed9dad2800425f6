/** RLP: the encoder, and the decoder of Appendix B of the Ethereum Yellow Paper as its inverse. */
module Rlp {
  import opened Wrappers
  import opened Bytes

  const U128: nat := 0x1_0000_0000_0000_0000_0000_0000_0000_0000

  // ------------------------------------------------------------------ the encoder

  /** Fixed-width big-endian bytes. */
  function ToBeBytes(v: nat, width: nat): (b: seq<byte>)
    requires v < Pow256(width)
    ensures |b| == width
  {
    BigEndianLength(v, width);
    PadLeft(BigEndian(v), width)
  }

  lemma PowWidths()
    ensures Pow256(8) == U64 && Pow256(16) == U128
  {
    assert Pow256(4) == 0x1_0000_0000;
    assert Pow256(8) == U64;
    assert Pow256(12) == 0x1_0000_0000_0000_0000_0000_0000;
  }

  function Header(base: nat, len: nat): seq<byte>
    requires base == 0x80 || base == 0xc0
    requires len < U64
  {
    if len < 56 then [base + len]
    else
      PowWidths();
      HeaderLength(len);
      var be := Strip(ToBeBytes(len, 8));
      [base + 55 + |be|] + be
  }

  lemma HeaderLength(len: nat)
    requires 0 < len < U64
    ensures len < Pow256(8)
    ensures Strip(ToBeBytes(len, 8)) == BigEndian(len) && 1 <= |BigEndian(len)| <= 8
  {
    PowWidths();
    StripPadded(len, 8);
    BigEndianLength(len, 8);
    NoLeadingZero(len);
  }

  /** Dropping the leading zeros of a padded number leaves its shortest form. */
  lemma StripPadded(v: nat, width: nat)
    requires v < Pow256(width)
    ensures Strip(ToBeBytes(v, width)) == BigEndian(v)
  {
    BigEndianLength(v, width);
    if v > 0 {
      NoLeadingZero(v);
    }
    StripZeros(width - |BigEndian(v)|, BigEndian(v));
  }

  lemma {:induction false} StripZeros(n: nat, b: seq<byte>)
    requires b != [] ==> b[0] != 0
    ensures Strip(Zeros(n) + b) == b
  {
    if n == 0 {
      assert Zeros(0) + b == b;
    } else {
      StripZeros(n - 1, b);
      assert (Zeros(n) + b)[1..] == Zeros(n - 1) + b;
    }
  }

  function EncodeBytes(b: seq<byte>): seq<byte>
    requires |b| < U64
  {
    if |b| == 1 && b[0] < 0x80 then [b[0]] else Header(0x80, |b|) + b
  }

  function EncodeUint(v: nat): seq<byte>
    requires v < U128
  {
    PowWidths();
    EncodeBytes(Strip(ToBeBytes(v, 16)))
  }

  function EncodeList(items: seq<seq<byte>>): seq<byte>
    requires |Join(items)| < U64
  {
    var payload := Join(items);
    Header(0xc0, |payload|) + payload
  }

  // ------------------------------------------------------------------ items

  datatype Item = Str(bytes: seq<byte>) | List(items: seq<Item>)

  /** Every string and every list payload is shorter than 2^64 bytes. */
  predicate Sized(t: Item)
    decreases t, 0
  {
    match t
    case Str(b) => |b| < U64
    case List(items) => AllSized(items) && |Join(EncodeAll(items))| < U64
  }

  predicate AllSized(items: seq<Item>)
    decreases items, 0
  {
    forall i :: 0 <= i < |items| ==> Sized(items[i])
  }

  function Encode(t: Item): seq<byte>
    requires Sized(t)
    decreases t, 1
  {
    match t
    case Str(b) => EncodeBytes(b)
    case List(items) => EncodeList(EncodeAll(items))
  }

  function EncodeAll(items: seq<Item>): seq<seq<byte>>
    requires AllSized(items)
    decreases items, 1
  {
    if items == [] then [] else [Encode(items[0])] + EncodeAll(items[1..])
  }

  // ------------------------------------------------------------------ the decoder

  /** The payload a header announces, and what follows it. The shortest length form is required. */
  function Payload(b: seq<byte>, base: nat): (r: Option<(seq<byte>, seq<byte>)>)
    requires b != [] && (base == 0x80 || base == 0xc0)
    requires base <= b[0] < base + 64
    ensures r.Some? ==> |r.value.0| < |b| && |r.value.1| < |b|
  {
    var short := b[0] - base;
    if short < 56 then Split(b[1..], short)
    else
      var k := short - 55;
      if |b| < 1 + k || b[1] == 0 || ValueOf(b[1..1 + k]) < 56 then None
      else Split(b[1 + k..], ValueOf(b[1..1 + k]))
  }

  function Split(b: seq<byte>, n: nat): Option<(seq<byte>, seq<byte>)> {
    if |b| < n then None else Some((b[..n], b[n..]))
  }

  /** The first item of `b` and what follows it. */
  function DecodeItem(b: seq<byte>): (r: Option<(Item, seq<byte>)>)
    ensures r.Some? ==> |r.value.1| < |b|
    decreases |b|, 0
  {
    if b == [] then None
    else if b[0] < 0x80 then Some((Str([b[0]]), b[1..]))
    else if b[0] < 0xc0 then
      match Payload(b, 0x80)
      case None => None
      case Some((s, rest)) => if |s| == 1 && s[0] < 0x80 then None else Some((Str(s), rest))
    else
      match Payload(b, 0xc0)
      case None => None
      case Some((p, rest)) =>
        match DecodeItems(p)
        case None => None
        case Some(items) => Some((List(items), rest))
  }

  /** All of `b` as a run of items. */
  function DecodeItems(b: seq<byte>): Option<seq<Item>>
    decreases |b|, 1
  {
    if b == [] then Some([])
    else
      match DecodeItem(b)
      case None => None
      case Some((t, rest)) =>
        match DecodeItems(rest)
        case None => None
        case Some(ts) => Some([t] + ts)
  }

  // ------------------------------------------------------------------ inversion

  lemma LongPayload(base: nat, n: nat, p: seq<byte>, rest: seq<byte>)
    requires base == 0x80 || base == 0xc0
    requires 56 <= n == |p| < U64
    ensures var b := [base + 55 + |BigEndian(n)|] + BigEndian(n) + (p + rest);
            && 1 <= |BigEndian(n)| <= 8
            && Payload(b, base) == Some((p, rest))
  {
    hide BigEndian, ValueOf, Strip, Header;
    HeaderLength(n);
    NoLeadingZero(n);
    ValueOfBigEndian(n);
    var be := BigEndian(n);
    var head := base + 55 + |be|;
    TakeApart(head, be, p + rest);
    assert [head] + be + (p + rest) == [head] + (be + (p + rest));
    SplitConcat(p, rest);
  }

  lemma TakeApart(head: byte, be: seq<byte>, more: seq<byte>)
    ensures var b := [head] + be + more;
            b[0] == head && b[1..1 + |be|] == be && b[1 + |be|..] == more && (be != [] ==> b[1] == be[0])
  {
  }

  lemma SplitConcat(p: seq<byte>, rest: seq<byte>)
    ensures Split(p + rest, |p|) == Some((p, rest))
  {
    assert (p + rest)[..|p|] == p && (p + rest)[|p|..] == rest;
  }

  lemma PayloadOfHeader(base: nat, p: seq<byte>, rest: seq<byte>)
    requires (base == 0x80 || base == 0xc0) && |p| < U64
    ensures var b := Header(base, |p|) + p + rest;
            b != [] && base <= b[0] < base + 64 && Payload(b, base) == Some((p, rest))
  {
    hide BigEndian, ValueOf, Strip, ToBeBytes, Split;
    if |p| < 56 {
      ShortPayload(base, p, rest);
    } else {
      LongHeader(base, |p|);
      LongPayload(base, |p|, p, rest);
      hide BigEndian, Payload, Header;
      ConcatAssoc(Header(base, |p|), p, rest);
    }
  }

  lemma LongHeader(base: nat, len: nat)
    requires (base == 0x80 || base == 0xc0) && 56 <= len < U64
    ensures Header(base, len) == [base + 55 + |BigEndian(len)|] + BigEndian(len)
  {
    hide BigEndian, Strip;
    HeaderLength(len);
  }

  lemma ShortPayload(base: nat, p: seq<byte>, rest: seq<byte>)
    requires (base == 0x80 || base == 0xc0) && |p| < 56
    ensures var b := Header(base, |p|) + p + rest;
            b[0] == base + |p| && Payload(b, base) == Some((p, rest))
  {
    hide BigEndian, ValueOf, Strip;
    var b := Header(base, |p|) + p + rest;
    assert b[1..] == p + rest;
    SplitConcat(p, rest);
  }

  /** Whatever follows it, an encoded item is read back exactly. */
  lemma {:induction false} DecodeEncode(t: Item, rest: seq<byte>)
    requires Sized(t)
    ensures DecodeItem(Encode(t) + rest) == Some((t, rest))
    decreases t, 1
  {
    match t
    case Str(s) =>
      if |s| == 1 && s[0] < 0x80 {
        assert s == [s[0]];
        assert (Encode(t) + rest)[1..] == rest;
      } else {
        hide Header, Payload;
        PayloadOfHeader(0x80, s, rest);
      }
    case List(items) =>
      var p := Join(EncodeAll(items));
      DecodeEncodeAll(items);
      hide Header, Payload, DecodeItems, EncodeAll;
      PayloadOfHeader(0xc0, p, rest);
  }

  lemma {:induction false} DecodeEncodeAll(items: seq<Item>)
    requires AllSized(items)
    ensures DecodeItems(Join(EncodeAll(items))) == Some(items)
    decreases items, 0
  {
    if items == [] {
      assert Join(EncodeAll(items)) == [];
    } else {
      hide DecodeItem, DecodeItems, Encode;
      var first, others := Encode(items[0]), Join(EncodeAll(items[1..]));
      JoinCons(first, EncodeAll(items[1..]));
      DecodeEncode(items[0], others);
      DecodeEncodeAll(items[1..]);
      EncodeNotEmpty(items[0]);
      DecodeItemsCons(first + others, items[0], others, items[1..]);
      assert items == [items[0]] + items[1..];
    }
  }

  lemma DecodeItemsCons(b: seq<byte>, t: Item, rest: seq<byte>, ts: seq<Item>)
    requires b != [] && DecodeItem(b) == Some((t, rest)) && DecodeItems(rest) == Some(ts)
    ensures DecodeItems(b) == Some([t] + ts)
  {
    hide DecodeItem;
  }

  lemma EncodeNotEmpty(t: Item)
    requires Sized(t)
    ensures Encode(t) != []
  {
  }

  lemma HeaderOfPayload(b: seq<byte>, base: nat)
    requires b != [] && (base == 0x80 || base == 0xc0)
    requires base <= b[0] < base + 64 && Payload(b, base).Some?
    ensures var (p, rest) := Payload(b, base).value;
            |p| < U64 && b == Header(base, |p|) + p + rest
  {
    hide BigEndian, ValueOf, Strip, Pow256;
    var short := b[0] - base;
    if short < 56 {
      var p := b[1..][..short];
      assert b == [b[0]] + p + b[1..][short..];
    } else {
      var k := short - 55;
      var be := b[1..1 + k];
      LengthBytes(be);
      var n := ValueOf(be);
      var p, rest := b[1 + k..][..n], b[1 + k..][n..];
      assert Header(base, n) == [b[0]] + be;
      assert b == [b[0]] + be + (p + rest);
      ConcatAssoc([b[0]] + be, p, rest);
    }
  }

  lemma LengthBytes(be: seq<byte>)
    requires 1 <= |be| <= 8 && be[0] != 0 && 56 <= ValueOf(be)
    ensures ValueOf(be) < U64 && Strip(ToBeBytes(ValueOf(be), 8)) == be
  {
    ValueBound(be);
    PowWidths();
    PowMonotone(|be|, 8);
    BigEndianOfValue(be);
    HeaderLength(ValueOf(be));
  }

  lemma {:induction false} PowMonotone(a: nat, b: nat)
    requires a <= b
    ensures Pow256(a) <= Pow256(b)
    decreases b
  {
    if a < b {
      PowMonotone(a, b - 1);
    }
  }

  /** Whatever the decoder accepts is the encoding of what it returns: there is only one. */
  lemma {:induction false} EncodeDecode(b: seq<byte>)
    requires DecodeItem(b).Some?
    ensures var (t, rest) := DecodeItem(b).value;
            Sized(t) && b == Encode(t) + rest
    decreases |b|, 0
  {
    if b[0] < 0x80 {
      assert b == [b[0]] + b[1..];
    } else if b[0] < 0xc0 {
      HeaderOfPayload(b, 0x80);
    } else {
      HeaderOfPayload(b, 0xc0);
      EncodeDecodeAll(Payload(b, 0xc0).value.0);
    }
  }

  lemma {:induction false} EncodeDecodeAll(b: seq<byte>)
    requires DecodeItems(b).Some?
    ensures var ts := DecodeItems(b).value;
            AllSized(ts) && Join(EncodeAll(ts)) == b
    decreases |b|, 1
  {
    if b != [] {
      EncodeDecode(b);
      var (t, rest) := DecodeItem(b).value;
      EncodeDecodeAll(rest);
      var ts := DecodeItems(rest).value;
      assert ([t] + ts)[1..] == ts;
      assert EncodeAll([t] + ts)[1..] == EncodeAll(ts);
    }
  }

  /** No encoding is a proper prefix of another, and different items have different encodings. */
  lemma PrefixFree(t: Item, u: Item, x: seq<byte>, y: seq<byte>)
    requires Sized(t) && Sized(u) && Encode(t) + x == Encode(u) + y
    ensures t == u && x == y
  {
    DecodeEncode(t, x);
    DecodeEncode(u, y);
  }
}
