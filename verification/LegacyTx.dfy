/** EIP-155 legacy transactions: what gets signed, what gets sent, and what they determine. */
module LegacyTx {
  import opened Wrappers
  import opened Bytes
  import opened Rlp

  type uint128 = x: int | 0 <= x < U128
  type Scalar = s: seq<byte> | |s| == 32 witness Zeros(32)

  /** A Rust vector holds fewer than 2^63 bytes. */
  const MAX_DATA: nat := 0x8000_0000_0000_0000

  type Calldata = d: seq<byte> | |d| < MAX_DATA

  datatype Tx = Tx(
    nonce: uint64,
    gasPrice: uint128,
    gasLimit: uint64,
    to: Option<Address>,
    value: uint128,
    data: Calldata,
    chainId: uint64)

  datatype Signature = Signature(r: Scalar, s: Scalar, recid: int)

  /** Recovery ids are 0 or 1. */
  predicate Recoverable(sig: Signature) {
    sig.recid == 0 || sig.recid == 1
  }

  function BaseFields(tx: Tx): (r: seq<seq<byte>>)
    ensures |r| == 6
  {
    [EncodeUint(tx.nonce), EncodeUint(tx.gasPrice), EncodeUint(tx.gasLimit), EncodeBytes(ToBytes(tx.to)),
     EncodeUint(tx.value), EncodeBytes(tx.data)]
  }

  /** 2 * chain id + 35 + recovery id, which never overflows 128 bits. */
  function VOf(tx: Tx, sig: Signature): (v: uint128)
    requires Recoverable(sig)
    ensures 35 <= v && (v - 35) / 2 == tx.chainId && (v - 35) % 2 == sig.recid
  {
    tx.chainId * 2 + 35 + sig.recid
  }

  // ------------------------------------------------------------------ as items

  function BaseItems(tx: Tx): (r: seq<Item>)
    ensures |r| == 6 && forall i :: 0 <= i < 6 ==> r[i].Str?
  {
    [Str(BigEndian(tx.nonce)), Str(BigEndian(tx.gasPrice)), Str(BigEndian(tx.gasLimit)), Str(ToBytes(tx.to)),
     Str(BigEndian(tx.value)), Str(tx.data)]
  }

  function SigningItems(tx: Tx): seq<Item> {
    BaseItems(tx) + [Str(BigEndian(tx.chainId)), Str([]), Str([])]
  }

  function SignedItems(tx: Tx, sig: Signature): seq<Item>
    requires Recoverable(sig)
  {
    BaseItems(tx) + [Str(BigEndian(VOf(tx, sig))), Str(Strip(sig.r)), Str(Strip(sig.s))]
  }

  lemma UintItem(v: uint128)
    ensures |BigEndian(v)| <= 16 && EncodeUint(v) == EncodeBytes(BigEndian(v)) == Encode(Str(BigEndian(v)))
  {
    PowWidths();
    StripPadded(v, 16);
    BigEndianLength(v, 16);
  }

  lemma EncodedLength(b: seq<byte>)
    requires |b| < U64
    ensures |EncodeBytes(b)| <= |b| + 9
  {
    hide Strip;
    if |b| >= 56 {
      HeaderLength(|b|);
    }
  }

  lemma {:induction false} JoinLength(pieces: seq<seq<byte>>, bound: nat)
    requires forall i :: 0 <= i < |pieces| ==> |pieces[i]| <= bound
    ensures |Join(pieces)| <= |pieces| * bound
  {
    if pieces != [] {
      JoinLength(pieces[1..], bound);
    }
  }

  /** Six base fields and three short ones stay far below the 2^64 bytes of a list payload. */
  lemma FieldsFit(tx: Tx, tail: seq<seq<byte>>)
    requires |tail| == 3 && forall i :: 0 <= i < 3 ==> |tail[i]| <= 50
    ensures |Join(BaseFields(tx) + tail)| < U64
  {
    hide EncodeUint, EncodeBytes, Join, BigEndian;
    var f := BaseFields(tx);
    UintItem(tx.nonce);
    UintItem(tx.gasPrice);
    UintItem(tx.gasLimit);
    UintItem(tx.value);
    EncodedLength(BigEndian(tx.nonce));
    EncodedLength(BigEndian(tx.gasPrice));
    EncodedLength(BigEndian(tx.gasLimit));
    EncodedLength(BigEndian(tx.value));
    EncodedLength(ToBytes(tx.to));
    EncodedLength(tx.data);
    JoinLength(f[..5], 50);
    JoinLength(tail, 50);
    JoinAppend(f[..5], [f[5]] + tail);
    JoinCons(f[5], tail);
    assert f[..5] + ([f[5]] + tail) == f + tail;
  }

  function SigningTail(tx: Tx): seq<seq<byte>> {
    [EncodeUint(tx.chainId), EncodeUint(0), EncodeUint(0)]
  }

  lemma SigningTailShort(tx: Tx)
    ensures forall i :: 0 <= i < 3 ==> |SigningTail(tx)[i]| <= 50
  {
    hide EncodeUint, EncodeBytes, BigEndian;
    UintItem(tx.chainId);
    UintItem(0);
    EncodedLength(BigEndian(tx.chainId));
    EncodedLength(BigEndian(0));
  }

  /** The bytes whose hash is signed. */
  function Preimage(tx: Tx): seq<byte> {
    SigningTailShort(tx);
    FieldsFit(tx, SigningTail(tx));
    EncodeList(BaseFields(tx) + SigningTail(tx))
  }

  function SignedTail(tx: Tx, sig: Signature): seq<seq<byte>>
    requires Recoverable(sig)
  {
    [EncodeUint(VOf(tx, sig)), EncodeBytes(Strip(sig.r)), EncodeBytes(Strip(sig.s))]
  }

  lemma SignedTailShort(tx: Tx, sig: Signature)
    requires Recoverable(sig)
    ensures forall i :: 0 <= i < 3 ==> |SignedTail(tx, sig)[i]| <= 50
  {
    hide EncodeUint, EncodeBytes, BigEndian, Strip;
    UintItem(VOf(tx, sig));
    EncodedLength(BigEndian(VOf(tx, sig)));
    EncodedLength(Strip(sig.r));
    EncodedLength(Strip(sig.s));
  }

  /** The raw transaction that `sign` returns, given the signature of its digest. */
  function Raw(tx: Tx, sig: Signature): seq<byte>
    requires Recoverable(sig)
  {
    SignedTailShort(tx, sig);
    FieldsFit(tx, SignedTail(tx, sig));
    EncodeList(BaseFields(tx) + SignedTail(tx, sig))
  }

  // ------------------------------------------------------------------ as encoded items

  /** A list of strings is encoded string by string. */
  lemma {:induction false} StringsEncoded(pieces: seq<seq<byte>>, items: seq<Item>)
    requires |pieces| == |items|
    requires forall i :: 0 <= i < |items| ==>
               items[i].Str? && |items[i].bytes| < U64 && pieces[i] == EncodeBytes(items[i].bytes)
    ensures AllSized(items) && EncodeAll(items) == pieces
    decreases |items|
  {
    hide EncodeBytes;
    if items != [] {
      StringsEncoded(pieces[1..], items[1..]);
    }
  }

  lemma BaseEncoded(tx: Tx, i: nat)
    requires i < 6
    ensures var t := BaseItems(tx)[i]; |t.bytes| < U64 && BaseFields(tx)[i] == EncodeBytes(t.bytes)
  {
    hide EncodeUint, EncodeBytes, BigEndian;
    UintItem(tx.nonce);
    UintItem(tx.gasPrice);
    UintItem(tx.gasLimit);
    UintItem(tx.value);
  }

  lemma FieldsEncoded(tx: Tx, tail: seq<seq<byte>>, items: seq<Item>)
    requires |tail| == |items| == 3 && |Join(BaseFields(tx) + tail)| < U64
    requires forall i :: 0 <= i < 3 ==>
               items[i].Str? && |items[i].bytes| < U64 && tail[i] == EncodeBytes(items[i].bytes)
    ensures Sized(List(BaseItems(tx) + items))
    ensures EncodeList(BaseFields(tx) + tail) == Encode(List(BaseItems(tx) + items))
  {
    hide EncodeBytes, BaseFields, BigEndian, Join, Header;
    var pieces, all := BaseFields(tx) + tail, BaseItems(tx) + items;
    forall i | 0 <= i < 9
      ensures all[i].Str? && |all[i].bytes| < U64 && pieces[i] == EncodeBytes(all[i].bytes)
    {
      if i < 6 {
        BaseEncoded(tx, i);
      }
    }
    StringsEncoded(pieces, all);
  }

  lemma PreimageEncoded(tx: Tx)
    ensures Sized(List(SigningItems(tx))) && Preimage(tx) == Encode(List(SigningItems(tx)))
  {
    hide EncodeUint, EncodeBytes, BaseFields, BaseItems, BigEndian, EncodeList, Encode, Sized;
    SigningTailShort(tx);
    FieldsFit(tx, SigningTail(tx));
    UintItem(tx.chainId);
    UintItem(0);
    ZeroItem();
    FieldsEncoded(tx, SigningTail(tx), [Str(BigEndian(tx.chainId)), Str([]), Str([])]);
  }

  lemma ZeroItem()
    ensures BigEndian(0) == []
  {
  }

  lemma RawEncoded(tx: Tx, sig: Signature)
    requires Recoverable(sig)
    ensures Sized(List(SignedItems(tx, sig))) && Raw(tx, sig) == Encode(List(SignedItems(tx, sig)))
  {
    hide EncodeUint, EncodeBytes, BaseFields, BaseItems, BigEndian, EncodeList, Encode, Sized, Strip;
    SignedTailShort(tx, sig);
    FieldsFit(tx, SignedTail(tx, sig));
    UintItem(VOf(tx, sig));
    FieldsEncoded(tx, SignedTail(tx, sig), [Str(BigEndian(VOf(tx, sig))), Str(Strip(sig.r)), Str(Strip(sig.s))]);
  }

  // ------------------------------------------------------------------ what is signed determines the transaction

  lemma SameNumber(a: nat, b: nat)
    requires BigEndian(a) == BigEndian(b)
    ensures a == b
  {
    ValueOfBigEndian(a);
    ValueOfBigEndian(b);
  }

  /** The six base fields determine everything but the chain id, including a missing recipient. */
  ghost predicate SameBase(tx: Tx, other: Tx) {
    && tx.nonce == other.nonce && tx.gasPrice == other.gasPrice && tx.gasLimit == other.gasLimit
    && tx.to == other.to && tx.value == other.value && tx.data == other.data
  }

  lemma BaseDetermined(tx: Tx, other: Tx)
    ensures BaseItems(tx) == BaseItems(other) <==> SameBase(tx, other)
  {
    hide BigEndian;
    if BaseItems(tx) == BaseItems(other) {
      var a, b := BaseItems(tx), BaseItems(other);
      assert a[0] == b[0] && a[1] == b[1] && a[2] == b[2] && a[3] == b[3] && a[4] == b[4] && a[5] == b[5];
      SameNumber(tx.nonce, other.nonce);
      SameNumber(tx.gasPrice, other.gasPrice);
      SameNumber(tx.gasLimit, other.gasLimit);
      SameNumber(tx.value, other.value);
    }
  }

  lemma SplitItems(a: seq<Item>, b: seq<Item>, x: seq<Item>, y: seq<Item>)
    requires |a| == |b| && a + x == b + y
    ensures a == b && x == y
  {
    assert a == (a + x)[..|a|] && b == (b + y)[..|b|];
    assert x == (a + x)[|a|..] && y == (b + y)[|b|..];
  }

  /** Two encoded lists are equal exactly when their items are. */
  lemma SameList(ts: seq<Item>, us: seq<Item>)
    requires Sized(List(ts)) && Sized(List(us))
    ensures Encode(List(ts)) == Encode(List(us)) <==> ts == us
  {
    hide Encode, Sized;
    if Encode(List(ts)) == Encode(List(us)) {
      PrefixFree(List(ts), List(us), [], []);
    }
  }

  /** Equal signing preimages: equal transactions, in every field. */
  lemma PreimageInjective(tx: Tx, other: Tx)
    requires Preimage(tx) == Preimage(other)
    ensures tx == other
  {
    hide Preimage, Encode, Sized, BaseItems, BigEndian;
    PreimageEncoded(tx);
    PreimageEncoded(other);
    SameList(SigningItems(tx), SigningItems(other));
    var x, y := [Str(BigEndian(tx.chainId)), Str([]), Str([])], [Str(BigEndian(other.chainId)), Str([]), Str([])];
    SplitItems(BaseItems(tx), BaseItems(other), x, y);
    BaseDetermined(tx, other);
    assert x[0] == y[0];
    SameNumber(tx.chainId, other.chainId);
  }

  ghost predicate AllZero(b: seq<byte>) {
    forall i :: 0 <= i < |b| ==> b[i] == 0
  }

  /** A raw transaction is another's signing preimage exactly when its signature is all zero and
      the other repeats its base fields under the chain id v. */
  lemma RawAsPreimage(tx: Tx, sig: Signature, other: Tx)
    requires Recoverable(sig)
    ensures Raw(tx, sig) == Preimage(other) <==>
            AllZero(sig.r) && AllZero(sig.s) && SameBase(tx, other) && other.chainId == VOf(tx, sig)
  {
    hide Preimage, Raw, Encode, Sized, BaseItems, BigEndian, SameBase, Strip;
    PreimageEncoded(other);
    RawEncoded(tx, sig);
    SameList(SignedItems(tx, sig), SigningItems(other));
    BaseDetermined(tx, other);
    StripZero(sig.r);
    StripZero(sig.s);
    var x := [Str(BigEndian(VOf(tx, sig))), Str(Strip(sig.r)), Str(Strip(sig.s))];
    var y := [Str(BigEndian(other.chainId)), Str([]), Str([])];
    if BaseItems(tx) + x == BaseItems(other) + y {
      SplitItems(BaseItems(tx), BaseItems(other), x, y);
      assert x[0] == y[0] && x[1] == y[1] && x[2] == y[2];
      SameNumber(VOf(tx, sig), other.chainId);
    }
  }

  lemma StripZero(b: seq<byte>)
    ensures Strip(b) == [] <==> AllZero(b)
  {
  }

  // ------------------------------------------------------------------ reading a signed transaction

  /** What the nine items of a raw transaction say, if they are the items of one. */
  function FromItems(ts: seq<Item>): Option<(Tx, Signature)> {
    if |ts| != 9 || exists i :: 0 <= i < 9 && ts[i].List? then None
    else
      var v := ValueOf(ts[6].bytes);
      if |ts[3].bytes| != 0 && |ts[3].bytes| != 20 then None
      else if |ts[5].bytes| >= MAX_DATA || |ts[7].bytes| > 32 || |ts[8].bytes| > 32 then None
      else if v < 35 || (v - 35) / 2 >= U64 then None
      else if ValueOf(ts[0].bytes) >= U64 || ValueOf(ts[1].bytes) >= U128 || ValueOf(ts[2].bytes) >= U64 then None
      else if ValueOf(ts[4].bytes) >= U128 then None
      else
        Some((Tx(ValueOf(ts[0].bytes), ValueOf(ts[1].bytes), ValueOf(ts[2].bytes),
                 if ts[3].bytes == [] then None else Some(ts[3].bytes),
                 ValueOf(ts[4].bytes), ts[5].bytes, (v - 35) / 2),
              Signature(PadLeft(ts[7].bytes, 32), PadLeft(ts[8].bytes, 32), (v - 35) % 2)))
  }

  function DecodeRaw(raw: seq<byte>): Option<(Tx, Signature)> {
    match DecodeItem(raw)
    case None => None
    case Some((t, rest)) => if t.Str? || rest != [] then None else FromItems(t.items)
  }

  lemma ItemsSay(tx: Tx, sig: Signature)
    requires Recoverable(sig)
    ensures FromItems(SignedItems(tx, sig)) == Some((tx, sig))
  {
    hide BigEndian, ValueOf, Strip, PadLeft;
    ValueOfBigEndian(tx.nonce);
    ValueOfBigEndian(tx.gasPrice);
    ValueOfBigEndian(tx.gasLimit);
    ValueOfBigEndian(tx.value);
    ValueOfBigEndian(VOf(tx, sig));
    PadStrip(sig.r);
    PadStrip(sig.s);
    var ts := SignedItems(tx, sig);
    assert ts == [ts[0], ts[1], ts[2], ts[3], ts[4], ts[5], ts[6], ts[7], ts[8]];
  }

  /** Decoding the raw transaction recovers the transaction, both scalars at full width, and the
      chain id and recovery id from v. */
  lemma SignedRoundTrip(tx: Tx, sig: Signature)
    requires Recoverable(sig)
    ensures DecodeRaw(Raw(tx, sig)) == Some((tx, sig))
  {
    hide DecodeItem, Encode, FromItems, Raw, SignedItems, Sized;
    RawEncoded(tx, sig);
    ItemsSay(tx, sig);
    var raw := Raw(tx, sig);
    DecodeEncode(List(SignedItems(tx, sig)), []);
    assert raw + [] == raw;
  }
}
