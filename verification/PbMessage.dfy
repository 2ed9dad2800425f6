/** Messages: a reader folds the fields of a buffer, one by one, into a result. */
module PbMessage {
  import opened Wrappers
  import opened Bytes
  import opened PbWire

  datatype DecodeError = BadWire | BadAddress | UnknownOutcome(code: nat) | NoOutcome

  /** Fold every field of `b` into `m`, stopping at the first error. */
  function Fold<M>(b: seq<byte>, m: M, apply: (M, Field) -> Result<M, DecodeError>): Result<M, DecodeError>
    decreases |b|
  {
    NextConsumes(b);
    match Next(b)
    case End => Ok(m)
    case Malformed => Err(BadWire)
    case Got(f, rest) =>
      match apply(m, f)
      case Err(e) => Err(e)
      case Ok(n) => Fold(rest, n, apply)
  }

  /** Does the buffer end at a field boundary? */
  predicate Whole(b: seq<byte>)
    decreases |b|
  {
    NextConsumes(b);
    match Next(b)
    case End => true
    case Malformed => false
    case Got(_, rest) => Whole(rest)
  }

  /** All fields of the buffer, in order; the fixed-width ones are not listed. */
  function AllFields(b: seq<byte>): Option<seq<Field>>
    decreases |b|
  {
    NextConsumes(b);
    match Next(b)
    case End => Some([])
    case Malformed => None
    case Got(f, rest) =>
      match AllFields(rest)
      case None => None
      case Some(fs) => Some([f] + fs)
  }

  /** Reading ends after at most half as many fields as there are bytes. */
  lemma {:induction false} FieldCount(b: seq<byte>)
    ensures AllFields(b).Some? ==> 2 * |AllFields(b).value| <= |b|
    decreases |b|
  {
    NextConsumes(b);
    if Next(b).Got? {
      FieldCount(Next(b).rest);
    }
  }

  /** Whole fields first, then the rest. */
  lemma {:induction false} FoldConcat<M>(a: seq<byte>, b: seq<byte>, m: M, apply: (M, Field) -> Result<M, DecodeError>)
    requires Whole(a)
    ensures Fold(a + b, m, apply) ==
            match Fold(a, m, apply)
            case Err(e) => Err(e)
            case Ok(n) => Fold(b, n, apply)
    decreases |a|
  {
    NextConsumes(a);
    NextExtends(a, b);
    if Next(a).Got? {
      var n := apply(m, Next(a).field);
      if n.Ok? {
        FoldConcat(Next(a).rest, b, n.value, apply);
      }
    }
  }

  lemma {:induction false} WholeConcat(a: seq<byte>, b: seq<byte>)
    requires Whole(a)
    ensures Whole(a + b) == Whole(b)
    decreases |a|
  {
    NextConsumes(a);
    NextExtends(a, b);
    if Next(a).Got? {
      WholeConcat(Next(a).rest, b);
    }
  }

  // ------------------------------------------------------------------ what the writer writes

  lemma FoldNothing<M>(m: M, apply: (M, Field) -> Result<M, DecodeError>)
    ensures Whole([]) && Fold([], m, apply) == Ok(m)
  {
  }

  lemma FoldUint<M>(num: nat, v: uint64, m: M, apply: (M, Field) -> Result<M, DecodeError>)
    requires num <= MAX_FIELD
    ensures Whole(UintField(num, v))
    ensures Fold(UintField(num, v), m, apply) == if v == 0 then Ok(m) else apply(m, UintValue(num, v))
  {
    if v != 0 {
      NextUint(num, v, []);
      assert UintField(num, v) + [] == UintField(num, v);
      var n := apply(m, UintValue(num, v));
      assert Next([]) == End;
    }
  }

  lemma FoldRawAlways<M>(num: nat, raw: seq<byte>, m: M, apply: (M, Field) -> Result<M, DecodeError>)
    requires num <= MAX_FIELD && |raw| <= MAX_LENGTH
    ensures Whole(RawAlwaysField(num, raw))
    ensures Fold(RawAlwaysField(num, raw), m, apply) == apply(m, RawValue(num, raw))
  {
    NextRaw(num, raw, []);
    assert RawAlwaysField(num, raw) + [] == RawAlwaysField(num, raw);
    assert Next([]) == End;
  }

  lemma FoldRaw<M>(num: nat, raw: seq<byte>, m: M, apply: (M, Field) -> Result<M, DecodeError>)
    requires num <= MAX_FIELD && |raw| <= MAX_LENGTH
    ensures Whole(RawField(num, raw))
    ensures Fold(RawField(num, raw), m, apply) == if raw == [] then Ok(m) else apply(m, RawValue(num, raw))
  {
    if raw != [] {
      FoldRawAlways(num, raw, m, apply);
    }
  }

  /** One more piece read. */
  lemma FoldPiece<M>(piece: seq<byte>, pieces: seq<seq<byte>>, m: M, n: M, apply: (M, Field) -> Result<M, DecodeError>)
    requires Whole(piece) && Fold(piece, m, apply) == Ok(n)
    ensures Fold(Join([piece] + pieces), m, apply) == Fold(Join(pieces), n, apply)
  {
    assert ([piece] + pieces)[1..] == pieces;
    FoldConcat(piece, Join(pieces), m, apply);
  }

  /** The three ways to write a field. */
  datatype Write = Uint(num: nat, v: uint64) | Raw(num: nat, raw: seq<byte>) | RawAlways(num: nat, raw: seq<byte>)

  predicate Writable(w: Write) {
    w.num <= MAX_FIELD && (w.Uint? || |w.raw| <= MAX_LENGTH)
  }

  function Written(w: Write): seq<byte> {
    match w
    case Uint(num, v) => UintField(num, v)
    case Raw(num, raw) => RawField(num, raw)
    case RawAlways(num, raw) => RawAlwaysField(num, raw)
  }

  function WrittenAll(ws: seq<Write>): seq<byte> {
    if ws == [] then [] else Written(ws[0]) + WrittenAll(ws[1..])
  }

  /** What proto3 keeps of a write: zero numbers and empty strings are omitted, except in repeated
      or nested elements. */
  function KeptOne(w: Write): seq<Field> {
    match w
    case Uint(num, v) => if v == 0 then [] else [UintValue(num, v)]
    case Raw(num, raw) => if raw == [] then [] else [RawValue(num, raw)]
    case RawAlways(num, raw) => [RawValue(num, raw)]
  }

  function Kept(ws: seq<Write>): seq<Field> {
    if ws == [] then [] else KeptOne(ws[0]) + Kept(ws[1..])
  }

  lemma ReadWritten(w: Write, rest: seq<byte>)
    requires Writable(w)
    ensures if KeptOne(w) == [] then Written(w) + rest == rest
            else Next(Written(w) + rest) == Got(KeptOne(w)[0], rest)
  {
    if KeptOne(w) == [] {
      assert [] + rest == rest;
    } else if w.Uint? {
      NextUint(w.num, w.v, rest);
    } else {
      NextRaw(w.num, w.raw, rest);
    }
  }

  lemma AllFieldsGot(b: seq<byte>, f: Field, rest: seq<byte>, fs: seq<Field>)
    requires Next(b) == Got(f, rest) && AllFields(rest) == Some(fs)
    ensures AllFields(b) == Some([f] + fs)
  {
  }

  /** Reading any sequence of writes gives exactly the fields that were not omitted, in order. */
  lemma {:induction false} WriteReadInverse(ws: seq<Write>)
    requires forall i :: 0 <= i < |ws| ==> Writable(ws[i])
    ensures AllFields(WrittenAll(ws)) == Some(Kept(ws))
    decreases |ws|
  {
    if ws != [] {
      hide Next, Written, Writable, KeptOne, AllFields;
      WriteReadInverse(ws[1..]);
      OneMoreWrite(ws[0], WrittenAll(ws[1..]), Kept(ws[1..]));
    }
  }

  lemma OneMoreWrite(w: Write, rest: seq<byte>, fields: seq<Field>)
    requires Writable(w) && AllFields(rest) == Some(fields)
    ensures AllFields(Written(w) + rest) == Some(KeptOne(w) + fields)
  {
    hide Next, Written, AllFields;
    ReadWritten(w, rest);
    if KeptOne(w) == [] {
      assert [] + fields == fields;
    } else {
      assert KeptOne(w) == [KeptOne(w)[0]];
      AllFieldsGot(Written(w) + rest, KeptOne(w)[0], rest, fields);
    }
  }

  // ------------------------------------------------------------------ unknown fields

  /** A field that a reader may not know. */
  datatype Extra =
    | ExtraUint(num: nat, v: uint64)
    | ExtraBytes(num: nat, raw: seq<byte>)
    | Extra64(num: nat, raw: seq<byte>)
    | Extra32(num: nat, raw: seq<byte>)

  predicate ValidExtra(x: Extra) {
    && x.num <= MAX_FIELD
    && match x
       case ExtraUint(_, _) => true
       case ExtraBytes(_, raw) => |raw| <= MAX_LENGTH
       case Extra64(_, raw) => |raw| == 8
       case Extra32(_, raw) => |raw| == 4
  }

  function ExtraWire(x: Extra): nat {
    match x
    case ExtraUint(_, _) => VARINT
    case ExtraBytes(_, _) => BYTES
    case Extra64(_, _) => FIXED64
    case Extra32(_, _) => FIXED32
  }

  function ExtraField(x: Extra): seq<byte> {
    match x
    case ExtraUint(num, v) => Varint(num * 8 + VARINT) + Varint(v)
    case ExtraBytes(num, raw) => RawAlwaysField(num, raw)
    case Extra64(num, raw) => Varint(num * 8 + FIXED64) + raw
    case Extra32(num, raw) => Varint(num * 8 + FIXED32) + raw
  }

  lemma ReadExtraUint(num: nat, v: uint64)
    requires num <= MAX_FIELD
    ensures Next(Varint(num * 8 + VARINT) + Varint(v)) == Got(UintValue(num, v), [])
  {
    VarintRoundTrip(num * 8 + VARINT, Varint(v));
    VarintRoundTrip(v, []);
    assert Varint(v) + [] == Varint(v);
  }

  lemma ReadExtraFixed(num: nat, wire: nat, raw: seq<byte>)
    requires num <= MAX_FIELD
    requires (wire == FIXED64 && |raw| == 8) || (wire == FIXED32 && |raw| == 4)
    ensures Next(Varint(num * 8 + wire) + raw) == End
  {
    hide ReadVarint;
    VarintRoundTrip(num * 8 + wire, raw);
    assert raw[|raw|..] == [];
  }

  lemma ReadExtra(x: Extra)
    requires ValidExtra(x)
    ensures var r := Next(ExtraField(x));
            match x
            case ExtraUint(num, v) => r == Got(UintValue(num, v), [])
            case ExtraBytes(num, raw) => r == Got(RawValue(num, raw), [])
            case Extra64(_, _) => r == End
            case Extra32(_, _) => r == End
  {
    match x
    case ExtraUint(num, v) => ReadExtraUint(num, v);
    case ExtraBytes(num, raw) =>
      NextRaw(num, raw, []);
      assert RawAlwaysField(num, raw) + [] == RawAlwaysField(num, raw);
    case Extra64(num, raw) => ReadExtraFixed(num, FIXED64, raw);
    case Extra32(num, raw) => ReadExtraFixed(num, FIXED32, raw);
  }

  /** What a reader lists of one extra field. */
  lemma FieldsOfExtra(x: Extra)
    requires ValidExtra(x)
    ensures AllFields(ExtraField(x)).Some?
    ensures forall f :: f in AllFields(ExtraField(x)).value ==> f.num == x.num && f.wire == ExtraWire(x)
  {
    hide ExtraField;
    ReadExtra(x);
    assert AllFields([]) == Some([]);
  }

  /** Bytes that hold whole fields, all of them ignored: any number of fields, fixed-width ones too, in any
      encoding the reader accepts. */
  ghost predicate AllIgnored<M(!new)>(x: seq<byte>, apply: (M, Field) -> Result<M, DecodeError>) {
    AllFields(x).Some? && forall f, m :: f in AllFields(x).value ==> apply(m, f) == Ok(m)
  }

  lemma {:induction false} IgnoredFolds<M(!new)>(x: seq<byte>, m: M, apply: (M, Field) -> Result<M, DecodeError>)
    requires AllIgnored(x, apply)
    ensures Whole(x) && Fold(x, m, apply) == Ok(m)
    decreases |x|
  {
    NextConsumes(x);
    if Next(x).Got? {
      var f, rest := Next(x).field, Next(x).rest;
      assert AllFields(x).value == [f] + AllFields(rest).value;
      assert f in AllFields(x).value && forall g :: g in AllFields(rest).value ==> g in AllFields(x).value;
      IgnoredFolds(rest, m, apply);
    }
  }

  /** Ignored fields inserted at any field boundary change nothing, whatever comes after them. */
  lemma InsertionInvisible<M(!new)>(a: seq<byte>, x: seq<byte>, b: seq<byte>, m: M, apply: (M, Field) -> Result<M,
                             DecodeError>)
    requires Whole(a) && AllIgnored(x, apply)
    ensures Fold(a + x + b, m, apply) == Fold(a + b, m, apply)
  {
    hide AllIgnored;
    ConcatAssoc(a, x, b);
    FoldConcat(a, x + b, m, apply);
    FoldConcat(a, b, m, apply);
    var mid := Fold(a, m, apply);
    if mid.Ok? {
      IgnoredFolds(x, mid.value, apply);
      FoldConcat(x, b, mid.value, apply);
    }
  }

  // ------------------------------------------------------------------ the writer and reader objects

  class Buf {
    var b: seq<byte>

    constructor ()
      ensures b == []
    {
      b := [];
    }

    /** Values and lengths are below 2^64 in the program; nothing here depends on it. */
    method AppendVarint(value: nat)
      modifies this
      ensures b == old(b) + Varint(value)
    {
      var v := value;
      while v >= 0x80
        invariant 0 <= v
        invariant b + Varint(v) == old(b) + Varint(value)
      {
        ghost var before := b;
        b := b + [v % 128 + 128];
        assert b + Varint(v / 128) == before + Varint(v);
        v := v / 128;
      }
      b := b + [v];
    }

    method AppendUint(field: nat, v: nat)
      modifies this
      ensures b == old(b) + UintField(field, v)
    {
      hide Varint;
      if v == 0 {
        return;
      }
      AppendVarint(field * 8 + VARINT);
      AppendVarint(v);
      ConcatAssoc(old(b), Varint(field * 8 + VARINT), Varint(v));
    }

    method AppendRaw(field: nat, v: seq<byte>)
      modifies this
      ensures b == old(b) + RawField(field, v)
    {
      if |v| == 0 {
        return;
      }
      AppendRawAlways(field, v);
    }

    method AppendRawAlways(field: nat, v: seq<byte>)
      modifies this
      ensures b == old(b) + RawAlwaysField(field, v)
    {
      hide Varint;
      AppendVarint(field * 8 + BYTES);
      AppendVarint(|v|);
      b := b + v;
    }
  }

  class Reader {
    var b: seq<byte>

    constructor (b: seq<byte>)
      ensures this.b == b
    {
      this.b := b;
    }

    method TakeVarint() returns (r: Option<uint64>)
      modifies this
      ensures match ReadVarint(old(b))
              case Truncated => r == None
              case Value(v, rest) => r == Some(v) && b == rest
    {
      var v, i := 0, 0;
      Pow128Values();
      while i < 10
        invariant i <= 10 && 0 <= v < Pow128(i) && v < U64
        invariant ReadVarintFrom(b, i, v) == ReadVarint(old(b))
      {
        if |b| == 0 {
          return None;
        }
        var c := b[0];
        b := b[1..];
        v, i := Collect(v, c, i), i + 1;
        if c < 0x80 {
          return Some(v);
        }
      }
      r := None;
    }

    /** The next field, a clean end, or an error. */
    method NextField() returns (r: NextResult)
      modifies this
      ensures match Next(old(b))
              case End => r == End
              case Malformed => r == Malformed
              case Got(f, rest) => r == Got(f, b) && b == rest
    {
      while |b| > 0
        invariant Next(b) == Next(old(b))
        decreases |b|
      {
        var tag := TakeVarint();
        if tag.None? {
          return Malformed;
        }
        var num, wire := tag.value / 8, tag.value % 8;
        if wire == VARINT {
          var v := TakeVarint();
          return if v.None? then Malformed else Got(UintValue(num, v.value), b);
        } else if wire == BYTES {
          var n := TakeVarint();
          if n.None? || n.value > |b| || n.value > MAX_LENGTH {
            return Malformed;
          }
          var raw := b[..n.value];
          b := b[n.value..];
          return Got(RawValue(num, raw), b);
        } else if wire == FIXED64 || wire == FIXED32 {
          var n := if wire == FIXED32 then 4 else 8;
          if |b| < n {
            return Malformed;
          }
          b := b[n..];
        } else {
          return Malformed;
        }
      }
      r := End;
    }
  }
}
