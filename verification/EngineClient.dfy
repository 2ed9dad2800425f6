/** The client's encoder and decoders, as they run: appending to a buffer, looping over a reader. */
module EngineClient {
  import opened Wrappers
  import opened Bytes
  import opened PbWire
  import opened PbMessage
  import opened EngineResponse
  import opened EngineRequest

  // ------------------------------------------------------------------ numbers

  function Pow2(k: nat): (p: nat)
    ensures 0 < p
  {
    if k == 0 then 1 else 2 * Pow2(k - 1)
  }

  function BitLen(v: nat): nat {
    if v == 0 then 0 else 1 + BitLen(v / 2)
  }

  lemma {:induction false} BitLenBound(v: nat, k: nat)
    ensures BitLen(v) <= k <==> v < Pow2(k)
    decreases v
  {
    if v > 0 && k > 0 {
      BitLenBound(v / 2, k - 1);
    }
  }

  lemma {:induction false} Pow2Bytes(k: nat)
    ensures Pow2(8 * k) == Pow256(k)
  {
    if k > 0 {
      Pow2Bytes(k - 1);
      var p := Pow2(8 * k - 8);
      assert Pow2(8 * k - 4) == 16 * p by {
        assert Pow2(8 * k - 7) == 2 * p && Pow2(8 * k - 6) == 4 * p && Pow2(8 * k - 5) == 8 * p;
      }
      assert Pow2(8 * k) == 256 * p by {
        assert Pow2(8 * k - 3) == 32 * p && Pow2(8 * k - 2) == 64 * p && Pow2(8 * k - 1) == 128 * p;
      }
    }
  }

  /** nil gives no bytes; a negative number or one of more than 256 bits is refused. */
  function EncodeWord(v: BigInt): (r: Result<seq<byte>, EncodeError>)
    ensures r.Ok? <==> InRange(v)
    ensures r.Ok? ==> r.value == Word(v)
  {
    match v
    case None => Ok([])
    case Some(n) =>
      if n < 0 then Err(OutOfRange)
      else
        BitLenBound(n, 256);
        Pow2Bytes(32);
        if BitLen(n) > 256 then Err(OutOfRange) else Ok(BigEndian(n))
  }

  // ------------------------------------------------------------------ encoding

  method EncodeSlot(s: Slot) returns (r: Result<seq<byte>, EncodeError>)
    ensures r.Ok? <==> InRange(s.value)
    ensures r.Ok? ==> r.value == WriteSlot(s)
  {
    hide Join, RawField;
    var v := EncodeWord(s.value);
    if v.Err? {
      return Err(OutOfRange);
    }
    var w := new Buf();
    w.AppendRaw(1, s.key);
    w.AppendRaw(2, v.value);
    var p1, p2 := RawField(1, s.key), RawField(2, v.value);
    JoinOne(p1);
    JoinSnoc([p1], p2);
    assert [p1] + [p2] == [p1, p2];
    assert w.b == Join([p1, p2]) by { assert [] + p1 == p1; }
    r := Ok(w.b);
  }

  /** Everything but the storage. */
  method EncodeAccountHead(a: Account, balance: seq<byte>) returns (w: Buf)
    ensures fresh(w)
    ensures w.b == Join([RawField(1, a.address), RawField(2, balance), UintField(3, a.nonce), RawField(4, a.code)])
  {
    hide Join, RawField, UintField;
    w := new Buf();
    var p := [RawField(1, a.address), RawField(2, balance), UintField(3, a.nonce), RawField(4, a.code)];
    w.AppendRaw(1, a.address);
    assert w.b == p[0];
    JoinOne(p[0]);
    w.AppendRaw(2, balance);
    JoinSnoc([p[0]], p[1]);
    assert [p[0]] + [p[1]] == p[..2];
    w.AppendUint(3, a.nonce);
    JoinSnoc(p[..2], p[2]);
    assert p[..2] + [p[2]] == p[..3];
    w.AppendRaw(4, a.code);
    JoinSnoc(p[..3], p[3]);
    assert p[..3] + [p[3]] == p;
  }

  method EncodeAccount(a: Account) returns (r: Result<seq<byte>, EncodeError>)
    ensures r.Ok? <==> AccountInRange(a)
    ensures r.Ok? ==> r.value == WriteAccount(a)
  {
    hide Join, RawField, UintField, RawAlwaysField, WriteSlot;
    var balance := EncodeWord(a.balance);
    if balance.Err? {
      return Err(OutOfRange);
    }
    var w := EncodeAccountHead(a, balance.value);
    ghost var head := [RawField(1, a.address), RawField(2, balance.value), UintField(3, a.nonce), RawField(4, a.code)];
    assert head + SlotPieces(a.storage[..0]) == head;
    for i := 0 to |a.storage|
      invariant fresh(w)
      invariant forall j :: 0 <= j < i ==> InRange(a.storage[j].value)
      invariant w.b == Join(head + SlotPieces(a.storage[..i]))
    {
      var slot := EncodeSlot(a.storage[i]);
      if slot.Err? {
        return Err(OutOfRange);
      }
      w.AppendRawAlways(5, slot.value);
      assert a.storage[..i + 1][..i] == a.storage[..i];
      ghost var piece := RawAlwaysField(5, slot.value);
      JoinSnoc(head + SlotPieces(a.storage[..i]), piece);
      assert head + SlotPieces(a.storage[..i]) + [piece] == head + SlotPieces(a.storage[..i + 1]);
    }
    assert a.storage[..|a.storage|] == a.storage;
    r := Ok(w.b);
  }

  /** Everything before the accounts. */
  method EncodeHead(r: SimRequest, val: seq<byte>, price: seq<byte>) returns (w: Buf)
    requires RequestInRange(r) ==> val == Word(r.value) && price == Word(r.gasPrice)
    ensures fresh(w)
    ensures RequestInRange(r) ==> w.b == Join(HeadPieces(r))
  {
    hide Join, RawField, UintField, Word, RequestInRange;
    w := new Buf();
    var p := [UintField(1, r.chainID), RawField(2, r.from), RawField(3, ToBytes(r.to)), RawField(4, val),
              RawField(5, r.data), UintField(6, r.gasLimit), RawField(7, price)];
    w.AppendUint(1, r.chainID);
    assert w.b == p[0];
    JoinOne(p[0]);
    w.AppendRaw(2, r.from);
    JoinSnoc([p[0]], p[1]);
    assert [p[0]] + [p[1]] == p[..2];
    if r.to.Some? {
      w.AppendRaw(3, r.to.value);
    } else {
      NothingWritten(3);
    }
    assert w.b == Join(p[..2]) + p[2];
    JoinSnoc(p[..2], p[2]);
    assert p[..2] + [p[2]] == p[..3];
    w.AppendRaw(4, val);
    JoinSnoc(p[..3], p[3]);
    assert p[..3] + [p[3]] == p[..4];
    w.AppendRaw(5, r.data);
    JoinSnoc(p[..4], p[4]);
    assert p[..4] + [p[4]] == p[..5];
    w.AppendUint(6, r.gasLimit);
    JoinSnoc(p[..5], p[5]);
    assert p[..5] + [p[5]] == p[..6];
    w.AppendRaw(7, price);
    JoinSnoc(p[..6], p[6]);
    assert p[..6] + [p[6]] == p;
  }

  lemma NothingWritten(num: nat)
    ensures RawField(num, []) == []
  {
  }

  /** Refuses exactly the requests that hold a number out of range. */
  method Encode(req: SimRequest) returns (r: Result<seq<byte>, EncodeError>)
    ensures r.Ok? <==> RequestInRange(req)
    ensures r.Ok? ==> r.value == WriteRequest(req)
  {
    hide Join, UintField, RawAlwaysField, WriteAccount, AccountInRange, HeadPieces;
    var val := EncodeWord(req.value);
    if val.Err? {
      return Err(OutOfRange);
    }
    var price := EncodeWord(req.gasPrice);
    if price.Err? {
      return Err(OutOfRange);
    }
    var w := EncodeHead(req, val.value, price.value);
    ghost var head := w.b;
    JoinEmpty();
    for i := 0 to |req.state|
      invariant fresh(w)
      invariant forall j :: 0 <= j < i ==> AccountInRange(req.state[j])
      invariant w.b == head + Join(AccountPieces(req.state[..i]))
    {
      var account := EncodeAccount(req.state[i]);
      if account.Err? {
        return Err(OutOfRange);
      }
      w.AppendRawAlways(8, account.value);
      assert req.state[..i + 1][..i] == req.state[..i];
      JoinSnoc(AccountPieces(req.state[..i]), RawAlwaysField(8, account.value));
    }
    assert req.state[..|req.state|] == req.state;
    w.AppendUint(9, req.blockNumber);
    w.AppendUint(10, req.timestamp);
    var p9, p10 := UintField(9, req.blockNumber), UintField(10, req.timestamp);
    JoinAppend(HeadPieces(req), AccountPieces(req.state));
    JoinTwo(HeadPieces(req) + AccountPieces(req.state), p9, p10);
    r := Ok(w.b);
  }

  lemma JoinEmpty()
    ensures Join([]) == []
  {
  }

  lemma JoinTwo(pieces: seq<seq<byte>>, x: seq<byte>, y: seq<byte>)
    ensures Join(pieces + [x, y]) == Join(pieces) + x + y
  {
    JoinSnoc(pieces, x);
    JoinSnoc(pieces + [x], y);
    assert pieces + [x] + [y] == pieces + [x, y];
  }

  // ------------------------------------------------------------------ decoding

  method DecodeLogLoop(b: seq<byte>) returns (r: Result<Log, DecodeError>)
    ensures r == DecodeLog(b)
  {
    var l := EMPTY_LOG;
    var reader := new Reader(b);
    while true
      invariant fresh(reader)
      invariant Fold(reader.b, l, ApplyLog) == DecodeLog(b)
      decreases |reader.b|
    {
      NextConsumes(reader.b);
      var f := reader.NextField();
      if f.Malformed? {
        return Err(BadWire);
      }
      if f.End? {
        return Ok(l);
      }
      var num, wire, raw := f.field.num, f.field.wire, f.field.raw;
      if num == 1 && wire == BYTES {
        if |raw| != 20 {
          return Err(BadAddress);
        }
        l := l.(address := raw);
      } else if num == 2 && wire == BYTES {
        l := l.(topics := l.topics + [raw]);
      } else if num == 3 && wire == BYTES {
        l := l.(data := raw);
      }
    }
  }

  method DecodeChangeLoop(b: seq<byte>) returns (r: Result<Change, DecodeError>)
    ensures r == DecodeChange(b)
  {
    var c := EMPTY_CHANGE;
    var reader := new Reader(b);
    while true
      invariant fresh(reader)
      invariant Fold(reader.b, c, ApplyChange) == DecodeChange(b)
      decreases |reader.b|
    {
      NextConsumes(reader.b);
      var f := reader.NextField();
      if f.Malformed? {
        return Err(BadWire);
      }
      if f.End? {
        return Ok(c);
      }
      var num, wire, raw := f.field.num, f.field.wire, f.field.raw;
      if num == 1 && wire == BYTES {
        if |raw| != 20 {
          return Err(BadAddress);
        }
        c := c.(address := raw);
      } else if num == 2 && wire == BYTES {
        c := c.(before := ValueOf(raw));
      } else if num == 3 && wire == BYTES {
        c := c.(after := ValueOf(raw));
      }
    }
  }

  /** What one field does to the result read so far. */
  method ApplyField(result: SimResult, f: Field) returns (r: Result<SimResult, DecodeError>)
    ensures r == ApplyResponse(result, f)
  {
    var out := result;
    if f.num == 1 && f.wire == VARINT {
      if f.uint == 1 {
        out := out.(outcome := Success);
      } else if f.uint == 2 {
        out := out.(outcome := Revert);
      } else if f.uint == 3 {
        out := out.(outcome := Halt);
      } else {
        return Err(UnknownOutcome(f.uint));
      }
    } else if f.num == 2 && f.wire == VARINT {
      out := out.(gasUsed := f.uint);
    } else if f.num == 3 && f.wire == BYTES {
      out := out.(output := f.raw);
    } else if f.num == 4 && f.wire == BYTES {
      out := out.(reason := f.raw);
    } else if f.num == 5 && f.wire == BYTES {
      var l := DecodeLogLoop(f.raw);
      if l.Err? {
        return Err(l.error);
      }
      out := out.(logs := out.logs + [l.value]);
    } else if f.num == 6 && f.wire == BYTES {
      var c := DecodeChangeLoop(f.raw);
      if c.Err? {
        return Err(c.error);
      }
      out := out.(changes := out.changes + [c.value]);
    } else if f.num == 7 && f.wire == VARINT {
      out := out.(elapsedUs := f.uint);
    } else if f.num == 8 && f.wire == BYTES {
      if |f.raw| != 20 {
        return Err(BadAddress);
      }
      out := out.(created := Some(f.raw));
    }
    r := Ok(out);
  }

  method DecodeLoop(b: seq<byte>) returns (r: Result<SimResult, DecodeError>)
    ensures r == Decode(b)
  {
    var out := EMPTY_RESULT;
    var reader := new Reader(b);
    while true
      invariant fresh(reader)
      invariant Fold(reader.b, out, ApplyResponse) == Fold(b, EMPTY_RESULT, ApplyResponse)
      decreases |reader.b|
    {
      hide ApplyResponse, ReadVarint;
      NextConsumes(reader.b);
      var f := reader.NextField();
      if f.Malformed? {
        return Err(BadWire);
      }
      if f.End? {
        break;
      }
      var next := ApplyField(out, f.field);
      if next.Err? {
        return Err(next.error);
      }
      out := next.value;
    }
    r := if out.outcome == Unset then Err(NoOutcome) else Ok(out);
  }
}
