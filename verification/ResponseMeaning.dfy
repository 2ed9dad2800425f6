/** What any bytes mean as a response: when they are refused, and otherwise what each part of the result is, by the
    field numbers and wire types of the schema. */
module ResponseMeaning {
  import opened Wrappers
  import opened Bytes
  import opened PbWire
  import opened PbMessage
  import opened EngineResponse

  // ------------------------------------------------------------------ fields

  /** The payloads of the length-delimited fields of this number, in order. */
  function Raws(fs: seq<Field>, num: nat): seq<seq<byte>> {
    if fs == [] then []
    else
      var f := fs[|fs| - 1];
      Raws(fs[..|fs| - 1], num) + if f.num == num && f.wire == 2 then [f.raw] else []
  }

  /** The last one, or nothing. */
  function LastRaw(fs: seq<Field>, num: nat): seq<byte> {
    if fs == [] then []
    else
      var f := fs[|fs| - 1];
      if f.num == num && f.wire == 2 then f.raw else LastRaw(fs[..|fs| - 1], num)
  }

  /** The last number in the varint fields of this number, or 0. */
  function LastUint(fs: seq<Field>, num: nat): nat {
    if fs == [] then 0
    else
      var f := fs[|fs| - 1];
      if f.num == num && f.wire == 0 then f.uint else LastUint(fs[..|fs| - 1], num)
  }

  /** Folding a list of fields, from the first. */
  function FoldFields<M>(fs: seq<Field>, m: M, apply: (M, Field) -> Result<M, DecodeError>): Result<M, DecodeError> {
    if fs == [] then Ok(m)
    else
      match FoldFields(fs[..|fs| - 1], m, apply)
      case Err(e) => Err(e)
      case Ok(n) => apply(n, fs[|fs| - 1])
  }

  lemma {:induction false} FoldFieldsCons<M>(
      f: Field, fs: seq<Field>, m: M, apply: (M, Field) -> Result<M, DecodeError>)
    ensures FoldFields([f] + fs, m, apply) ==
            match apply(m, f)
            case Err(e) => Err(e)
            case Ok(n) => FoldFields(fs, n, apply)
    decreases |fs|
  {
    if fs == [] {
      assert [f] + fs == [f] && [f][..0] == [];
      assert FoldFields([], m, apply) == Ok(m);
    } else {
      var k := |fs| - 1;
      FoldFieldsCons(f, fs[..k], m, apply);
      assert ([f] + fs)[..k + 1] == [f] + fs[..k];
    }
  }

  /** Folding bytes is folding their fields; bytes that are not whole fields are refused. */
  lemma {:induction false} FoldByFields<M>(b: seq<byte>, m: M, apply: (M, Field) -> Result<M, DecodeError>)
    ensures AllFields(b).None? ==> Fold(b, m, apply).Err?
    ensures AllFields(b).Some? ==> Fold(b, m, apply) == FoldFields(AllFields(b).value, m, apply)
    decreases |b|
  {
    NextConsumes(b);
    if Next(b).Got? {
      var f, rest := Next(b).field, Next(b).rest;
      var n := apply(m, f);
      if n.Ok? {
        FoldByFields(rest, n.value, apply);
      }
      if AllFields(rest).Some? {
        FoldFieldsCons(f, AllFields(rest).value, m, apply);
      }
    }
  }

  // ------------------------------------------------------------------ logs and balance changes

  /** An address field must hold 20 bytes. */
  predicate AddressOk(f: Field, num: nat) {
    f.num == num && f.wire == 2 ==> |f.raw| == 20
  }

  ghost predicate WholeWithAddress(b: seq<byte>) {
    AllFields(b).Some? && forall f :: f in AllFields(b).value ==> AddressOk(f, 1)
  }

  function AddressIn(fs: seq<Field>, num: nat): seq<byte> {
    if Raws(fs, num) == [] then Zeros(20) else LastRaw(fs, num)
  }

  ghost predicate LogMeans(fs: seq<Field>, l: Log) {
    l.address == AddressIn(fs, 1) && l.topics == Raws(fs, 2) && l.data == LastRaw(fs, 3)
  }

  ghost predicate ChangeMeans(fs: seq<Field>, c: Change) {
    c.address == AddressIn(fs, 1) && c.before == ValueOf(LastRaw(fs, 2)) && c.after == ValueOf(LastRaw(fs, 3))
  }

  lemma OneMoreField(fs: seq<Field>, f: Field, num: nat)
    ensures var hit := f.num == num && f.wire == 2;
            && Raws(fs + [f], num) == (if hit then Raws(fs, num) + [f.raw] else Raws(fs, num))
            && LastRaw(fs + [f], num) == (if hit then f.raw else LastRaw(fs, num))
            && LastUint(fs + [f], num) == (if f.num == num && f.wire == 0 then f.uint else LastUint(fs, num))
            && AddressIn(fs + [f], num) == (if hit then f.raw else AddressIn(fs, num))
  {
    assert (fs + [f])[..|fs|] == fs;
    assert f.num == num && f.wire == 2 ==> |Raws(fs + [f], num)| > 0;
  }

  lemma LogStep(fs: seq<Field>, l: Log, f: Field)
    requires LogMeans(fs, l)
    ensures ApplyLog(l, f).Ok? <==> AddressOk(f, 1)
    ensures ApplyLog(l, f).Ok? ==> LogMeans(fs + [f], ApplyLog(l, f).value)
  {
    hide Raws, LastRaw, AddressIn;
    OneMoreField(fs, f, 1);
    OneMoreField(fs, f, 2);
    OneMoreField(fs, f, 3);
  }

  lemma ChangeStep(fs: seq<Field>, c: Change, f: Field)
    requires ChangeMeans(fs, c)
    ensures ApplyChange(c, f).Ok? <==> AddressOk(f, 1)
    ensures ApplyChange(c, f).Ok? ==> ChangeMeans(fs + [f], ApplyChange(c, f).value)
  {
    hide Raws, LastRaw, AddressIn, ValueOf;
    OneMoreField(fs, f, 1);
    OneMoreField(fs, f, 2);
    OneMoreField(fs, f, 3);
  }

  lemma {:induction false} LogFields(fs: seq<Field>)
    ensures FoldFields(fs, EMPTY_LOG, ApplyLog).Ok? <==> forall f :: f in fs ==> AddressOk(f, 1)
    ensures FoldFields(fs, EMPTY_LOG, ApplyLog).Ok? ==> LogMeans(fs, FoldFields(fs, EMPTY_LOG, ApplyLog).value)
  {
    if fs == [] {
      assert LogMeans([], EMPTY_LOG);
    } else {
      hide ApplyLog, LogMeans, AddressOk;
      var k := |fs| - 1;
      LogFields(fs[..k]);
      InInit(fs);
      var before := FoldFields(fs[..k], EMPTY_LOG, ApplyLog);
      if before.Ok? {
        LogStep(fs[..k], before.value, fs[k]);
        assert fs[..k] + [fs[k]] == fs;
      }
    }
  }

  lemma {:induction false} ChangeFields(fs: seq<Field>)
    ensures FoldFields(fs, EMPTY_CHANGE, ApplyChange).Ok? <==> forall f :: f in fs ==> AddressOk(f, 1)
    ensures FoldFields(fs, EMPTY_CHANGE, ApplyChange).Ok? ==>
              ChangeMeans(fs, FoldFields(fs, EMPTY_CHANGE, ApplyChange).value)
  {
    if fs == [] {
      assert ChangeMeans([], EMPTY_CHANGE);
    } else {
      hide ApplyChange, ChangeMeans, AddressOk;
      var k := |fs| - 1;
      ChangeFields(fs[..k]);
      InInit(fs);
      var before := FoldFields(fs[..k], EMPTY_CHANGE, ApplyChange);
      if before.Ok? {
        ChangeStep(fs[..k], before.value, fs[k]);
        assert fs[..k] + [fs[k]] == fs;
      }
    }
  }

  lemma InInit(fs: seq<Field>)
    requires fs != []
    ensures forall f :: f in fs <==> f in fs[..|fs| - 1] || f == fs[|fs| - 1]
  {
    assert fs == fs[..|fs| - 1] + [fs[|fs| - 1]];
  }

  /** Any bytes as a log: accepted exactly when they are whole fields and every address has 20 bytes; the last address
      and the last data count, and all topics in order. */
  lemma LogExactly(b: seq<byte>)
    ensures DecodeLog(b).Ok? <==> WholeWithAddress(b)
    ensures DecodeLog(b).Ok? ==> LogMeans(AllFields(b).value, DecodeLog(b).value)
  {
    hide Fold, FoldFields, AllFields;
    FoldByFields(b, EMPTY_LOG, ApplyLog);
    if AllFields(b).Some? {
      LogFields(AllFields(b).value);
    }
  }

  /** Any bytes as a balance change. */
  lemma ChangeExactly(b: seq<byte>)
    ensures DecodeChange(b).Ok? <==> WholeWithAddress(b)
    ensures DecodeChange(b).Ok? ==> ChangeMeans(AllFields(b).value, DecodeChange(b).value)
  {
    hide Fold, FoldFields, AllFields;
    FoldByFields(b, EMPTY_CHANGE, ApplyChange);
    if AllFields(b).Some? {
      ChangeFields(AllFields(b).value);
    }
  }

  // ------------------------------------------------------------------ responses

  /** An outcome must be 1, 2 or 3, a log or a change must be accepted, and the created address have 20 bytes. */
  ghost predicate FieldOk(f: Field) {
    && (f.num == 1 && f.wire == 0 ==> 1 <= f.uint <= 3)
    && ((f.num == 5 || f.num == 6) && f.wire == 2 ==> WholeWithAddress(f.raw))
    && AddressOk(f, 8)
  }

  function OutcomeIn(fs: seq<Field>): Outcome {
    var code := LastUint(fs, 1);
    if code == 1 then Success else if code == 2 then Revert else if code == 3 then Halt else Unset
  }

  ghost predicate LogsMean(raws: seq<seq<byte>>, logs: seq<Log>) {
    |logs| == |raws| && forall i :: 0 <= i < |raws| ==> DecodeLog(raws[i]) == Ok(logs[i])
  }

  ghost predicate ChangesMean(raws: seq<seq<byte>>, changes: seq<Change>) {
    |changes| == |raws| && forall i :: 0 <= i < |raws| ==> DecodeChange(raws[i]) == Ok(changes[i])
  }

  /** Of repeated fields all count, in order; of every other field the last one. */
  ghost predicate ResponseMeans(fs: seq<Field>, r: SimResult) {
    && r.outcome == OutcomeIn(fs) && r.gasUsed == LastUint(fs, 2) && r.output == LastRaw(fs, 3)
    && r.reason == LastRaw(fs, 4) && LogsMean(Raws(fs, 5), r.logs) && ChangesMean(Raws(fs, 6), r.changes)
    && r.elapsedUs == LastUint(fs, 7) && r.created.Some? == (Raws(fs, 8) != [])
    && (r.created.Some? ==> r.created.value == LastRaw(fs, 8))
  }

  lemma FieldAccepted(r: SimResult, f: Field)
    ensures ApplyResponse(r, f).Ok? <==> FieldOk(f)
  {
    hide DecodeLog, DecodeChange, WholeWithAddress;
    LogExactly(f.raw);
    ChangeExactly(f.raw);
  }

  lemma FieldMeans(fs: seq<Field>, r: SimResult, f: Field)
    requires ResponseMeans(fs, r) && ApplyResponse(r, f).Ok?
    ensures ResponseMeans(fs + [f], ApplyResponse(r, f).value)
  {
    hide DecodeLog, DecodeChange, Raws, LastRaw, LastUint, AddressIn, LogsMean, ChangesMean, OutcomeIn;
    OneMoreField(fs, f, 2);
    OneMoreField(fs, f, 3);
    OneMoreField(fs, f, 4);
    OneMoreField(fs, f, 5);
    OneMoreField(fs, f, 6);
    OneMoreField(fs, f, 7);
    OneMoreField(fs, f, 8);
    OneMoreOutcome(fs, f);
    if f.num == 5 && f.wire == 2 {
      OneMoreLog(Raws(fs, 5), r.logs, f.raw);
    }
    if f.num == 6 && f.wire == 2 {
      OneMoreChange(Raws(fs, 6), r.changes, f.raw);
    }
  }

  lemma OneMoreOutcome(fs: seq<Field>, f: Field)
    ensures f.num != 1 || f.wire != 0 ==> OutcomeIn(fs + [f]) == OutcomeIn(fs)
    ensures f.num == 1 && f.wire == 0 && ToOutcome(f.uint).Ok? ==> OutcomeIn(fs + [f]) == ToOutcome(f.uint).value
  {
    hide LastUint;
    OneMoreField(fs, f, 1);
  }

  lemma OneMoreLog(raws: seq<seq<byte>>, logs: seq<Log>, raw: seq<byte>)
    requires LogsMean(raws, logs) && DecodeLog(raw).Ok?
    ensures LogsMean(raws + [raw], logs + [DecodeLog(raw).value])
  {
    hide DecodeLog;
  }

  lemma OneMoreChange(raws: seq<seq<byte>>, changes: seq<Change>, raw: seq<byte>)
    requires ChangesMean(raws, changes) && DecodeChange(raw).Ok?
    ensures ChangesMean(raws + [raw], changes + [DecodeChange(raw).value])
  {
    hide DecodeChange;
  }

  lemma {:induction false} ResponseFields(fs: seq<Field>)
    ensures FoldFields(fs, EMPTY_RESULT, ApplyResponse).Ok? <==> forall f :: f in fs ==> FieldOk(f)
    ensures FoldFields(fs, EMPTY_RESULT, ApplyResponse).Ok? ==>
              ResponseMeans(fs, FoldFields(fs, EMPTY_RESULT, ApplyResponse).value)
  {
    if fs == [] {
      assert ResponseMeans([], EMPTY_RESULT);
    } else {
      hide ApplyResponse, ResponseMeans, FieldOk;
      var k := |fs| - 1;
      ResponseFields(fs[..k]);
      InInit(fs);
      var before := FoldFields(fs[..k], EMPTY_RESULT, ApplyResponse);
      if before.Ok? {
        FieldAccepted(before.value, fs[k]);
        if FieldOk(fs[k]) {
          FieldMeans(fs[..k], before.value, fs[k]);
          assert fs[..k] + [fs[k]] == fs;
        }
      }
    }
  }

  /** Any bytes as a response: accepted exactly when they are whole fields, every field is acceptable and there is an
      outcome; and what the result then is, whatever the order and number of the fields. */
  lemma DecodeExactly(b: seq<byte>)
    ensures Decode(b).Ok? <==>
            && AllFields(b).Some? && (forall f :: f in AllFields(b).value ==> FieldOk(f))
            && OutcomeIn(AllFields(b).value) != Unset
    ensures Decode(b).Ok? ==> ResponseMeans(AllFields(b).value, Decode(b).value)
  {
    hide Fold, FoldFields, AllFields, FieldOk;
    FoldByFields(b, EMPTY_RESULT, ApplyResponse);
    if AllFields(b).Some? {
      ResponseFields(AllFields(b).value);
    }
  }

  /** An acceptable response has an outcome exactly when it has an outcome field. */
  lemma {:induction false} OutcomeOccurs(fs: seq<Field>)
    requires forall f :: f in fs ==> FieldOk(f)
    ensures OutcomeIn(fs) != Unset <==> exists f :: f in fs && f.num == 1 && f.wire == 0
  {
    if fs != [] {
      var k := |fs| - 1;
      InInit(fs);
      assert FieldOk(fs[k]);
      OutcomeOccurs(fs[..k]);
    }
  }
}
