/** The engine's SimulateResponse: how the client folds it, and how the engine writes it. */
module EngineResponse {
  import opened Wrappers
  import opened Bytes
  import opened PbWire
  import opened PbMessage

  const NO_ADDRESS: Address := Zeros(20)

  datatype Outcome = Unset | Success | Revert | Halt

  datatype Log = Log(address: Address, topics: seq<seq<byte>>, data: seq<byte>)
  datatype Change = Change(address: Address, before: nat, after: nat)
  datatype SimResult = SimResult(
    outcome: Outcome,
    gasUsed: nat,
    output: seq<byte>,
    reason: seq<byte>,
    logs: seq<Log>,
    changes: seq<Change>,
    elapsedUs: nat,
    created: Option<Address>)

  const EMPTY_LOG := Log(NO_ADDRESS, [], [])
  const EMPTY_CHANGE := Change(NO_ADDRESS, 0, 0)
  const EMPTY_RESULT := SimResult(Unset, 0, [], [], [], [], 0, None)

  // ------------------------------------------------------------------ what the client does with a field

  function ToAddress(b: seq<byte>): Result<Address, DecodeError> {
    if |b| == 20 then Ok(b) else Err(BadAddress)
  }

  function ApplyLog(l: Log, f: Field): Result<Log, DecodeError> {
    if f.num == 1 && f.wire == BYTES then
      match ToAddress(f.raw)
      case Err(e) => Err(e)
      case Ok(a) => Ok(l.(address := a))
    else if f.num == 2 && f.wire == BYTES then Ok(l.(topics := l.topics + [f.raw]))
    else if f.num == 3 && f.wire == BYTES then Ok(l.(data := f.raw))
    else Ok(l)
  }

  function ApplyChange(c: Change, f: Field): Result<Change, DecodeError> {
    if f.num == 1 && f.wire == BYTES then
      match ToAddress(f.raw)
      case Err(e) => Err(e)
      case Ok(a) => Ok(c.(address := a))
    else if f.num == 2 && f.wire == BYTES then Ok(c.(before := ValueOf(f.raw)))
    else if f.num == 3 && f.wire == BYTES then Ok(c.(after := ValueOf(f.raw)))
    else Ok(c)
  }

  function ToOutcome(code: nat): Result<Outcome, DecodeError> {
    if code == 1 then Ok(Success)
    else if code == 2 then Ok(Revert)
    else if code == 3 then Ok(Halt)
    else Err(UnknownOutcome(code))
  }

  function DecodeLog(b: seq<byte>): Result<Log, DecodeError> {
    Fold(b, EMPTY_LOG, ApplyLog)
  }

  function DecodeChange(b: seq<byte>): Result<Change, DecodeError> {
    Fold(b, EMPTY_CHANGE, ApplyChange)
  }

  function ApplyResponse(out: SimResult, f: Field): Result<SimResult, DecodeError> {
    if f.num == 1 && f.wire == VARINT then
      match ToOutcome(f.uint)
      case Err(e) => Err(e)
      case Ok(o) => Ok(out.(outcome := o))
    else if f.num == 2 && f.wire == VARINT then Ok(out.(gasUsed := f.uint))
    else if f.num == 3 && f.wire == BYTES then Ok(out.(output := f.raw))
    else if f.num == 4 && f.wire == BYTES then Ok(out.(reason := f.raw))
    else if f.num == 5 && f.wire == BYTES then
      match DecodeLog(f.raw)
      case Err(e) => Err(e)
      case Ok(l) => Ok(out.(logs := out.logs + [l]))
    else if f.num == 6 && f.wire == BYTES then
      match DecodeChange(f.raw)
      case Err(e) => Err(e)
      case Ok(c) => Ok(out.(changes := out.changes + [c]))
    else if f.num == 7 && f.wire == VARINT then Ok(out.(elapsedUs := f.uint))
    else if f.num == 8 && f.wire == BYTES then
      match ToAddress(f.raw)
      case Err(e) => Err(e)
      case Ok(a) => Ok(out.(created := Some(a)))
    else Ok(out)
  }

  function Decode(b: seq<byte>): Result<SimResult, DecodeError> {
    match Fold(b, EMPTY_RESULT, ApplyResponse)
    case Err(e) => Err(e)
    case Ok(out) => if out.outcome == Unset then Err(NoOutcome) else Ok(out)
  }

  // ------------------------------------------------------------------ what the engine writes, in schema order

  function OutcomeCode(o: Outcome): uint64 {
    match o
    case Unset => 0
    case Success => 1
    case Revert => 2
    case Halt => 3
  }

  function TopicPieces(topics: seq<seq<byte>>): seq<seq<byte>> {
    if topics == [] then [] else [RawAlwaysField(2, topics[0])] + TopicPieces(topics[1..])
  }

  function WriteLog(l: Log): seq<byte> {
    Join([RawField(1, l.address)] + (TopicPieces(l.topics) + [RawField(3, l.data)]))
  }

  /** Balances travel as 32 big-endian bytes. */
  function Word32(v: nat): (b: seq<byte>)
    requires v < Pow256(32)
    ensures |b| == 32
  {
    BigEndianLength(v, 32);
    PadLeft(BigEndian(v), 32)
  }

  function WriteChange(c: Change): seq<byte>
    requires c.before < Pow256(32) && c.after < Pow256(32)
  {
    Join([RawField(1, c.address), RawField(2, Word32(c.before)), RawField(3, Word32(c.after))])
  }

  function LogPieces(logs: seq<Log>): seq<seq<byte>> {
    if logs == [] then [] else [RawAlwaysField(5, WriteLog(logs[0]))] + LogPieces(logs[1..])
  }

  function ChangePieces(changes: seq<Change>): seq<seq<byte>>
    requires forall i :: 0 <= i < |changes| ==> changes[i].before < Pow256(32) && changes[i].after < Pow256(32)
  {
    if changes == [] then [] else [RawAlwaysField(6, WriteChange(changes[0]))] + ChangePieces(changes[1..])
  }

  /** The results the engine can send: an outcome, 64-bit counters, 256-bit balances, and no
      length-delimited part of 2 GiB or more. */
  ghost predicate Sendable(r: SimResult) {
    && r.outcome != Unset && r.gasUsed < U64 && r.elapsedUs < U64
    && |r.output| <= MAX_LENGTH && |r.reason| <= MAX_LENGTH
    && (forall i :: 0 <= i < |r.logs| ==> SendableLog(r.logs[i]))
    && (forall i :: 0 <= i < |r.changes| ==> r.changes[i].before < Pow256(32) && r.changes[i].after < Pow256(32))
  }

  ghost predicate SendableLog(l: Log) {
    && |l.data| <= MAX_LENGTH && |WriteLog(l)| <= MAX_LENGTH
    && (forall i :: 0 <= i < |l.topics| ==> |l.topics[i]| <= MAX_LENGTH)
  }

  function WriteResponse(r: SimResult): seq<byte>
    requires Sendable(r)
  {
    Join([UintField(1, OutcomeCode(r.outcome)), UintField(2, r.gasUsed), RawField(3, r.output), RawField(4, r.reason)]
         + (LogPieces(r.logs) + (ChangePieces(r.changes)
         + [UintField(7, r.elapsedUs), RawField(8, ToBytes(r.created))])))
  }

  // ------------------------------------------------------------------ the client inverts the engine

  lemma TopicApplied(l: Log, topic: seq<byte>)
    ensures ApplyLog(l, RawValue(2, topic)) == Ok(l.(topics := l.topics + [topic]))
  {
  }

  lemma {:induction false} TopicsRead(topics: seq<seq<byte>>, more: seq<seq<byte>>, l: Log)
    requires forall i :: 0 <= i < |topics| ==> |topics[i]| <= MAX_LENGTH
    ensures Fold(Join(TopicPieces(topics) + more), l, ApplyLog)
         == Fold(Join(more), l.(topics := l.topics + topics), ApplyLog)
    decreases |topics|
  {
    hide Fold, Join, RawAlwaysField, ApplyLog;
    if topics == [] {
      assert TopicPieces(topics) + more == more;
      assert l.topics + topics == l.topics;
    } else {
      var piece, rest := RawAlwaysField(2, topics[0]), TopicPieces(topics[1..]) + more;
      var next := l.(topics := l.topics + [topics[0]]);
      TopicApplied(l, topics[0]);
      FoldRawAlways(2, topics[0], l, ApplyLog);
      FoldPiece(piece, rest, l, next, ApplyLog);
      ConsConcat(piece, TopicPieces(topics[1..]), more);
      TopicsRead(topics[1..], more, next);
      Shift(l.topics, topics);
    }
  }

  lemma LogRead(l: Log)
    requires SendableLog(l)
    ensures DecodeLog(WriteLog(l)) == Ok(l)
  {
    hide Fold, Join, RawField, TopicPieces;
    var last := [RawField(3, l.data)];
    var m := EMPTY_LOG.(address := l.address);
    FoldRaw(1, l.address, EMPTY_LOG, ApplyLog);
    FoldPiece(RawField(1, l.address), TopicPieces(l.topics) + last, EMPTY_LOG, m, ApplyLog);
    TopicsRead(l.topics, last, m);
    var n := m.(topics := m.topics + l.topics);
    assert m.topics + l.topics == l.topics;
    JoinOne(RawField(3, l.data));
    FoldRaw(3, l.data, n, ApplyLog);
  }

  lemma Word32Value(v: nat)
    requires v < Pow256(32)
    ensures ValueOf(Word32(v)) == v
  {
    BigEndianLength(v, 32);
    ValueOfBigEndian(v);
    ValueOfPad(BigEndian(v), 32);
  }

  lemma {:induction false} ValueOfPad(b: seq<byte>, n: nat)
    requires |b| <= n
    ensures ValueOf(PadLeft(b, n)) == ValueOf(b)
  {
    ValueOfConcat(Zeros(n - |b|), b);
    ValueOfZeros(n - |b|);
  }

  lemma {:induction false} ValueOfZeros(n: nat)
    ensures ValueOf(Zeros(n)) == 0
  {
    if n > 0 {
      ValueOfZeros(n - 1);
      assert Zeros(n)[..n - 1] == Zeros(n - 1);
    }
  }

  lemma ChangeRead(c: Change)
    requires c.before < Pow256(32) && c.after < Pow256(32)
    ensures DecodeChange(WriteChange(c)) == Ok(c)
  {
    hide Fold, Join, RawField, Word32, ValueOf, Pow256;
    var w2, w3 := Word32(c.before), Word32(c.after);
    var m := EMPTY_CHANGE.(address := c.address);
    var n := m.(before := c.before);
    Word32Value(c.before);
    Word32Value(c.after);
    FoldRaw(1, c.address, EMPTY_CHANGE, ApplyChange);
    FoldRaw(2, w2, m, ApplyChange);
    FoldRaw(3, w3, n, ApplyChange);
    FoldPiece(RawField(1, c.address), [RawField(2, w2), RawField(3, w3)], EMPTY_CHANGE, m, ApplyChange);
    FoldPiece(RawField(2, w2), [RawField(3, w3)], m, n, ApplyChange);
    JoinOne(RawField(3, w3));
    assert [RawField(1, c.address)] + [RawField(2, w2), RawField(3, w3)]
        == [RawField(1, c.address), RawField(2, w2), RawField(3, w3)];
    assert [RawField(2, w2)] + [RawField(3, w3)] == [RawField(2, w2), RawField(3, w3)];
  }

  lemma LogApplied(r: SimResult, l: Log)
    requires SendableLog(l)
    ensures ApplyResponse(r, RawValue(5, WriteLog(l))) == Ok(r.(logs := r.logs + [l]))
  {
    hide DecodeLog, WriteLog;
    LogRead(l);
  }

  lemma {:induction false} LogsRead(logs: seq<Log>, more: seq<seq<byte>>, r: SimResult)
    requires forall i :: 0 <= i < |logs| ==> SendableLog(logs[i])
    ensures Fold(Join(LogPieces(logs) + more), r, ApplyResponse)
         == Fold(Join(more), r.(logs := r.logs + logs), ApplyResponse)
    decreases |logs|
  {
    hide Fold, Join, RawAlwaysField, WriteLog, DecodeLog, ApplyResponse;
    if logs == [] {
      assert LogPieces(logs) + more == more;
      assert r.logs + logs == r.logs;
    } else {
      var piece, rest := RawAlwaysField(5, WriteLog(logs[0])), LogPieces(logs[1..]) + more;
      var next := r.(logs := r.logs + [logs[0]]);
      LogApplied(r, logs[0]);
      FoldRawAlways(5, WriteLog(logs[0]), r, ApplyResponse);
      FoldPiece(piece, rest, r, next, ApplyResponse);
      ConsConcat(piece, LogPieces(logs[1..]), more);
      LogsRead(logs[1..], more, next);
      Shift(r.logs, logs);
    }
  }

  lemma ChangeLength(c: Change)
    requires c.before < Pow256(32) && c.after < Pow256(32)
    ensures |WriteChange(c)| <= MAX_LENGTH
  {
    hide Word32, Pow256;
    var a, b, d := RawField(1, c.address), RawField(2, Word32(c.before)), RawField(3, Word32(c.after));
    assert [a, b, d][1..] == [b, d] && [b, d][1..] == [d];
    JoinOne(d);
    assert Join([a, b, d]) == a + (b + d);
    assert |Varint(10)| == 1 && |Varint(18)| == 1 && |Varint(26)| == 1 && |Varint(20)| == 1 && |Varint(32)| == 1;
  }

  lemma ChangeApplied(r: SimResult, c: Change)
    requires c.before < Pow256(32) && c.after < Pow256(32)
    ensures ApplyResponse(r, RawValue(6, WriteChange(c))) == Ok(r.(changes := r.changes + [c]))
  {
    hide DecodeChange, WriteChange, Pow256;
    ChangeRead(c);
  }

  lemma {:induction false} ChangesRead(changes: seq<Change>, more: seq<seq<byte>>, r: SimResult)
    requires forall i :: 0 <= i < |changes| ==> changes[i].before < Pow256(32) && changes[i].after < Pow256(32)
    ensures Fold(Join(ChangePieces(changes) + more), r, ApplyResponse)
         == Fold(Join(more), r.(changes := r.changes + changes), ApplyResponse)
    decreases |changes|
  {
    hide Fold, Join, RawAlwaysField, WriteChange, DecodeChange, Pow256, ApplyResponse;
    if changes == [] {
      assert ChangePieces(changes) + more == more;
      assert r.changes + changes == r.changes;
    } else {
      var piece, rest := RawAlwaysField(6, WriteChange(changes[0])), ChangePieces(changes[1..]) + more;
      var next := r.(changes := r.changes + [changes[0]]);
      ChangeApplied(r, changes[0]);
      ChangeLength(changes[0]);
      FoldRawAlways(6, WriteChange(changes[0]), r, ApplyResponse);
      FoldPiece(piece, rest, r, next, ApplyResponse);
      ConsConcat(piece, ChangePieces(changes[1..]), more);
      ChangesRead(changes[1..], more, next);
      Shift(r.changes, changes);
    }
  }

  /** The four fields before the logs. */
  lemma FirstFieldsRead(r: SimResult, tail: seq<seq<byte>>, m: SimResult)
    requires Sendable(r)
    requires m == EMPTY_RESULT.(outcome := r.outcome, gasUsed := r.gasUsed, output := r.output, reason := r.reason)
    ensures Fold(Join([UintField(1, OutcomeCode(r.outcome)), UintField(2, r.gasUsed), RawField(3, r.output),
                       RawField(4, r.reason)] + tail), EMPTY_RESULT, ApplyResponse)
         == Fold(Join(tail), m, ApplyResponse)
  {
    hide Fold, Join, RawField, UintField, Whole, DecodeLog, DecodeChange, SendableLog;
    var m1 := EMPTY_RESULT.(outcome := r.outcome);
    var m2 := m1.(gasUsed := r.gasUsed);
    var m3 := m2.(output := r.output);
    FoldUint(1, OutcomeCode(r.outcome), EMPTY_RESULT, ApplyResponse);
    FoldUint(2, r.gasUsed, m1, ApplyResponse);
    FoldRaw(3, r.output, m2, ApplyResponse);
    FoldRaw(4, r.reason, m3, ApplyResponse);
    FoldPieces4(UintField(1, OutcomeCode(r.outcome)), UintField(2, r.gasUsed), RawField(3, r.output),
                RawField(4, r.reason), tail, EMPTY_RESULT, m1, m2, m3, m);
  }

  /** The two fields after the balance changes. */
  lemma LastFieldsRead(r: SimResult, m: SimResult)
    requires r.elapsedUs < U64 && m.elapsedUs == 0 && m.created == None
    ensures Fold(Join([UintField(7, r.elapsedUs), RawField(8, ToBytes(r.created))]), m, ApplyResponse)
         == Ok(m.(elapsedUs := r.elapsedUs, created := r.created))
  {
    hide Fold, Join, RawField, UintField, Whole, DecodeLog, DecodeChange;
    var n := m.(elapsedUs := r.elapsedUs);
    var p7, p8 := UintField(7, r.elapsedUs), RawField(8, ToBytes(r.created));
    FoldUint(7, r.elapsedUs, m, ApplyResponse);
    FoldRaw(8, ToBytes(r.created), n, ApplyResponse);
    FoldPiece(p7, [p8], m, n, ApplyResponse);
    assert [p7] + [p8] == [p7, p8];
    JoinOne(p8);
  }

  /** Decoding what the engine writes gives back the result, with all its nested logs and changes. */
  lemma ResponseRoundTrip(r: SimResult)
    requires Sendable(r)
    ensures Decode(WriteResponse(r)) == Ok(r)
  {
    hide Fold, Join, RawField, UintField, LogPieces, ChangePieces, Pow256, SendableLog, ApplyResponse, ToBytes;
    var last := [UintField(7, r.elapsedUs), RawField(8, ToBytes(r.created))];
    var m := EMPTY_RESULT.(outcome := r.outcome, gasUsed := r.gasUsed, output := r.output, reason := r.reason);
    FirstFieldsRead(r, LogPieces(r.logs) + (ChangePieces(r.changes) + last), m);
    LogsRead(r.logs, ChangePieces(r.changes) + last, m);
    assert m.logs + r.logs == r.logs;
    var n := m.(logs := r.logs);
    ChangesRead(r.changes, last, n);
    assert n.changes + r.changes == r.changes;
    LastFieldsRead(r, n.(changes := r.changes));
  }

  lemma FoldPieces4(p1: seq<byte>, p2: seq<byte>, p3: seq<byte>, p4: seq<byte>, tail: seq<seq<byte>>,
                    m0: SimResult, m1: SimResult, m2: SimResult, m3: SimResult, m4: SimResult)
    requires Whole(p1) && Fold(p1, m0, ApplyResponse) == Ok(m1)
    requires Whole(p2) && Fold(p2, m1, ApplyResponse) == Ok(m2)
    requires Whole(p3) && Fold(p3, m2, ApplyResponse) == Ok(m3)
    requires Whole(p4) && Fold(p4, m3, ApplyResponse) == Ok(m4)
    ensures Fold(Join([p1, p2, p3, p4] + tail), m0, ApplyResponse) == Fold(Join(tail), m4, ApplyResponse)
  {
    hide Fold, Join, Whole, ApplyResponse;
    FoldPiece(p4, tail, m3, m4, ApplyResponse);
    FoldPiece(p3, [p4] + tail, m2, m3, ApplyResponse);
    FoldPiece(p2, [p3] + ([p4] + tail), m1, m2, ApplyResponse);
    FoldPiece(p1, [p2] + ([p3] + ([p4] + tail)), m0, m1, ApplyResponse);
    assert [p1, p2, p3, p4] + tail == [p1] + ([p2] + ([p3] + ([p4] + tail)));
  }

  // ------------------------------------------------------------------ newer engines stay compatible

  datatype Level = Response | LogMessage | ChangeMessage

  /** The field numbers and wire types each message of the schema uses. */
  predicate Known(level: Level, num: nat, wire: nat) {
    match level
    case Response => (wire == VARINT && num in {1, 2, 7}) || (wire == BYTES && num in {3, 4, 5, 6, 8})
    case LogMessage => wire == BYTES && num in {1, 2, 3}
    case ChangeMessage => wire == BYTES && num in {1, 2, 3}
  }

  /** Bytes that hold whole fields, none of which the level knows: unused numbers, known numbers with another wire
      type, and any fixed-width fields. */
  predicate Unknown(level: Level, x: seq<byte>) {
    AllFields(x).Some? && forall f <- AllFields(x).value :: !Known(level, f.num, f.wire)
  }

  /** Such are: one field of an unused number or another wire type, and any fixed-width field. */
  lemma ExtraUnknown(level: Level, x: Extra)
    requires ValidExtra(x) && !Known(level, x.num, ExtraWire(x))
    ensures Unknown(level, ExtraField(x))
  {
    hide ExtraField, AllFields;
    FieldsOfExtra(x);
  }

  /** Inserting unknown fields between the whole fields `a` and whatever follows, in the message itself. */
  lemma UnknownInResponse(a: seq<byte>, x: seq<byte>, b: seq<byte>)
    requires Whole(a) && Unknown(Response, x)
    ensures Decode(a + x + b) == Decode(a + b)
  {
    hide Fold, DecodeLog, DecodeChange, Whole, AllFields;
    InsertionInvisible(a, x, b, EMPTY_RESULT, ApplyResponse);
  }

  lemma UnknownInLog(a: seq<byte>, x: seq<byte>, b: seq<byte>)
    requires Whole(a) && Unknown(LogMessage, x)
    ensures DecodeLog(a + x + b) == DecodeLog(a + b)
  {
    hide Fold, Whole, AllFields;
    InsertionInvisible(a, x, b, EMPTY_LOG, ApplyLog);
  }

  lemma UnknownInChange(a: seq<byte>, x: seq<byte>, b: seq<byte>)
    requires Whole(a) && Unknown(ChangeMessage, x)
    ensures DecodeChange(a + x + b) == DecodeChange(a + b)
  {
    hide Fold, Whole, AllFields;
    InsertionInvisible(a, x, b, EMPTY_CHANGE, ApplyChange);
  }

  /** A nested message may be replaced by one that folds the same. */
  lemma NestedReplace(num: nat, a: seq<byte>, inner: seq<byte>, other: seq<byte>, b: seq<byte>)
    requires Whole(a) && num <= MAX_FIELD && |inner| <= MAX_LENGTH && |other| <= MAX_LENGTH
    requires forall m :: ApplyResponse(m, RawValue(num, inner)) == ApplyResponse(m, RawValue(num, other))
    ensures Decode(a + RawAlwaysField(num, inner) + b) == Decode(a + RawAlwaysField(num, other) + b)
  {
    hide Fold, ApplyResponse, RawAlwaysField, Whole;
    var x, y := RawAlwaysField(num, inner), RawAlwaysField(num, other);
    assert a + x + b == a + (x + b) && a + y + b == a + (y + b);
    FoldConcat(a, x + b, EMPTY_RESULT, ApplyResponse);
    FoldConcat(a, y + b, EMPTY_RESULT, ApplyResponse);
    var mid := Fold(a, EMPTY_RESULT, ApplyResponse);
    if mid.Ok? {
      FoldRawAlways(num, inner, mid.value, ApplyResponse);
      FoldRawAlways(num, other, mid.value, ApplyResponse);
      FoldConcat(x, b, mid.value, ApplyResponse);
      FoldConcat(y, b, mid.value, ApplyResponse);
    }
  }

  /** `fat` is `thin` with unknown fields inserted at a field boundary: of the response, or of a log or a
      balance change nested in it. */
  ghost predicate Fattened(thin: seq<byte>, fat: seq<byte>) {
    || (exists a, x, b :: Whole(a) && Unknown(Response, x) && thin == a + b && fat == a + x + b)
    || (exists a, p, x, q, b :: FattenedLog(thin, fat, a, p, x, q, b))
    || (exists a, p, x, q, b :: FattenedChange(thin, fat, a, p, x, q, b))
  }

  ghost predicate FattenedLog(thin: seq<byte>, fat: seq<byte>,
                              a: seq<byte>, p: seq<byte>, x: seq<byte>, q: seq<byte>, b: seq<byte>)
  {
    && Whole(a) && Whole(p) && Unknown(LogMessage, x) && |p + x + q| <= MAX_LENGTH
    && thin == a + RawAlwaysField(5, p + q) + b && fat == a + RawAlwaysField(5, p + x + q) + b
  }

  ghost predicate FattenedChange(thin: seq<byte>, fat: seq<byte>,
                              a: seq<byte>, p: seq<byte>, x: seq<byte>, q: seq<byte>, b: seq<byte>)
  {
    && Whole(a) && Whole(p) && Unknown(ChangeMessage, x) && |p + x + q| <= MAX_LENGTH
    && thin == a + RawAlwaysField(6, p + q) + b && fat == a + RawAlwaysField(6, p + x + q) + b
  }

  lemma FattenedSame(thin: seq<byte>, fat: seq<byte>)
    requires Fattened(thin, fat)
    ensures Decode(fat) == Decode(thin)
  {
    hide Decode, RawAlwaysField, Whole, Unknown, DecodeLog, DecodeChange;
    if a, x, b :| Whole(a) && Unknown(Response, x) && thin == a + b && fat == a + x + b {
      UnknownInResponse(a, x, b);
    } else if a, p, x, q, b :| FattenedLog(thin, fat, a, p, x, q, b) {
      UnknownInLog(p, x, q);
      NestedReplace(5, a, p + x + q, p + q, b);
    } else {
      var a, p, x, q, b :| FattenedChange(thin, fat, a, p, x, q, b);
      UnknownInChange(p, x, q);
      NestedReplace(6, a, p + x + q, p + q, b);
    }
  }

  /** Forward compatibility: any number of unknown fields, inserted anywhere at field boundaries,
      leaves the decoded result, or the error, as it was. */
  lemma {:induction false} ForwardCompatible(versions: seq<seq<byte>>)
    requires versions != []
    requires forall i :: 0 <= i < |versions| - 1 ==> Fattened(versions[i], versions[i + 1])
    ensures Decode(versions[|versions| - 1]) == Decode(versions[0])
    decreases |versions|
  {
    hide Decode, Fattened;
    var n := |versions| - 1;
    if n > 0 {
      ForwardCompatible(versions[..n]);
      assert Fattened(versions[n - 1], versions[n - 1 + 1]);
      FattenedSame(versions[n - 1], versions[n]);
    }
  }
}
