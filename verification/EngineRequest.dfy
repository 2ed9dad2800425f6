/** The engine's SimulateRequest: how the client writes it, and what the schema reads back. */
module EngineRequest {
  import opened Wrappers
  import opened Bytes
  import opened PbWire
  import opened PbMessage
  import opened EngineResponse

  /** A Go *big.Int: None is nil. */
  type BigInt = Option<int>

  type Key = k: seq<byte> | |k| == 32 witness Zeros(32)

  datatype Slot = Slot(key: Key, value: BigInt)
  datatype Account = Account(address: Address, balance: BigInt, nonce: uint64, code: seq<byte>, storage: seq<Slot>)
  datatype SimRequest = SimRequest(
    chainID: uint64,
    from: Address,
    to: Option<Address>,
    value: BigInt,
    data: seq<byte>,
    gasLimit: uint64,
    gasPrice: BigInt,
    state: seq<Account>,
    blockNumber: uint64,
    timestamp: uint64)

  datatype EncodeError = OutOfRange

  /** nil, or an unsigned 256-bit integer. */
  predicate InRange(v: BigInt) {
    v.Some? ==> 0 <= v.value < Pow256(32)
  }

  predicate AccountInRange(a: Account) {
    InRange(a.balance) && forall i :: 0 <= i < |a.storage| ==> InRange(a.storage[i].value)
  }

  predicate RequestInRange(r: SimRequest) {
    && InRange(r.value) && InRange(r.gasPrice)
    && forall i :: 0 <= i < |r.state| ==> AccountInRange(r.state[i])
  }

  function NumberOf(v: BigInt): nat
    requires InRange(v)
  {
    match v
    case None => 0
    case Some(n) => n
  }

  function Word(v: BigInt): seq<byte>
    requires InRange(v)
  {
    BigEndian(NumberOf(v))
  }

  lemma WordBytes(v: BigInt)
    requires InRange(v)
    ensures |Word(v)| <= 32 && ValueOf(Word(v)) == NumberOf(v)
  {
    BigEndianLength(NumberOf(v), 32);
    ValueOfBigEndian(NumberOf(v));
  }

  // ------------------------------------------------------------------ writing

  function WriteSlot(s: Slot): seq<byte>
    requires InRange(s.value)
  {
    Join([RawField(1, s.key), RawField(2, Word(s.value))])
  }

  function SlotPieces(storage: seq<Slot>): seq<seq<byte>>
    requires forall i :: 0 <= i < |storage| ==> InRange(storage[i].value)
  {
    if storage == [] then []
    else SlotPieces(storage[..|storage| - 1]) + [RawAlwaysField(5, WriteSlot(storage[|storage| - 1]))]
  }

  function WriteAccount(a: Account): seq<byte>
    requires AccountInRange(a)
  {
    Join([RawField(1, a.address), RawField(2, Word(a.balance)), UintField(3, a.nonce), RawField(4, a.code)]
         + SlotPieces(a.storage))
  }

  function AccountPieces(state: seq<Account>): seq<seq<byte>>
    requires forall i :: 0 <= i < |state| ==> AccountInRange(state[i])
  {
    if state == [] then []
    else AccountPieces(state[..|state| - 1]) + [RawAlwaysField(8, WriteAccount(state[|state| - 1]))]
  }

  function HeadPieces(r: SimRequest): (pieces: seq<seq<byte>>)
    requires RequestInRange(r)
    ensures |pieces| == 7
  {
    [UintField(1, r.chainID), RawField(2, r.from), RawField(3, ToBytes(r.to)), RawField(4, Word(r.value)),
     RawField(5, r.data), UintField(6, r.gasLimit), RawField(7, Word(r.gasPrice))]
  }

  function WriteRequest(r: SimRequest): seq<byte>
    requires RequestInRange(r)
  {
    Join(HeadPieces(r) + AccountPieces(r.state) + [UintField(9, r.blockNumber), UintField(10, r.timestamp)])
  }

  // ------------------------------------------------------------------ reading by the schema

  datatype SlotMessage = SlotMessage(key: seq<byte>, value: seq<byte>)
  datatype AccountMessage = AccountMessage(
    address: seq<byte>,
    balance: seq<byte>,
    nonce: nat,
    code: seq<byte>,
    storage: seq<SlotMessage>)
  datatype RequestMessage = RequestMessage(
    chainID: nat,
    from: seq<byte>,
    to: seq<byte>,
    value: seq<byte>,
    data: seq<byte>,
    gasLimit: nat,
    gasPrice: seq<byte>,
    state: seq<AccountMessage>,
    blockNumber: nat,
    timestamp: nat)

  const NO_SLOT := SlotMessage([], [])
  const NO_ACCOUNT := AccountMessage([], [], 0, [], [])
  const NO_REQUEST := RequestMessage(0, [], [], [], [], 0, [], [], 0, 0)

  function ApplySlot(s: SlotMessage, f: Field): Result<SlotMessage, DecodeError> {
    if f.num == 1 && f.wire == BYTES then Ok(s.(key := f.raw))
    else if f.num == 2 && f.wire == BYTES then Ok(s.(value := f.raw))
    else Ok(s)
  }

  function ReadSlot(b: seq<byte>): Result<SlotMessage, DecodeError> {
    Fold(b, NO_SLOT, ApplySlot)
  }

  function ApplyAccount(a: AccountMessage, f: Field): Result<AccountMessage, DecodeError> {
    if f.num == 1 && f.wire == BYTES then Ok(a.(address := f.raw))
    else if f.num == 2 && f.wire == BYTES then Ok(a.(balance := f.raw))
    else if f.num == 3 && f.wire == VARINT then Ok(a.(nonce := f.uint))
    else if f.num == 4 && f.wire == BYTES then Ok(a.(code := f.raw))
    else if f.num == 5 && f.wire == BYTES then
      match ReadSlot(f.raw)
      case Err(e) => Err(e)
      case Ok(s) => Ok(a.(storage := a.storage + [s]))
    else Ok(a)
  }

  function ReadAccount(b: seq<byte>): Result<AccountMessage, DecodeError> {
    Fold(b, NO_ACCOUNT, ApplyAccount)
  }

  function ApplyRequest(r: RequestMessage, f: Field): Result<RequestMessage, DecodeError> {
    if f.num == 1 && f.wire == VARINT then Ok(r.(chainID := f.uint))
    else if f.num == 2 && f.wire == BYTES then Ok(r.(from := f.raw))
    else if f.num == 3 && f.wire == BYTES then Ok(r.(to := f.raw))
    else if f.num == 4 && f.wire == BYTES then Ok(r.(value := f.raw))
    else if f.num == 5 && f.wire == BYTES then Ok(r.(data := f.raw))
    else if f.num == 6 && f.wire == VARINT then Ok(r.(gasLimit := f.uint))
    else if f.num == 7 && f.wire == BYTES then Ok(r.(gasPrice := f.raw))
    else if f.num == 8 && f.wire == BYTES then
      match ReadAccount(f.raw)
      case Err(e) => Err(e)
      case Ok(a) => Ok(r.(state := r.state + [a]))
    else if f.num == 9 && f.wire == VARINT then Ok(r.(blockNumber := f.uint))
    else if f.num == 10 && f.wire == VARINT then Ok(r.(timestamp := f.uint))
    else Ok(r)
  }

  function ReadRequest(b: seq<byte>): Result<RequestMessage, DecodeError> {
    Fold(b, NO_REQUEST, ApplyRequest)
  }

  // ------------------------------------------------------------------ the engine's length checks and numbers

  datatype EngineSlot = EngineSlot(key: seq<byte>, value: nat)
  datatype EngineAccount = EngineAccount(address: seq<byte>, balance: nat, nonce: nat, code: seq<byte>,
                                         storage: seq<EngineSlot>)
  datatype EngineRequest = EngineRequest(
    chainID: nat,
    from: seq<byte>,
    to: Option<seq<byte>>,
    value: nat,
    data: seq<byte>,
    gasLimit: nat,
    gasPrice: nat,
    state: seq<EngineAccount>,
    blockNumber: nat,
    timestamp: nat)

  predicate SlotOk(s: SlotMessage) {
    |s.key| == 32 && |s.value| <= 32
  }

  predicate AccountOk(a: AccountMessage) {
    |a.address| == 20 && |a.balance| <= 32 && forall i :: 0 <= i < |a.storage| ==> SlotOk(a.storage[i])
  }

  /** Addresses are 20 bytes, words at most 32, storage keys exactly 32; an empty `to` means
      contract creation. */
  predicate RequestOk(m: RequestMessage) {
    && |m.from| == 20 && (m.to == [] || |m.to| == 20) && |m.value| <= 32 && |m.gasPrice| <= 32
    && forall i :: 0 <= i < |m.state| ==> AccountOk(m.state[i])
  }

  function EngineSlots(ss: seq<SlotMessage>): seq<EngineSlot> {
    seq(|ss|, i requires 0 <= i < |ss| => EngineSlot(ss[i].key, ValueOf(ss[i].value)))
  }

  function EngineAccounts(accounts: seq<AccountMessage>): seq<EngineAccount> {
    seq(|accounts|, i requires 0 <= i < |accounts| =>
      var a := accounts[i];
      EngineAccount(a.address, ValueOf(a.balance), a.nonce, a.code, EngineSlots(a.storage)))
  }

  /** What the engine takes a request message to mean. */
  function EngineView(m: RequestMessage): EngineRequest {
    EngineRequest(m.chainID, m.from, if m.to == [] then None else Some(m.to), ValueOf(m.value), m.data, m.gasLimit,
                  ValueOf(m.gasPrice), EngineAccounts(m.state), m.blockNumber, m.timestamp)
  }

  /** What the client meant: a nil number is 0. */
  function IntendedSlots(ss: seq<Slot>): (r: seq<EngineSlot>)
    requires forall i :: 0 <= i < |ss| ==> InRange(ss[i].value)
  {
    seq(|ss|, i requires 0 <= i < |ss| => EngineSlot(ss[i].key, NumberOf(ss[i].value)))
  }

  function IntendedAccounts(accounts: seq<Account>): seq<EngineAccount>
    requires forall i :: 0 <= i < |accounts| ==> AccountInRange(accounts[i])
  {
    seq(|accounts|, i requires 0 <= i < |accounts| && AccountInRange(accounts[i]) =>
      var a := accounts[i];
      EngineAccount(a.address, NumberOf(a.balance), a.nonce, a.code, IntendedSlots(a.storage)))
  }

  function Intended(r: SimRequest): EngineRequest
    requires RequestInRange(r)
  {
    EngineRequest(r.chainID, r.from, match r.to case None => None case Some(a) => Some(a), NumberOf(r.value), r.data,
                  r.gasLimit, NumberOf(r.gasPrice), IntendedAccounts(r.state), r.blockNumber, r.timestamp)
  }

  // ------------------------------------------------------------------ messages of a request

  function SlotOf(s: Slot): SlotMessage
    requires InRange(s.value)
  {
    SlotMessage(s.key, Word(s.value))
  }

  function SlotsOf(ss: seq<Slot>): (r: seq<SlotMessage>)
    requires forall i :: 0 <= i < |ss| ==> InRange(ss[i].value)
    ensures |r| == |ss| && forall i :: 0 <= i < |ss| ==> r[i] == SlotOf(ss[i])
  {
    seq(|ss|, i requires 0 <= i < |ss| => SlotOf(ss[i]))
  }

  function AccountOf(a: Account): AccountMessage
    requires AccountInRange(a)
  {
    AccountMessage(a.address, Word(a.balance), a.nonce, a.code, SlotsOf(a.storage))
  }

  function AccountsOf(state: seq<Account>): (r: seq<AccountMessage>)
    requires forall i :: 0 <= i < |state| ==> AccountInRange(state[i])
    ensures |r| == |state| && forall i :: 0 <= i < |state| ==> r[i] == AccountOf(state[i])
  {
    seq(|state|, i requires 0 <= i < |state| => AccountOf(state[i]))
  }

  function MessageOf(r: SimRequest): RequestMessage
    requires RequestInRange(r)
  {
    RequestMessage(r.chainID, r.from, ToBytes(r.to), Word(r.value), r.data, r.gasLimit, Word(r.gasPrice),
                   AccountsOf(r.state), r.blockNumber, r.timestamp)
  }

  /** No length-delimited part reaches 2 GiB, the limit of the encoding. */
  ghost predicate Small(r: SimRequest)
    requires RequestInRange(r)
  {
    |r.data| <= MAX_LENGTH && forall i :: 0 <= i < |r.state| ==> SmallAccount(r.state[i])
  }

  ghost predicate SmallAccount(a: Account)
    requires AccountInRange(a)
  {
    |a.code| <= MAX_LENGTH && |WriteAccount(a)| <= MAX_LENGTH
  }

  // ------------------------------------------------------------------ the schema inverts the client

  /** Reading one piece after the pieces read so far. */
  lemma FoldSnoc<M>(pieces: seq<seq<byte>>, piece: seq<byte>, m: M, n: M, apply: (M, Field) -> Result<M, DecodeError>)
    requires Whole(Join(pieces)) && Fold(Join(pieces), m, apply) == Ok(n)
    ensures Fold(Join(pieces + [piece]), m, apply) == Fold(piece, n, apply)
    ensures Whole(Join(pieces + [piece])) == Whole(piece)
  {
    JoinSnoc(pieces, piece);
    FoldConcat(Join(pieces), piece, m, apply);
    WholeConcat(Join(pieces), piece);
  }

  lemma SlotRead(s: Slot)
    requires InRange(s.value)
    ensures ReadSlot(WriteSlot(s)) == Ok(SlotOf(s))
    ensures |WriteSlot(s)| <= MAX_LENGTH
  {
    hide Fold, Join, Whole, RawField, Word;
    var p1, p2 := RawField(1, s.key), RawField(2, Word(s.value));
    WordBytes(s.value);
    JoinOne(p1);
    JoinSnoc([p1], p2);
    assert [p1] + [p2] == [p1, p2];
    var m := NO_SLOT.(key := s.key);
    FoldRaw(1, s.key, NO_SLOT, ApplySlot);
    FoldRaw(2, Word(s.value), m, ApplySlot);
    FoldSnoc([p1], p2, NO_SLOT, m, ApplySlot);
    RawLength(1, s.key);
    RawLength(2, Word(s.value));
  }

  lemma RawLength(num: nat, raw: seq<byte>)
    requires num < 16 && |raw| <= 32
    ensures |RawField(num, raw)| <= |raw| + 2
  {
  }

  lemma {:induction false} SlotsRead(storage: seq<Slot>, a: AccountMessage, first: seq<seq<byte>>, m: AccountMessage)
    requires forall i :: 0 <= i < |storage| ==> InRange(storage[i].value)
    requires Whole(Join(first)) && Fold(Join(first), m, ApplyAccount) == Ok(a) && a.storage == []
    ensures Whole(Join(first + SlotPieces(storage)))
    ensures Fold(Join(first + SlotPieces(storage)), m, ApplyAccount) == Ok(a.(storage := SlotsOf(storage)))
    decreases |storage|
  {
    hide Fold, Join, Whole, RawAlwaysField, WriteSlot, ReadSlot, SlotOf;
    if storage == [] {
      assert first + SlotPieces(storage) == first;
      assert SlotsOf(storage) == [];
    } else {
      var n := |storage| - 1;
      var front, last := storage[..n], storage[n];
      var pieces, piece := first + SlotPieces(front), RawAlwaysField(5, WriteSlot(last));
      SlotsRead(front, a, first, m);
      SlotRead(last);
      var b := a.(storage := SlotsOf(front));
      FoldRawAlways(5, WriteSlot(last), b, ApplyAccount);
      FoldSnoc(pieces, piece, m, b, ApplyAccount);
      assert first + SlotPieces(storage) == pieces + [piece];
      assert SlotsOf(storage) == SlotsOf(front) + [SlotOf(last)];
    }
  }

  lemma AccountHeadRead(a: Account, first: seq<seq<byte>>)
    requires AccountInRange(a) && |a.code| <= MAX_LENGTH
    requires first == [RawField(1, a.address), RawField(2, Word(a.balance)), UintField(3, a.nonce), RawField(4, a.code)]
    ensures Whole(Join(first))
    ensures Fold(Join(first), NO_ACCOUNT, ApplyAccount)
         == Ok(AccountMessage(a.address, Word(a.balance), a.nonce, a.code, []))
  {
    hide Fold, Join, Whole, RawField, UintField, Word;
    var m1 := NO_ACCOUNT.(address := a.address);
    var m2 := m1.(balance := Word(a.balance));
    var m3 := m2.(nonce := a.nonce);
    WordBytes(a.balance);
    FoldRaw(1, a.address, NO_ACCOUNT, ApplyAccount);
    FoldRaw(2, Word(a.balance), m1, ApplyAccount);
    FoldUint(3, a.nonce, m2, ApplyAccount);
    FoldRaw(4, a.code, m3, ApplyAccount);
    JoinOne(first[0]);
    FoldSnoc([first[0]], first[1], NO_ACCOUNT, m1, ApplyAccount);
    assert [first[0]] + [first[1]] == first[..2];
    FoldSnoc(first[..2], first[2], NO_ACCOUNT, m2, ApplyAccount);
    assert first[..2] + [first[2]] == first[..3];
    FoldSnoc(first[..3], first[3], NO_ACCOUNT, m3, ApplyAccount);
    assert first[..3] + [first[3]] == first;
  }

  lemma AccountRead(a: Account)
    requires AccountInRange(a) && SmallAccount(a)
    ensures ReadAccount(WriteAccount(a)) == Ok(AccountOf(a))
  {
    hide Fold, Join, Whole, RawField, UintField, Word, SlotPieces;
    var first := [RawField(1, a.address), RawField(2, Word(a.balance)), UintField(3, a.nonce), RawField(4, a.code)];
    AccountHeadRead(a, first);
    SlotsRead(a.storage, AccountMessage(a.address, Word(a.balance), a.nonce, a.code, []), first, NO_ACCOUNT);
  }

  lemma {:induction false} AccountsRead(state: seq<Account>, r: RequestMessage, first: seq<seq<byte>>,
                                        m: RequestMessage)
    requires forall i :: 0 <= i < |state| ==> AccountInRange(state[i]) && SmallAccount(state[i])
    requires Whole(Join(first)) && Fold(Join(first), m, ApplyRequest) == Ok(r) && r.state == []
    ensures Whole(Join(first + AccountPieces(state)))
    ensures Fold(Join(first + AccountPieces(state)), m, ApplyRequest) == Ok(r.(state := AccountsOf(state)))
    decreases |state|
  {
    hide Fold, Join, Whole, RawAlwaysField, WriteAccount, ReadAccount, AccountInRange, AccountOf;
    if state == [] {
      assert first + AccountPieces(state) == first;
      assert AccountsOf(state) == [];
    } else {
      var n := |state| - 1;
      var front, last := state[..n], state[n];
      var pieces, piece := first + AccountPieces(front), RawAlwaysField(8, WriteAccount(last));
      AccountsRead(front, r, first, m);
      AccountRead(last);
      var b := r.(state := AccountsOf(front));
      FoldRawAlways(8, WriteAccount(last), b, ApplyRequest);
      FoldSnoc(pieces, piece, m, b, ApplyRequest);
      assert first + AccountPieces(state) == pieces + [piece];
      assert AccountsOf(state) == AccountsOf(front) + [AccountOf(last)];
    }
  }

  /** The request message as far as its first k fields. */
  function Partial(m: RequestMessage, k: nat): RequestMessage {
    RequestMessage(
      if k >= 1 then m.chainID else 0,
      if k >= 2 then m.from else [],
      if k >= 3 then m.to else [],
      if k >= 4 then m.value else [],
      if k >= 5 then m.data else [],
      if k >= 6 then m.gasLimit else 0,
      if k >= 7 then m.gasPrice else [],
      [], 0, 0)
  }

  lemma HeadPieceRead(r: SimRequest, k: nat)
    requires RequestInRange(r) && |r.data| <= MAX_LENGTH && k < 7
    ensures Whole(HeadPieces(r)[k])
    ensures Fold(HeadPieces(r)[k], Partial(MessageOf(r), k), ApplyRequest) == Ok(Partial(MessageOf(r), k + 1))
  {
    hide Fold, Whole, RawField, UintField, Word, AccountsOf;
    var m := MessageOf(r);
    var before := Partial(m, k);
    WordBytes(r.value);
    WordBytes(r.gasPrice);
    if k == 0 { FoldUint(1, r.chainID, before, ApplyRequest); }
    else if k == 1 { FoldRaw(2, r.from, before, ApplyRequest); }
    else if k == 2 { FoldRaw(3, ToBytes(r.to), before, ApplyRequest); }
    else if k == 3 { FoldRaw(4, Word(r.value), before, ApplyRequest); }
    else if k == 4 { FoldRaw(5, r.data, before, ApplyRequest); }
    else if k == 5 { FoldUint(6, r.gasLimit, before, ApplyRequest); }
    else { FoldRaw(7, Word(r.gasPrice), before, ApplyRequest); }
  }

  lemma NothingRead(pieces: seq<seq<byte>>)
    requires pieces == []
    ensures Whole(Join(pieces)) && Fold(Join(pieces), NO_REQUEST, ApplyRequest) == Ok(NO_REQUEST)
  {
    FoldNothing(NO_REQUEST, ApplyRequest);
  }

  lemma {:induction false} HeadRead(r: SimRequest, k: nat)
    requires RequestInRange(r) && |r.data| <= MAX_LENGTH && k <= 7
    ensures Whole(Join(HeadPieces(r)[..k]))
    ensures Fold(Join(HeadPieces(r)[..k]), NO_REQUEST, ApplyRequest) == Ok(Partial(MessageOf(r), k))
    decreases k
  {
    hide Fold, Whole, Join, ApplyRequest, RequestInRange, HeadPieces, MessageOf;
    if k == 0 {
      NothingRead(HeadPieces(r)[..0]);
    } else {
      hide Partial;
      var pieces := HeadPieces(r);
      HeadRead(r, k - 1);
      HeadPieceRead(r, k - 1);
      FoldSnoc(pieces[..k - 1], pieces[k - 1], NO_REQUEST, Partial(MessageOf(r), k - 1), ApplyRequest);
      assert pieces[..k - 1] + [pieces[k - 1]] == pieces[..k];
    }
  }

  /** Reading the encoded request by the schema gives its message, slots nested in accounts. */
  lemma RequestRead(r: SimRequest)
    requires RequestInRange(r) && Small(r)
    ensures ReadRequest(WriteRequest(r)) == Ok(MessageOf(r))
  {
    hide Fold, Whole, Join, UintField, HeadPieces, AccountPieces, AccountInRange, SmallAccount, Word, ToBytes;
    hide AccountsOf;
    var pieces := HeadPieces(r);
    HeadRead(r, 7);
    assert pieces[..7] == pieces;
    var m7 := Partial(MessageOf(r), 7);
    AccountsRead(r.state, m7, pieces, NO_REQUEST);
    var m8 := m7.(state := AccountsOf(r.state));
    TailRead(r.blockNumber, r.timestamp, pieces + AccountPieces(r.state), m8);
  }

  lemma TailRead(blockNumber: uint64, timestamp: uint64, pieces: seq<seq<byte>>, m: RequestMessage)
    requires Whole(Join(pieces)) && Fold(Join(pieces), NO_REQUEST, ApplyRequest) == Ok(m)
    requires m.blockNumber == 0 && m.timestamp == 0
    ensures Fold(Join(pieces + [UintField(9, blockNumber), UintField(10, timestamp)]), NO_REQUEST, ApplyRequest)
         == Ok(m.(blockNumber := blockNumber, timestamp := timestamp))
  {
    hide Fold, Whole, Join, UintField;
    var n := m.(blockNumber := blockNumber);
    FoldUint(9, blockNumber, m, ApplyRequest);
    FoldUint(10, timestamp, n, ApplyRequest);
    var p9, p10 := UintField(9, blockNumber), UintField(10, timestamp);
    FoldSnoc(pieces, p9, NO_REQUEST, m, ApplyRequest);
    FoldSnoc(pieces + [p9], p10, NO_REQUEST, n, ApplyRequest);
    assert pieces + [p9] + [p10] == pieces + [p9, p10];
  }

  lemma SlotsMeant(ss: seq<Slot>)
    requires forall i :: 0 <= i < |ss| ==> InRange(ss[i].value)
    ensures EngineSlots(SlotsOf(ss)) == IntendedSlots(ss)
    ensures forall i :: 0 <= i < |ss| ==> SlotOk(SlotsOf(ss)[i])
  {
    forall i | 0 <= i < |ss|
      ensures EngineSlots(SlotsOf(ss))[i] == IntendedSlots(ss)[i] && SlotOk(SlotsOf(ss)[i])
    {
      WordBytes(ss[i].value);
    }
  }

  lemma AccountsMeant(state: seq<Account>)
    requires forall i :: 0 <= i < |state| ==> AccountInRange(state[i])
    ensures EngineAccounts(AccountsOf(state)) == IntendedAccounts(state)
    ensures forall i :: 0 <= i < |state| ==> AccountOk(AccountsOf(state)[i])
  {
    forall i | 0 <= i < |state|
      ensures EngineAccounts(AccountsOf(state))[i] == IntendedAccounts(state)[i] && AccountOk(AccountsOf(state)[i])
    {
      assert AccountInRange(state[i]);
      SlotsMeant(state[i].storage);
      WordBytes(state[i].balance);
    }
  }

  /** The request round trip: what the client writes passes the engine's length checks and means
      to the engine what the client meant, a nil number being 0 and a missing `to` a creation. */
  lemma RequestRoundTrip(r: SimRequest)
    requires RequestInRange(r) && Small(r)
    ensures var m := ReadRequest(WriteRequest(r));
            m.Ok? && RequestOk(m.value) && EngineView(m.value) == Intended(r)
  {
    hide WriteRequest, ReadRequest, Word, EngineAccounts, IntendedAccounts, AccountOk;
    RequestRead(r);
    AccountsMeant(r.state);
    WordBytes(r.value);
    WordBytes(r.gasPrice);
  }
}
