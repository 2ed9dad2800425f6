/** What one `Sync` pass of the indexer does, as a function of the stored chain and of everything
    the source answered during the pass. The source may change between any two calls, so its answer
    depends on the call's position in the pass as well as on the height asked for. */
module IndexerSpec {
  import opened Chain
  import opened Wrappers

  datatype HeadAnswer = Head(height: nat) | HeadFailed
  datatype BlockAnswer = Found(block: Block) | NotFound | Failed

  datatype Source = Source(head: HeadAnswer, block: (nat, nat) -> BlockAnswer)

  /** The contract of a source: it answers for the height it was asked for. */
  ghost predicate Honest(src: Source) {
    && (src.head.Head? ==> src.head.height < MAX_HEIGHT)
    && (forall i, n :: src.block(i, n).Found? ==> src.block(i, n).block.number == n)
  }

  datatype SyncError = NoError | ErrHead | ErrSource | ErrNotFound | ErrParentMismatch

  /** The events published under the key "chain". */
  datatype ChainEvent = New(block: Block) | Reorged(block: Block)

  /** The chain to store, the events published, the number of block calls made, and the error. */
  datatype Progress = Progress(chain: seq<Block>, events: seq<ChainEvent>, calls: nat, err: SyncError)

  /** Is the stored tip still the source's block at its height? */
  predicate TipConfirmed(src: Source, call: nat, tip: Block) {
    var a := src.block(call, tip.number);
    a.Found? && a.block.hash == tip.hash
  }

  /** Pop the tip until the source confirms it. */
  function Unwind(src: Source, chain: seq<Block>, call: nat): Progress {
    if chain == [] then Progress([], [], call, NoError)
    else
      var tip := chain[|chain| - 1];
      if TipConfirmed(src, call, tip) then Progress(chain, [], call + 1, NoError)
      else if src.block(call, tip.number).Failed? then Progress(chain, [], call + 1, ErrSource)
      else
        var rest := Unwind(src, chain[..|chain| - 1], call + 1);
        rest.(events := [Reorged(tip)] + rest.events)
  }

  /** Append a block and drop the oldest one if the window overflows. */
  function Push(window: nat, chain: seq<Block>, b: Block): seq<Block> {
    var longer := chain + [b];
    if |longer| > window then longer[1..] else longer
  }

  /** Fetch the block at height `n` and put it on top. */
  function FetchStep(src: Source, window: nat, chain: seq<Block>, n: nat, call: nat): Progress {
    match src.block(call, n)
    case NotFound => Progress(chain, [], call + 1, ErrNotFound)
    case Failed => Progress(chain, [], call + 1, ErrSource)
    case Found(b) =>
      if chain != [] && b.parentHash != chain[|chain| - 1].hash then
        Progress(chain, [], call + 1, ErrParentMismatch)
      else
        Progress(Push(window, chain, b), [New(b)], call + 1, NoError)
  }

  /** Fetch the blocks from height `n` up to `head`. */
  function Refetch(src: Source, window: nat, chain: seq<Block>, n: nat, head: nat, call: nat): Progress
    decreases head + 1 - n
  {
    if n > head then Progress(chain, [], call, NoError)
    else
      var s := FetchStep(src, window, chain, n, call);
      if s.err != NoError then s
      else
        var rest := Refetch(src, window, s.chain, n + 1, head, s.calls);
        rest.(events := s.events + rest.events)
  }

  /** The first height to fetch after unwinding. */
  function NextHeight(window: nat, chain: seq<Block>, head: nat): nat {
    if chain != [] then chain[|chain| - 1].number + 1
    else if head + 1 > window then head + 1 - window
    else 0
  }

  function SyncPass(src: Source, window: nat, chain: seq<Block>): Progress {
    if src.head.HeadFailed? then Progress(chain, [], 0, ErrHead)
    else
      var u := Unwind(src, chain, 0);
      if u.err != NoError then u
      else
        var r := Refetch(src, window, u.chain, NextHeight(window, u.chain, src.head.height), src.head.height, u.calls);
        r.(events := u.events + r.events)
  }

  /** The tip is not confirmed, and the call did not fail. */
  predicate Pops(src: Source, chain: seq<Block>, call: nat) {
    && chain != []
    && !TipConfirmed(src, call, chain[|chain| - 1]) && !src.block(call, chain[|chain| - 1].number).Failed?
  }

  lemma UnwindUnfold(src: Source, chain: seq<Block>, call: nat)
    ensures var u := Unwind(src, chain, call);
            if Pops(src, chain, call) then
              var rest := Unwind(src, chain[..|chain| - 1], call + 1);
              u.chain == rest.chain && u.events == [Reorged(chain[|chain| - 1])] + rest.events
            else u.chain == chain && u.events == []
  {
  }

  /** The next round of fetching gets a block that fits. */
  predicate Fetches(src: Source, chain: seq<Block>, n: nat, top: nat, call: nat) {
    && n <= top && src.block(call, n).Found?
    && (chain == [] || src.block(call, n).block.parentHash == chain[|chain| - 1].hash)
  }

  lemma RefetchUnfold(src: Source, window: nat, chain: seq<Block>, n: nat, top: nat, call: nat)
    ensures var r := Refetch(src, window, chain, n, top, call);
            if Fetches(src, chain, n, top, call) then
              var b := src.block(call, n).block;
              var rest := Refetch(src, window, Push(window, chain, b), n + 1, top, call + 1);
              r.chain == rest.chain && r.events == [New(b)] + rest.events
            else r.chain == chain && r.events == []
  {
    hide Push;
  }

  // ------------------------------------------------------------------ safety

  ghost predicate WindowInv(window: nat, chain: seq<Block>) {
    && Linked(chain)
    && |chain| <= window
    && (forall b :: b in chain ==> b.number < MAX_HEIGHT)
  }

  lemma PushKeeps(window: nat, chain: seq<Block>, b: Block)
    requires WindowInv(window, chain) && 0 < window && b.number < MAX_HEIGHT
    requires chain != [] ==> b.number == chain[|chain| - 1].number + 1 && b.parentHash == chain[|chain| - 1].hash
    ensures var c := Push(window, chain, b);
            WindowInv(window, c) && c != [] && c[|c| - 1] == b
  {
    var longer := chain + [b];
    ExtendLinked(chain, b);
    SliceLinked(longer, 1, |longer|);
    assert longer[1..|longer|] == longer[1..];
    assert forall x :: x in longer[1..] ==> x in longer;
  }

  /** What is left of a window after its newest blocks are popped is a window. */
  lemma PrefixKeeps(window: nat, chain: seq<Block>, k: nat)
    requires WindowInv(window, chain) && k <= |chain|
    ensures WindowInv(window, chain[..k])
  {
    SliceLinked(chain, 0, k);
    assert forall b :: b in chain[..k] ==> b in chain;
  }

  /** Unwinding only pops: one block for each event. */
  lemma {:induction false} UnwindPops(src: Source, chain: seq<Block>, call: nat)
    ensures var u := Unwind(src, chain, call);
            && |u.events| <= |chain|
            && u.chain == chain[..|chain| - |u.events|]
    decreases |chain|
  {
    if chain != [] {
      var shorter := chain[..|chain| - 1];
      UnwindPops(src, shorter, call + 1);
      var n := |Unwind(src, shorter, call + 1).events|;
      assert shorter[..|shorter| - n] == chain[..|chain| - (n + 1)];
    }
  }

  lemma {:induction false} RefetchKeeps(src: Source, window: nat, chain: seq<Block>, n: nat, head: nat, call: nat)
    requires WindowInv(window, chain) && 0 < window && Honest(src) && head < MAX_HEIGHT
    requires chain != [] ==> n == chain[|chain| - 1].number + 1
    ensures WindowInv(window, Refetch(src, window, chain, n, head, call).chain)
    decreases head + 1 - n
  {
    hide WindowInv, Push;
    if n <= head && src.block(call, n).Found? {
      var b := src.block(call, n).block;
      if chain == [] || b.parentHash == chain[|chain| - 1].hash {
        PushKeeps(window, chain, b);
        RefetchKeeps(src, window, Push(window, chain, b), n + 1, head, call + 1);
      }
    }
  }

  /** Whatever the source answers and whichever exit the pass takes, the chain it stores is
      parent-linked, contiguous in number and within the window. */
  lemma SyncKeepsWindow(src: Source, window: nat, chain: seq<Block>)
    requires WindowInv(window, chain) && 0 < window && Honest(src)
    ensures WindowInv(window, SyncPass(src, window, chain).chain)
  {
    if src.head.Head? {
      hide WindowInv, Unwind, Refetch, NextHeight;
      UnwindPops(src, chain, 0);
      var u := Unwind(src, chain, 0);
      PrefixKeeps(window, chain, |chain| - |u.events|);
      if u.err == NoError {
        RefetchKeeps(src, window, u.chain, NextHeight(window, u.chain, src.head.height), src.head.height, u.calls);
      }
    }
  }

  // ------------------------------------------------------------------ event sourcing

  /** Rebuilds the chain from its events alone. `ok` is lost as soon as a reorged event names a
      block that is not on top. */
  datatype Replayed = Replayed(ok: bool, chain: seq<Block>)

  function ReplayOne(window: nat, r: Replayed, ev: ChainEvent): Replayed {
    match ev
    case New(b) => r.(chain := Push(window, r.chain, b))
    case Reorged(b) =>
      if r.chain != [] && r.chain[|r.chain| - 1] == b then r.(chain := r.chain[..|r.chain| - 1])
      else Replayed(false, r.chain)
  }

  function Replay(window: nat, r: Replayed, evs: seq<ChainEvent>): Replayed
    decreases |evs|
  {
    if evs == [] then r else Replay(window, ReplayOne(window, r, evs[0]), evs[1..])
  }

  lemma {:induction false} ReplayAppend(window: nat, r: Replayed, a: seq<ChainEvent>, b: seq<ChainEvent>)
    ensures Replay(window, r, a + b) == Replay(window, Replay(window, r, a), b)
    decreases |a|
  {
    if a == [] {
      assert a + b == b;
    } else {
      ReplayAppend(window, ReplayOne(window, r, a[0]), a[1..], b);
      assert (a + b)[1..] == a[1..] + b;
    }
  }

  lemma {:induction false} UnwindReplays(src: Source, window: nat, chain: seq<Block>, call: nat)
    ensures var u := Unwind(src, chain, call);
            Replay(window, Replayed(true, chain), u.events) == Replayed(true, u.chain)
  {
    if chain != [] {
      var shorter := chain[..|chain| - 1];
      UnwindReplays(src, window, shorter, call + 1);
      var tip := Reorged(chain[|chain| - 1]);
      var rest := Unwind(src, shorter, call + 1);
      assert ([tip] + rest.events)[1..] == rest.events;
    }
  }

  lemma {:induction false} RefetchReplays(src: Source, window: nat, chain: seq<Block>, n: nat, head: nat, call: nat)
    ensures var r := Refetch(src, window, chain, n, head, call);
            Replay(window, Replayed(true, chain), r.events) == Replayed(true, r.chain)
    decreases head + 1 - n
  {
    if n <= head && src.block(call, n).Found? {
      var b := src.block(call, n).block;
      if chain == [] || b.parentHash == chain[|chain| - 1].hash {
        var longer := Push(window, chain, b);
        RefetchReplays(src, window, longer, n + 1, head, call + 1);
        var rest := Refetch(src, window, longer, n + 1, head, call + 1);
        assert ([New(b)] + rest.events)[1..] == rest.events;
      }
    }
  }

  /** Replaying a pass's events over the chain it started from gives the chain it stores, on
      success and on every error; each reorged event names the block on top at that point. */
  lemma SyncReplays(src: Source, window: nat, chain: seq<Block>)
    ensures var p := SyncPass(src, window, chain);
            Replay(window, Replayed(true, chain), p.events) == Replayed(true, p.chain)
  {
    if src.head.Head? {
      UnwindReplays(src, window, chain, 0);
      var u := Unwind(src, chain, 0);
      if u.err == NoError {
        var next := NextHeight(window, u.chain, src.head.height);
        RefetchReplays(src, window, u.chain, next, src.head.height, u.calls);
        var r := Refetch(src, window, u.chain, next, src.head.height, u.calls);
        ReplayAppend(window, Replayed(true, chain), u.events, r.events);
      }
    }
  }

  // ------------------------------------------------------------------ success and errors

  /** The last block call explains the error. */
  ghost predicate Explained(src: Source, p: Progress) {
    match p.err
    case NoError => true
    case ErrHead => src.head.HeadFailed?
    case _ => 0 < p.calls && CallExplains(src, p.err, p.chain, p.calls - 1)
  }

  ghost predicate CallExplains(src: Source, err: SyncError, chain: seq<Block>, call: nat) {
    match err
    case ErrSource => exists n :: CallFailed(src, call, n)
    case ErrNotFound => exists n :: CallFoundNothing(src, call, n)
    case ErrParentMismatch => chain != [] && exists n :: CallMisfits(src, call, n, chain)
    case _ => false
  }

  predicate CallFailed(src: Source, call: nat, n: nat) {
    src.block(call, n).Failed?
  }

  predicate CallFoundNothing(src: Source, call: nat, n: nat) {
    src.block(call, n).NotFound?
  }

  predicate CallMisfits(src: Source, call: nat, n: nat, chain: seq<Block>)
    requires chain != []
  {
    src.block(call, n).Found? && src.block(call, n).block.parentHash != chain[|chain| - 1].hash
  }

  lemma {:induction false} UnwindEnds(src: Source, chain: seq<Block>, call: nat)
    ensures var u := Unwind(src, chain, call);
            Explained(src, u) && (u.err == NoError || u.err == ErrSource)
    decreases |chain|
  {
    if chain != [] {
      hide TipConfirmed;
      var tip := chain[|chain| - 1].number;
      assert CallFailed(src, call, tip) <==> src.block(call, tip).Failed?;
      UnwindEnds(src, chain[..|chain| - 1], call + 1);
    }
  }

  lemma FetchStepEnds(src: Source, window: nat, chain: seq<Block>, n: nat, call: nat)
    ensures Explained(src, FetchStep(src, window, chain, n, call))
  {
    hide Push;
    assert CallFailed(src, call, n) || CallFoundNothing(src, call, n) || src.block(call, n).Found?;
    if chain != [] && src.block(call, n).Found? && src.block(call, n).block.parentHash != chain[|chain| - 1].hash {
      assert CallMisfits(src, call, n, chain);
    }
  }

  lemma FetchStepTip(src: Source, window: nat, chain: seq<Block>, n: nat, call: nat)
    requires 0 < window && Honest(src)
    ensures var s := FetchStep(src, window, chain, n, call);
            && s.err != ErrHead && s.calls == call + 1
            && (s.err == NoError ==> s.chain != [] && s.chain[|s.chain| - 1].number == n)
  {
  }

  lemma RefetchUnfolds(src: Source, window: nat, chain: seq<Block>, n: nat, head: nat, call: nat)
    ensures var r := Refetch(src, window, chain, n, head, call);
            var s := FetchStep(src, window, chain, n, call);
            if n > head then r.chain == chain && r.err == NoError
            else if s.err != NoError then r == s
            else
              var rest := Refetch(src, window, s.chain, n + 1, head, s.calls);
              r.chain == rest.chain && r.err == rest.err && r.calls == rest.calls
  {
    hide FetchStep;
  }

  lemma {:induction false} RefetchEnds(src: Source, window: nat, chain: seq<Block>, n: nat, head: nat, call: nat)
    requires 0 < window && Honest(src)
    requires n > head ==> chain != [] && chain[|chain| - 1].number >= head
    ensures var r := Refetch(src, window, chain, n, head, call);
            && Explained(src, r) && r.err != ErrHead
            && (r.err == NoError ==> r.chain != [] && r.chain[|r.chain| - 1].number >= head)
    decreases head + 1 - n
  {
    hide Explained, Refetch, FetchStep, Honest;
    RefetchUnfolds(src, window, chain, n, head, call);
    var s := FetchStep(src, window, chain, n, call);
    if n > head {
      NothingToExplain(src, Refetch(src, window, chain, n, head, call));
    } else {
      FetchStepEnds(src, window, chain, n, call);
      FetchStepTip(src, window, chain, n, call);
      if s.err == NoError {
        RefetchEnds(src, window, s.chain, n + 1, head, s.calls);
        var later := Refetch(src, window, s.chain, n + 1, head, s.calls);
        SameExplained(src, later, Refetch(src, window, chain, n, head, call));
      }
    }
  }

  lemma NothingToExplain(src: Source, p: Progress)
    requires p.err == NoError
    ensures Explained(src, p)
  {
  }

  lemma SameExplained(src: Source, p: Progress, q: Progress)
    requires Explained(src, p) && q.err == p.err && q.calls == p.calls && q.chain == p.chain
    ensures Explained(src, q)
  {
  }

  /** A pass that reports no error has a stored tip at the head it was told or above; a pass that reports one does so
      for a reason: the head call failed, or its last block call failed, found nothing, or found a block that does
      not name the stored tip as its parent. */
  lemma SyncEnds(src: Source, window: nat, chain: seq<Block>)
    requires 0 < window && Honest(src)
    ensures var p := SyncPass(src, window, chain);
            && Explained(src, p)
            && (p.err == ErrHead <==> src.head.HeadFailed?)
            && (p.err == NoError ==> p.chain != [] && p.chain[|p.chain| - 1].number >= src.head.height)
  {
    hide Explained, Unwind, Refetch;
    var p := SyncPass(src, window, chain);
    if src.head.HeadFailed? {
      HeadExplained(src, p);
    } else {
      var head := src.head.height;
      UnwindEnds(src, chain, 0);
      var u := Unwind(src, chain, 0);
      if u.err == NoError {
        var next := NextHeight(window, u.chain, head);
        RefetchEnds(src, window, u.chain, next, head, u.calls);
        SameExplained(src, Refetch(src, window, u.chain, next, head, u.calls), p);
      }
    }
  }

  lemma HeadExplained(src: Source, p: Progress)
    requires src.head.HeadFailed? && p.err == ErrHead
    ensures Explained(src, p)
  {
  }

  // ------------------------------------------------------------------ every event was witnessed

  /** A new event carries a block the source answered with during the pass; a reorged event names
      a block the source was asked about and did not confirm, without failing. */
  ghost predicate Witnessed(src: Source, ev: ChainEvent, call: nat) {
    match ev
    case New(b) => src.block(call, b.number) == Found(b)
    case Reorged(b) => !TipConfirmed(src, call, b) && !src.block(call, b.number).Failed?
  }

  /** Each event is witnessed by the call `first` places after its own position; the reorged events
      come before position `split`, the new ones after it and in height order. */
  ghost predicate AllWitnessed(src: Source, evs: seq<ChainEvent>, first: nat) {
    forall k :: 0 <= k < |evs| ==> Witnessed(src, evs[k], first + k)
  }

  ghost predicate AllReorged(evs: seq<ChainEvent>) {
    forall k :: 0 <= k < |evs| ==> evs[k].Reorged?
  }

  ghost predicate AllNew(evs: seq<ChainEvent>, n: nat) {
    forall k :: 0 <= k < |evs| ==> evs[k].New? && evs[k].block.number == n + k
  }

  lemma ConsWitnessed(src: Source, ev: ChainEvent, evs: seq<ChainEvent>, first: nat)
    requires Witnessed(src, ev, first) && AllWitnessed(src, evs, first + 1)
    ensures AllWitnessed(src, [ev] + evs, first)
  {
    forall k | 0 <= k < 1 + |evs|
      ensures Witnessed(src, ([ev] + evs)[k], first + k)
    {
      if k > 0 {
        assert Witnessed(src, evs[k - 1], first + 1 + (k - 1));
      }
    }
  }

  lemma {:induction false} UnwindWitnessed(src: Source, chain: seq<Block>, call: nat)
    ensures var u := Unwind(src, chain, call);
            && AllReorged(u.events) && AllWitnessed(src, u.events, call)
            && call + |u.events| <= u.calls <= call + |u.events| + 1
    decreases |chain|
  {
    if chain != [] {
      var tip := chain[|chain| - 1];
      if !TipConfirmed(src, call, tip) && !src.block(call, tip.number).Failed? {
        var shorter := chain[..|chain| - 1];
        UnwindWitnessed(src, shorter, call + 1);
        ConsWitnessed(src, Reorged(tip), Unwind(src, shorter, call + 1).events, call);
      }
    }
  }

  lemma {:induction false} RefetchWitnessed(src: Source, window: nat, chain: seq<Block>, n: nat, head: nat, call: nat)
    requires Honest(src)
    ensures var r := Refetch(src, window, chain, n, head, call);
            AllNew(r.events, n) && AllWitnessed(src, r.events, call)
    decreases head + 1 - n
  {
    hide Push, Refetch, AllWitnessed;
    RefetchUnfold(src, window, chain, n, head, call);
    NoneWitnessed(src);
    if Fetches(src, chain, n, head, call) {
      var b := src.block(call, n).block;
      RefetchWitnessed(src, window, Push(window, chain, b), n + 1, head, call + 1);
      ConsWitnessed(src, New(b), Refetch(src, window, Push(window, chain, b), n + 1, head, call + 1).events, call);
    }
  }

  lemma NoneWitnessed(src: Source)
    ensures AllReorged([]) && forall n :: AllNew([], n) && AllWitnessed(src, [], n)
  {
  }

  /** A pass publishes all its reorged events before its new ones, and every event is backed by an
      answer of the source: a reorged block by an answer to its own call that did not confirm it, a
      new block by the answer that supplied it. `gap` is 1 when a confirmed tip took a call of its own. */
  lemma SyncWitnessed(src: Source, window: nat, chain: seq<Block>) returns (reorgs: nat, gap: nat, from: nat)
    requires Honest(src)
    ensures var evs := SyncPass(src, window, chain).events;
            && reorgs <= |evs| && gap <= 1
            && AllReorged(evs[..reorgs]) && AllWitnessed(src, evs[..reorgs], 0)
            && AllNew(evs[reorgs..], from) && AllWitnessed(src, evs[reorgs..], reorgs + gap)
  {
    hide Unwind, Refetch, NextHeight, Honest, AllReorged, AllNew, AllWitnessed;
    reorgs, gap, from := 0, 0, 0;
    NoneWitnessed(src);
    var evs := SyncPass(src, window, chain).events;
    if src.head.HeadFailed? {
      assert evs[..0] == [] && evs[0..] == [];
    } else {
      UnwindWitnessed(src, chain, 0);
      var u := Unwind(src, chain, 0);
      reorgs := |u.events|;
      assert evs[..reorgs] == u.events;
      if u.err == NoError {
        gap := u.calls - reorgs;
        from := NextHeight(window, u.chain, src.head.height);
        RefetchWitnessed(src, window, u.chain, from, src.head.height, u.calls);
        assert evs[reorgs..] == Refetch(src, window, u.chain, from, src.head.height, u.calls).events;
      } else {
        assert evs[reorgs..] == [];
      }
    }
  }

  // ------------------------------------------------------------------ a source that stays put

  /** A source that answers from one fixed chain throughout the pass. */
  ghost predicate Serves(src: Source, ledger: seq<Block>) {
    && Ledger(ledger)
    && |ledger| <= MAX_HEIGHT
    && src.head == Head(|ledger| - 1)
    && (forall i: nat, n: nat :: src.block(i, n) == if n < |ledger| then Found(ledger[n]) else NotFound)
  }

  ghost predicate Canonical(ledger: seq<Block>, b: Block) {
    b.number < |ledger| && ledger[b.number] == b
  }

  /** How many of the stored blocks, oldest first, are on the ledger. */
  function CanonicalPrefix(chain: seq<Block>, ledger: seq<Block>): (k: nat)
    ensures k <= |chain|
    decreases |chain|
  {
    if chain == [] then 0
    else
      var tip := chain[|chain| - 1];
      if tip.number < |ledger| && ledger[tip.number] == tip then |chain|
      else CanonicalPrefix(chain[..|chain| - 1], ledger)
  }

  /** A matching tip hash plus parent links makes the whole window canonical. */
  lemma {:induction false} CanonicalTipMeansCanonicalChain(chain: seq<Block>, ledger: seq<Block>, i: nat)
    requires Linked(chain) && Ledger(ledger) && CollisionFree(chain, ledger)
    requires i < |chain| && Canonical(ledger, chain[|chain| - 1])
    ensures Canonical(ledger, chain[i])
    decreases |chain| - i
  {
    if i + 1 < |chain| {
      CanonicalTipMeansCanonicalChain(chain, ledger, i + 1);
      var above := chain[i + 1];
      assert Follows(chain, i) && above.number == chain[i].number + 1;
      assert Follows(ledger, above.number - 1);
      assert chain[i] == ledger[above.number - 1];
    }
  }

  /** The stored blocks on the ledger are exactly the first `CanonicalPrefix` ones. */
  lemma {:induction false} CanonicalPrefixExact(chain: seq<Block>, ledger: seq<Block>, i: nat)
    requires Linked(chain) && Ledger(ledger) && CollisionFree(chain, ledger)
    requires i < |chain|
    ensures Canonical(ledger, chain[i]) <==> i < CanonicalPrefix(chain, ledger)
    decreases |chain|
  {
    if Canonical(ledger, chain[|chain| - 1]) {
      CanonicalTipMeansCanonicalChain(chain, ledger, i);
    } else if i < |chain| - 1 {
      var shorter := chain[..|chain| - 1];
      SliceLinked(chain, 0, |chain| - 1);
      CanonicalPrefixExact(shorter, ledger, i);
    } else {
      assert CanonicalPrefix(chain, ledger) <= |chain| - 1;
    }
  }

  function ReorgedDown(chain: seq<Block>, k: nat): (evs: seq<ChainEvent>)
    requires k <= |chain|
    ensures |evs| == |chain| - k
    ensures forall j :: 0 <= j < |evs| ==> evs[j] == Reorged(chain[|chain| - 1 - j])
  {
    seq(|chain| - k, j requires 0 <= j < |chain| - k => Reorged(chain[|chain| - 1 - j]))
  }

  function NewUp(ledger: seq<Block>, n: nat): (evs: seq<ChainEvent>)
    requires n <= |ledger|
    ensures |evs| == |ledger| - n
    ensures forall j :: 0 <= j < |evs| ==> evs[j] == New(ledger[n + j])
  {
    seq(|ledger| - n, j requires 0 <= j < |ledger| - n => New(ledger[n + j]))
  }

  lemma TipOnLedger(src: Source, chain: seq<Block>, ledger: seq<Block>, call: nat)
    requires chain != [] && Serves(src, ledger) && CollisionFree(chain, ledger)
    ensures var tip := chain[|chain| - 1];
            && !src.block(call, tip.number).Failed?
            && (TipConfirmed(src, call, tip) <==> Canonical(ledger, tip))
  {
    var tip := chain[|chain| - 1];
    assert src.block(call, tip.number) == if tip.number < |ledger| then Found(ledger[tip.number]) else NotFound;
  }

  lemma {:induction false} UnwindOnLedger(src: Source, chain: seq<Block>, ledger: seq<Block>, call: nat)
    requires Serves(src, ledger) && CollisionFree(chain, ledger)
    ensures var u := Unwind(src, chain, call);
            var k := CanonicalPrefix(chain, ledger);
            u.err == NoError && u.chain == chain[..k] && u.events == ReorgedDown(chain, k)
    decreases |chain|
  {
    if chain != [] {
      TipOnLedger(src, chain, ledger, call);
      var tip := chain[|chain| - 1];
      if Canonical(ledger, tip) {
        assert chain[..|chain|] == chain;
      } else {
        var shorter := chain[..|chain| - 1];
        ShorterCollisionFree(chain, ledger);
        hide Serves, CollisionFree, TipConfirmed;
        UnwindOnLedger(src, shorter, ledger, call + 1);
        ReorgedDownCons(chain, CanonicalPrefix(shorter, ledger));
      }
    }
  }

  lemma ShorterCollisionFree(chain: seq<Block>, ledger: seq<Block>)
    requires chain != [] && CollisionFree(chain, ledger)
    ensures CollisionFree(chain[..|chain| - 1], ledger)
  {
  }

  lemma ReorgedDownCons(chain: seq<Block>, k: nat)
    requires k < |chain|
    ensures var shorter := chain[..|chain| - 1];
            && shorter[..k] == chain[..k]
            && [Reorged(chain[|chain| - 1])] + ReorgedDown(shorter, k) == ReorgedDown(chain, k)
  {
  }

  /** The newest `size` blocks of the ledger below height `n`. */
  ghost predicate Slab(ledger: seq<Block>, chain: seq<Block>, n: nat) {
    && |chain| <= n <= |ledger|
    && chain == ledger[n - |chain|..n]
  }

  lemma PushOnLedger(window: nat, chain: seq<Block>, ledger: seq<Block>, n: nat)
    requires 0 < window && |chain| <= window && n < |ledger|
    requires chain != [] ==> Slab(ledger, chain, n)
    ensures var longer := Push(window, chain, ledger[n]);
            && longer != [] && Slab(ledger, longer, n + 1)
            && |longer| == Smaller(window, |chain| + 1)
  {
    var longer := chain + [ledger[n]];
    if chain != [] {
      assert longer == ledger[n - |chain|..n + 1];
    } else {
      assert longer == ledger[n..n + 1];
    }
  }

  lemma FetchOnLedger(src: Source, window: nat, chain: seq<Block>, ledger: seq<Block>, n: nat, call: nat)
    requires Serves(src, ledger) && n < |ledger|
    requires chain != [] ==> Slab(ledger, chain, n)
    ensures FetchStep(src, window, chain, n, call)
         == Progress(Push(window, chain, ledger[n]), [New(ledger[n])], call + 1, NoError)
  {
    if chain != [] {
      assert chain[|chain| - 1] == ledger[n - 1] && Follows(ledger, n - 1);
    }
  }

  lemma NewUpCons(ledger: seq<Block>, n: nat)
    requires n < |ledger|
    ensures [New(ledger[n])] + NewUp(ledger, n + 1) == NewUp(ledger, n)
  {
  }

  lemma {:induction false} RefetchEvents(src: Source, window: nat, chain: seq<Block>, ledger: seq<Block>, n: nat,
                                         call: nat)
    requires Serves(src, ledger) && 0 < window && |chain| <= window && n <= |ledger|
    requires chain != [] ==> Slab(ledger, chain, n)
    ensures var r := Refetch(src, window, chain, n, |ledger| - 1, call);
            r.err == NoError && r.events == NewUp(ledger, n)
    decreases |ledger| - n
  {
    hide Serves, Slab, Push, FetchStep;
    if n < |ledger| {
      FetchOnLedger(src, window, chain, ledger, n, call);
      PushOnLedger(window, chain, ledger, n);
      RefetchEvents(src, window, Push(window, chain, ledger[n]), ledger, n + 1, call + 1);
      NewUpCons(ledger, n);
    }
  }

  lemma {:induction false} RefetchChain(src: Source, window: nat, chain: seq<Block>, ledger: seq<Block>, n: nat,
                                        call: nat)
    requires Serves(src, ledger) && 0 < window && |chain| <= window && n <= |ledger|
    requires chain != [] ==> Slab(ledger, chain, n)
    ensures var r := Refetch(src, window, chain, n, |ledger| - 1, call);
            && (chain != [] || n < |ledger| ==> Slab(ledger, r.chain, |ledger|))
            && |r.chain| == Smaller(window, |chain| + (|ledger| - n))
    decreases |ledger| - n
  {
    hide Serves, Slab, Push, FetchStep;
    if n < |ledger| {
      FetchOnLedger(src, window, chain, ledger, n, call);
      PushOnLedger(window, chain, ledger, n);
      RefetchChain(src, window, Push(window, chain, ledger[n]), ledger, n + 1, call + 1);
    }
  }

  lemma RefetchOnLedger(src: Source, window: nat, chain: seq<Block>, ledger: seq<Block>, n: nat, call: nat)
    requires Serves(src, ledger) && 0 < window && |chain| <= window && n <= |ledger|
    requires chain != [] ==> Slab(ledger, chain, n)
    ensures var r := Refetch(src, window, chain, n, |ledger| - 1, call);
            && r.err == NoError && r.events == NewUp(ledger, n)
            && (chain != [] || n < |ledger| ==> Slab(ledger, r.chain, |ledger|))
            && |r.chain| == Smaller(window, |chain| + (|ledger| - n))
  {
    hide Serves, Slab, Refetch;
    RefetchEvents(src, window, chain, ledger, n, call);
    RefetchChain(src, window, chain, ledger, n, call);
  }

  lemma KeptBlock(chain: seq<Block>, ledger: seq<Block>, i: nat)
    requires Linked(chain) && Ledger(ledger) && CollisionFree(chain, ledger)
    requires i < CanonicalPrefix(chain, ledger)
    ensures var k := CanonicalPrefix(chain, ledger);
            var next := chain[k - 1].number + 1;
            k <= next <= |ledger| && chain[i] == ledger[next - k + i]
  {
    hide CanonicalPrefix, CollisionFree;
    var k := CanonicalPrefix(chain, ledger);
    CanonicalPrefixExact(chain, ledger, i);
    CanonicalPrefixExact(chain, ledger, k - 1);
    assert chain[k - 1].number == chain[0].number + (k - 1);
    assert chain[i].number == chain[0].number + i;
  }

  /** After unwinding, what is kept is a slab of the ledger that ends below the next height. */
  lemma KeptOnLedger(chain: seq<Block>, ledger: seq<Block>)
    requires Linked(chain) && Ledger(ledger) && CollisionFree(chain, ledger)
    ensures var k := CanonicalPrefix(chain, ledger);
            k > 0 ==> Slab(ledger, chain[..k], chain[k - 1].number + 1)
  {
    hide CanonicalPrefix, CollisionFree, Ledger, Linked;
    var k := CanonicalPrefix(chain, ledger);
    if k > 0 {
      var next := chain[k - 1].number + 1;
      KeptBlock(chain, ledger, 0);
      forall i | 0 <= i < k
        ensures chain[..k][i] == ledger[next - k..next][i]
      {
        KeptBlock(chain, ledger, i);
      }
    }
  }

  /** A pass is its unwinding followed by its refetching. */
  lemma PassInParts(src: Source, window: nat, chain: seq<Block>, head: nat, unwound: Progress, fetched: Progress)
    requires src.head == Head(head)
    requires unwound == Unwind(src, chain, 0) && unwound.err == NoError
    requires fetched == Refetch(src, window, unwound.chain, NextHeight(window, unwound.chain, head), head,
               unwound.calls)
    ensures SyncPass(src, window, chain) == fetched.(events := unwound.events + fetched.events)
  {
  }

  /** Unwinding against a fixed chain, and where refetching then starts. */
  lemma {:induction false} UnwoundOnLedger(src: Source, window: nat, chain: seq<Block>, ledger: seq<Block>, next: nat)
    requires Linked(chain) && 0 < window && Serves(src, ledger) && CollisionFree(chain, ledger)
    requires next == NextHeight(window, chain[..CanonicalPrefix(chain, ledger)], |ledger| - 1)
    ensures var k := CanonicalPrefix(chain, ledger);
            var u := Unwind(src, chain, 0);
            && u.err == NoError && u.chain == chain[..k] && u.events == ReorgedDown(chain, k)
            && next <= |ledger|
            && (k == 0 ==> next < |ledger|)
            && (k > 0 ==> Slab(ledger, chain[..k], next))
  {
    hide CanonicalPrefix, CollisionFree, Linked, Unwind;
    UnwindOnLedger(src, chain, ledger, 0);
    KeptOnLedger(chain, ledger);
  }

  /** With nothing kept, fetching starts `window` blocks below the head or at genesis; otherwise above the tip. */
  lemma NextIs(window: nat, chain: seq<Block>, length: nat)
    requires 0 < window && 0 < length
    ensures chain == [] ==> NextHeight(window, chain, length - 1) == length - Smaller(window, length)
    ensures chain != [] ==> NextHeight(window, chain, length - 1) == chain[|chain| - 1].number + 1
  {
  }

  lemma WholeSlab(ledger: seq<Block>, chain: seq<Block>, n: nat)
    requires Slab(ledger, chain, |ledger|) && |chain| == n
    ensures chain == ledger[|ledger| - n..]
  {
  }

  /** `stored` ends at the ledger's head, and it and `events` are what catching up takes when the first k blocks of
      `chain` are on the ledger. If none is, the newest blocks of the ledger are stored, a full window or the whole
      ledger, and exactly those are new; otherwise exactly the blocks above the newest one kept are new, and the
      rest of the window holds what was kept. */
  ghost predicate CaughtUp(window: nat, chain: seq<Block>, k: nat, ledger: seq<Block>, stored: seq<Block>,
                           events: seq<ChainEvent>)
    requires k <= |chain|
  {
    && 0 < |stored| <= window && Slab(ledger, stored, |ledger|)
    && if k == 0 then
         var size := Smaller(window, |ledger|);
         && stored == ledger[|ledger| - size..]
         && events == ReorgedDown(chain, 0) + NewUp(ledger, |ledger| - size)
       else
         var top := chain[k - 1].number;
         && top < |ledger| && |stored| == Smaller(window, k + (|ledger| - 1 - top))
         && events == ReorgedDown(chain, k) + NewUp(ledger, top + 1)
  }

  lemma CaughtUpFrom(window: nat, chain: seq<Block>, k: nat, ledger: seq<Block>, stored: seq<Block>,
                     events: seq<ChainEvent>, next: nat)
    requires 0 < window && k <= |chain| && 0 < |ledger|
    requires next == NextHeight(window, chain[..k], |ledger| - 1) && next <= |ledger|
    requires 0 < |stored| == Smaller(window, k + (|ledger| - next)) && Slab(ledger, stored, |ledger|)
    requires events == ReorgedDown(chain, k) + NewUp(ledger, next)
    ensures CaughtUp(window, chain, k, ledger, stored, events)
  {
    hide Slab, NextHeight;
    NextIs(window, chain[..k], |ledger|);
    WholeSlab(ledger, stored, |stored|);
  }

  /** Convergence and minimal unwinding. Against a source that stays a fixed valid chain, one pass from any window
      succeeds and catches up: it unwinds exactly the stored blocks that are not on the chain, newest first,
      and then publishes exactly the missing ones in height order. */
  lemma {:induction false} SyncConverges(src: Source, window: nat, chain: seq<Block>, ledger: seq<Block>, k: nat)
    requires Linked(chain) && |chain| <= window && 0 < window
    requires Serves(src, ledger) && CollisionFree(chain, ledger)
    requires k == CanonicalPrefix(chain, ledger)
    ensures var p := SyncPass(src, window, chain);
            p.err == NoError && CaughtUp(window, chain, k, ledger, p.chain, p.events)
  {
    assert 0 < |ledger|;
    hide Serves, CollisionFree, SyncPass, Slab, NextHeight, Linked, CaughtUp;
    var next := NextHeight(window, chain[..k], |ledger| - 1);
    SyncFrom(src, window, chain, ledger, k, next);
    var p := SyncPass(src, window, chain);
    CaughtUpFrom(window, chain, k, ledger, p.chain, p.events, next);
  }

  lemma {:induction false} SyncFrom(src: Source, window: nat, chain: seq<Block>, ledger: seq<Block>, k: nat, next: nat)
    requires Linked(chain) && |chain| <= window && 0 < window
    requires Serves(src, ledger) && CollisionFree(chain, ledger)
    requires k == CanonicalPrefix(chain, ledger) && next == NextHeight(window, chain[..k], |ledger| - 1)
    ensures var p := SyncPass(src, window, chain);
            && p.err == NoError
            && next <= |ledger|
            && 0 < |p.chain| == Smaller(window, k + (|ledger| - next))
            && Slab(ledger, p.chain, |ledger|)
            && p.events == ReorgedDown(chain, k) + NewUp(ledger, next)
  {
    var unwound := Unwind(src, chain, 0);
    UnwoundOnLedger(src, window, chain, ledger, next);
    RefetchOnLedger(src, window, unwound.chain, ledger, next, unwound.calls);
    var fetched := Refetch(src, window, unwound.chain, next, |ledger| - 1, unwound.calls);
    PassInParts(src, window, chain, |ledger| - 1, unwound, fetched);
  }
}
