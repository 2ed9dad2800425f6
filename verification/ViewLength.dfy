/** How long the console's list is: it may be short of its limit only by as many blocks as the indexer is
    behind the head. */
module ViewLength {
  import opened Chain
  import opened Wrappers
  import opened IndexerSpec
  import opened ClientView

  /** With the stored tip d blocks below `head`, the list and d reach the limit, or the chain and d. */
  ghost predicate Filled(view: seq<Block>, chain: seq<Block>, limit: nat, head: nat) {
    chain != [] ==>
      var tip := chain[|chain| - 1].number;
      tip <= head && |view| + (head - tip) >= Smaller(limit, |chain| + (head - tip))
  }

  lemma HigherHeadFilled(view: seq<Block>, chain: seq<Block>, limit: nat, head: nat, higher: nat)
    requires Filled(view, chain, limit, head) && head <= higher
    ensures Filled(view, chain, limit, higher)
  {
  }

  lemma PopFilled(view: seq<Block>, chain: seq<Block>, b: Block, limit: nat, head: nat)
    requires Linked(chain) && Shows(view, chain) && FaithfulStep(chain, Reorged(b)) && |view| <= limit
    requires Filled(view, chain, limit, head)
    ensures Filled(ApplyEvent(view, Reorged(b), limit), chain[..|chain| - 1], limit, head)
  {
    hide ApplyEvent, Shows, FaithfulStep;
    ReorgedShows(view, chain, b, limit);
    assert FaithfulStep(chain, Reorged(b)) ==> chain != [] by {
      TopOfReorged(chain, b);
    }
    if |chain| > 1 {
      assert chain[|chain| - 1].number == chain[0].number + (|chain| - 1);
      assert chain[|chain| - 2].number == chain[0].number + (|chain| - 2);
    }
  }

  lemma TopOfReorged(chain: seq<Block>, b: Block)
    requires FaithfulStep(chain, Reorged(b))
    ensures chain != [] && chain[|chain| - 1] == b
  {
  }

  lemma PushFilled(view: seq<Block>, chain: seq<Block>, b: Block, window: nat, limit: nat, head: nat)
    requires Shows(view, chain) && FaithfulStep(chain, New(b))
    requires limit <= window && 0 < window && |view| <= limit && |chain| <= window
    requires b.number <= head && (chain != [] ==> b.number == chain[|chain| - 1].number + 1)
    requires Filled(view, chain, limit, head)
    ensures Filled(ApplyEvent(view, New(b), limit), Push(window, chain, b), limit, head)
  {
    hide ApplyEvent, FaithfulStep;
    NewShows(view, chain, b, window, limit);
    var c := Push(window, chain, b);
    assert c[|c| - 1] == b && |c| <= |chain| + 1;
  }

  lemma {:induction false} ApplyAllAppend(view: seq<Block>, a: seq<ChainEvent>, b: seq<ChainEvent>, limit: nat)
    ensures ApplyAll(view, a + b, limit) == ApplyAll(ApplyAll(view, a, limit), b, limit)
    decreases |a|
  {
    hide ApplyEvent;
    if a == [] {
      assert a + b == b;
    } else {
      ApplyAllAppend(ApplyEvent(view, a[0], limit), a[1..], b, limit);
      assert (a + b)[1..] == a[1..] + b;
    }
  }

  lemma ApplyAllCons(view: seq<Block>, ev: ChainEvent, evs: seq<ChainEvent>, limit: nat)
    ensures ApplyAll(view, [ev] + evs, limit) == ApplyAll(ApplyEvent(view, ev, limit), evs, limit)
  {
    assert ([ev] + evs)[1..] == evs;
  }

  /** What the list keeps to: it shows the chain, within its limit, and is short only by the distance to the head. */
  ghost predicate InStep(view: seq<Block>, chain: seq<Block>, limit: nat, head: nat) {
    Shows(view, chain) && |view| <= limit && Filled(view, chain, limit, head)
  }

  lemma {:induction false} UnwindInStep(src: Source, window: nat, limit: nat, view: seq<Block>, chain: seq<Block>,
                                        call: nat, head: nat, universe: iset<Block>)
    requires WindowInv(window, chain) && NoCollisions(universe) && FromUniverse(universe, chain)
    requires limit <= window && InStep(view, chain, limit, head)
    ensures var u := Unwind(src, chain, call);
            InStep(ApplyAll(view, u.events, limit), u.chain, limit, head)
    decreases |chain|
  {
    hide Unwind, NoCollisions, WindowInv, FromUniverse, FaithfulStep, Pops, ApplyEvent, ApplyAll, Filled, Shows;
    UnwindUnfold(src, chain, call);
    ApplyNothing(view, limit);
    if Pops(src, chain, call) {
      PopFaithful(src, window, chain, call, universe);
      var shorter, tip := chain[..|chain| - 1], chain[|chain| - 1];
      PopInStep(window, limit, view, chain, head);
      UnwindInStep(src, window, limit, ApplyEvent(view, Reorged(tip), limit), shorter, call + 1, head, universe);
      ApplyAllCons(view, Reorged(tip), Unwind(src, shorter, call + 1).events, limit);
    }
  }

  lemma ApplyNothing(view: seq<Block>, limit: nat)
    ensures ApplyAll(view, [], limit) == view
  {
  }

  lemma PopInStep(window: nat, limit: nat, view: seq<Block>, chain: seq<Block>, head: nat)
    requires WindowInv(window, chain) && chain != [] && FaithfulStep(chain, Reorged(chain[|chain| - 1]))
    requires InStep(view, chain, limit, head)
    ensures InStep(ApplyEvent(view, Reorged(chain[|chain| - 1]), limit), chain[..|chain| - 1], limit, head)
  {
    hide ApplyEvent, Filled, Shows, FaithfulStep;
    var tip := chain[|chain| - 1];
    ReorgedShows(view, chain, tip, limit);
    PopFilled(view, chain, tip, limit, head);
  }

  /** Whatever the source finds is at most this high. */
  ghost predicate AnswersBelow(src: Source, head: nat) {
    forall i, n :: src.block(i, n).Found? ==> src.block(i, n).block.number <= head
  }

  lemma FoundBlock(src: Source, call: nat, n: nat, head: nat, universe: iset<Block>)
    requires Honest(src) && AnswersBelow(src, head) && AnswersFrom(src, universe) && src.block(call, n).Found?
    ensures var b := src.block(call, n).block;
            b.number == n <= head && b in universe
  {
  }

  lemma NewInStep(view: seq<Block>, chain: seq<Block>, b: Block, window: nat, limit: nat, head: nat,
                  universe: iset<Block>)
    requires WindowInv(window, chain) && 0 < window && b.number < MAX_HEIGHT && b.number <= head
    requires NoCollisions(universe) && FromUniverse(universe, chain) && b in universe
    requires chain != [] ==> b.number == chain[|chain| - 1].number + 1 && b.parentHash == chain[|chain| - 1].hash
    requires limit <= window && InStep(view, chain, limit, head)
    ensures var c := Push(window, chain, b);
            && WindowInv(window, c) && c != [] && c[|c| - 1] == b && FromUniverse(universe, c)
            && InStep(ApplyEvent(view, New(b), limit), c, limit, head)
  {
    hide NoCollisions, Filled, Shows, ApplyEvent, FaithfulStep;
    PushKeeps(window, chain, b);
    NewStepFaithful(chain, b, universe);
    NewShows(view, chain, b, window, limit);
    PushFilled(view, chain, b, window, limit, head);
  }

  lemma {:induction false} RefetchInStep(src: Source, window: nat, limit: nat, view: seq<Block>, chain: seq<Block>,
                                         n: nat, top: nat, call: nat, head: nat, universe: iset<Block>)
    requires WindowInv(window, chain) && 0 < window && Honest(src) && top < MAX_HEIGHT && AnswersBelow(src, head)
    requires chain != [] ==> n == chain[|chain| - 1].number + 1
    requires NoCollisions(universe) && FromUniverse(universe, chain) && AnswersFrom(src, universe)
    requires limit <= window && InStep(view, chain, limit, head)
    ensures var r := Refetch(src, window, chain, n, top, call);
            InStep(ApplyAll(view, r.events, limit), r.chain, limit, head)
    decreases top + 1 - n
  {
    hide Honest, AnswersBelow, AnswersFrom, NoCollisions, InStep, ApplyEvent, WindowInv, FromUniverse, Push, Refetch;
    RefetchUnfold(src, window, chain, n, top, call);
    if Fetches(src, chain, n, top, call) {
      var b := src.block(call, n).block;
      FoundBlock(src, call, n, head, universe);
      NewInStep(view, chain, b, window, limit, head, universe);
      var longer := Push(window, chain, b);
      RefetchInStep(src, window, limit, ApplyEvent(view, New(b), limit), longer, n + 1, top, call + 1, head, universe);
      ApplyAllCons(view, New(b), Refetch(src, window, longer, n + 1, top, call + 1).events, limit);
    }
  }

  /** A pass, whatever is answered and however it ends, keeps the list in step. */
  lemma SyncInStep(src: Source, window: nat, limit: nat, view: seq<Block>, chain: seq<Block>, head: nat,
                   universe: iset<Block>)
    requires WindowInv(window, chain) && 0 < window && Honest(src) && AnswersBelow(src, head)
    requires NoCollisions(universe) && FromUniverse(universe, chain) && AnswersFrom(src, universe)
    requires limit <= window && InStep(view, chain, limit, head)
    ensures var p := SyncPass(src, window, chain);
            InStep(ApplyAll(view, p.events, limit), p.chain, limit, head)
  {
    if src.head.Head? {
      hide NoCollisions, AnswersFrom, AnswersBelow, InStep, Unwind, Refetch, WindowInv, NextHeight, ApplyAll;
      var top := src.head.height;
      var u := Unwind(src, chain, 0);
      UnwindPops(src, chain, 0);
      UnwindInStep(src, window, limit, view, chain, 0, head, universe);
      if u.err == NoError {
        var next := NextHeight(window, u.chain, top);
        PrefixKeeps(window, chain, |u.chain|);
        NextAbove(window, u.chain, top);
        var between := ApplyAll(view, u.events, limit);
        RefetchInStep(src, window, limit, between, u.chain, next, top, u.calls, head, universe);
        ApplyAllAppend(view, u.events, Refetch(src, window, u.chain, next, top, u.calls).events, limit);
      }
    }
  }

  /** Once the stored tip is the head, the list is as long as its limit or the chain allows. */
  lemma AtHeadFull(view: seq<Block>, chain: seq<Block>, limit: nat)
    requires chain != [] && InStep(view, chain, limit, chain[|chain| - 1].number)
    ensures |view| == Smaller(limit, |chain|)
  {
  }
}
