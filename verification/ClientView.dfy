/** The console's block list: newest first, patched by one stream event at a time. */
module ClientView {
  import opened Chain
  import opened Wrappers
  import opened IndexerSpec

  /** `blocks.filter((b) => b.hash !== h)` */
  function Without(blocks: seq<Block>, h: Hash): seq<Block> {
    if blocks == [] then []
    else if blocks[0].hash != h then [blocks[0]] + Without(blocks[1..], h)
    else Without(blocks[1..], h)
  }

  function ApplyEvent(blocks: seq<Block>, ev: ChainEvent, limit: nat): seq<Block> {
    match ev
    case Reorged(b) => Without(blocks, b.hash)
    case New(b) =>
      if exists i :: 0 <= i < |blocks| && blocks[i].hash == b.hash then blocks
      else
        var longer := [b] + blocks;
        if |longer| > limit then longer[..limit] else longer
  }

  function ApplyAll(blocks: seq<Block>, evs: seq<ChainEvent>, limit: nat): seq<Block>
    decreases |evs|
  {
    if evs == [] then blocks else ApplyAll(ApplyEvent(blocks, evs[0], limit), evs[1..], limit)
  }

  /** `view` is the newest part of `chain`, newest first. */
  ghost predicate Shows(view: seq<Block>, chain: seq<Block>) {
    && |view| <= |chain|
    && forall i :: 0 <= i < |view| ==> view[i] == chain[|chain| - 1 - i]
  }

  /** Along these events the replayed chain never holds two blocks with one hash, not even
      counting the block about to be pushed; and each reorged event names the top. */
  ghost predicate Faithful(window: nat, chain: seq<Block>, evs: seq<ChainEvent>)
    decreases |evs|
  {
    evs != [] ==>
      && FaithfulStep(chain, evs[0])
      && Faithful(window, ReplayOne(window, Replayed(true, chain), evs[0]).chain, evs[1..])
  }

  ghost predicate FaithfulStep(chain: seq<Block>, ev: ChainEvent) {
    && DistinctHashes(chain)
    && match ev
       case New(b) => forall i :: 0 <= i < |chain| ==> chain[i].hash != b.hash
       case Reorged(b) => chain != [] && chain[|chain| - 1] == b
  }

  ghost predicate DistinctHashes(chain: seq<Block>) {
    forall i, j :: 0 <= i < j < |chain| ==> chain[i].hash != chain[j].hash
  }

  lemma {:induction false} WithoutNothing(blocks: seq<Block>, h: Hash)
    requires forall i :: 0 <= i < |blocks| ==> blocks[i].hash != h
    ensures Without(blocks, h) == blocks
  {
    if blocks != [] {
      WithoutNothing(blocks[1..], h);
    }
  }

  /** A block whose hash the list does not show is put on top, and the list is cut to its limit. */
  lemma NewOnTop(view: seq<Block>, b: Block, limit: nat)
    requires |view| <= limit && forall i :: 0 <= i < |view| ==> view[i].hash != b.hash
    ensures ApplyEvent(view, New(b), limit) == ([b] + view)[..Smaller(limit, |view| + 1)]
  {
  }

  lemma NewestOf(view: seq<Block>, chain: seq<Block>, b: Block, window: nat, m: nat)
    requires Shows(view, chain) && |chain| <= window && m <= |view| + 1 && m <= window
    ensures Shows(([b] + view)[..m], Push(window, chain, b)) && |Push(window, chain, b)| <= window
  {
    var v, longer := ([b] + view)[..m], chain + [b];
    forall i | 0 <= i < |v|
      ensures v[i] == longer[|longer| - 1 - i]
    {
      assert i > 0 ==> view[i - 1] == chain[|chain| - 1 - (i - 1)];
    }
  }

  /** The next block moves a view of the chain to a view of the next chain: it is put on top, and
      never taken for a duplicate. */
  lemma {:induction false} NewShows(view: seq<Block>, chain: seq<Block>, b: Block, window: nat, limit: nat)
    requires Shows(view, chain) && FaithfulStep(chain, New(b))
    requires limit <= window && |view| <= limit && |chain| <= window
    ensures var v := ApplyEvent(view, New(b), limit);
            var c := Push(window, chain, b);
            && Shows(v, c) && |c| <= window
            && |v| == Smaller(limit, |view| + 1) && (limit > 0 ==> v[0] == b)
  {
    hide ApplyEvent, Push, Shows, FaithfulStep;
    NotShown(view, chain, b);
    NewOnTop(view, b, limit);
    NewestOf(view, chain, b, window, Smaller(limit, |view| + 1));
  }

  lemma NotShown(view: seq<Block>, chain: seq<Block>, b: Block)
    requires Shows(view, chain) && FaithfulStep(chain, New(b))
    ensures forall i :: 0 <= i < |view| ==> view[i].hash != b.hash
  {
    forall i | 0 <= i < |view|
      ensures view[i].hash != b.hash
    {
      assert view[i] == chain[|chain| - 1 - i];
    }
  }

  /** A reorged block leaves the top of the list, if the list shows anything at all. */
  lemma ReorgedShows(view: seq<Block>, chain: seq<Block>, b: Block, limit: nat)
    requires Shows(view, chain) && FaithfulStep(chain, Reorged(b)) && |view| <= limit
    ensures var v := ApplyEvent(view, Reorged(b), limit);
            && Shows(v, chain[..|chain| - 1])
            && v == if view == [] then [] else view[1..]
  {
    if view != [] {
      assert view[0] == b;
      forall i | 0 <= i < |view[1..]|
        ensures view[1..][i].hash != b.hash
      {
        assert view[1 + i] == chain[|chain| - 1 - (1 + i)];
      }
      WithoutNothing(view[1..], b.hash);
    }
  }

  lemma StepShows(view: seq<Block>, chain: seq<Block>, ev: ChainEvent, window: nat, limit: nat)
    requires Shows(view, chain) && FaithfulStep(chain, ev)
    requires limit <= window && |view| <= limit && |chain| <= window
    ensures var v := ApplyEvent(view, ev, limit);
            var c := ReplayOne(window, Replayed(true, chain), ev).chain;
            Shows(v, c) && |v| <= limit && |c| <= window
  {
    hide Shows, ApplyEvent, Push;
    match ev
    case New(b) => NewShows(view, chain, b, window, limit);
    case Reorged(b) => ReorgedShows(view, chain, b, limit);
  }

  /** A list that starts as the newest part of the chain and folds every event stays the newest
      part of the chain. */
  lemma {:induction false} ViewFollows(view: seq<Block>, chain: seq<Block>, evs: seq<ChainEvent>, window: nat,
                                       limit: nat)
    requires Shows(view, chain) && Faithful(window, chain, evs)
    requires limit <= window && |view| <= limit && |chain| <= window
    ensures var v := ApplyAll(view, evs, limit);
            Shows(v, Replay(window, Replayed(true, chain), evs).chain) && |v| <= limit
    decreases |evs|
  {
    if evs != [] {
      StepShows(view, chain, evs[0], window, limit);
      var next := ReplayOne(window, Replayed(true, chain), evs[0]);
      assert next.ok;
      ViewFollows(ApplyEvent(view, evs[0], limit), next.chain, evs[1..], window, limit);
    }
  }

  // ------------------------------------------------------------------ any list, any events

  /** A block whose hash the list already shows changes nothing; any other is put on top and the list cut to its
      limit. */
  lemma NewExactly(view: seq<Block>, b: Block, limit: nat)
    ensures (exists i :: 0 <= i < |view| && view[i].hash == b.hash) ==> ApplyEvent(view, New(b), limit) == view
    ensures (forall i :: 0 <= i < |view| ==> view[i].hash != b.hash) ==>
              ApplyEvent(view, New(b), limit) == ([b] + view)[..Smaller(limit, |view| + 1)]
  {
  }

  /** A reorged event removes every block with that hash, and keeps all others in order: it does so to a single
      block, and to a list part by part. */
  lemma RemovedExactly(b: Block, h: Hash)
    ensures Without([], h) == [] && Without([b], h) == if b.hash == h then [] else [b]
  {
    assert [b][1..] == [];
  }

  lemma {:induction false} RemovedByParts(a: seq<Block>, b: seq<Block>, h: Hash)
    ensures Without(a + b, h) == Without(a, h) + Without(b, h)
  {
    if a == [] {
      assert a + b == b;
    } else {
      assert (a + b)[1..] == a[1..] + b && (a + b)[0] == a[0];
      RemovedByParts(a[1..], b, h);
      WithoutUnfold(a, h);
      WithoutUnfold(a + b, h);
      hide Without;
    }
  }

  lemma WithoutUnfold(view: seq<Block>, h: Hash)
    requires view != []
    ensures Without(view, h) == (if view[0].hash == h then [] else [view[0]]) + Without(view[1..], h)
  {
  }

  /** What is left of a list is in it, and has another hash. */
  lemma {:induction false} WithoutKeeps(view: seq<Block>, h: Hash, i: nat)
    requires i < |Without(view, h)|
    ensures Without(view, h)[i] in view && Without(view, h)[i].hash != h
  {
    var rest := Without(view[1..], h);
    if view[0].hash == h {
      WithoutKeeps(view[1..], h, i);
    } else if i > 0 {
      WithoutKeeps(view[1..], h, i - 1);
    }
  }

  lemma {:induction false} WithoutDistinct(view: seq<Block>, h: Hash)
    requires DistinctHashes(view)
    ensures DistinctHashes(Without(view, h))
  {
    if view != [] {
      WithoutDistinct(view[1..], h);
      var rest := Without(view[1..], h);
      forall i | 0 <= i < |rest|
        ensures rest[i].hash != view[0].hash
      {
        WithoutKeeps(view[1..], h, i);
      }
    }
  }

  lemma NewDistinct(view: seq<Block>, b: Block, limit: nat)
    requires DistinctHashes(view)
    ensures DistinctHashes(ApplyEvent(view, New(b), limit))
  {
  }

  /** A list that shows no hash twice never will, whatever events it folds. */
  lemma {:induction false} NeverTwice(view: seq<Block>, evs: seq<ChainEvent>, limit: nat)
    requires DistinctHashes(view)
    ensures DistinctHashes(ApplyAll(view, evs, limit))
    decreases |evs|
  {
    if evs != [] {
      match evs[0] {
        case New(b) => NewDistinct(view, b, limit);
        case Reorged(b) => WithoutDistinct(view, b.hash);
      }
      hide DistinctHashes, ApplyEvent;
      NeverTwice(ApplyEvent(view, evs[0], limit), evs[1..], limit);
    }
  }

  // ------------------------------------------------------------------ events of one pass

  /** Every block here carries the one block its hash can stand for. */
  ghost predicate FromUniverse(universe: iset<Block>, bs: seq<Block>) {
    forall i :: 0 <= i < |bs| ==> bs[i] in universe
  }

  /** Equal hash, equal block. */
  ghost predicate NoCollisions(universe: iset<Block>) {
    forall b, c :: b in universe && c in universe && b.hash == c.hash ==> b == c
  }

  ghost predicate AnswersFrom(src: Source, universe: iset<Block>) {
    forall i, n :: src.block(i, n).Found? ==> src.block(i, n).block in universe
  }

  lemma LinkedDistinct(chain: seq<Block>, universe: iset<Block>)
    requires Linked(chain) && NoCollisions(universe) && FromUniverse(universe, chain)
    ensures DistinctHashes(chain)
  {
    forall i, j | 0 <= i < j < |chain|
      ensures chain[i].hash != chain[j].hash
    {
      assert chain[i].number == chain[0].number + i && chain[j].number == chain[0].number + j;
    }
  }

  lemma {:induction false} UnwindFaithful(src: Source, window: nat, chain: seq<Block>, call: nat, universe: iset<Block>)
    requires WindowInv(window, chain) && NoCollisions(universe) && FromUniverse(universe, chain)
    ensures Faithful(window, chain, Unwind(src, chain, call).events)
    decreases |chain|
  {
    hide Unwind, NoCollisions, WindowInv, FromUniverse, FaithfulStep, Pops;
    UnwindUnfold(src, chain, call);
    if Pops(src, chain, call) {
      PopFaithful(src, window, chain, call, universe);
      var shorter, tip := chain[..|chain| - 1], Reorged(chain[|chain| - 1]);
      UnwindFaithful(src, window, shorter, call + 1, universe);
      assert ReplayOne(window, Replayed(true, chain), tip).chain == shorter;
      FaithfulCons(window, chain, tip, Unwind(src, shorter, call + 1).events);
    }
  }

  lemma PopFaithful(src: Source, window: nat, chain: seq<Block>, call: nat, universe: iset<Block>)
    requires WindowInv(window, chain) && NoCollisions(universe) && FromUniverse(universe, chain)
    requires Pops(src, chain, call)
    ensures chain != [] && FaithfulStep(chain, Reorged(chain[|chain| - 1]))
    ensures WindowInv(window, chain[..|chain| - 1]) && FromUniverse(universe, chain[..|chain| - 1])
  {
    hide NoCollisions;
    PrefixKeeps(window, chain, |chain| - 1);
    LinkedDistinct(chain, universe);
  }

  lemma NewStepFaithful(chain: seq<Block>, b: Block, universe: iset<Block>)
    requires Linked(chain) && NoCollisions(universe) && FromUniverse(universe, chain) && b in universe
    requires chain != [] ==> b.number == chain[|chain| - 1].number + 1
    ensures FaithfulStep(chain, New(b))
  {
    LinkedDistinct(chain, universe);
    forall i | 0 <= i < |chain|
      ensures chain[i].hash != b.hash
    {
      assert chain[i].number == chain[0].number + i && chain[|chain| - 1].number == chain[0].number + (|chain| - 1);
    }
  }

  lemma {:induction false} RefetchFaithful(src: Source, window: nat, chain: seq<Block>, n: nat, head: nat, call: nat,
                                           universe: iset<Block>)
    requires WindowInv(window, chain) && 0 < window && Honest(src) && head < MAX_HEIGHT
    requires chain != [] ==> n == chain[|chain| - 1].number + 1
    requires NoCollisions(universe) && FromUniverse(universe, chain) && AnswersFrom(src, universe)
    ensures var r := Refetch(src, window, chain, n, head, call);
            Faithful(window, chain, r.events) && FromUniverse(universe, r.chain)
    decreases head + 1 - n
  {
    hide NoCollisions, FaithfulStep, Honest, AnswersFrom, WindowInv, FromUniverse, Push, Refetch;
    RefetchUnfold(src, window, chain, n, head, call);
    if Fetches(src, chain, n, head, call) {
      var b := src.block(call, n).block;
      var longer := Push(window, chain, b);
      NextBlock(src, window, chain, n, call, universe);
      RefetchFaithful(src, window, longer, n + 1, head, call + 1, universe);
      assert ReplayOne(window, Replayed(true, chain), New(b)).chain == longer;
      FaithfulCons(window, chain, New(b), Refetch(src, window, longer, n + 1, head, call + 1).events);
    }
  }

  lemma NextBlock(src: Source, window: nat, chain: seq<Block>, n: nat, call: nat, universe: iset<Block>)
    requires WindowInv(window, chain) && 0 < window && Honest(src) && src.block(call, n).Found? && n < MAX_HEIGHT
    requires NoCollisions(universe) && FromUniverse(universe, chain) && AnswersFrom(src, universe)
    requires chain != [] ==>
               && n == chain[|chain| - 1].number + 1
               && src.block(call, n).block.parentHash == chain[|chain| - 1].hash
    ensures var b := src.block(call, n).block;
            var c := Push(window, chain, b);
            && b.number == n && FaithfulStep(chain, New(b))
            && WindowInv(window, c) && c != [] && c[|c| - 1] == b && FromUniverse(universe, c)
  {
    hide NoCollisions, FaithfulStep;
    var b := src.block(call, n).block;
    assert b in universe && b.number == n;
    PushKeeps(window, chain, b);
    NewStepFaithful(chain, b, universe);
  }

  lemma FaithfulCons(window: nat, chain: seq<Block>, ev: ChainEvent, evs: seq<ChainEvent>)
    requires FaithfulStep(chain, ev) && Faithful(window, ReplayOne(window, Replayed(true, chain), ev).chain, evs)
    ensures Faithful(window, chain, [ev] + evs)
  {
    hide FaithfulStep;
    assert ([ev] + evs)[1..] == evs;
  }

  lemma {:induction false} FaithfulAppend(window: nat, chain: seq<Block>, a: seq<ChainEvent>, b: seq<ChainEvent>)
    requires Faithful(window, chain, a)
    requires Faithful(window, Replay(window, Replayed(true, chain), a).chain, b)
    ensures Faithful(window, chain, a + b)
    decreases |a|
  {
    if a == [] {
      assert a + b == b;
    } else {
      var next := ReplayOne(window, Replayed(true, chain), a[0]);
      assert next.ok;
      FaithfulAppend(window, next.chain, a[1..], b);
      assert (a + b)[1..] == a[1..] + b;
    }
  }

  /** The events of a pass are faithful to the chain it starts from. */
  lemma SyncFaithful(src: Source, window: nat, chain: seq<Block>, universe: iset<Block>)
    requires WindowInv(window, chain) && 0 < window && Honest(src) && src.head.Head?
    requires NoCollisions(universe) && FromUniverse(universe, chain) && AnswersFrom(src, universe)
    ensures var p := SyncPass(src, window, chain);
            Faithful(window, chain, p.events) && FromUniverse(universe, p.chain)
  {
    hide NoCollisions, AnswersFrom, Faithful, Unwind, Refetch, WindowInv, NextHeight, Push;
    var head := src.head.height;
    var u := Unwind(src, chain, 0);
    UnwindPops(src, chain, 0);
    UnwindFaithful(src, window, chain, 0, universe);
    if u.err == NoError {
      var next := NextHeight(window, u.chain, head);
      PrefixKeeps(window, chain, |u.chain|);
      NextAbove(window, u.chain, head);
      RefetchFaithful(src, window, u.chain, next, head, u.calls, universe);
      UnwindReplays(src, window, chain, 0);
      FaithfulAppend(window, chain, u.events, Refetch(src, window, u.chain, next, head, u.calls).events);
    }
  }

  lemma NextAbove(window: nat, chain: seq<Block>, head: nat)
    ensures chain != [] ==> NextHeight(window, chain, head) == chain[|chain| - 1].number + 1
  {
  }

  /** When equal hash means equal block, the console's list follows every pass of the indexer,
      whatever the source answered and however the pass ended. */
  lemma ViewFollowsSync(view: seq<Block>, src: Source, window: nat, limit: nat, chain: seq<Block>,
                        universe: iset<Block>)
    requires WindowInv(window, chain) && 0 < window && Honest(src)
    requires NoCollisions(universe) && FromUniverse(universe, chain) && AnswersFrom(src, universe)
    requires Shows(view, chain) && |view| <= limit <= window
    ensures var p := SyncPass(src, window, chain);
            var v := ApplyAll(view, p.events, limit);
            Shows(v, p.chain) && |v| <= limit && FromUniverse(universe, p.chain)
  {
    hide Unwind, Refetch, NextHeight, Faithful, Shows, NoCollisions, FromUniverse, AnswersFrom;
    if src.head.Head? {
      SyncFaithful(src, window, chain, universe);
      SyncReplays(src, window, chain);
      ViewFollows(view, chain, SyncPass(src, window, chain).events, window, limit);
    }
  }
}
