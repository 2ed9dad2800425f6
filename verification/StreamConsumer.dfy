/** A console that reads the event stream may be any number of events behind, and may have started from a
    snapshot. */
module StreamConsumer {
  import opened Chain
  import opened Wrappers
  import opened ChainSim
  import opened IndexerSpec
  import opened ClientView
  import opened ViewLength
  import opened Pipeline

  lemma FaithfulUncons(window: nat, chain: seq<Block>, evs: seq<ChainEvent>)
    requires evs != [] && Faithful(window, chain, evs)
    ensures FaithfulStep(chain, evs[0]) && ReplayOne(window, Replayed(true, chain), evs[0]).ok
    ensures Faithful(window, ReplayOne(window, Replayed(true, chain), evs[0]).chain, evs[1..])
  {
  }

  /** A faithful stream is faithful up to any point, and from there on. */
  lemma {:induction false} FaithfulSplit(window: nat, chain: seq<Block>, a: seq<ChainEvent>, b: seq<ChainEvent>)
    requires Faithful(window, chain, a + b)
    ensures Faithful(window, chain, a)
    ensures Replay(window, Replayed(true, chain), a).ok
    ensures Faithful(window, Replay(window, Replayed(true, chain), a).chain, b)
    decreases |a|
  {
    if a == [] {
      assert a + b == b;
    } else {
      hide FaithfulStep, ReplayOne;
      assert (a + b)[0] == a[0] && (a + b)[1..] == a[1..] + b;
      FaithfulUncons(window, chain, a + b);
      var next := ReplayOne(window, Replayed(true, chain), a[0]);
      FaithfulSplit(window, next.chain, a[1..], b);
      assert Replayed(true, next.chain) == next;
      assert [a[0]] + a[1..] == a;
      FaithfulCons(window, chain, a[0], a[1..]);
    }
  }

  lemma NoEvents(src: Source, window: nat, chain: seq<Block>)
    requires src.head.HeadFailed?
    ensures SyncPass(src, window, chain).events == [] && SyncPass(src, window, chain).chain == chain
  {
  }

  lemma PassFaithful(s: System, env: Interference)
    requires SysInv(s) && |s.node.blocks| + |Flatten(env.during)| <= MAX_HEIGHT
    ensures Faithful(s.window, s.chain, SyncPass(SourceOf(s.node, env), s.window, s.chain).events)
  {
    hide SyncPass, RunNode, Flatten, NoCollisions, Honest, AnswersFrom, AnswersBelow, Replay, WindowInv, InStep;
    var src := SourceOf(s.node, env);
    var end := RunNode(s.node, Flatten(env.during));
    NodeAtInv(s.node, env, 0);
    SourceHonest(s.node, env);
    MinedDistinct(end);
    MinedGrows(s.node, end, s.chain);
    hide NodeInv, FromUniverse, NodeAt, SourceOf, Faithful;
    if src.head.Head? {
      SyncFaithful(src, s.window, s.chain, Mined(end));
    } else {
      NoEvents(src, s.window, s.chain);
      NothingFaithful(s.window, s.chain);
    }
  }

  lemma NothingFaithful(window: nat, chain: seq<Block>)
    ensures Faithful(window, chain, [])
  {
  }

  /** The whole stream of a run is faithful from the start. */
  lemma {:induction false} StreamFaithful(lead: Hash -> nat, window: nat, limit: nat, steps: seq<SysStep>)
    requires 0 < window && limit <= window && 1 + AllMining(steps) <= MAX_HEIGHT
    ensures Faithful(window, [], SysRun(Start(lead, window, limit), steps).events)
    decreases |steps|
  {
    if steps == [] {
      NothingFaithful(window, []);
    } else {
      var before, last := steps[..|steps| - 1], steps[|steps| - 1];
      StreamFaithful(lead, window, limit, before);
      ReachableInv(lead, window, limit, before);
      var s := SysRun(Start(lead, window, limit), before);
      if last.Sync? {
        PassFaithful(s, last.env);
        hide SyncPass, SourceOf, Faithful, ApplyAll;
        FaithfulAppend(window, [], s.events, SyncPass(SourceOf(s.node, last.env), window, s.chain).events);
      }
    }
  }

  /** In every run: a consumer that took a list of at most `limit` newest blocks when the indexer had published m
      events, and has folded the next ones up to the n-th, shows the newest part of the chain that the indexer
      had when it published the n-th. */
  lemma ConsumerShows(lead: Hash -> nat, window: nat, limit: nat, steps: seq<SysStep>, m: nat, n: nat, list: seq<Block>)
    requires 0 < window && limit <= window && 1 + AllMining(steps) <= MAX_HEIGHT
    requires m <= n <= |SysRun(Start(lead, window, limit), steps).events|
    requires var evs := SysRun(Start(lead, window, limit), steps).events;
             Shows(list, Replay(window, Replayed(true, []), evs[..m]).chain) && |list| <= limit
    ensures var evs := SysRun(Start(lead, window, limit), steps).events;
            var had := Replay(window, Replayed(true, []), evs[..n]);
            had.ok && Shows(ApplyAll(list, evs[m..n], limit), had.chain) && |ApplyAll(list, evs[m..n], limit)| <= limit
  {
    hide SysRun, AllMining, Replay, Faithful, Shows, ApplyAll;
    var evs := SysRun(Start(lead, window, limit), steps).events;
    StreamFaithful(lead, window, limit, steps);
    assert evs == evs[..n] + evs[n..] && evs[..n] == evs[..m] + evs[m..n];
    FaithfulSplit(window, [], evs[..n], evs[n..]);
    FaithfulSplit(window, [], evs[..m], evs[m..n]);
    var at := Replay(window, Replayed(true, []), evs[..m]);
    ReplayAppend(window, Replayed(true, []), evs[..m], evs[m..n]);
    ReplayBounded(window, Replayed(true, []), evs[..m]);
    ViewFollows(list, at.chain, evs[m..n], window, limit);
  }

  lemma {:induction false} ReplayBounded(window: nat, r: Replayed, evs: seq<ChainEvent>)
    requires |r.chain| <= window
    ensures |Replay(window, r, evs).chain| <= window
    decreases |evs|
  {
    if evs != [] {
      ReplayBounded(window, ReplayOne(window, r, evs[0]), evs[1..]);
    }
  }
}
