/** The whole pipeline as one system: a node that mines and reorgs, also between any two calls a
    sync pass makes to it; the indexer that follows it; the events it publishes; and a console that
    sees nothing but those events. */
module Pipeline {
  import opened Chain
  import opened Wrappers
  import opened ChainSim
  import opened IndexerSpec
  import opened ClientView
  import opened ViewLength

  datatype System = System(
    node: NodeState,
    window: nat,
    limit: nat,
    chain: seq<Block>,
    events: seq<ChainEvent>,
    view: seq<Block>)

  /** Between the calls of a pass the node takes steps: `during[0]` before the head call, `during[k]`
      before the k-th block call. A call listed in `faults`, or the head call, may fail. */
  datatype Interference = Interference(during: seq<seq<NodeStep>>, faults: set<nat>, headFails: bool)

  datatype SysStep = NodeMoves(step: NodeStep) | Sync(env: Interference)

  function Flatten(groups: seq<seq<NodeStep>>): seq<NodeStep> {
    if groups == [] then [] else Flatten(groups[..|groups| - 1]) + groups[|groups| - 1]
  }

  /** The node as the k-th source call of the pass finds it; the head call is call 0. */
  function NodeAt(s: NodeState, env: Interference, k: nat): (r: NodeState)
    requires 0 < |s.blocks|
    ensures 0 < |r.blocks|
  {
    RunNode(s, Flatten(env.during[..Smaller(k + 1, |env.during|)]))
  }

  /** The answer to the i-th block call, asked for height n. */
  function Answer(s: NodeState, env: Interference, i: nat, n: nat): BlockAnswer
    requires 0 < |s.blocks|
  {
    if i in env.faults then Failed
    else
      match Lookup(NodeAt(s, env, i + 1), n)
      case Some(b) => Found(b)
      case None => NotFound
  }

  function SourceOf(s: NodeState, env: Interference): Source
    requires 0 < |s.blocks|
  {
    Source(
      if env.headFails then HeadFailed else Head(|NodeAt(s, env, 0).blocks| - 1),
      (i: nat, n: nat) => Answer(s, env, i, n))
  }

  function SysNext(s: System, st: SysStep): (t: System)
    requires 0 < |s.node.blocks|
    ensures 0 < |t.node.blocks|
  {
    match st
    case NodeMoves(step) => s.(node := StepNode(s.node, step))
    case Sync(env) =>
      var p := SyncPass(SourceOf(s.node, env), s.window, s.chain);
      s.(node := RunNode(s.node, Flatten(env.during)),
         chain := p.chain,
         events := s.events + p.events,
         view := ApplyAll(s.view, p.events, s.limit))
  }

  function SysRun(s: System, steps: seq<SysStep>): (t: System)
    requires 0 < |s.node.blocks|
    ensures 0 < |t.node.blocks|
  {
    if steps == [] then s else SysNext(SysRun(s, steps[..|steps| - 1]), steps[|steps| - 1])
  }

  function Start(lead: Hash -> nat, window: nat, limit: nat): System {
    System(Genesis(lead), window, limit, [], [], [])
  }

  /** How many node steps a step contains. */
  function Mining(st: SysStep): nat {
    match st
    case NodeMoves(_) => 1
    case Sync(env) => |Flatten(env.during)|
  }

  function AllMining(steps: seq<SysStep>): nat {
    if steps == [] then 0 else AllMining(steps[..|steps| - 1]) + Mining(steps[|steps| - 1])
  }

  // ------------------------------------------------------------------ the invariant

  ghost function Mined(s: NodeState): iset<Block> {
    iset b | b in s.mined
  }

  ghost predicate SysInv(s: System) {
    && NodeInv(s.node)
    && 0 < s.window && s.limit <= s.window
    && WindowInv(s.window, s.chain)
    && FromUniverse(Mined(s.node), s.chain)
    && Replay(s.window, Replayed(true, []), s.events) == Replayed(true, s.chain)
    && InStep(s.view, s.chain, s.limit, |s.node.blocks| - 1)
  }

  lemma MinedDistinct(s: NodeState)
    requires NodeInv(s)
    ensures NoCollisions(Mined(s))
  {
    assert forall b :: b in s.mined ==> Genuine(s.lead, b);
  }

  lemma {:induction false} FlattenPrefix(groups: seq<seq<NodeStep>>, k: nat)
    requires k <= |groups|
    ensures Flatten(groups[..k]) <= Flatten(groups)
    decreases |groups|
  {
    if k < |groups| {
      var shorter := groups[..|groups| - 1];
      FlattenPrefix(shorter, k);
      assert shorter[..k] == groups[..k];
    } else {
      assert groups[..k] == groups;
    }
  }

  /** Whatever call of the pass asks, the node it finds is well-formed, no higher than it will be
      after the pass, and everything on it is in the final mining history. */
  lemma NodeAtInv(s: NodeState, env: Interference, k: nat)
    requires NodeInv(s)
    ensures var t := NodeAt(s, env, k);
            var end := RunNode(s, Flatten(env.during));
            && NodeInv(t) && NodeInv(end) && end.lead == s.lead && t.lead == s.lead
            && |end.blocks| == |s.blocks| + |Flatten(env.during)|
            && |t.blocks| <= |end.blocks| && t.mined <= end.mined && s.mined <= end.mined
  {
    var all := Flatten(env.during);
    var part := Flatten(env.during[..Smaller(k + 1, |env.during|)]);
    FlattenPrefix(env.during, Smaller(k + 1, |env.during|));
    assert all == part + all[|part|..];
    RunSplit(s, part, all[|part|..]);
    RunKeeps(s, part);
    RunKeeps(RunNode(s, part), all[|part|..]);
    RunKeeps(s, all);
  }

  lemma OnChainMined(t: NodeState, n: nat)
    requires NodeInv(t)
    ensures n < |t.blocks| ==> t.blocks[n].number == n && t.blocks[n] in t.mined
  {
    if n < |t.blocks| {
      assert t.blocks[n] in t.blocks;
    }
  }

  lemma AnswerMined(s: NodeState, env: Interference, i: nat, n: nat, t: NodeState, end: NodeState)
    requires NodeInv(s) && t == NodeAt(s, env, i + 1) && end == RunNode(s, Flatten(env.during))
    ensures var a := Answer(s, env, i, n);
            a.Found? ==> a.block.number == n < |end.blocks| && a.block in end.mined
  {
    hide RunNode, NodeInv, Flatten;
    NodeAtInv(s, env, i + 1);
    OnChainMined(t, n);
  }

  lemma SourceHonest(s: NodeState, env: Interference)
    requires NodeInv(s) && |s.blocks| + |Flatten(env.during)| <= MAX_HEIGHT
    ensures Honest(SourceOf(s, env))
    ensures AnswersFrom(SourceOf(s, env), Mined(RunNode(s, Flatten(env.during))))
    ensures AnswersBelow(SourceOf(s, env), |RunNode(s, Flatten(env.during)).blocks| - 1)
  {
    NodeAtInv(s, env, 0);
    forall i: nat, n: nat
      ensures var a := SourceOf(s, env).block(i, n);
              var end := RunNode(s, Flatten(env.during));
              a.Found? ==> a.block.number == n < |end.blocks| && a.block in Mined(end)
    {
      AnswerMined(s, env, i, n, NodeAt(s, env, i + 1), RunNode(s, Flatten(env.during)));
    }
  }

  lemma SyncKeepsInv(s: System, env: Interference)
    requires SysInv(s) && |s.node.blocks| + |Flatten(env.during)| <= MAX_HEIGHT
    ensures SysInv(SysNext(s, Sync(env)))
  {
    hide SyncPass, RunNode, Flatten, ApplyAll, NoCollisions, Honest, AnswersFrom, AnswersBelow, Replay, WindowInv;
    hide Filled;
    var src := SourceOf(s.node, env);
    var end := RunNode(s.node, Flatten(env.during));
    NodeAtInv(s.node, env, 0);
    SourceHonest(s.node, env);
    MinedDistinct(end);
    assert forall b :: b in s.node.mined ==> b in end.mined;
    assert FromUniverse(Mined(end), s.chain);
    hide NodeInv, FromUniverse, NodeAt;
    HigherHeadFilled(s.view, s.chain, s.limit, |s.node.blocks| - 1, |end.blocks| - 1);
    SyncInStep(src, s.window, s.limit, s.view, s.chain, |end.blocks| - 1, Mined(end));
    ViewFollowsSync(s.view, src, s.window, s.limit, s.chain, Mined(end));
    SyncKeepsWindow(src, s.window, s.chain);
    SyncReplays(src, s.window, s.chain);
    ReplayAppend(s.window, Replayed(true, []), s.events, SyncPass(src, s.window, s.chain).events);
  }

  lemma MinedGrows(s: NodeState, t: NodeState, chain: seq<Block>)
    requires s.mined <= t.mined && FromUniverse(Mined(s), chain)
    ensures FromUniverse(Mined(t), chain)
  {
    assert forall b :: b in s.mined ==> b in t.mined;
  }

  lemma NodeStepKeepsInv(s: System, step: NodeStep)
    requires SysInv(s)
    ensures SysInv(SysNext(s, NodeMoves(step)))
  {
    StepKeeps(s.node, step);
    MinedGrows(s.node, StepNode(s.node, step), s.chain);
    hide NodeInv, StepNode, WindowInv, Replay, Shows, Filled, FromUniverse;
    HigherHeadFilled(s.view, s.chain, s.limit, |s.node.blocks| - 1, |s.node.blocks|);
  }

  /** At every reachable state, under every interleaving of mining, reorgs and source calls and
      every pattern of failures: the stored chain is linked, contiguous and within the window; all
      its blocks were mined by the node; its events rebuild it; and the console shows its newest
      part. */
  lemma {:induction false} ReachableInv(lead: Hash -> nat, window: nat, limit: nat, steps: seq<SysStep>)
    requires 0 < window && limit <= window && 1 + AllMining(steps) <= MAX_HEIGHT
    ensures var t := SysRun(Start(lead, window, limit), steps);
            SysInv(t) && t.window == window && t.limit == limit && |t.node.blocks| == 1 + AllMining(steps)
    decreases |steps|
  {
    GenesisInv(lead);
    if steps != [] {
      var before := steps[..|steps| - 1];
      ReachableInv(lead, window, limit, before);
      var s := SysRun(Start(lead, window, limit), before);
      match steps[|steps| - 1]
      case NodeMoves(step) =>
        NodeStepKeepsInv(s, step);
        StepKeeps(s.node, step);
      case Sync(env) =>
        SyncKeepsInv(s, env);
        NodeAtInv(s.node, env, 0);
    }
  }

  // ------------------------------------------------------------------ a quiet pass converges

  /** No step of the node between the calls, and no failure. */
  const QUIET := Interference([], {}, false)

  lemma QuietServes(s: NodeState)
    requires NodeInv(s) && |s.blocks| <= MAX_HEIGHT
    ensures Serves(SourceOf(s, QUIET), s.blocks)
  {
    forall k: nat
      ensures NodeAt(s, QUIET, k) == s
    {
    }
    assert SourceOf(s, QUIET).head == Head(|s.blocks| - 1);
    forall i: nat, n: nat
      ensures SourceOf(s, QUIET).block(i, n) == if n < |s.blocks| then Found(s.blocks[n]) else NotFound
    {
    }
  }

  lemma ChainAgainstNode(s: System)
    requires SysInv(s)
    ensures CollisionFree(s.chain, s.node.blocks)
  {
    MinedDistinct(s.node);
    forall i, j | 0 <= i < |s.chain| && 0 <= j < |s.node.blocks| && s.chain[i].hash == s.node.blocks[j].hash
      ensures s.chain[i] == s.node.blocks[j]
    {
      assert s.node.blocks[j] in s.node.blocks;
      assert s.chain[i] in Mined(s.node) && s.node.blocks[j] in Mined(s.node);
    }
  }

  /** From any reachable state, also one left by failed passes, a quiet pass succeeds; the stored
      chain becomes a non-empty suffix of the node's chain that ends at its head; exactly the stored
      blocks that are off the node's chain were unwound, newest first; if none was left, a full window or
      the whole chain is stored, and otherwise exactly what is above the newest one kept was added; and the
      console shows the newest part of the node's chain. */
  lemma QuietPassConverges(s: System, k: nat)
    requires SysInv(s) && |s.node.blocks| <= MAX_HEIGHT
    requires k == CanonicalPrefix(s.chain, s.node.blocks)
    ensures var p := SyncPass(SourceOf(s.node, QUIET), s.window, s.chain);
            var t := SysNext(s, Sync(QUIET));
            && p.err == NoError && t.node == s.node
            && CaughtUp(s.window, s.chain, k, s.node.blocks, t.chain, p.events) && t.events == s.events + p.events
            && (forall i :: 0 <= i < |s.chain| ==> (Canonical(s.node.blocks, s.chain[i]) <==> i < k))
            && Shows(t.view, t.node.blocks) && |t.view| == Smaller(s.limit, |t.chain|)
  {
    QuietServes(s.node);
    ChainAgainstNode(s);
    SyncConverges(SourceOf(s.node, QUIET), s.window, s.chain, s.node.blocks, k);
    forall i | 0 <= i < |s.chain|
      ensures Canonical(s.node.blocks, s.chain[i]) <==> i < k
    {
      CanonicalPrefixExact(s.chain, s.node.blocks, i);
    }
    SyncKeepsInv(s, QUIET);
    ViewAtHead(SysNext(s, Sync(QUIET)));
  }

  /** When the stored chain reaches the node's head, the console's list is the newest part of the node's
      chain, as long as its limit or the stored chain allows. */
  lemma ViewAtHead(t: System)
    requires SysInv(t) && t.chain != [] && Slab(t.node.blocks, t.chain, |t.node.blocks|)
    ensures Shows(t.view, t.node.blocks) && |t.view| == Smaller(t.limit, |t.chain|)
  {
    hide WindowInv, Replay, FromUniverse, Filled;
    assert t.chain[|t.chain| - 1] == t.node.blocks[|t.node.blocks| - 1];
    AtHeadFull(t.view, t.chain, t.limit);
  }

  // ------------------------------------------------------------------ what events say about the node

  /** Reported new: the node had the block when asked. Reported reorged: it did not. */
  ghost predicate Truthful(s: NodeState, env: Interference, ev: ChainEvent, call: nat)
    requires 0 < |s.blocks|
  {
    var seen := Lookup(NodeAt(s, env, call + 1), ev.block.number);
    if ev.New? then seen == Some(ev.block) else seen != Some(ev.block)
  }

  ghost predicate AllTrue(s: NodeState, env: Interference, evs: seq<ChainEvent>, first: nat)
    requires 0 < |s.blocks|
  {
    forall k :: 0 <= k < |evs| ==> Truthful(s, env, evs[k], first + k)
  }

  lemma WitnessedIsTrue(s: NodeState, env: Interference, ev: ChainEvent, call: nat)
    requires 0 < |s.blocks| && Witnessed(SourceOf(s, env), ev, call)
    ensures Truthful(s, env, ev, call)
  {
    assert SourceOf(s, env).block(call, ev.block.number) == Answer(s, env, call, ev.block.number);
  }

  lemma AllWitnessedAllTrue(s: NodeState, env: Interference, evs: seq<ChainEvent>, first: nat)
    requires 0 < |s.blocks| && AllWitnessed(SourceOf(s, env), evs, first)
    ensures AllTrue(s, env, evs, first)
  {
    forall k | 0 <= k < |evs|
      ensures Truthful(s, env, evs[k], first + k)
    {
      WitnessedIsTrue(s, env, evs[k], first + k);
    }
  }

  lemma PassTellsTheTruth(node: NodeState, env: Interference, window: nat, chain: seq<Block>)
    returns (split: nat, gap: nat, from: nat)
    requires 0 < |node.blocks| && Honest(SourceOf(node, env))
    ensures var evs := SyncPass(SourceOf(node, env), window, chain).events;
            && split <= |evs| && gap <= 1
            && AllReorged(evs[..split]) && AllTrue(node, env, evs[..split], 0)
            && AllNew(evs[split..], from) && AllTrue(node, env, evs[split..], split + gap)
  {
    hide SyncPass, SourceOf, Honest, AllReorged, AllNew, AllWitnessed, AllTrue;
    var src := SourceOf(node, env);
    split, gap, from := SyncWitnessed(src, window, chain);
    var evs := SyncPass(src, window, chain).events;
    AllWitnessedAllTrue(node, env, evs[..split], 0);
    AllWitnessedAllTrue(node, env, evs[split..], split + gap);
  }

  /** Even while the node is changing under the pass: its reorged events come first, and each block
      is reported reorged only if the node, when asked, no longer had it; then the new ones, in
      height order, each reported only if the node then had it. */
  lemma EventsTellTheTruth(s: System, env: Interference) returns (split: nat, gap: nat, from: nat)
    requires SysInv(s) && |s.node.blocks| + |Flatten(env.during)| <= MAX_HEIGHT
    ensures var evs := SyncPass(SourceOf(s.node, env), s.window, s.chain).events;
            && split <= |evs| && gap <= 1
            && AllReorged(evs[..split]) && AllTrue(s.node, env, evs[..split], 0)
            && AllNew(evs[split..], from) && AllTrue(s.node, env, evs[split..], split + gap)
  {
    hide SyncPass, SourceOf, NodeAt, RunNode, Flatten, Honest, AnswersFrom, AnswersBelow, AllReorged, AllNew, AllTrue;
    hide WindowInv, FromUniverse, Replay, InStep;
    SourceHonest(s.node, env);
    split, gap, from := PassTellsTheTruth(s.node, env, s.window, s.chain);
  }
}
