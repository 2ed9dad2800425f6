/** The simulated node: a chain that grows by mining and forks by forced reorgs. */
module ChainSim {
  import opened Chain
  import opened Wrappers

  const BLOCK_TIME: nat := 12
  const GENESIS_TIME: nat := 1_700_000_000

  /** `lead` gives the first byte of a digest, from which a block's transaction count is drawn.
      `mined` is the history of every block ever mined; the node itself does not keep it. */
  datatype NodeState = NodeState(lead: Hash -> nat, salt: nat, blocks: seq<Block>, mined: seq<Block>)

  datatype NodeStep = Mine | Reorg(depth: nat)

  /** The block that a digest of the simulated node stands for. */
  function BlockOf(lead: Hash -> nat, h: Hash): Block
    requires h.Keccak?
  {
    Block(h.num, h, h.parent, GENESIS_TIME + h.num * BLOCK_TIME, lead(h) % 8)
  }

  function NextBlock(s: NodeState): Block {
    var num := |s.blocks|;
    var parent := if num > 0 then s.blocks[num - 1].hash else Zero;
    BlockOf(s.lead, Keccak(parent, num, s.salt))
  }

  function MineOne(s: NodeState): NodeState {
    var b := NextBlock(s);
    s.(blocks := s.blocks + [b], mined := s.mined + [b])
  }

  function MineMany(s: NodeState, n: nat): NodeState {
    if n == 0 then s else MineOne(MineMany(s, n - 1))
  }

  /** The depth a reorg really has: genesis is never dropped. */
  function Clamp(s: NodeState, depth: nat): nat
    requires 0 < |s.blocks|
  {
    if depth >= |s.blocks| then |s.blocks| - 1 else depth
  }

  function Fork(s: NodeState, depth: nat): NodeState
    requires 0 < |s.blocks|
  {
    s.(blocks := s.blocks[..|s.blocks| - Clamp(s, depth)], salt := s.salt + 1)
  }

  function ReorgTo(s: NodeState, depth: nat): NodeState
    requires 0 < |s.blocks|
  {
    MineMany(Fork(s, depth), Clamp(s, depth) + 1)
  }

  function Genesis(lead: Hash -> nat): NodeState {
    MineOne(NodeState(lead, 0, [], []))
  }

  /** The numeric lookup: a height above the head is not found. */
  function Lookup(s: NodeState, n: nat): Option<Block> {
    if n < |s.blocks| then Some(s.blocks[n]) else None
  }

  // ------------------------------------------------------------------ invariant

  /** Mined earlier: under an older salt, or under the same salt at a lower height. */
  ghost predicate Earlier(b: Block, c: Block) {
    && b.hash.Keccak? && c.hash.Keccak?
    && (b.hash.salt < c.hash.salt || (b.hash.salt == c.hash.salt && b.hash.num < c.hash.num))
  }

  ghost predicate Genuine(lead: Hash -> nat, b: Block) {
    b.hash.Keccak? && b == BlockOf(lead, b.hash)
  }

  ghost predicate NodeInv(s: NodeState) {
    && Ledger(s.blocks)
    && (forall b :: b in s.blocks ==> b in s.mined)
    && (forall b :: b in s.mined ==> Genuine(s.lead, b))
    && (forall i, j :: 0 <= i < j < |s.mined| ==> Earlier(s.mined[i], s.mined[j]))
    && (forall b :: b in s.mined ==> b.hash.salt < s.salt || (b.hash.salt == s.salt && b.hash.num < |s.blocks|))
    && 0 < |s.mined| && s.mined[0] == s.blocks[0]
  }

  lemma MineOneKeeps(s: NodeState)
    requires NodeInv(s)
    ensures NodeInv(MineOne(s))
    ensures |MineOne(s).blocks| == |s.blocks| + 1
    ensures NextBlock(s) !in s.mined
  {
    var t := MineOne(s);
    var b := NextBlock(s);
    assert forall i :: 0 <= i < |s.mined| ==> s.mined[i] in s.mined;
    ExtendLinked(s.blocks, b);
  }

  lemma {:induction false} MineManyKeeps(s: NodeState, n: nat)
    requires NodeInv(s)
    ensures var t := MineMany(s, n);
            && NodeInv(t) && t.lead == s.lead && t.salt == s.salt
            && |t.blocks| == |s.blocks| + n && s.blocks <= t.blocks && s.mined <= t.mined
            && (forall i :: |s.blocks| <= i < |t.blocks| ==>
                  t.blocks[i].hash.Keccak? && t.blocks[i].hash.salt == s.salt)
  {
    if n > 0 {
      MineManyKeeps(s, n - 1);
      MineOneKeeps(MineMany(s, n - 1));
      MineOneGrows(MineMany(s, n - 1));
      hide NodeInv, MineOne;
      var t, u := MineMany(s, n - 1), MineMany(s, n);
      assert u.blocks[..|t.blocks|] == t.blocks && u.mined[..|t.mined|] == t.mined;
    }
  }

  /** Mining adds one block, under the node's salt, to the chain and to the history. */
  lemma MineOneGrows(s: NodeState)
    ensures var t := MineOne(s);
            && t.lead == s.lead && t.salt == s.salt
            && |t.blocks| == |s.blocks| + 1 && s.blocks <= t.blocks && s.mined <= t.mined
            && t.blocks[|s.blocks|].hash.Keccak? && t.blocks[|s.blocks|].hash.salt == s.salt
  {
  }

  lemma ForkKeeps(s: NodeState, depth: nat)
    requires NodeInv(s)
    ensures NodeInv(Fork(s, depth))
  {
    var t := Fork(s, depth);
    SliceLinked(s.blocks, 0, |t.blocks|);
    assert t.blocks == s.blocks[0..|t.blocks|];
    assert forall b :: b in t.blocks ==> b in s.blocks;
  }

  /** What a reorg leaves when it keeps the first `kept` blocks. */
  ghost predicate Replaced(s: NodeState, t: NodeState, kept: nat) {
    && kept <= |s.blocks| && |t.blocks| == |s.blocks| + 1
    && NodeInv(t) && t.lead == s.lead && t.salt == s.salt + 1
    && t.blocks[..kept] == s.blocks[..kept]
    && s.mined <= t.mined
    && (forall i :: kept <= i < |t.blocks| ==> t.blocks[i].hash.Keccak? && t.blocks[i].hash.salt == s.salt + 1)
    && (forall i, b :: kept <= i < |t.blocks| && b in s.mined ==> t.blocks[i].hash != b.hash)
  }

  lemma ForkedAndMined(s: NodeState, depth: nat)
    requires NodeInv(s)
    ensures Replaced(s, ReorgTo(s, depth), |s.blocks| - Clamp(s, depth))
  {
    ForkKeeps(s, depth);
    MineManyKeeps(Fork(s, depth), Clamp(s, depth) + 1);
  }

  /** A reorg of `depth` drops exactly the newest `depth` blocks, or all but genesis when it is deeper than that,
      and makes the chain one longer under the next salt: what it keeps is unchanged, none of the dropped blocks
      is on the chain any more, and no hash above the fork point was ever mined before. */
  lemma ReorgReplaces(s: NodeState, depth: nat)
    requires NodeInv(s)
    ensures var t := ReorgTo(s, depth);
            var kept := if depth < |s.blocks| then |s.blocks| - depth else 1;
            && NodeInv(t) && t.lead == s.lead && t.salt == s.salt + 1
            && |t.blocks| == |s.blocks| + 1
            && t.blocks[..kept] == s.blocks[..kept]
            && (forall b :: b in s.blocks[kept..] ==> b !in t.blocks)
            && s.mined <= t.mined
            && (forall i :: kept <= i < |t.blocks| ==> t.blocks[i].hash.Keccak? && t.blocks[i].hash.salt == s.salt + 1)
            && (forall i, b :: kept <= i < |t.blocks| && b in s.mined ==> t.blocks[i].hash != b.hash)
  {
    var kept := if depth < |s.blocks| then |s.blocks| - depth else 1;
    assert kept == |s.blocks| - Clamp(s, depth);
    ForkedAndMined(s, depth);
    hide ReorgTo, NodeInv, Clamp;
    DroppedGone(s, ReorgTo(s, depth), kept);
  }

  lemma DroppedGone(s: NodeState, t: NodeState, kept: nat)
    requires NodeInv(s) && Replaced(s, t, kept)
    ensures forall b :: b in s.blocks[kept..] ==> b !in t.blocks
  {
    forall b | b in s.blocks[kept..]
      ensures b !in t.blocks
    {
      var j :| kept <= j < |s.blocks| && s.blocks[j] == b;
      assert b in s.blocks && b in s.mined;
      forall i | 0 <= i < |t.blocks|
        ensures t.blocks[i] != b
      {
        assert t.blocks[i].number == i && s.blocks[j].number == j;
      }
    }
  }

  // ------------------------------------------------------------------ whole runs

  function StepNode(s: NodeState, st: NodeStep): NodeState
    requires 0 < |s.blocks|
  {
    match st
    case Mine => MineOne(s)
    case Reorg(d) => ReorgTo(s, d)
  }

  function RunNode(s: NodeState, steps: seq<NodeStep>): (r: NodeState)
    requires 0 < |s.blocks|
    ensures 0 < |r.blocks|
  {
    if steps == [] then s
    else StepNode(RunNode(s, steps[..|steps| - 1]), steps[|steps| - 1])
  }

  lemma StepKeeps(s: NodeState, st: NodeStep)
    requires NodeInv(s)
    ensures var t := StepNode(s, st);
            NodeInv(t) && t.lead == s.lead && |t.blocks| == |s.blocks| + 1 && s.mined <= t.mined
  {
    match st
    case Mine => MineOneKeeps(s);
    case Reorg(d) => ReorgReplaces(s, d);
  }

  /** Whatever is mined and reorged, the chain stays a ledger, genesis survives, and every step
      raises the height by exactly one. */
  lemma {:induction false} RunKeeps(s: NodeState, steps: seq<NodeStep>)
    requires NodeInv(s)
    ensures var t := RunNode(s, steps);
            && NodeInv(t) && t.lead == s.lead
            && |t.blocks| == |s.blocks| + |steps|
            && t.blocks[0] == s.blocks[0]
            && s.mined <= t.mined
  {
    if steps != [] {
      var before := steps[..|steps| - 1];
      RunKeeps(s, before);
      StepKeeps(RunNode(s, before), steps[|steps| - 1]);
    }
  }

  lemma {:induction false} RunSplit(s: NodeState, a: seq<NodeStep>, b: seq<NodeStep>)
    requires 0 < |s.blocks|
    ensures RunNode(s, a + b) == RunNode(RunNode(s, a), b)
    decreases |b|
  {
    if b == [] {
      assert a + b == a;
    } else {
      var c := b[..|b| - 1];
      RunSplit(s, a, c);
      assert (a + b)[..|a + b| - 1] == a + c;
    }
  }

  lemma GenesisInv(lead: Hash -> nat)
    ensures NodeInv(Genesis(lead)) && |Genesis(lead).blocks| == 1
  {
    assert Genesis(lead).mined == [NextBlock(NodeState(lead, 0, [], []))];
  }

  /** No (number, salt) pair, and so no block hash, is ever mined twice in a whole run. */
  lemma NeverMinedTwice(lead: Hash -> nat, steps: seq<NodeStep>, i: nat, j: nat)
    requires i < j < |RunNode(Genesis(lead), steps).mined|
    ensures var m := RunNode(Genesis(lead), steps).mined;
            && m[i].hash.Keccak? && m[j].hash.Keccak?
            && (m[i].number, m[i].hash.salt) != (m[j].number, m[j].hash.salt)
            && m[i].hash != m[j].hash
  {
    GenesisInv(lead);
    RunKeeps(Genesis(lead), steps);
    var t := RunNode(Genesis(lead), steps);
    assert t.mined[i] in t.mined && t.mined[j] in t.mined;
    assert Earlier(t.mined[i], t.mined[j]);
  }

  /** How many reorgs there were. */
  function Reorgs(steps: seq<NodeStep>): nat {
    if steps == [] then 0 else Reorgs(steps[..|steps| - 1]) + if steps[|steps| - 1].Reorg? then 1 else 0
  }

  lemma {:induction false} SaltCounts(lead: Hash -> nat, steps: seq<NodeStep>)
    ensures RunNode(Genesis(lead), steps).salt == Reorgs(steps)
  {
    if steps != [] {
      hide NodeInv, MineMany;
      var before := steps[..|steps| - 1];
      SaltCounts(lead, before);
      GenesisInv(lead);
      RunKeeps(Genesis(lead), before);
      if steps[|steps| - 1].Reorg? {
        ForkedAndMined(RunNode(Genesis(lead), before), steps[|steps| - 1].depth);
      }
    }
  }

  /** Every block of every reachable chain: block i has number i, the time of the i-th 12-second slot after
      1 700 000 000, fewer than eight transactions as its digest's first byte says, the digest of its parent's
      hash, its number and a salt no higher than the number of reorgs as its hash, and its parent's hash, which
      is zero for genesis. */
  lemma ReachableBlock(lead: Hash -> nat, steps: seq<NodeStep>, i: nat)
    requires i < |RunNode(Genesis(lead), steps).blocks|
    ensures var chain := RunNode(Genesis(lead), steps).blocks;
            var b := chain[i];
            && b.number == i && b.timestamp == 1_700_000_000 + 12 * i && b.txCount == lead(b.hash) % 8
            && b.parentHash == (if i == 0 then Zero else chain[i - 1].hash)
            && b.hash.Keccak? && b.hash.salt <= Reorgs(steps) && b.hash == Keccak(b.parentHash, i, b.hash.salt)
  {
    GenesisInv(lead);
    RunKeeps(Genesis(lead), steps);
    SaltCounts(lead, steps);
    var s := RunNode(Genesis(lead), steps);
    hide RunNode;
    assert s.blocks[i] in s.blocks && s.blocks[i] in s.mined && Genuine(s.lead, s.blocks[i]);
    if i == 0 {
      assert s.blocks[0] == NextBlock(NodeState(lead, 0, [], []));
    } else {
      assert Follows(s.blocks, i - 1);
    }
  }

  // ------------------------------------------------------------------ the node

  class Node {
    const chainID: nat
    const lead: Hash -> nat
    var salt: nat
    var blocks: seq<Block>
    ghost var mined: seq<Block>

    ghost function State(): NodeState
      reads this
    {
      NodeState(lead, salt, blocks, mined)
    }

    constructor (chainID: nat, lead: Hash -> nat)
      ensures this.chainID == chainID && State() == Genesis(lead)
    {
      this.chainID := chainID;
      this.lead := lead;
      salt := 0;
      blocks := [];
      mined := [];
      new;
      MineBlock();
    }

    method MineBlock()
      modifies this
      ensures State() == MineOne(old(State()))
    {
      var parent := Zero;
      var num := |blocks|;
      if num > 0 {
        parent := blocks[num - 1].hash;
      }
      var h := Keccak(parent, num, salt);
      var b := Block(num, h, parent, GENESIS_TIME + num * BLOCK_TIME, lead(h) % 8);
      blocks := blocks + [b];
      mined := mined + [b];
    }

    method ForceReorg(depth: nat)
      requires NodeInv(State())
      modifies this
      ensures State() == ReorgTo(old(State()), depth) && NodeInv(State())
    {
      var d := depth;
      if d >= |blocks| {
        d := |blocks| - 1;
      }
      blocks := blocks[..|blocks| - d];
      salt := salt + 1;
      assert State() == Fork(old(State()), depth);
      hide Fork, NodeInv, MineMany;
      MineTimes(d + 1);
      ReorgReplaces(old(State()), depth);
    }

    method MineTimes(n: nat)
      modifies this
      ensures State() == MineMany(old(State()), n)
    {
      hide MineOne;
      for i := 0 to n
        invariant State() == MineMany(old(State()), i)
      {
        MineBlock();
      }
    }

    method Resolve(n: nat) returns (r: Option<Block>)
      requires NodeInv(State())
      ensures r == Lookup(State(), n)
      ensures r.Some? <==> n < |blocks|
      ensures r.Some? ==> r.value.number == n
    {
      var head := |blocks| - 1;
      if n > head {
        return None;
      }
      r := Some(blocks[n]);
    }
  }
}
