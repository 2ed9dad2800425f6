/** How long the console's list may be: exactly as long as the indexer's window. */
module ConsoleLimit {
  import opened Chain
  import opened Wrappers
  import opened ChainSim
  import opened IndexerSpec
  import opened ClientView
  import opened Pipeline

  lemma {:induction false} ViewOfNewUp(ledger: seq<Block>, n: nat, limit: nat)
    requires DistinctHashes(ledger) && n <= |ledger| <= limit
    ensures ApplyAll(NewestFirst(ledger[..n]), NewUp(ledger, n), limit) == NewestFirst(ledger)
    decreases |ledger| - n
  {
    var view := NewestFirst(ledger[..n]);
    if n == |ledger| {
      assert ledger[..n] == ledger;
    } else {
      NewUpCons(ledger, n);
      assert NewUp(ledger, n)[1..] == NewUp(ledger, n + 1);
      assert ApplyEvent(view, New(ledger[n]), limit) == NewestFirst(ledger[..n + 1]);
      ViewOfNewUp(ledger, n + 1, limit);
    }
  }

  /** A quiet pass from the node's first m blocks, with a list that has room for the whole chain. */
  lemma QuietFill(s: System, m: nat)
    requires NodeInv(s.node) && 0 < s.window && |s.node.blocks| <= MAX_HEIGHT && |s.node.blocks| <= s.limit
    requires m <= |s.node.blocks| && m <= s.window && (m == 0 ==> |s.node.blocks| <= s.window)
    requires s.chain == s.node.blocks[..m] && s.view == NewestFirst(s.chain)
    ensures var t := SysNext(s, Sync(QUIET));
            && t.node == s.node && t.window == s.window && t.limit == s.limit
            && t.view == NewestFirst(s.node.blocks)
            && Slab(s.node.blocks, t.chain, |s.node.blocks|) && |t.chain| == Smaller(s.window, |s.node.blocks|)
  {
    var ledger := s.node.blocks;
    LedgerDistinct(s.node);
    PrefixOnLedger(s.chain, ledger, m);
    QuietServes(s.node);
    QuietNext(s);
    assert s.chain[..m] == s.chain;
    hide NodeInv, DistinctHashes, CollisionFree, CanonicalPrefix, Serves, Slab, SyncPass, SysNext, SourceOf, ApplyAll;
    hide Linked, CaughtUp, NewestFirst;
    SyncConverges(SourceOf(s.node, QUIET), s.window, s.chain, ledger, m);
    var p := SyncPass(SourceOf(s.node, QUIET), s.window, s.chain);
    CaughtUpFromPrefix(s.window, s.chain, m, ledger, p.chain, p.events);
    ViewOfNewUp(ledger, m, s.limit);
  }

  /** Catching up from a first part of the ledger reports nothing reorged. */
  lemma CaughtUpFromPrefix(window: nat, chain: seq<Block>, m: nat, ledger: seq<Block>, stored: seq<Block>,
                           events: seq<ChainEvent>)
    requires |chain| == m <= |ledger| && m <= window && (m == 0 ==> |ledger| <= window)
    requires m > 0 ==> chain[m - 1].number == m - 1
    requires CaughtUp(window, chain, m, ledger, stored, events)
    ensures events == NewUp(ledger, m)
    ensures Slab(ledger, stored, |ledger|) && |stored| == Smaller(window, |ledger|)
  {
    hide Slab, NewUp;
    NothingReorged(chain, m, NewUp(ledger, m));
  }

  lemma QuietNext(s: System)
    requires 0 < |s.node.blocks|
    ensures var p := SyncPass(SourceOf(s.node, QUIET), s.window, s.chain);
            SysNext(s, Sync(QUIET))
            == s.(chain := p.chain, events := s.events + p.events, view := ApplyAll(s.view, p.events, s.limit))
  {
    hide SyncPass, ApplyAll, SourceOf;
  }

  lemma NothingReorged(chain: seq<Block>, m: nat, evs: seq<ChainEvent>)
    requires |chain| == m
    ensures ReorgedDown(chain, m) + evs == evs
  {
  }

  lemma LedgerDistinct(s: NodeState)
    requires NodeInv(s)
    ensures DistinctHashes(s.blocks)
  {
    MinedDistinct(s);
    LinkedDistinct(s.blocks, Mined(s));
  }

  /** The first m blocks of a ledger are a window all of which is on it. */
  lemma PrefixOnLedger(chain: seq<Block>, ledger: seq<Block>, m: nat)
    requires Ledger(ledger) && DistinctHashes(ledger) && m <= |ledger| && chain == ledger[..m]
    ensures Linked(chain) && CollisionFree(chain, ledger) && CanonicalPrefix(chain, ledger) == m
    ensures m > 0 ==> chain[m - 1].number == m - 1
  {
    SliceLinked(ledger, 0, m);
    assert chain == ledger[0..m];
  }

  function Mines(n: nat): (steps: seq<SysStep>)
    ensures |steps| == n
  {
    seq(n, _ => NodeMoves(Mine))
  }

  /** Mine up to a full window, sync, mine one more block, sync again. */
  function Overrun(window: nat): seq<SysStep>
    requires 0 < window
  {
    Mines(window - 1) + [Sync(QUIET)] + [NodeMoves(Mine)] + [Sync(QUIET)]
  }

  lemma {:induction false} MinesRun(lead: Hash -> nat, window: nat, limit: nat, n: nat)
    ensures SysRun(Start(lead, window, limit), Mines(n))
         == Start(lead, window, limit).(node := MineMany(Genesis(lead), n))
    ensures AllMining(Mines(n)) == n
  {
    if n > 0 {
      MinesRun(lead, window, limit, n - 1);
      assert Mines(n)[..n - 1] == Mines(n - 1);
    }
  }

  lemma RunSnoc(s: System, steps: seq<SysStep>, step: SysStep)
    requires 0 < |s.node.blocks|
    ensures SysRun(s, steps + [step]) == SysNext(SysRun(s, steps), step)
    ensures AllMining(steps + [step]) == AllMining(steps) + Mining(step)
  {
    assert (steps + [step])[..|steps|] == steps;
  }

  /** After the first sync the chain is the node's whole chain, a full window, and the list shows all of it. */
  lemma FullWindow(lead: Hash -> nat, window: nat, limit: nat)
    requires 0 < window < limit && window < MAX_HEIGHT
    ensures var steps := Mines(window - 1) + [Sync(QUIET)];
            var t := SysRun(Start(lead, window, limit), steps);
            && AllMining(steps) == window - 1 && NodeInv(t.node) && t.window == window && t.limit == limit
            && t.chain == t.node.blocks && |t.chain| == window && t.view == NewestFirst(t.chain)
  {
    hide SysRun, SysNext, AllMining, NodeInv, Slab;
    var s0 := Start(lead, window, limit);
    MinesRun(lead, window, limit, window - 1);
    GenesisInv(lead);
    MineManyKeeps(Genesis(lead), window - 1);
    var s := SysRun(s0, Mines(window - 1));
    QuietFill(s, 0);
    RunSnoc(s0, Mines(window - 1), Sync(QUIET));
    var t := SysNext(s, Sync(QUIET));
    WholeSlab(t.node.blocks, t.chain);
  }

  /** With a limit above the window, that run leaves one block more in the list than in the chain. */
  lemma OverrunRun(lead: Hash -> nat, window: nat, limit: nat)
    requires 0 < window < limit && window < MAX_HEIGHT
    ensures var t := SysRun(Start(lead, window, limit), Overrun(window));
            && AllMining(Overrun(window)) == window
            && |t.chain| == window && |t.view| == window + 1 && !Shows(t.view, t.chain)
  {
    hide SysRun, SysNext, AllMining, NodeInv, Slab;
    var s0 := Start(lead, window, limit);
    var steps := Mines(window - 1) + [Sync(QUIET)];
    FullWindow(lead, window, limit);
    var t := SysRun(s0, steps);
    MineOneKeeps(t.node);
    MineStep(t);
    RunSnoc(s0, steps, NodeMoves(Mine));
    var u := t.(node := MineOne(t.node));
    assert u.chain == u.node.blocks[..window];
    QuietFill(u, window);
    RunSnoc(s0, steps + [NodeMoves(Mine)], Sync(QUIET));
  }

  lemma MineStep(t: System)
    requires 0 < |t.node.blocks|
    ensures SysNext(t, NodeMoves(Mine)) == t.(node := MineOne(t.node))
  {
  }

  lemma WholeSlab(ledger: seq<Block>, chain: seq<Block>)
    requires Slab(ledger, chain, |ledger|) && |chain| == |ledger|
    ensures chain == ledger
  {
  }

  /** The console shows the newest part of the chain in every run exactly when its limit is at most the
      indexer's window. */
  lemma LimitExact(lead: Hash -> nat, window: nat, limit: nat)
    requires 0 < window < MAX_HEIGHT
    ensures limit <= window <==>
            forall steps :: 1 + AllMining(steps) <= MAX_HEIGHT ==>
              var t := SysRun(Start(lead, window, limit), steps);
              Shows(t.view, t.chain)
  {
    if limit <= window {
      forall steps | 1 + AllMining(steps) <= MAX_HEIGHT
        ensures var t := SysRun(Start(lead, window, limit), steps);
                Shows(t.view, t.chain)
      {
        ReachableInv(lead, window, limit, steps);
      }
    } else {
      OverrunRun(lead, window, limit);
    }
  }
}
