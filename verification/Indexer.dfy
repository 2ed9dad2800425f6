/** The indexer object: its chain is a Go slice that readers share, its events go to the log. */
module Indexer {
  import opened Chain
  import opened Wrappers
  import opened IndexerSpec
  import opened EventLog

  // ------------------------------------------------------------------ Go slices

  /** A slice of a backing array; the room above it, up to the array's end, is its capacity. */
  datatype Slice = Slice(buf: array<Block>, off: nat, len: nat) {
    ghost predicate InBounds() {
      off + len <= buf.Length
    }

    ghost function Items(): (r: seq<Block>)
      requires InBounds()
      reads buf
      ensures |r| == len
    {
      buf[off..off + len]
    }
  }

  const NO_BLOCK := Block(0, Zero, Zero, 0, 0)

  /** Go's append: it overwrites the backing array in place while there is room, and otherwise
      moves to a larger array. How much larger is left open. */
  method AppendTo(s: Slice, b: Block) returns (r: Slice)
    requires s.InBounds()
    modifies s.buf
    ensures r.InBounds() && r.Items() == old(s.Items()) + [b]
    ensures r.buf == s.buf || fresh(r.buf)
  {
    if s.off + s.len < s.buf.Length {
      s.buf[s.off + s.len] := b;
      r := Slice(s.buf, s.off, s.len + 1);
    } else {
      var spare: nat :| 0 <= spare;
      var bigger := new Block[s.len + 1 + spare](_ => NO_BLOCK);
      forall i | 0 <= i < s.len {
        bigger[i] := s.buf[s.off + i];
      }
      bigger[s.len] := b;
      r := Slice(bigger, 0, s.len + 1);
      assert r.Items() == old(s.Items()) + [b];
    }
  }

  /** `append([]Block(nil), s...)`: the same items in a new backing array. */
  method CopyOf(s: Slice) returns (c: Slice)
    requires s.InBounds()
    ensures c.InBounds() && fresh(c.buf) && c.Items() == s.Items()
  {
    var spare: nat :| 0 <= spare;
    var copy := new Block[s.len + spare](_ => NO_BLOCK);
    forall i | 0 <= i < s.len {
      copy[i] := s.buf[s.off + i];
    }
    c := Slice(copy, 0, s.len);
    assert c.Items() == s.Items();
  }

  /** May `b` go on top of the slice? */
  method Fits(s: Slice, b: Block) returns (ok: bool)
    requires s.InBounds()
    ensures ok <==> s.Items() == [] || b.parentHash == s.Items()[|s.Items()| - 1].hash
  {
    if s.len == 0 {
      return true;
    }
    var tip := s.buf[s.off + s.len - 1];
    assert tip == s.Items()[s.len - 1];
    ok := b.parentHash == tip.hash;
  }

  // ------------------------------------------------------------------ events

  const CHAIN_KEY: Key := [0x63, 0x68, 0x61, 0x69, 0x6e]

  function EventOf(e: Event<Block>): ChainEvent {
    if e.typ == "block.reorged" then Reorged(e.payload) else New(e.payload)
  }

  /** The chain events of a log, in append order. */
  function ChainEvents(all: seq<Event<Block>>): seq<ChainEvent> {
    Decoded(WithKey(all, CHAIN_KEY))
  }

  function Decoded(evs: seq<Event<Block>>): (r: seq<ChainEvent>)
    ensures |r| == |evs|
    ensures forall i :: 0 <= i < |evs| ==> r[i] == EventOf(evs[i])
  {
    seq(|evs|, i requires 0 <= i < |evs| => EventOf(evs[i]))
  }

  lemma ChainEventsExtend(all: seq<Event<Block>>, e: Event<Block>)
    requires e.key == CHAIN_KEY
    ensures ChainEvents(all + [e]) == ChainEvents(all) + [EventOf(e)]
  {
    assert (all + [e])[..|all + [e]| - 1] == all;
  }

  /** Everything published under the chain key is of one of the two types. */
  ghost predicate Typed(all: seq<Event<Block>>) {
    forall e :: e in all && e.key == CHAIN_KEY ==> e.typ == "block.new" || e.typ == "block.reorged"
  }

  /** Events under other keys are nothing to the chain. */
  lemma OtherKeysInvisible(all: seq<Event<Block>>, e: Event<Block>)
    requires e.key != CHAIN_KEY
    ensures ChainEvents(all + [e]) == ChainEvents(all)
  {
    assert (all + [e])[..|all + [e]| - 1] == all;
  }

  /** What a consumer of the chain key's partition rebuilds is what was published, whatever other
      keys share the partition. */
  lemma PartitionCarriesChain(all: seq<Event<Block>>, n: nat)
    requires 0 < n && WellPlaced(all, n)
    ensures Decoded(WithKey(InPartition(all, PartitionFor(CHAIN_KEY, n)), CHAIN_KEY)) == ChainEvents(all)
  {
    KeyOrder(all, n, CHAIN_KEY);
  }

  /** `left` is the work that takes the chain and events to `end`. */
  ghost predicate Completes(events: seq<ChainEvent>, left: Progress, end: Progress) {
    left.chain == end.chain && left.err == end.err && events + left.events == end.events
  }

  /** What is left of the refetch: nothing once it has failed. */
  function Left(src: Source, window: nat, chain: seq<Block>, n: nat, head: nat, call: nat, err: SyncError): Progress {
    if err == NoError then Refetch(src, window, chain, n, head, call)
    else Progress(chain, [], call, err)
  }

  lemma FetchStepCompletes(src: Source, window: nat, chain: seq<Block>, n: nat, head: nat, call: nat,
                           events: seq<ChainEvent>, end: Progress)
    requires n <= head && Completes(events, Left(src, window, chain, n, head, call, NoError), end)
    ensures var s := FetchStep(src, window, chain, n, call);
            Completes(events + s.events, Left(src, window, s.chain, n + 1, head, call + 1, s.err), end)
  {
    var s := FetchStep(src, window, chain, n, call);
    if s.err == NoError {
      var rest := Refetch(src, window, s.chain, n + 1, head, call + 1).events;
      assert events + (s.events + rest) == (events + s.events) + rest;
    }
  }

  lemma PopCompletes(src: Source, chain: seq<Block>, call: nat, events: seq<ChainEvent>, end: Progress)
    requires chain != [] && Completes(events, Unwind(src, chain, call), end)
    requires var tip := chain[|chain| - 1];
             !TipConfirmed(src, call, tip) && !src.block(call, tip.number).Failed?
    ensures var shorter := chain[..|chain| - 1];
            && Completes(events + [Reorged(chain[|chain| - 1])], Unwind(src, shorter, call + 1), end)
            && Unwind(src, shorter, call + 1).calls == Unwind(src, chain, call).calls
  {
    var tip := Reorged(chain[|chain| - 1]);
    var rest := Unwind(src, chain[..|chain| - 1], call + 1).events;
    assert events + ([tip] + rest) == (events + [tip]) + rest;
  }

  // ------------------------------------------------------------------ the indexer

  class Index {
    const window: nat
    const log: Log<Block>
    var chain: Slice

    ghost predicate Valid()
      reads this, chain.buf, log, log.issued
    {
      && 0 < window
      && log.Valid()
      && chain.InBounds()
      && WindowInv(window, chain.Items())
    }

    /** Replaying the chain events of the log gives the stored chain. */
    ghost predicate Sourced()
      requires Valid()
      reads this, chain.buf, log, log.issued
    {
      Replay(window, Replayed(true, []), ChainEvents(log.all)) == Replayed(true, chain.Items())
    }

    constructor (log: Log<Block>, window: int)
      requires log.Valid()
      ensures Valid() && this.log == log
      ensures this.window == if window > 1 then window else 1
      ensures fresh(chain.buf) && chain.Items() == []
      ensures ChainEvents(log.all) == [] ==> Sourced()
    {
      this.log := log;
      this.window := if window > 1 then window else 1;
      var none := new Block[0];
      chain := Slice(none, 0, 0);
    }

    method Emit(typ: string, b: Block)
      requires log.Valid() && (typ == "block.new" || typ == "block.reorged")
      modifies log, log.issued
      ensures log.Valid() && log.issued == old(log.issued) && (old(Typed(log.all)) ==> Typed(log.all))
      ensures ChainEvents(log.all) == old(ChainEvents(log.all)) +
                [if typ == "block.reorged" then Reorged(b) else New(b)]
    {
      var e := log.Append(CHAIN_KEY, typ, Some(b));
      ChainEventsExtend(old(log.all), e.value);
    }

    /** Drop the tip of the local slice and publish it as reorged. */
    method Pop(local: Slice, tip: Block) returns (c: Slice)
      requires log.Valid() && local.InBounds() && local.len > 0
      modifies log, log.issued
      ensures log.Valid() && log.issued == old(log.issued) && (old(Typed(log.all)) ==> Typed(log.all))
      ensures c.InBounds() && c.buf == local.buf && c.len == local.len - 1
      ensures c.Items() == old(local.Items())[..local.len - 1]
      ensures ChainEvents(log.all) == old(ChainEvents(log.all)) + [Reorged(tip)]
    {
      c := local.(len := local.len - 1);
      assert c.Items() == local.Items()[..local.len - 1];
      Emit("block.reorged", tip);
    }

    /** Append a block to the local slice, trim it to the window, and publish the block as new. */
    method Extend(local: Slice, b: Block) returns (c: Slice)
      requires log.Valid() && local.InBounds()
      modifies log, log.issued, local.buf
      ensures log.Valid() && log.issued == old(log.issued) && (old(Typed(log.all)) ==> Typed(log.all))
      ensures c.InBounds() && (c.buf == local.buf || fresh(c.buf))
      ensures c.Items() == Push(window, old(local.Items()), b)
      ensures ChainEvents(log.all) == old(ChainEvents(log.all)) + [New(b)]
    {
      c := AppendTo(local, b);
      if c.len > window {
        ghost var longer := c.Items();
        c := Slice(c.buf, c.off + 1, c.len - 1);
        assert c.Items() == longer[1..];
      }
      Emit("block.new", b);
    }

    /** Pop the local slice until the source confirms its tip. */
    method UnwindTip(src: Source, local: Slice) returns (c: Slice, calls: nat, err: SyncError)
      requires log.Valid() && local.InBounds()
      modifies log, log.issued
      ensures log.Valid() && log.issued == old(log.issued) && (old(Typed(log.all)) ==> Typed(log.all))
      ensures c.InBounds() && c.buf == local.buf
      ensures var u := Unwind(src, local.Items(), 0);
              && c.Items() == u.chain && calls == u.calls && err == u.err
              && ChainEvents(log.all) == old(ChainEvents(log.all)) + u.events
    {
      c, calls, err := local, 0, NoError;
      hide ChainEvents;
      ghost var items, events := local.Items(), ChainEvents(log.all);
      ghost var whole := Unwind(src, items, 0);
      ghost var end := whole.(events := events + whole.events);
      while c.len > 0
        invariant log.Valid() && log.issued == old(log.issued) && (old(Typed(log.all)) ==> Typed(log.all))
        invariant c.InBounds() && c.buf == local.buf && c.Items() == items && ChainEvents(log.all) == events
        invariant Completes(events, Unwind(src, items, calls), end)
        invariant Unwind(src, items, calls).calls == whole.calls
        decreases c.len
      {
        var tip := c.buf[c.off + c.len - 1];
        assert items[c.len - 1] == tip;
        var answer := src.block(calls, tip.number);
        if answer.Found? && answer.block.hash == tip.hash {
          calls := calls + 1;
          return;
        }
        if answer.Failed? {
          calls, err := calls + 1, ErrSource;
          return;
        }
        PopCompletes(src, items, calls, events, end);
        c := Pop(c, tip);
        items, events, calls := items[..|items| - 1], events + [Reorged(tip)], calls + 1;
      }
    }

    /** One round of the refetch loop. */
    method FetchOne(src: Source, local: Slice, n: nat, call: nat) returns (c: Slice, err: SyncError)
      requires log.Valid() && local.InBounds()
      modifies log, log.issued, local.buf
      ensures log.Valid() && log.issued == old(log.issued) && (old(Typed(log.all)) ==> Typed(log.all))
      ensures c.InBounds() && (c.buf == local.buf || fresh(c.buf))
      ensures var s := FetchStep(src, window, old(local.Items()), n, call);
              && c.Items() == s.chain && err == s.err
              && ChainEvents(log.all) == old(ChainEvents(log.all)) + s.events
    {
      c, err := local, NoError;
      var answer := src.block(call, n);
      if !answer.Found? {
        err := if answer.NotFound? then ErrNotFound else ErrSource;
        return;
      }
      var fits := Fits(c, answer.block);
      if !fits {
        err := ErrParentMismatch;
        return;
      }
      c := Extend(c, answer.block);
    }

    /** Append the source's blocks from `next` to `head` to the local slice. */
    method Fetch(src: Source, local: Slice, next: nat, head: nat, call: nat) returns (c: Slice, err: SyncError)
      requires log.Valid() && local.InBounds()
      modifies log, log.issued, local.buf
      ensures log.Valid() && log.issued == old(log.issued) && (old(Typed(log.all)) ==> Typed(log.all))
      ensures c.InBounds() && (c.buf == local.buf || fresh(c.buf))
      ensures var r := Refetch(src, window, old(local.Items()), next, head, call);
              && c.Items() == r.chain && err == r.err
              && ChainEvents(log.all) == old(ChainEvents(log.all)) + r.events
    {
      c, err := local, NoError;
      hide ChainEvents, FetchStep;
      ghost var items, events := local.Items(), ChainEvents(log.all);
      ghost var whole := Refetch(src, window, items, next, head, call);
      ghost var end := whole.(events := events + whole.events);
      var n, calls := next, call;
      while n <= head && err == NoError
        invariant log.Valid() && log.issued == old(log.issued) && (old(Typed(log.all)) ==> Typed(log.all))
        invariant c.InBounds() && (c.buf == local.buf || fresh(c.buf))
        invariant c.Items() == items && ChainEvents(log.all) == events
        invariant Completes(events, Left(src, window, items, n, head, calls, err), end)
        decreases head + 1 - n
      {
        FetchStepCompletes(src, window, items, n, head, calls, events, end);
        ghost var step := FetchStep(src, window, items, n, calls);
        c, err := FetchOne(src, c, n, calls);
        items, events := step.chain, events + step.events;
        n, calls := n + 1, calls + 1;
      }
    }

    /** The pass once the head is known, on the local slice. */
    method CatchUp(src: Source, head: nat, local: Slice) returns (c: Slice, err: SyncError)
      requires log.Valid() && local.InBounds() && 0 < window && src.head == IndexerSpec.Head(head)
      modifies log, log.issued, local.buf
      ensures log.Valid() && log.issued == old(log.issued) && (old(Typed(log.all)) ==> Typed(log.all))
      ensures c.InBounds()
      ensures var p := SyncPass(src, window, old(local.Items()));
              && c.Items() == p.chain && err == p.err
              && ChainEvents(log.all) == old(ChainEvents(log.all)) + p.events
    {
      hide ChainEvents, Unwind, Refetch, NextHeight;
      ghost var items, events := local.Items(), ChainEvents(log.all);
      ghost var unwound := Unwind(src, items, 0);
      var calls;
      c, calls, err := UnwindTip(src, local);
      if err == NoError {
        var next := NextFetch(c, head);
        ghost var fetched := Refetch(src, window, unwound.chain, next, head, calls);
        PassInParts(src, window, items, head, unwound, fetched);
        c, err := Fetch(src, c, next, head, calls);
        assert events + (unwound.events + fetched.events) == (events + unwound.events) + fetched.events;
      }
    }

    method NextFetch(c: Slice, head: nat) returns (next: nat)
      requires c.InBounds()
      ensures next == NextHeight(window, c.Items(), head)
    {
      next := 0;
      if c.len > 0 {
        assert c.Items()[c.len - 1] == c.buf[c.off + c.len - 1];
        next := c.buf[c.off + c.len - 1].number + 1;
      } else if head + 1 > window {
        next := head + 1 - window;
      }
    }

    /** A consumer that takes the chain key's events from their partition, in offset order, and replays them
        rebuilds the stored chain, whatever other keys share the partition. */
    lemma PartitionRebuilds()
      requires Valid() && Sourced()
      ensures var p := PartitionFor(CHAIN_KEY, |log.parts|);
              Replay(window, Replayed(true, []), Decoded(WithKey(log.parts[p], CHAIN_KEY))) == Replayed(true,
                  chain.Items())
    {
      hide Replay, WithKey, InPartition, Decoded, PartitionFor;
      PartitionCarriesChain(log.all, |log.parts|);
    }

    /** One catch-up pass. The slice readers may be holding, `old(chain)`, is never written to: the
        pass works on a copy and stores it on every exit after the head is known. */
    method Sync(src: Source) returns (err: SyncError)
      requires Valid() && Honest(src)
      modifies this`chain, log, log.issued
      ensures Valid() && log.issued == old(log.issued) && (old(Typed(log.all)) ==> Typed(log.all))
      ensures old(chain).Items() == old(chain.Items())
      ensures old(Sourced()) ==> Sourced()
      ensures var p := SyncPass(src, window, old(chain.Items()));
              && chain.Items() == p.chain && err == p.err
              && ChainEvents(log.all) == old(ChainEvents(log.all)) + p.events
    {
      hide ChainEvents, WindowInv, Unwind, Refetch, NextHeight;
      if src.head.HeadFailed? {
        return ErrHead;
      }
      SyncKeepsWindow(src, window, chain.Items());
      SyncReplays(src, window, chain.Items());
      ReplayAppend(window, Replayed(true, []), ChainEvents(log.all), SyncPass(src, window, chain.Items()).events);
      var local := CopyOf(chain);
      local, err := CatchUp(src, src.head.height, local);
      chain := local;
    }

    /** Up to `limit` blocks, newest first: what a console starts from. */
    method Blocks(limit: int) returns (out: seq<Block>)
      requires Valid()
      ensures out <= NewestFirst(chain.Items())
      ensures |out| == Smaller(if limit > 0 then limit else 0, |chain.Items()|)
    {
      var n := Smaller(if limit > 0 then limit else 0, chain.len);
      out := [];
      var i := chain.len - 1;
      while i >= chain.len - n
        invariant chain.len - n - 1 <= i <= chain.len - 1
        invariant |out| == chain.len - 1 - i
        invariant forall j :: 0 <= j < |out| ==> out[j] == chain.Items()[chain.len - 1 - j]
      {
        out := out + [chain.buf[chain.off + i]];
        i := i - 1;
      }
    }

    method Head() returns (b: Option<Block>)
      requires Valid()
      ensures b == if chain.Items() == [] then None else Some(chain.Items()[|chain.Items()| - 1])
    {
      if chain.len == 0 {
        return None;
      }
      b := Some(chain.buf[chain.off + chain.len - 1]);
    }
  }
}
