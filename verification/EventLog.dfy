/** The partitioned append-only event log and its live subscriptions. */
module EventLog {
  import opened Wrappers

  type Key = seq<bv8>

  /** P is the serialised payload. */
  datatype Event<P> = Event(partition: nat, offset: nat, key: Key, typ: string, payload: P)

  // ------------------------------------------------------------------ partitions

  const FNV_OFFSET: bv32 := 2166136261
  const FNV_PRIME: bv32 := 16777619

  function FnvStep(h: bv32, c: bv8): bv32 {
    (h ^ (c as bv32)) * FNV_PRIME
  }

  /** 32-bit FNV-1a. */
  function Fnv1a(key: Key): bv32 {
    if key == [] then FNV_OFFSET
    else FnvStep(Fnv1a(key[..|key| - 1]), key[|key| - 1])
  }

  function PartitionFor(key: Key, n: nat): (p: nat)
    requires 0 < n
    ensures p < n
  {
    (Fnv1a(key) as nat) % n
  }

  /** The events of partition `p`, in order. */
  function InPartition<P>(all: seq<Event<P>>, p: nat): seq<Event<P>> {
    if all == [] then []
    else
      var rest := InPartition(all[..|all| - 1], p);
      var e := all[|all| - 1];
      if e.partition == p then rest + [e] else rest
  }

  /** The events of key `key`, in order. */
  function WithKey<P>(all: seq<Event<P>>, key: Key): seq<Event<P>> {
    if all == [] then []
    else
      var rest := WithKey(all[..|all| - 1], key);
      var e := all[|all| - 1];
      if e.key == key then rest + [e] else rest
  }

  lemma Fnv1aSnoc(key: Key, c: bv8)
    ensures Fnv1a(key + [c]) == FnvStep(Fnv1a(key), c)
  {
    hide FnvStep;
    assert (key + [c])[..|key|] == key;
  }

  /** Published values, of the empty string, of "a" and of "foobar"; and the value of "chain". */
  lemma FnvExamples()
    ensures Fnv1a([]) == 0x811c9dc5 && Fnv1a([0x61]) == 0xe40c292c
    ensures Fnv1a([0x66, 0x6f, 0x6f, 0x62, 0x61, 0x72]) == 0xbf9cf968
    ensures Fnv1a([0x63, 0x68, 0x61, 0x69, 0x6e]) == 0x60b4a3d6
  {
    assert Fnv1a([]) == 0x811c9dc5;
    hide Fnv1a;
    assert [] + [0x61 as bv8] == [0x61];
    Fnv1aSnoc([], 0x61);
    FoobarValue();
    ChainValue();
  }

  lemma FoobarValue()
    requires Fnv1a([]) == 0x811c9dc5
    ensures Fnv1a([0x66, 0x6f, 0x6f, 0x62, 0x61, 0x72]) == 0xbf9cf968
  {
    hide Fnv1a;
    var k: Key := [0x66, 0x6f, 0x6f, 0x62, 0x61, 0x72];
    Fnv1aSnoc([], 0x66);
    assert [] + [k[0]] == k[..1] && Fnv1a(k[..1]) == 0xe30c2799;
    Fnv1aSnoc(k[..1], 0x6f);
    assert k[..1] + [k[1]] == k[..2] && Fnv1a(k[..2]) == 0x6222e842;
    Fnv1aSnoc(k[..2], 0x6f);
    assert k[..2] + [k[2]] == k[..3] && Fnv1a(k[..3]) == 0xa9f37ed7;
    Fnv1aSnoc(k[..3], 0x62);
    assert k[..3] + [k[3]] == k[..4] && Fnv1a(k[..4]) == 0x3f5076ef;
    Fnv1aSnoc(k[..4], 0x61);
    assert k[..4] + [k[4]] == k[..5] && Fnv1a(k[..5]) == 0x39aaa18a;
    Fnv1aSnoc(k[..5], 0x72);
    assert k[..5] + [k[5]] == k;
  }

  lemma ChainValue()
    requires Fnv1a([]) == 0x811c9dc5
    ensures Fnv1a([0x63, 0x68, 0x61, 0x69, 0x6e]) == 0x60b4a3d6
  {
    hide Fnv1a;
    var k: Key := [0x63, 0x68, 0x61, 0x69, 0x6e];
    Fnv1aSnoc([], 0x63);
    assert [] + [k[0]] == k[..1] && Fnv1a(k[..1]) == 0xe60c2c52;
    Fnv1aSnoc(k[..1], 0x68);
    assert k[..1] + [k[1]] == k[..2] && Fnv1a(k[..2]) == 0x5f299f4e;
    Fnv1aSnoc(k[..2], 0x61);
    assert k[..2] + [k[2]] == k[..3] && Fnv1a(k[..3]) == 0xfd8596fd;
    Fnv1aSnoc(k[..3], 0x69);
    assert k[..3] + [k[3]] == k[..4] && Fnv1a(k[..4]) == 0xad4c0afc;
    Fnv1aSnoc(k[..4], 0x6e);
    assert k[..4] + [k[4]] == k;
  }

  /** So the chain's events lie in the third of the gateway's four partitions. */
  lemma ChainPartition()
    ensures PartitionFor([0x63, 0x68, 0x61, 0x69, 0x6e], 4) == 2
  {
    FnvExamples();
    hide Fnv1a;
    assert (0x60b4a3d6 as bv32) as nat == 0x60b4a3d6;
  }

  /** Every event sits in its key's partition and its offset counts the partition's earlier events. */
  ghost predicate WellPlaced<P>(all: seq<Event<P>>, n: nat)
    requires 0 < n
  {
    forall i :: 0 <= i < |all| ==> Placed(all, n, i)
  }

  ghost predicate Placed<P>(all: seq<Event<P>>, n: nat, i: nat)
    requires 0 < n && i < |all|
  {
    && all[i].partition == PartitionFor(all[i].key, n)
    && all[i].offset == |InPartition(all[..i], all[i].partition)|
  }

  lemma WellPlacedPrefix<P>(all: seq<Event<P>>, n: nat, k: nat)
    requires 0 < n && k <= |all| && WellPlaced(all, n)
    ensures WellPlaced(all[..k], n)
  {
    forall i | 0 <= i < k
      ensures Placed(all[..k], n, i)
    {
      assert Placed(all, n, i);
      assert all[..k][..i] == all[..i];
    }
  }

  lemma WellPlacedExtend<P>(all: seq<Event<P>>, n: nat, e: Event<P>)
    requires 0 < n && WellPlaced(all, n)
    requires e.partition == PartitionFor(e.key, n) && e.offset == |InPartition(all, e.partition)|
    ensures WellPlaced(all + [e], n)
  {
    forall i | 0 <= i < |all| + 1
      ensures Placed(all + [e], n, i)
    {
      assert i < |all| ==> Placed(all, n, i);
      assert (all + [e])[..i] == all[..i];
    }
  }

  /** Offsets are dense: the k-th event of a partition has offset k. */
  lemma {:induction false} DenseOffsets<P>(all: seq<Event<P>>, n: nat, p: nat, k: nat)
    requires 0 < n && WellPlaced(all, n) && k < |InPartition(all, p)|
    ensures InPartition(all, p)[k].offset == k && InPartition(all, p)[k].partition == p
    decreases |all|
  {
    var last := |all| - 1;
    WellPlacedPrefix(all, n, last);
    if k < |InPartition(all[..last], p)| {
      DenseOffsets(all[..last], n, p, k);
    } else {
      assert Placed(all, n, last);
    }
  }

  /** Per-key order: a key's events all lie in its own partition, in the order they were appended. */
  lemma {:induction false} KeyOrder<P>(all: seq<Event<P>>, n: nat, key: Key)
    requires 0 < n && WellPlaced(all, n)
    ensures WithKey(InPartition(all, PartitionFor(key, n)), key) == WithKey(all, key)
    ensures forall q :: q != PartitionFor(key, n) ==> WithKey(InPartition(all, q), key) == []
    decreases |all|
  {
    if all != [] {
      var last := |all| - 1;
      var p := PartitionFor(key, n);
      WellPlacedPrefix(all, n, last);
      KeyOrder(all[..last], n, key);
      assert Placed(all, n, last);
      var e := all[last];
      forall q: nat
        ensures WithKey(InPartition(all, q), key) ==
                if q == e.partition && e.key == key then WithKey(InPartition(all[..last], q), key) + [e]
                else WithKey(InPartition(all[..last], q), key)
      {
        var rest := InPartition(all[..last], q);
        assert (rest + [e])[..|rest + [e]| - 1] == rest;
      }
    }
  }

  // ------------------------------------------------------------------ channels

  /** A buffered Go channel. For the proofs it knows its subscription id and the length of the log
      when it was opened, and `taken` records what its consumer has received so far. */
  class Channel<P> {
    const cap: nat
    var buf: seq<Event<P>>
    var closed: bool
    ghost const id: nat
    ghost const start: nat
    ghost var taken: seq<Event<P>>

    constructor (cap: nat, ghost id: nat, ghost start: nat)
      ensures this.cap == cap && this.id == id && this.start == start
      ensures buf == [] && !closed && taken == []
    {
      this.cap, this.id, this.start := cap, id, start;
      buf, closed, taken := [], false, [];
    }

    /** The non-blocking send of a select with a default branch. */
    method TrySend(e: Event<P>) returns (sent: bool)
      requires !closed
      modifies this`buf
      ensures sent <==> |old(buf)| < cap
      ensures buf == if sent then old(buf) + [e] else old(buf)
    {
      sent := |buf| < cap;
      if sent {
        buf := buf + [e];
      }
    }

    /** Closing twice, like sending after closing, would panic. */
    method Close()
      requires !closed
      modifies this`closed
      ensures closed
    {
      closed := true;
    }

    /** A receive that does not block: an event, or None when the buffer is empty. */
    method Receive() returns (r: Option<Event<P>>)
      modifies this`buf, this`taken
      ensures r.None? <==> old(buf) == []
      ensures r.None? ==> buf == old(buf) && taken == old(taken)
      ensures r.Some? ==> old(buf) == [r.value] + buf && taken == old(taken) + [r.value]
    {
      if buf == [] {
        return None;
      }
      r := Some(buf[0]);
      taken := taken + [buf[0]];
      buf := buf[1..];
    }

    ghost function Delivered(): seq<Event<P>>
      reads this
    {
      taken + buf
    }
  }

  // ------------------------------------------------------------------ the log

  /** `got` is an unbroken run of `all` that starts at `from`. */
  ghost predicate RunOf<P(!new)>(got: seq<Event<P>>, all: seq<Event<P>>, from: nat) {
    from + |got| <= |all| && got == all[from..from + |got|]
  }

  lemma RunGrows<P(!new)>(got: seq<Event<P>>, all: seq<Event<P>>, from: nat, e: Event<P>)
    requires RunOf(got, all, from)
    ensures RunOf(got, all + [e], from)
    ensures from + |got| == |all| ==> RunOf(got + [e], all + [e], from)
  {
  }

  /** A subscription: is it live, what waits in its buffer, what its consumer has received. */
  datatype Sub<P> = Sub(live: bool, buf: seq<Event<P>>, taken: seq<Event<P>>) {
    /** An append offers it the event: a full buffer ends it, and takes nothing from it. */
    ghost function After(ev: Event<P>, cap: nat): Sub<P> {
      if live && |buf| < cap then this.(buf := buf + [ev]) else this.(live := false)
    }
  }

  class Log<P(!new)> {
    var parts: seq<seq<Event<P>>>
    var subs: map<nat, Channel<P>>
    var nextSub: nat
    /** Everything appended, in order, and every channel ever handed out, by subscription id. */
    ghost var all: seq<Event<P>>
    ghost var issued: seq<Channel<P>>

    ghost predicate PartsValid(log: seq<Event<P>>)
      reads this`parts
    {
      && 0 < |parts| && WellPlaced(log, |parts|)
      && forall p :: 0 <= p < |parts| ==> parts[p] == InPartition(log, p)
    }

    /** Subscription i has been delivered an unbroken run of the log from where it started, which
        reaches the end of the log while the subscription lives; it is live until it is closed. */
    ghost predicate SubValid(i: nat, log: seq<Event<P>>)
      requires i < |issued|
      reads this`subs, this`issued, issued[i]
    {
      var ch := issued[i];
      && ch.id == i
      && (ch.closed <==> i !in subs)
      && RunOf(ch.Delivered(), log, ch.start)
      && (i in subs ==> subs[i] == ch && ch.start + |ch.Delivered()| == |log|)
    }

    ghost predicate SubsValid(log: seq<Event<P>>)
      reads this`subs, this`issued, this`nextSub, issued
    {
      && |issued| == nextSub
      && (forall id :: id in subs ==> id < nextSub)
      && (forall i :: 0 <= i < |issued| ==> SubValid(i, log))
    }

    ghost predicate Valid()
      reads this, issued
    {
      PartsValid(all) && SubsValid(all)
    }

    constructor (n: int)
      ensures Valid()
      ensures |parts| == if n > 1 then n else 1
      ensures all == [] && issued == []
    {
      parts := seq(if n > 1 then n else 1, _ => []);
      subs, nextSub := map[], 0;
      all, issued := [], [];
    }

    /** Offer an event to one live subscriber; if its buffer is full it is closed and dropped. */
    method Offer(id: nat, ev: Event<P>, ghost before: seq<Event<P>>)
      requires id in subs && id < |issued| && SubValid(id, before)
      modifies this`subs, subs[id]
      ensures SubValid(id, before + [ev])
      ensures subs == if |old(subs[id].buf)| < old(subs)[id].cap then old(subs) else old(subs) - {id}
      ensures issued[id].taken == old(issued[id].taken)
      ensures issued[id].buf == if id in subs then old(issued[id].buf) + [ev] else old(issued[id].buf)
    {
      var ch := subs[id];
      RunGrows(ch.Delivered(), before, ch.start, ev);
      ghost var got := ch.Delivered();
      var sent := ch.TrySend(ev);
      if sent {
        assert ch.Delivered() == got + [ev];
      } else {
        ch.Close();
        subs := subs - {id};
      }
    }

    /** A subscription as the fan-out finds it. */
    ghost function Found(i: nat): Sub<P>
      requires i < |issued|
      reads this`subs, this`issued, issued[i]
    {
      Sub(i in subs, issued[i].buf, issued[i].taken)
    }

    ghost function AllFound(): (r: seq<Sub<P>>)
      reads this, issued
      ensures |r| == |issued| && forall i :: 0 <= i < |issued| ==> r[i] == Found(i)
    {
      seq(|issued|, i requires 0 <= i < |issued| reads this, issued => Found(i))
    }

    /** How far the fan-out has come: subscriptions in `pending` are still as they were; of the others the
        live ones that had room got the event, the full ones were dropped, and nothing else changed. */
    ghost predicate Offered(i: nat, pending: set<nat>, ev: Event<P>, before: seq<Event<P>>, was: Sub<P>)
      requires i < |issued|
      reads this`subs, this`issued, issued[i]
    {
      && SubValid(i, if i in pending then before else before + [ev])
      && Found(i) == if i in pending then was else was.After(ev, issued[i].cap)
    }

    /** One offer leaves all other subscriptions as they are. */
    method OfferNext(id: nat, ghost pending: set<nat>, ev: Event<P>, ghost before: seq<Event<P>>,
                     ghost was: seq<Sub<P>>)
      requires |issued| == |was| == nextSub && id in pending && pending <= subs.Keys && id < nextSub
      requires forall i :: 0 <= i < nextSub ==> Offered(i, pending, ev, before, was[i])
      modifies this`subs, issued
      ensures forall i :: 0 <= i < nextSub ==> Offered(i, pending - {id}, ev, before, was[i])
      ensures old(subs).Keys - {id} <= subs.Keys <= old(subs).Keys
    {
      hide RunOf;
      assert Offered(id, pending, ev, before, was[id]);
      Offer(id, ev, before);
      forall i | 0 <= i < nextSub
        ensures Offered(i, pending - {id}, ev, before, was[i])
      {
        assert old(Offered(i, pending, ev, before, was[i]));
      }
    }

    lemma BeforeFanOut(ev: Event<P>, before: seq<Event<P>>, was: seq<Sub<P>>)
      requires SubsValid(before) && |was| == nextSub && forall i :: 0 <= i < nextSub ==> was[i] == Found(i)
      ensures forall i :: 0 <= i < nextSub ==> Offered(i, subs.Keys, ev, before, was[i])
    {
      forall i | 0 <= i < nextSub
        ensures Offered(i, subs.Keys, ev, before, was[i])
      {
        assert SubValid(i, before);
        RunGrows(issued[i].Delivered(), before, issued[i].start, ev);
      }
    }

    lemma AfterFanOut(ev: Event<P>, before: seq<Event<P>>, was: seq<Sub<P>>)
      requires |issued| == |was| == nextSub && (forall id :: id in subs ==> id < nextSub)
      requires forall i :: 0 <= i < nextSub ==> Offered(i, {}, ev, before, was[i])
      ensures SubsValid(before + [ev])
      ensures forall i :: 0 <= i < nextSub ==> Found(i) == was[i].After(ev, issued[i].cap)
    {
      forall i | 0 <= i < nextSub
        ensures SubValid(i, before + [ev]) && Found(i) == was[i].After(ev, issued[i].cap)
      {
        assert Offered(i, {}, ev, before, was[i]);
      }
    }

    /** Offer an event to every live subscriber, in any order. Each one that has room gets it at the end of
        its buffer, each one that is full is dropped, and nothing delivered to anyone is lost. */
    method FanOut(ev: Event<P>, ghost before: seq<Event<P>>)
      requires SubsValid(before)
      modifies this`subs, issued
      ensures SubsValid(before + [ev])
      ensures forall i :: 0 <= i < nextSub ==> Found(i) == old(Found(i)).After(ev, issued[i].cap)
    {
      hide RunOf, Offered;
      ghost var was := AllFound();
      BeforeFanOut(ev, before, was);
      var pending := subs.Keys;
      while pending != {}
        invariant pending <= subs.Keys <= old(subs).Keys
        invariant forall i :: 0 <= i < nextSub ==> Offered(i, pending, ev, before, was[i])
        decreases pending
      {
        var id :| id in pending;
        OfferNext(id, pending, ev, before, was);
        pending := pending - {id};
      }
      AfterFanOut(ev, before, was);
    }

    /** `raw` is the serialised payload, None when it cannot be serialised. */
    method Append(key: Key, typ: string, raw: Option<P>) returns (r: Option<Event<P>>)
      requires Valid()
      modifies this`parts, this`subs, this`all, issued
      ensures Valid() && |parts| == |old(parts)|
      ensures raw.None? ==> r.None? && all == old(all) && subs == old(subs)
      ensures raw.Some? ==>
                && r.Some? && r.value.key == key && r.value.typ == typ && r.value.payload == raw.value
                && all == old(all) + [r.value]
      ensures forall i :: 0 <= i < nextSub ==>
                Found(i) == if raw.Some? then old(Found(i)).After(r.value, issued[i].cap) else old(Found(i))
    {
      if raw.None? {
        return None;
      }
      var p := PartitionFor(key, |parts|);
      var ev := Event(p, |parts[p]|, key, typ, raw.value);
      Store(ev);
      FanOut(ev, old(all));
      r := Some(ev);
    }

    method Store(ev: Event<P>)
      requires PartsValid(all)
      requires ev.partition == PartitionFor(ev.key, |parts|) && ev.offset == |parts[ev.partition]|
      modifies this`parts, this`all
      ensures PartsValid(all) && all == old(all) + [ev] && |parts| == |old(parts)|
    {
      WellPlacedExtend(all, |parts|, ev);
      parts := parts[ev.partition := parts[ev.partition] + [ev]];
      all := all + [ev];
      assert all[..|all| - 1] == old(all);
    }

    /** Up to `limit` events of a partition from offset `from`. */
    method Read(part: int, from: nat, limit: int) returns (r: seq<Event<P>>)
      requires Valid()
      ensures part < 0 || part >= |parts| ==> r == []
      ensures 0 <= part < |parts| ==>
                var whole := InPartition(all, part);
                && r <= (if from < |whole| then whole[from..] else [])
                && |r| == Smaller(if limit > 0 then limit else 0, if from < |whole| then |whole| - from else 0)
    {
      if part < 0 || part >= |parts| || from >= |parts[part]| {
        return [];
      }
      var end := Smaller(|parts[part]|, from + if limit > 0 then limit else 0);
      r := parts[part][from..end];
    }

    method Subscribe(buf: int) returns (ch: Channel<P>, id: nat)
      requires Valid()
      modifies this`subs, this`nextSub, this`issued
      ensures Valid() && fresh(ch) && id == old(nextSub) && nextSub == old(nextSub) + 1
      ensures subs == old(subs)[id := ch] && issued == old(issued) + [ch]
      ensures ch.cap == (if buf > 1 then buf else 1) && ch.start == |all| && ch.Delivered() == []
    {
      id := nextSub;
      nextSub := nextSub + 1;
      ch := new Channel(if buf > 1 then buf else 1, id, |all|);
      subs := subs[id := ch];
      issued := issued + [ch];
      forall i | 0 <= i < nextSub
        ensures SubValid(i, all)
      {
        assert i < id ==> old(SubValid(i, all));
      }
    }

    /** The cancel function returned with subscription `id`: harmless after eviction. */
    method Cancel(id: nat)
      requires Valid() && id < nextSub
      modifies this`subs, issued
      ensures Valid() && subs == old(subs) - {id}
      ensures issued[id].closed
      ensures forall i :: 0 <= i < nextSub ==> Found(i) == old(Found(i)).(live := i in subs)
    {
      assert SubValid(id, all);
      if id in subs {
        subs[id].Close();
        subs := subs - {id};
      }
      forall i | 0 <= i < nextSub
        ensures SubValid(i, all)
      {
        assert old(SubValid(i, all));
      }
    }

    /** The consumer of subscription `id` takes one event. */
    method Take(ch: Channel<P>, ghost id: nat) returns (r: Option<Event<P>>)
      requires Valid() && id < nextSub && ch == issued[id]
      modifies ch
      ensures Valid()
      ensures ch.Delivered() == old(ch.Delivered())
      ensures ch.taken == if r.Some? then old(ch.taken) + [r.value] else old(ch.taken)
      ensures r.None? <==> old(ch.buf) == []
    {
      r := ch.Receive();
      assert ch.Delivered() == old(ch.Delivered());
      forall i | 0 <= i < nextSub
        ensures SubValid(i, all)
      {
        assert old(SubValid(i, all));
      }
    }
  }
}
