/** What a whole history of reads and writes leaves in the cache. */
module CacheHistory {
  import opened Wrappers
  import opened Cache

  datatype Op = Read(key: string, at: int) | Write(key: string, val: Body, at: int)

  datatype Written = Written(val: Body, at: int)

  function Perform(cap: int, ttl: int, l: Recency, op: Op): Recency {
    match op
    case Read(key, at) => Lookup(l, key, at).0
    case Write(key, val, at) => Store(cap, ttl, l, key, val, at)
  }

  /** A new cache after these operations. */
  function After(cap: int, ttl: int, ops: seq<Op>): Recency {
    if ops == [] then [] else Perform(cap, ttl, After(cap, ttl, ops[..|ops| - 1]), ops[|ops| - 1])
  }

  function LastWrite(ops: seq<Op>, key: string): Option<Written> {
    if ops == [] then None
    else
      var op := ops[|ops| - 1];
      if op.Write? && op.key == key then Some(Written(op.val, op.at)) else LastWrite(ops[..|ops| - 1], key)
  }

  /** A key is touched by a write and by a read that finds it. */
  predicate Touches(l: Recency, op: Op) {
    op.Write? || Lookup(l, op.key, op.at).1.Some?
  }

  /** The other keys touched since this one was touched last. */
  function Since(cap: int, ttl: int, ops: seq<Op>, key: string): set<string> {
    if ops == [] then {}
    else
      var n := |ops| - 1;
      var before := Since(cap, ttl, ops[..n], key);
      if !Touches(After(cap, ttl, ops[..n]), ops[n]) then before
      else if ops[n].key == key then {}
      else before + {ops[n].key}
  }

  predicate Stale(l: Recency, op: Op) {
    op.Read? && var e := Find(l, op.key); e.Some? && op.at >= e.value.expires
  }

  /** No read came upon an expired entry. */
  predicate Calm(cap: int, ttl: int, ops: seq<Op>) {
    ops == [] ||
    (Calm(cap, ttl, ops[..|ops| - 1]) && !Stale(After(cap, ttl, ops[..|ops| - 1]), ops[|ops| - 1]))
  }

  predicate Monotone(ops: seq<Op>) {
    forall i, j :: 0 <= i < j < |ops| ==> ops[i].at <= ops[j].at
  }

  // ------------------------------------------------------------------ recency lists

  /** The keys used more recently than this one. */
  function Ahead(l: Recency, key: string): set<string> {
    if l == [] || l[0].key == key then {} else {l[0].key} + Ahead(l[1..], key)
  }

  lemma {:induction false} FindKeys(l: Recency, key: string)
    ensures Find(l, key).Some? <==> key in Keys(l)
    ensures Find(l, key).Some? ==> Find(l, key).value.key == key
  {
    if l != [] {
      FindKeys(l[1..], key);
    }
  }

  lemma {:induction false} DropKeys(l: Recency, key: string)
    requires Distinct(l)
    ensures Distinct(Drop(l, key)) && Keys(Drop(l, key)) == Keys(l) - {key}
    ensures key !in Keys(l) ==> Drop(l, key) == l
    ensures key in Keys(l) ==> |Drop(l, key)| == |l| - 1
  {
    if l != [] && l[0].key != key {
      DropKeys(l[1..], key);
      assert ([l[0]] + Drop(l[1..], key))[1..] == Drop(l[1..], key);
    }
  }

  lemma {:induction false} DropOthers(l: Recency, key: string, j: string)
    requires Distinct(l) && j != key
    ensures Find(Drop(l, key), j) == Find(l, j)
    ensures j in Keys(l) ==> Ahead(Drop(l, key), j) == Ahead(l, j) - {key}
  {
    if l != [] {
      if l[0].key == key {
        AheadInKeys(l[1..], j);
      } else {
        DropOthers(l[1..], key, j);
        assert ([l[0]] + Drop(l[1..], key))[1..] == Drop(l[1..], key);
      }
    }
  }

  lemma {:induction false} AheadInKeys(l: Recency, key: string)
    ensures Ahead(l, key) <= Keys(l) - {key}
  {
    if l != [] && l[0].key != key {
      AheadInKeys(l[1..], key);
    }
  }

  lemma {:induction false} KeysCount(l: Recency)
    requires Distinct(l)
    ensures |Keys(l)| == |l|
  {
    if l != [] {
      KeysCount(l[1..]);
    }
  }

  /** Everything is ahead of the last entry, and dropping that changes nothing for the rest. */
  lemma {:induction false} LastEntry(l: Recency, j: string)
    requires Distinct(l) && l != []
    ensures var n := |l| - 1;
            && Distinct(l[..n]) && Keys(l[..n]) == Keys(l) - {l[n].key} && l[n].key in Keys(l)
            && Ahead(l, l[n].key) == Keys(l[..n])
            && (j != l[n].key ==> Find(l[..n], j) == Find(l, j))
            && (j != l[n].key && j in Keys(l) ==> Ahead(l[..n], j) == Ahead(l, j))
  {
    var n := |l| - 1;
    if n > 0 {
      LastEntry(l[1..], j);
      assert l[..n][1..] == l[1..][..n - 1];
    }
  }

  /** An entry put in front takes its key's old entry out. */
  lemma Front(l: Recency, e: Entry, j: string)
    requires Distinct(l)
    ensures var r := [e] + Drop(l, e.key);
            && Distinct(r) && |r| == (if e.key in Keys(l) then |l| else |l| + 1)
            && (j == e.key ==> Find(r, j) == Some(e) && Ahead(r, j) == {})
            && (j != e.key ==> Find(r, j) == Find(l, j))
            && (j != e.key && j in Keys(l) ==> Ahead(r, j) == {e.key} + Ahead(l, j))
  {
    hide Drop;
    DropKeys(l, e.key);
    assert ([e] + Drop(l, e.key))[1..] == Drop(l, e.key);
    if j != e.key {
      DropOthers(l, e.key, j);
    }
  }

  lemma {:induction false} SmallerSet(a: set<string>, b: set<string>)
    requires a <= b
    ensures |a| <= |b|
  {
    if a != {} {
      var x :| x in a;
      SmallerSet(a - {x}, b - {x});
    }
  }

  // ------------------------------------------------------------------ the invariant

  /** The cache as one key sees it: its entry is its last write, with no other keys ahead of it than those
      touched since; and it is missing only when too many were, or when its time was up. */
  ghost predicate Kept(cap: int, ttl: int, l: Recency, j: string, w: Option<Written>, since: set<string>, calm: bool,
                       now: int)
  {
    && Distinct(l) && |l| <= (if cap < 0 then 0 else cap)
    && match Find(l, j)
       case Some(e) =>
         && w.Some? && e.val == w.value.val && e.expires == w.value.at + ttl
         && Ahead(l, j) <= since && (calm ==> Ahead(l, j) == since)
       case None =>
         w.Some? ==> |since| >= cap || (!calm && now >= w.value.at + ttl)
  }

  lemma KeptInFront(cap: int, ttl: int, l: Recency, e: Entry, j: string, w: Option<Written>, since: set<string>,
                    calm: bool, now: int)
    requires Kept(cap, ttl, l, j, w, since, calm, now) && e.key in Keys(l)
    requires e.key == j ==> w.Some? && e.val == w.value.val && e.expires == w.value.at + ttl
    ensures Kept(cap, ttl, [e] + Drop(l, e.key), j, w, if e.key == j then {} else since + {e.key}, calm, now)
  {
    hide Drop, Distinct, Keys, Ahead, Find;
    Front(l, e, j);
    FindKeys(l, j);
    SmallerSet(since, since + {e.key});
  }

  lemma KeptByRead(cap: int, ttl: int, l: Recency, op: Op, j: string, w: Option<Written>, since: set<string>,
                   calm: bool, now: int)
    requires op.Read? && Kept(cap, ttl, l, j, w, since, calm, now) && now <= op.at
    ensures Kept(cap, ttl, Perform(cap, ttl, l, op), j, w,
                 if !Touches(l, op) then since else if op.key == j then {} else since + {op.key},
                 calm && !Stale(l, op), op.at)
  {
    hide Drop, Distinct, Keys, Ahead, Find;
    FindKeys(l, op.key);
    FindKeys(l, j);
    if Touches(l, op) {
      KeptInFront(cap, ttl, l, Find(l, op.key).value, j, w, since, calm, now);
    } else if Stale(l, op) {
      DropKeys(l, op.key);
      FindKeys(Drop(l, op.key), j);
      if op.key != j {
        DropOthers(l, op.key, j);
      }
    }
  }

  lemma KeptByEviction(cap: int, ttl: int, l: Recency, e: Entry, j: string, w: Option<Written>, since: set<string>,
                       calm: bool, now: int)
    requires Kept(cap, ttl, l, j, w, since, calm, now) && e.key !in Keys(l) && e.key != j
    ensures Kept(cap, ttl, Fit(cap, [e] + l), j, w, since + {e.key}, calm, now)
  {
    hide Drop, Distinct, Keys, Ahead, Find;
    var r := [e] + l;
    Front(l, e, j);
    DropKeys(l, e.key);
    FindKeys(l, j);
    FindKeys(r, j);
    SmallerSet(since, since + {e.key});
    if |r| > cap {
      LastEntry(r, j);
      var n := |r| - 1;
      FindKeys(r[..n], j);
      KeysCount(r[..n]);
      if r[n].key == j {
        SmallerSet(Keys(r[..n]), since + {e.key});
      }
    }
  }

  lemma KeptByWrite(cap: int, ttl: int, l: Recency, op: Op, j: string, w: Option<Written>, since: set<string>,
                    calm: bool, now: int)
    requires op.Write? && Kept(cap, ttl, l, j, w, since, calm, now) && now <= op.at
    ensures Kept(cap, ttl, Perform(cap, ttl, l, op), j, if op.key == j then Some(Written(op.val, op.at)) else w,
                 if op.key == j then {} else since + {op.key}, calm, op.at)
  {
    hide Drop, Distinct, Keys, Ahead, Find, Fit;
    var e := Entry(op.key, op.val, op.at + ttl);
    FindKeys(l, op.key);
    if op.key == j {
      KeptOwnWrite(cap, ttl, l, e, calm, op.at);
    } else if op.key in Keys(l) {
      KeptInFront(cap, ttl, l, e, j, w, since, calm, op.at);
    } else {
      KeptByEviction(cap, ttl, l, e, j, w, since, calm, op.at);
    }
  }

  lemma NewKeyFits(cap: int, l: Recency, e: Entry)
    requires Distinct(l) && |l| <= (if cap < 0 then 0 else cap) && e.key !in Keys(l)
    ensures var r := Fit(cap, [e] + l);
            && Distinct(r) && |r| <= (if cap < 0 then 0 else cap)
            && if cap < 1 then Find(r, e.key) == None else Find(r, e.key) == Some(e) && Ahead(r, e.key) == {}
  {
    var r := [e] + l;
    assert r[1..] == l;
    if |r| > cap {
      LastEntry(r, e.key);
    }
  }

  lemma KeptOwnWrite(cap: int, ttl: int, l: Recency, e: Entry, calm: bool, at: int)
    requires Distinct(l) && |l| <= (if cap < 0 then 0 else cap) && e.expires == at + ttl
    ensures var r := if Find(l, e.key).Some? then [e] + Drop(l, e.key) else Fit(cap, [e] + l);
            Kept(cap, ttl, r, e.key, Some(Written(e.val, at)), {}, calm, at)
  {
    hide Drop, Distinct, Keys, Ahead, Find, Fit;
    FindKeys(l, e.key);
    if e.key in Keys(l) {
      Front(l, e, e.key);
    } else {
      NewKeyFits(cap, l, e);
    }
  }

  /** Every history keeps it, for every key. */
  lemma {:induction false} HistoryKeeps(cap: int, ttl: int, ops: seq<Op>, j: string, now: int)
    requires Monotone(ops) && (ops != [] ==> ops[|ops| - 1].at <= now)
    ensures Kept(cap, ttl, After(cap, ttl, ops), j, LastWrite(ops, j), Since(cap, ttl, ops, j), Calm(cap, ttl, ops),
              now)
  {
    hide Perform, Touches, Stale;
    if ops != [] {
      var n := |ops| - 1;
      var l, w, since := After(cap, ttl, ops[..n]), LastWrite(ops[..n], j), Since(cap, ttl, ops[..n], j);
      HistoryKeeps(cap, ttl, ops[..n], j, ops[n].at);
      if ops[n].Read? {
        KeptByRead(cap, ttl, l, ops[n], j, w, since, Calm(cap, ttl, ops[..n]), ops[n].at);
      } else {
        KeptByWrite(cap, ttl, l, ops[n], j, w, since, Calm(cap, ttl, ops[..n]), ops[n].at);
        WritesTouch(l, ops[n]);
      }
      hide Kept;
    }
  }

  lemma WritesTouch(l: Recency, op: Op)
    requires op.Write?
    ensures Touches(l, op) && !Stale(l, op)
  {
  }

  // ------------------------------------------------------------------ what a read finds

  /** A hit returns the value of the key's latest write, younger than the time to live. */
  lemma HitIsLatest(cap: int, ttl: int, ops: seq<Op>, key: string, now: int)
    requires Monotone(ops) && (ops != [] ==> ops[|ops| - 1].at <= now)
    requires Lookup(After(cap, ttl, ops), key, now).1.Some?
    ensures var w := LastWrite(ops, key);
            w.Some? && Lookup(After(cap, ttl, ops), key, now).1 == Some(w.value.val) && now - w.value.at < ttl
  {
    HistoryKeeps(cap, ttl, ops, key, now);
  }

  /** A key whose latest write is young is missed only if `cap` other keys were touched since it was. */
  lemma YoungMissMeansCrowded(cap: int, ttl: int, ops: seq<Op>, key: string, now: int)
    requires Monotone(ops) && (ops != [] ==> ops[|ops| - 1].at <= now)
    requires LastWrite(ops, key).Some? && now - LastWrite(ops, key).value.at < ttl
    requires Lookup(After(cap, ttl, ops), key, now).1.None?
    ensures |Since(cap, ttl, ops, key)| >= cap
  {
    HistoryKeeps(cap, ttl, ops, key, now);
  }

  /** While no read has come upon an expired entry, that is exactly when it is missed. */
  lemma CalmMissExactly(cap: int, ttl: int, ops: seq<Op>, key: string, now: int)
    requires Monotone(ops) && (ops != [] ==> ops[|ops| - 1].at <= now) && Calm(cap, ttl, ops)
    requires LastWrite(ops, key).Some? && now - LastWrite(ops, key).value.at < ttl
    ensures Lookup(After(cap, ttl, ops), key, now).1.None? <==> |Since(cap, ttl, ops, key)| >= cap
  {
    HistoryKeeps(cap, ttl, ops, key, now);
    var l := After(cap, ttl, ops);
    FindKeys(l, key);
    if key in Keys(l) {
      AheadInKeys(l, key);
      KeysCount(l);
      SmallerSet(Ahead(l, key), Keys(l) - {key});
    }
  }

  lemma PerformFits(cap: int, ttl: int, l: Recency, op: Op)
    requires Distinct(l) && |l| <= (if cap < 0 then 0 else cap)
    ensures Distinct(Perform(cap, ttl, l, op)) && |Perform(cap, ttl, l, op)| <= (if cap < 0 then 0 else cap)
  {
    hide Drop, Distinct, Keys, Find, Fit, Ahead;
    FindKeys(l, op.key);
    match op
    case Read(key, at) =>
      DropKeys(l, key);
      if Find(l, key).Some? {
        Front(l, Find(l, key).value, key);
      }
    case Write(key, val, at) =>
      var e := Entry(key, val, at + ttl);
      Front(l, e, key);
      if key !in Keys(l) {
        NewKeyFits(cap, l, e);
      }
  }

  /** The list never holds more than `cap` entries, and no key twice, also when the clock steps back. */
  lemma {:induction false} NeverTooMany(cap: int, ttl: int, ops: seq<Op>)
    ensures Distinct(After(cap, ttl, ops)) && |After(cap, ttl, ops)| <= (if cap < 0 then 0 else cap)
  {
    if ops != [] {
      hide Perform;
      var n := |ops| - 1;
      NeverTooMany(cap, ttl, ops[..n]);
      PerformFits(cap, ttl, After(cap, ttl, ops[..n]), ops[n]);
    }
  }

  /** A read that misses leaves no entry of its key behind, expired or not, and every other key as it was. */
  lemma MissedIsGone(cap: int, ttl: int, ops: seq<Op>, key: string, now: int, other: string)
    requires Lookup(After(cap, ttl, ops), key, now).1.None? && other != key
    ensures var l := Lookup(After(cap, ttl, ops), key, now).0;
            && key !in Keys(l) && Find(l, key) == None
            && Find(l, other) == Find(After(cap, ttl, ops), other)
  {
    NeverTooMany(cap, ttl, ops);
    var l := After(cap, ttl, ops);
    hide After, Drop, Distinct;
    FindKeys(l, key);
    DropKeys(l, key);
    FindKeys(Drop(l, key), key);
    DropOthers(l, key, other);
  }

  /** An entry is found exactly while it is younger than the time to live, and a hit makes it the most recent one. */
  lemma HitExactly(cap: int, ttl: int, ops: seq<Op>, key: string, now: int)
    requires Monotone(ops) && (ops != [] ==> ops[|ops| - 1].at <= now) && key in Keys(After(cap, ttl, ops))
    ensures var (l, out) := Lookup(After(cap, ttl, ops), key, now);
            && LastWrite(ops, key).Some?
            && (out.Some? <==> now - LastWrite(ops, key).value.at < ttl)
            && (out.Some? ==> l != [] && l[0].key == key)
  {
    HistoryKeeps(cap, ttl, ops, key, now);
    FindKeys(After(cap, ttl, ops), key);
  }
}
