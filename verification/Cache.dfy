/** The TTL and LRU cache: a recency list and a key map over the same entries. */
module Cache {
  import opened Wrappers

  type Body = seq<int>

  datatype Entry = Entry(key: string, val: Body, expires: int)

  /** Entries, most recently used first. */
  type Recency = seq<Entry>

  // ------------------------------------------------------------------ the recency list

  function Keys(l: Recency): set<string> {
    if l == [] then {} else {l[0].key} + Keys(l[1..])
  }

  predicate Distinct(l: Recency) {
    l == [] || (l[0].key !in Keys(l[1..]) && Distinct(l[1..]))
  }

  function Find(l: Recency, key: string): Option<Entry> {
    if l == [] then None else if l[0].key == key then Some(l[0]) else Find(l[1..], key)
  }

  function Drop(l: Recency, key: string): Recency {
    if l == [] then [] else if l[0].key == key then l[1..] else [l[0]] + Drop(l[1..], key)
  }

  function Lookup(l: Recency, key: string, now: int): (Recency, Option<Body>) {
    match Find(l, key)
    case None => (l, None)
    case Some(e) => if now >= e.expires then (Drop(l, key), None) else ([e] + Drop(l, key), Some(e.val))
  }

  /** At most `cap` entries: the last one goes when a new key does not fit. */
  function Fit(cap: int, l: Recency): Recency {
    if |l| > cap && l != [] then l[..|l| - 1] else l
  }

  function Store(cap: int, ttl: int, l: Recency, key: string, val: Body, now: int): Recency {
    var e := Entry(key, val, now + ttl);
    if Find(l, key).Some? then [e] + Drop(l, key) else Fit(cap, [e] + l)
  }

  // ------------------------------------------------------------------ the program's structure

  class Element {
    var value: Entry

    constructor (value: Entry)
      ensures this.value == value
    {
      this.value := value;
    }
  }

  function Removed(ll: seq<Element>, el: Element): seq<Element> {
    if ll == [] then [] else if ll[0] == el then ll[1..] else [ll[0]] + Removed(ll[1..], el)
  }

  function Values(ll: seq<Element>): (l: Recency)
    reads ll
    ensures |l| == |ll| && forall i :: 0 <= i < |ll| ==> l[i] == ll[i].value
  {
    if ll == [] then [] else [ll[0].value] + Values(ll[1..])
  }

  /** The map holds exactly the listed elements, each under its own key. */
  ghost predicate Matches(ll: seq<Element>, m: map<string, Element>)
    reads ll
  {
    && NoRepeats(ll)
    && (forall el <- ll :: el.value.key in m && m[el.value.key] == el)
    && (forall k <- m :: m[k] in ll && m[k].value.key == k)
  }

  lemma {:induction false} KeysOf(ll: seq<Element>, key: string)
    ensures key in Keys(Values(ll)) <==> exists el :: el in ll && el.value.key == key
  {
    if ll != [] {
      assert Values(ll)[1..] == Values(ll[1..]);
      KeysOf(ll[1..], key);
      assert forall el :: el in ll <==> el == ll[0] || el in ll[1..];
    }
  }

  lemma {:induction false} MatchesDistinct(ll: seq<Element>, m: map<string, Element>)
    requires NoRepeats(ll)
    requires forall el <- ll :: el.value.key in m && m[el.value.key] == el
    ensures Distinct(Values(ll))
  {
    if ll != [] {
      assert Values(ll)[1..] == Values(ll[1..]);
      MatchesDistinct(ll[1..], m);
      KeysOf(ll[1..], ll[0].value.key);
    }
  }

  /** Looking a key up in the map is finding it in the list. */
  lemma {:induction false} LookupIsFind(ll: seq<Element>, m: map<string, Element>, key: string)
    requires forall el <- ll :: el.value.key in m && m[el.value.key] == el
    requires key in m ==> m[key] in ll && m[key].value.key == key
    ensures Find(Values(ll), key) == if key in m then Some(m[key].value) else None
  {
    if ll != [] {
      assert Values(ll)[1..] == Values(ll[1..]);
      if ll[0].value.key != key {
        LookupIsFind(ll[1..], m, key);
      }
    }
  }

  lemma {:induction false} RemovedValues(ll: seq<Element>, el: Element)
    requires el in ll && (forall other <- ll :: other.value.key == el.value.key ==> other == el)
    ensures Values(Removed(ll, el)) == Drop(Values(ll), el.value.key)
  {
    assert Values(ll)[1..] == Values(ll[1..]);
    if ll[0] != el {
      RemovedValues(ll[1..], el);
      assert Values([ll[0]] + Removed(ll[1..], el))[1..] == Values(Removed(ll[1..], el));
    }
  }

  predicate NoRepeats(ll: seq<Element>) {
    forall i, j :: 0 <= i < j < |ll| ==> ll[i] != ll[j]
  }

  lemma InTail(ll: seq<Element>, x: Element)
    requires ll != []
    ensures x in ll <==> x == ll[0] || x in ll[1..]
    ensures NoRepeats(ll) ==> ll[0] !in ll[1..] && NoRepeats(ll[1..])
  {
    var rest := ll[1..];
    assert forall j :: 0 <= j < |rest| ==> rest[j] == ll[j + 1];
  }

  lemma {:induction false} RemovedHas(ll: seq<Element>, el: Element, x: Element)
    requires NoRepeats(ll)
    ensures x in Removed(ll, el) <==> x in ll && x != el
    ensures NoRepeats(Removed(ll, el))
    ensures |Removed(ll, el)| == if el in ll then |ll| - 1 else |ll|
  {
    if ll != [] {
      InTail(ll, x);
      InTail(ll, el);
      if ll[0] != el {
        var r := Removed(ll[1..], el);
        RemovedHas(ll[1..], el, ll[0]);
        RemovedHas(ll[1..], el, x);
        assert x in [ll[0]] + r <==> x == ll[0] || x in r;
      }
    }
  }

  /** An element of the list is the only one under its key. */
  lemma UniqueHolder(ll: seq<Element>, m: map<string, Element>, key: string)
    requires Matches(ll, m) && key in m
    ensures NoRepeats(ll) && m[key] in ll && m[key].value.key == key
            && forall other <- ll :: other.value.key == key ==> other == m[key]
  {
  }

  /** Deleting a key takes its element out of both. */
  lemma DeleteMatches(ll: seq<Element>, m: map<string, Element>, key: string)
    requires Matches(ll, m) && key in m
    ensures Matches(Removed(ll, m[key]), m - {key}) && |Removed(ll, m[key])| == |ll| - 1
    ensures Values(Removed(ll, m[key])) == Drop(Values(ll), key)
  {
    hide Values, Removed, Drop;
    UniqueHolder(ll, m, key);
    RemovedValues(ll, m[key]);
    var r := Removed(ll, m[key]);
    RemovedHas(ll, m[key], m[key]);
    forall el | el in r ensures el.value.key in m - {key} && m[el.value.key] == el {
      RemovedHas(ll, m[key], el);
    }
    forall k | k in m - {key} ensures m[k] in r && m[k].value.key == k {
      RemovedHas(ll, m[key], m[k]);
    }
  }

  /** Moving an element to the front changes the order only. */
  lemma MoveMatches(ll: seq<Element>, m: map<string, Element>, key: string)
    requires Matches(ll, m) && key in m
    ensures Matches([m[key]] + Removed(ll, m[key]), m) && |Removed(ll, m[key])| == |ll| - 1
    ensures Values([m[key]] + Removed(ll, m[key])) == [m[key].value] + Drop(Values(ll), key)
  {
    hide Removed, Drop, Values;
    UniqueHolder(ll, m, key);
    var el := m[key];
    var r := Removed(ll, el);
    RemovedHas(ll, el, el);
    RemovedValues(ll, el);
    ValuesCons(el, r);
    forall x | x in [el] + r ensures x in ll {
      RemovedHas(ll, el, x);
    }
    forall k | k in m ensures m[k] in [el] + r {
      RemovedHas(ll, el, m[k]);
    }
  }

  lemma ValuesCons(el: Element, r: seq<Element>)
    ensures Values([el] + r) == [el.value] + Values(r)
  {
    assert ([el] + r)[1..] == r;
  }

  lemma PushMatches(ll: seq<Element>, m: map<string, Element>, el: Element)
    requires Matches(ll, m) && el.value.key !in m
    ensures Matches([el] + ll, m[el.value.key := el])
    ensures Values([el] + ll) == [el.value] + Values(ll)
  {
    hide Values;
    ValuesCons(el, ll);
    forall x | x in [el] + ll ensures x == el || x in ll { }
  }

  lemma {:induction false} ValuesInit(ll: seq<Element>)
    requires ll != []
    ensures Values(ll[..|ll| - 1]) == Values(ll)[..|ll| - 1]
  {
  }

  lemma PopMatches(ll: seq<Element>, m: map<string, Element>)
    requires Matches(ll, m) && ll != []
    ensures Matches(ll[..|ll| - 1], m - {ll[|ll| - 1].value.key})
  {
    var n := |ll| - 1;
    assert forall x :: x in ll <==> x in ll[..n] || x == ll[n];
  }

  class Cache {
    const cap: int
    const ttl: int
    var ll: seq<Element>
    var m: map<string, Element>

    ghost predicate Valid()
      reads this, ll
    {
      Matches(ll, m) && |ll| <= (if cap < 0 then 0 else cap)
    }

    /** The entries in order of recency. */
    function List(): Recency
      reads this, ll
    {
      Values(ll)
    }

    constructor (cap: int, ttl: int)
      ensures Valid() && this.cap == cap && this.ttl == ttl && List() == []
    {
      this.cap, this.ttl := cap, ttl;
      ll, m := [], map[];
    }

    method Get(key: string, now: int) returns (out: Option<Body>)
      requires Valid()
      modifies this
      ensures Valid() && (List(), out) == Lookup(old(List()), key, now)
    {
      hide Matches, Values, Removed, Find, Drop;
      Look(key);
      if key !in m {
        return None;
      }
      var el := m[key];
      var e := el.value;
      if now >= e.expires {
        DeleteMatches(ll, m, key);
        ll := Removed(ll, el);
        m := m - {key};
        return None;
      }
      MoveMatches(ll, m, key);
      ll := [el] + Removed(ll, el);
      return Some(e.val);
    }

    lemma Look(key: string)
      requires Valid()
      ensures Find(List(), key) == if key in m then Some(m[key].value) else None
      ensures key in m ==> m[key] in ll && m[key].value.key == key
    {
      LookupIsFind(ll, m, key);
    }

    method Set(key: string, val: Body, now: int)
      requires Valid()
      modifies this, ll
      ensures Valid() && List() == Store(cap, ttl, old(List()), key, val, now)
      ensures forall el :: el in ll && el !in old(ll) ==> fresh(el)
    {
      hide Matches, Values, Removed, Find, Drop;
      Look(key);
      var exp := now + ttl;
      if key in m {
        Overwrite(key, Entry(key, val, exp));
        return;
      }
      Insert(Entry(key, val, exp));
    }

    method Insert(e: Entry)
      requires Valid() && e.key !in m
      modifies this
      ensures Valid() && List() == Fit(cap, [e] + old(List()))
      ensures forall el :: el in ll && el !in old(ll) ==> fresh(el)
    {
      hide Matches, Values, Fit;
      var el := new Element(e);
      assert Matches(ll, m) && Values(ll) == old(List());
      PushMatches(ll, m, el);
      ll := [el] + ll;
      m := m[e.key := el];
      Evict();
    }

    /** The last element goes when there are too many. */
    method Evict()
      requires Matches(ll, m) && 0 < |ll| <= (if cap < 0 then 0 else cap) + 1
      modifies this
      ensures Valid() && List() == Fit(cap, old(List())) && ll <= old(ll)
    {
      hide Matches, Values;
      if |ll| > cap {
        var last := ll[|ll| - 1];
        PopMatches(ll, m);
        ValuesInit(ll);
        ll := ll[..|ll| - 1];
        m := m - {last.value.key};
      }
    }

    /** The element keeps its place in the map, takes the new entry and moves to the front. */
    method Overwrite(key: string, e: Entry)
      requires Valid() && key in m && e.key == key
      modifies this, ll
      ensures Valid() && List() == [e] + Drop(old(List()), key)
      ensures forall el :: el in ll ==> el in old(ll)
    {
      hide Matches, Values, Removed, Drop;
      UniqueHolder(ll, m, key);
      DeleteMatches(ll, m, key);
      var el := m[key];
      ghost var r := Removed(ll, el);
      RemovedHas(ll, el, el);
      forall x | x in r ensures x in ll {
        RemovedHas(ll, el, x);
      }
      el.value := e;
      PushMatches(r, m - {key}, el);
      assert (m - {key})[key := el] == m;
      ll := [el] + Removed(ll, el);
    }

    /** The map and the list hold the same keys, each once. */
    lemma SameKeys()
      requires Valid()
      ensures Distinct(List()) && m.Keys == Keys(List())
    {
      MatchesDistinct(ll, m);
      forall key ensures key in m <==> key in Keys(List()) {
        KeysOf(ll, key);
      }
    }

    method Len() returns (n: nat)
      requires Valid()
      ensures n == |List()| <= (if cap < 0 then 0 else cap)
    {
      return |ll|;
    }
  }
}
