/** The endpoint pool: one call at a time as the code runs it, and any number of calls at once. */
module Upstream {
  import opened Wrappers
  import opened Breaker

  type Body = seq<int>

  // ------------------------------------------------------------------ one call

  /** What a call meets at one stop: the endpoint's answer, if it is tried and answers, and the clock
      when the breaker is asked and when a failure is reported. */
  datatype Visit = Visit(answer: Option<Body>, asked: int, failed: int)

  /** The endpoint of stop k, going round from `start`. */
  function Stop(start: nat, k: nat, n: nat): (e: nat)
    requires start < n && k < n
    ensures e < n
  {
    if start + k < n then start + k else start + k - n
  }

  function Mod(x: nat, n: nat): (r: nat)
    requires n > 0
    ensures r < n
  {
    x % n
  }

  lemma StopIsRemainder(start: nat, k: nat, n: nat)
    requires start < n && k < n
    ensures Mod(start + k, n) == Stop(start, k, n)
  {
    Remainder(start + k, if start + k < n then 0 else 1, Stop(start, k, n), n);
  }

  lemma Remainder(x: nat, q: nat, r: nat, n: nat)
    requires x == n * q + r && r < n
    ensures x % n == r
  {
    assert x == n * (x / n) + x % n;
    SameRemainder(n, x / n, x % n, q, r);
  }

  lemma SameRemainder(n: nat, p: nat, a: nat, q: nat, b: nat)
    requires n * p + a == n * q + b && a < n && b < n
    ensures a == b
  {
    if p > q {
      Gap(n, p, q);
    } else if p < q {
      Gap(n, q, p);
    }
  }

  lemma Gap(n: nat, p: nat, q: nat)
    requires p > q
    ensures n * p >= n * q + n
  {
    var d := p - q - 1;
    assert p == q + 1 + d;
    Spread(n, q, d);
  }

  lemma Spread(n: nat, q: nat, d: nat)
    ensures n * (q + 1 + d) == n * q + n + n * d && n * d >= 0
  {
  }

  /** The endpoint at this stop lets the call in and answers it. */
  predicate Answers(c: Config, s: Status, v: Visit) {
    Ask(c, s, v.asked).1 && v.answer.Some?
  }

  /** What the call does to the breaker of a stop it makes. */
  function Visited(c: Config, s: Status, v: Visit): Status {
    var (t, ok) := Ask(c, s, v.asked);
    if !ok then t else if v.answer.Some? then Succeed(t) else Fail(c, t, v.failed)
  }

  /** The first stop that answers, or the number of stops. */
  function FirstAnswer(c: Config, brs: seq<Status>, start: nat, visits: seq<Visit>, k: nat): (f: nat)
    requires |visits| == |brs| && k <= |brs| && (start < |brs| || brs == [])
    ensures k <= f <= |brs|
    ensures forall m :: k <= m < f ==> !Answers(c, brs[Stop(start, m, |brs|)], visits[m])
    ensures f < |brs| ==> Answers(c, brs[Stop(start, f, |brs|)], visits[f])
    decreases |brs| - k
  {
    if k == |brs| || Answers(c, brs[Stop(start, k, |brs|)], visits[k]) then k
    else FirstAnswer(c, brs, start, visits, k + 1)
  }

  lemma StopsDistinct(start: nat, j: nat, k: nat, n: nat)
    requires start < n && j < n && k < n && j != k
    ensures Stop(start, j, n) != Stop(start, k, n)
  {
  }

  /** Every endpoint is a stop. */
  function StopOf(start: nat, e: nat, n: nat): (k: nat)
    requires start < n && e < n
    ensures k < n && Stop(start, k, n) == e
  {
    if e >= start then e - start else e + n - start
  }

  /** Where a call starts. */
  function Start(next: nat, n: nat): (start: nat)
    ensures n > 0 ==> start < n
  {
    Mod(next, if n > 1 then n else 1)
  }

  /** `now` is `brs` after the call made its first i stops. */
  ghost predicate Made(c: Config, brs: seq<Status>, now: seq<Status>, start: nat, visits: seq<Visit>, i: nat)
    requires |now| == |brs| == |visits| && (start < |brs| || brs == [])
  {
    forall k :: 0 <= k < |brs| ==>
      var e := Stop(start, k, |brs|);
      now[e] == if k < i then Visited(c, brs[e], visits[k]) else brs[e]
  }

  lemma FirstUnfold(c: Config, brs: seq<Status>, start: nat, visits: seq<Visit>, k: nat)
    requires |visits| == |brs| && start < |brs| && k < |brs|
    ensures FirstAnswer(c, brs, start, visits, k)
         == if Answers(c, brs[Stop(start, k, |brs|)], visits[k]) then k else FirstAnswer(c, brs, start, visits, k + 1)
    ensures FirstAnswer(c, brs, start, visits, |brs|) == |brs|
  {
    hide Answers, Stop;
  }

  lemma MadeNext(c: Config, brs: seq<Status>, now: seq<Status>, start: nat, visits: seq<Visit>, i: nat)
    requires |now| == |brs| == |visits| && start < |brs| && i < |brs| && Made(c, brs, now, start, visits, i)
    ensures var e := Stop(start, i, |brs|);
            now[e] == brs[e] && Made(c, brs, now[e := Visited(c, brs[e], visits[i])], start, visits, i + 1)
  {
    hide Visited;
    forall k | 0 <= k < |brs| && k != i
      ensures Stop(start, k, |brs|) != Stop(start, i, |brs|)
    {
      StopsDistinct(start, k, i, |brs|);
    }
  }

  class Pool {
    const config: Config
    var eps: seq<Breaker>
    var next: nat

    ghost predicate Valid()
      reads this`eps, eps
    {
      && (forall i, j :: 0 <= i < j < |eps| ==> eps[i] != eps[j])
      && (forall e <- eps :: e.config == config)
    }

    function Values(): (r: seq<Status>)
      reads this`eps, eps
      ensures |r| == |eps|
    {
      var es := eps;
      seq(|es|, i requires 0 <= i < |es| reads es => es[i].Value())
    }

    constructor (n: nat, config: Config)
      ensures Valid() && fresh(eps) && this.config == config && next == 0
      ensures Values() == seq(n, _ => NEW)
    {
      this.config := config;
      eps, next := [], 0;
      new;
      while |eps| < n
        invariant |eps| <= n && fresh(eps) && Valid() && next == 0
        invariant forall e <- eps :: e.Value() == NEW
      {
        var b := new Breaker(config);
        eps := eps + [b];
      }
    }

    /** One stop: ask the breaker, try, report. */
    method Try(e: nat, v: Visit) returns (out: Option<Body>)
      requires Valid() && e < |eps|
      modifies eps
      ensures Valid() && Values() == old(Values())[e := Visited(config, old(Values())[e], v)]
      ensures out.Some? <==> Answers(config, old(Values())[e], v)
      ensures out.Some? ==> out == v.answer
    {
      hide Ask, Succeed, Fail;
      var ep := eps[e];
      var ok := ep.Allow(v.asked);
      if !ok {
        return None;
      }
      if v.answer == None {
        ep.Failure(v.failed);
        return None;
      }
      ep.Success();
      return v.answer;
    }

    /** The endpoints are tried in turn from the next one until one answers. The answer is that of the
        first one that lets the call in and answers; it and those before it were visited once, the
        others are as they were; when there is none the call fails. */
    method Call(visits: seq<Visit>) returns (out: Option<Body>)
      requires Valid() && |visits| == |eps|
      modifies this`next, eps
      ensures eps == old(eps) && Valid() && next == old(next) + 1
      ensures var n := |eps|;
              var start := Start(old(next), n);
              var f := FirstAnswer(config, old(Values()), start, visits, 0);
              && out == (if f < n then visits[f].answer else None)
              && Made(config, old(Values()), Values(), start, visits, f + 1)
    {
      hide Visited, Made, Answers, Stop, FirstAnswer, Mod, Valid;
      var n := |eps|;
      var start := Mod(next, if n > 1 then n else 1);
      next := next + 1;
      ghost var brs := old(Values());
      MadeNone(config, brs, start, visits);
      for i := 0 to n
        invariant Valid() && next == old(next) + 1
        invariant FirstAnswer(config, brs, start, visits, 0) == FirstAnswer(config, brs, start, visits, i)
        invariant Made(config, brs, Values(), start, visits, i)
      {
        FirstUnfold(config, brs, start, visits, i);
        MadeNext(config, brs, Values(), start, visits, i);
        StopIsRemainder(start, i, n);
        out := Try(Mod(start + i, n), visits[i]);
        if out.Some? {
          return;
        }
      }
      MadeAll(config, brs, Values(), start, visits);
      return None;
    }
  }

  /** The same, endpoint by endpoint: each is one of the stops, and was visited if its turn came. */
  lemma PerEndpoint(c: Config, brs: seq<Status>, now: seq<Status>, start: nat, visits: seq<Visit>, i: nat, e: nat)
    requires |now| == |brs| == |visits| && start < |brs| && e < |brs| && Made(c, brs, now, start, visits, i)
    ensures var k := StopOf(start, e, |brs|);
            k < |brs| && Stop(start, k, |brs|) == e && now[e] == if k < i then Visited(c, brs[e], visits[k]) else brs[e]
  {
    hide Visited;
    assert Stop(start, StopOf(start, e, |brs|), |brs|) == e;
  }

  lemma MadeNone(c: Config, brs: seq<Status>, start: nat, visits: seq<Visit>)
    requires |brs| == |visits| && (start < |brs| || brs == [])
    ensures Made(c, brs, brs, start, visits, 0)
  {
  }

  lemma MadeAll(c: Config, brs: seq<Status>, now: seq<Status>, start: nat, visits: seq<Visit>)
    requires |now| == |brs| == |visits| && (start < |brs| || brs == []) && Made(c, brs, now, start, visits, |brs|)
    ensures Made(c, brs, now, start, visits, |brs| + 1)
  {
  }
}
