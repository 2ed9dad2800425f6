/** The circuit breaker of one endpoint: what each call does to it, and what a whole history does. */
module Breaker {

  datatype State = Closed | Open | HalfOpen

  datatype Config = Config(threshold: int, cooldown: int)

  datatype Status = Status(failures: int, state: State, openedAt: int, probing: bool)

  const NEW := Status(0, Closed, 0, false)

  /** Asking to call at `now`: the new status, and whether the call may proceed. */
  function Ask(c: Config, s: Status, now: int): (Status, bool) {
    match s.state
    case Open =>
      if now - s.openedAt < c.cooldown then (s, false) else (s.(state := HalfOpen, probing := true), true)
    case HalfOpen =>
      if s.probing then (s, false) else (s.(probing := true), true)
    case Closed => (s, true)
  }

  function Succeed(s: Status): Status {
    s.(failures := 0, state := Closed, probing := false)
  }

  function Fail(c: Config, s: Status, now: int): Status {
    var t := s.(failures := s.failures + 1, probing := false);
    if t.state == HalfOpen || t.failures >= c.threshold then t.(state := Open, openedAt := now) else t
  }

  class Breaker {
    const config: Config
    var failures: int
    var state: State
    var openedAt: int
    var probing: bool

    function Value(): Status
      reads this
    {
      Status(failures, state, openedAt, probing)
    }

    constructor (config: Config)
      ensures this.config == config && Value() == NEW
    {
      this.config := config;
      failures, state, openedAt, probing := 0, Closed, 0, false;
    }

    method Allow(now: int) returns (ok: bool)
      modifies this
      ensures (Value(), ok) == Ask(config, old(Value()), now)
    {
      match state {
        case Open =>
          if now - openedAt < config.cooldown {
            return false;
          }
          state, probing := HalfOpen, true;
          return true;
        case HalfOpen =>
          if probing {
            return false;
          }
          probing := true;
          return true;
        case Closed =>
          return true;
      }
    }

    method Success()
      modifies this
      ensures Value() == Succeed(old(Value()))
    {
      failures, state, probing := 0, Closed, false;
    }

    method Failure(now: int)
      modifies this
      ensures Value() == Fail(config, old(Value()), now)
    {
      failures := failures + 1;
      probing := false;
      if state == HalfOpen || failures >= config.threshold {
        state, openedAt := Open, now;
      }
    }
  }

  // ------------------------------------------------------------------ histories

  /** What a breaker sees, in the order it sees it; outcomes may be those of calls admitted long before. */
  datatype Event = Asked(at: int) | Succeeded | Failed(at: int)

  function React(c: Config, s: Status, e: Event): Status {
    match e
    case Asked(at) => Ask(c, s, at).0
    case Succeeded => Succeed(s)
    case Failed(at) => Fail(c, s, at)
  }

  /** A new breaker after these events. */
  function After(c: Config, es: seq<Event>): Status {
    if es == [] then NEW else React(c, After(c, es[..|es| - 1]), es[|es| - 1])
  }

  /** The event at k asks, and is let through. */
  predicate Admits(c: Config, es: seq<Event>, k: nat)
    requires k < |es|
  {
    es[k].Asked? && Ask(c, After(c, es[..k]), es[k].at).1
  }

  predicate Monotone(es: seq<Event>) {
    forall i, j :: 0 <= i < j < |es| && !es[i].Succeeded? && !es[j].Succeeded? ==> es[i].at <= es[j].at
  }

  /** The failures since the last success. */
  function Streak(es: seq<Event>): nat {
    if es == [] then 0
    else
      var before := Streak(es[..|es| - 1]);
      match es[|es| - 1]
      case Asked(_) => before
      case Succeeded => 0
      case Failed(_) => before + 1
  }

  /** When the last failure was. */
  function LastFailure(es: seq<Event>): int {
    if es == [] then 0
    else if es[|es| - 1].Failed? then es[|es| - 1].at
    else LastFailure(es[..|es| - 1])
  }

  /** The streak that trips the breaker: one failure is needed whatever the threshold. */
  function Limit(c: Config): nat {
    if c.threshold < 1 then 1 else c.threshold
  }

  /** A probe was sent after the last failure and nothing has come back since. */
  predicate ProbeOut(c: Config, es: seq<Event>) {
    es != [] &&
    var before := es[..|es| - 1];
    match es[|es| - 1]
    case Asked(at) => ProbeOut(c, before) || (Streak(before) >= Limit(c) && at - LastFailure(before) >= c.cooldown)
    case Succeeded => false
    case Failed(_) => false
  }

  /** The breaker's fields say exactly what its history says: it has tripped iff the failures since the last
      success reach the limit, it is half-open iff a probe is out, and it remembers the last failure. */
  lemma {:induction false} FieldsTellHistory(c: Config, es: seq<Event>)
    ensures var s := After(c, es);
            && s.failures == Streak(es)
            && (s.state == Closed <==> Streak(es) < Limit(c))
            && (s.state == HalfOpen <==> ProbeOut(c, es)) && s.probing == ProbeOut(c, es)
            && (s.state != Closed ==> s.openedAt == LastFailure(es))
  {
    if es != [] {
      FieldsTellHistory(c, es[..|es| - 1]);
    }
  }

  /** Who is let through: everyone below the limit, and at the limit one caller once `cooldown` has passed
      since the last failure, until an outcome arrives. */
  lemma AdmittedExactly(c: Config, es: seq<Event>, k: nat)
    requires k < |es| && es[k].Asked?
    ensures var before := es[..k];
            Admits(c, es, k) <==>
            || Streak(before) < Limit(c)
            || (!ProbeOut(c, before) && es[k].at - LastFailure(before) >= c.cooldown)
  {
    FieldsTellHistory(c, es[..k]);
  }

  /** From an admission at i on, a breaker that stays tripped is half-open or was opened later than that. */
  lemma {:induction false} OpenedLater(c: Config, es: seq<Event>, i: nat, k: nat)
    requires i < k <= |es| && Monotone(es) && Admits(c, es, i)
    requires forall n :: i <= n <= k ==> After(c, es[..n]).state != Closed
    ensures After(c, es[..k]).state == Open ==> After(c, es[..k]).openedAt >= es[i].at
  {
    assert es[..k][..k - 1] == es[..k - 1];
    if k == i + 1 {
      FieldsTellHistory(c, es[..i]);
    } else {
      OpenedLater(c, es, i, k - 1);
    }
  }

  /** Two admissions between which the breaker is never closed are at least `cooldown` apart. */
  lemma Spacing(c: Config, es: seq<Event>, i: nat, j: nat)
    requires i < j < |es| && Monotone(es) && Admits(c, es, i) && Admits(c, es, j)
    requires forall n :: i <= n <= j ==> After(c, es[..n]).state != Closed
    ensures es[j].at - es[i].at >= c.cooldown
  {
    OpenedLater(c, es, i, j);
    FieldsTellHistory(c, es[..j]);
  }
}
