/** Any number of pool calls in flight at once. A breaker is one lock, so each use of it is one step;
    between the steps of a call any steps of others may happen. */
module PoolRuns {
  import opened Breaker
  import opened Upstream

  /** Where a call is: about to ask the breaker of stop i, or waiting for that endpoint's answer. */
  datatype Phase = Asking(start: nat, i: nat) | Waiting(start: nat, i: nat)

  /** `probes[e]` is the caller that was let in last while breaker e was not closed. */
  datatype System = System(config: Config, brs: seq<Status>, next: nat, calls: map<nat, Phase>, probes: seq<nat>)

  datatype Step =
    | Begin(id: nat)
    | Consult(id: nat, now: int)
    | Finish(id: nat, ok: bool, now: int)

  function Initial(config: Config, n: nat): System {
    System(config, seq(n, _ => NEW), 0, map[], seq(n, _ => 0))
  }

  /** The endpoint a call is at. */
  function At(s: System, id: nat): (e: nat)
    requires id in s.calls && s.calls[id].start < |s.brs| && s.calls[id].i < |s.brs|
    ensures e < |s.brs|
  {
    Stop(s.calls[id].start, s.calls[id].i, |s.brs|)
  }

  predicate Placed(s: System) {
    |s.probes| == |s.brs| && forall id <- s.calls :: s.calls[id].start < |s.brs| && s.calls[id].i < |s.brs|
  }

  ghost predicate Enabled(s: System, step: Step)
    requires Placed(s)
  {
    match step
    case Begin(id) => id !in s.calls
    case Consult(id, _) => id in s.calls && s.calls[id].Asking?
    case Finish(id, _, _) => id in s.calls && s.calls[id].Waiting?
  }

  /** The call goes to its next stop, or returns when there is none. */
  function GoOn(calls: map<nat, Phase>, id: nat, n: nat): map<nat, Phase>
    requires id in calls
  {
    if calls[id].i + 1 < n then calls[id := Asking(calls[id].start, calls[id].i + 1)] else calls - {id}
  }

  function Apply(s: System, step: Step): System
    requires Placed(s) && Enabled(s, step)
  {
    var n := |s.brs|;
    match step
    case Begin(id) =>
      var t := s.(next := s.next + 1);
      if n == 0 then t else t.(calls := s.calls[id := Asking(Start(s.next, n), 0)])
    case Consult(id, now) =>
      var e := At(s, id);
      var (status, ok) := Ask(s.config, s.brs[e], now);
      if ok then
        s.(brs := s.brs[e := status], calls := s.calls[id := Waiting(s.calls[id].start, s.calls[id].i)],
           probes := if s.brs[e].state == Closed then s.probes else s.probes[e := id])
      else
        s.(brs := s.brs[e := status], calls := GoOn(s.calls, id, n))
    case Finish(id, ok, now) =>
      var e := At(s, id);
      if ok then s.(brs := s.brs[e := Succeed(s.brs[e])], calls := s.calls - {id})
      else s.(brs := s.brs[e := Fail(s.config, s.brs[e], now)], calls := GoOn(s.calls, id, n))
  }

  lemma ApplyPlaced(s: System, step: Step)
    requires Placed(s) && Enabled(s, step)
    ensures Placed(Apply(s, step)) && Apply(s, step).config == s.config && |Apply(s, step).brs| == |s.brs|
  {
    hide Stop, Ask, Succeed, Fail, Start;
  }

  // ------------------------------------------------------------------ one step

  /** A probe is out exactly while half-open, and its caller is still waiting for that endpoint. */
  ghost predicate ProbeInFlight(s: System, e: nat)
    requires Placed(s) && e < |s.brs|
  {
    && (s.brs[e].state == HalfOpen <==> s.brs[e].probing)
    && (s.brs[e].probing ==> s.probes[e] in s.calls && s.calls[s.probes[e]].Waiting? && At(s, s.probes[e]) == e)
  }

  ghost predicate SysInv(s: System) {
    Placed(s) && forall e :: 0 <= e < |s.brs| ==> ProbeInFlight(s, e)
  }

  lemma StepKeeps(s: System, step: Step)
    requires SysInv(s) && Enabled(s, step)
    ensures SysInv(Apply(s, step))
  {
    hide Stop, Start;
    ApplyPlaced(s, step);
    var t := Apply(s, step);
    forall e | 0 <= e < |t.brs|
      ensures ProbeInFlight(t, e)
    {
      assert ProbeInFlight(s, e);
    }
  }

  // ------------------------------------------------------------------ runs

  ghost predicate Runs(s: System, steps: seq<Step>)
    requires Placed(s)
    decreases |steps|, 0
  {
    steps == [] ||
    (Runs(s, steps[..|steps| - 1]) && Enabled(Exec(s, steps[..|steps| - 1]), steps[|steps| - 1]))
  }

  ghost function Exec(s: System, steps: seq<Step>): (t: System)
    requires Placed(s) && Runs(s, steps)
    ensures Placed(t) && t.config == s.config && |t.brs| == |s.brs|
    decreases |steps|, 1
  {
    if steps == [] then s
    else
      var before := Exec(s, steps[..|steps| - 1]);
      ApplyPlaced(before, steps[|steps| - 1]);
      Apply(before, steps[|steps| - 1])
  }

  /** In every interleaving of calls a half-open breaker has a probe, and the caller let in as that probe
      is still waiting for that endpoint. */
  lemma {:induction false} RunKeeps(config: Config, n: nat, steps: seq<Step>)
    requires Runs(Initial(config, n), steps)
    ensures SysInv(Exec(Initial(config, n), steps))
    decreases |steps|
  {
    var s := Initial(config, n);
    if steps == [] {
      assert forall e :: 0 <= e < n ==> ProbeInFlight(s, e);
    } else {
      hide SysInv, ProbeInFlight;
      RunKeeps(config, n, steps[..|steps| - 1]);
      StepKeeps(Exec(s, steps[..|steps| - 1]), steps[|steps| - 1]);
    }
  }

  /** So once every call has returned no breaker is stuck half-open. */
  lemma NoneStuck(config: Config, n: nat, steps: seq<Step>, e: nat)
    requires Runs(Initial(config, n), steps) && e < n
    requires Exec(Initial(config, n), steps).calls == map[]
    ensures Exec(Initial(config, n), steps).brs[e].state != HalfOpen
  {
    RunKeeps(config, n, steps);
    assert ProbeInFlight(Exec(Initial(config, n), steps), e);
  }

  // ------------------------------------------------------------------ what one endpoint sees

  /** What this step is to the breaker of endpoint e. */
  function EventOf(s: System, step: Step, e: nat): seq<Event>
    requires Placed(s) && (step.Begin? || step.id in s.calls)
  {
    if step.Begin? || At(s, step.id) != e then []
    else
      match step
      case Begin(_) => []
      case Consult(_, now) => [Asked(now)]
      case Finish(_, ok, now) => [if ok then Succeeded else Failed(now)]
  }

  ghost function EventsAt(s: System, steps: seq<Step>, e: nat): seq<Event>
    requires Placed(s) && Runs(s, steps)
    decreases |steps|
  {
    if steps == [] then []
    else
      var before := steps[..|steps| - 1];
      EventsAt(s, before, e) + EventOf(Exec(s, before), steps[|steps| - 1], e)
  }

  lemma StepIsEvent(s: System, step: Step, e: nat)
    requires Placed(s) && Enabled(s, step) && e < |s.brs|
    ensures var es := EventOf(s, step, e);
            Apply(s, step).brs[e] == if es == [] then s.brs[e] else React(s.config, s.brs[e], es[0])
  {
    hide Ask, Succeed, Fail, Stop, Start;
  }

  /** Whatever the interleaving, each breaker is where its own events put it. */
  lemma {:induction false} EndpointHistory(config: Config, n: nat, steps: seq<Step>, e: nat)
    requires Runs(Initial(config, n), steps) && e < n
    ensures Exec(Initial(config, n), steps).brs[e] == After(config, EventsAt(Initial(config, n), steps, e))
    decreases |steps|
  {
    hide React, Apply, EventOf;
    var s := Initial(config, n);
    if steps != [] {
      var before := steps[..|steps| - 1];
      EndpointHistory(config, n, before, e);
      StepIsEvent(Exec(s, before), steps[|steps| - 1], e);
      var es, last := EventsAt(s, before, e), EventOf(Exec(s, before), steps[|steps| - 1], e);
      OneEvent(Exec(s, before), steps[|steps| - 1], e);
      if last == [] {
        assert es + last == es;
      } else {
        assert (es + last)[..|es + last| - 1] == es;
      }
    }
  }

  lemma OneEvent(s: System, step: Step, e: nat)
    requires Placed(s) && Enabled(s, step)
    ensures |EventOf(s, step, e)| <= 1
  {
  }

  /** Whether a caller is let in, in terms of what its endpoint has seen in the run so far. */
  lemma LetInExactly(config: Config, n: nat, steps: seq<Step>, id: nat, now: int)
    requires Runs(Initial(config, n), steps) && Enabled(Exec(Initial(config, n), steps), Consult(id, now))
    ensures var s := Exec(Initial(config, n), steps);
            var e := At(s, id);
            var seen := EventsAt(Initial(config, n), steps, e);
            Apply(s, Consult(id, now)).calls == s.calls[id := Waiting(s.calls[id].start, s.calls[id].i)] <==>
              || Streak(seen) < Limit(config)
              || (!ProbeOut(config, seen) && now - LastFailure(seen) >= config.cooldown)
  {
    hide Stop, Streak, ProbeOut, LastFailure, EventsAt, Runs;
    var s := Exec(Initial(config, n), steps);
    var e := At(s, id);
    EndpointHistory(config, n, steps, e);
    FieldsTellHistory(config, EventsAt(Initial(config, n), steps, e));
    if !Ask(config, s.brs[e], now).1 {
      assert id !in GoOn(s.calls, id, n) || GoOn(s.calls, id, n)[id].Asking?;
    }
  }

  // ------------------------------------------------------------------ spacing

  predicate Clocked(steps: seq<Step>) {
    forall i, j :: 0 <= i < j < |steps| && !steps[i].Begin? && !steps[j].Begin? ==> steps[i].now <= steps[j].now
  }

  ghost predicate LetIn(s: System, step: Step, e: nat)
    requires Placed(s) && Enabled(s, step)
  {
    step.Consult? && At(s, step.id) == e && Ask(s.config, s.brs[e], step.now).1
  }

  lemma {:induction false} RunsPrefix(s: System, steps: seq<Step>, k: nat)
    requires Placed(s) && Runs(s, steps) && k <= |steps|
    ensures Runs(s, steps[..k])
    ensures k < |steps| ==> Enabled(Exec(s, steps[..k]), steps[k])
    ensures k < |steps| ==> Runs(s, steps[..k + 1]) && Exec(s, steps[..k + 1]) == Apply(Exec(s, steps[..k]), steps[k])
    decreases |steps|
  {
    hide Enabled, Apply;
    if k == |steps| {
      assert steps[..k] == steps;
    } else if k + 1 == |steps| {
      assert steps[..k + 1] == steps;
    } else {
      RunsPrefix(s, steps[..|steps| - 1], k);
      assert steps[..|steps| - 1][..k] == steps[..k] && steps[..|steps| - 1][..k + 1] == steps[..k + 1];
    }
  }

  /** The breaker of endpoint e after the first k steps. */
  ghost function BreakerAt(s: System, steps: seq<Step>, k: nat, e: nat): Status
    requires Placed(s) && Runs(s, steps) && k <= |steps| && e < |s.brs|
  {
    RunsPrefix(s, steps, k);
    Exec(s, steps[..k]).brs[e]
  }

  ghost predicate LetInAt(s: System, steps: seq<Step>, k: nat, e: nat)
    requires Placed(s) && Runs(s, steps) && k < |steps|
  {
    RunsPrefix(s, steps, k);
    LetIn(Exec(s, steps[..k]), steps[k], e)
  }

  lemma StepOpens(s: System, step: Step, e: nat, since: int)
    requires Placed(s) && Enabled(s, step) && e < |s.brs|
    requires s.brs[e].state == Open ==> s.brs[e].openedAt >= since
    requires !step.Begin? ==> step.now >= since
    ensures Apply(s, step).brs[e].state == Open ==> Apply(s, step).brs[e].openedAt >= since
  {
    hide Stop, Start;
  }

  /** From an admission on, a breaker that stays tripped is half-open or was opened later than that. */
  lemma {:induction false} OpenedSince(s: System, steps: seq<Step>, e: nat, i: nat, k: nat)
    requires Placed(s) && Runs(s, steps) && Clocked(steps) && i < k <= |steps| && e < |s.brs|
    requires LetInAt(s, steps, i, e) && BreakerAt(s, steps, i, e).state != Closed
    ensures BreakerAt(s, steps, k, e).state == Open ==> BreakerAt(s, steps, k, e).openedAt >= steps[i].now
  {
    hide Stop, Apply, Ask;
    RunsPrefix(s, steps, k - 1);
    if k == i + 1 {
      LetInIsHalfOpen(Exec(s, steps[..i]), steps[i], e);
    } else {
      OpenedSince(s, steps, e, i, k - 1);
      StepOpens(Exec(s, steps[..k - 1]), steps[k - 1], e, steps[i].now);
    }
  }

  lemma LetInIsHalfOpen(s: System, step: Step, e: nat)
    requires Placed(s) && Enabled(s, step) && e < |s.brs| && LetIn(s, step, e) && s.brs[e].state != Closed
    ensures Apply(s, step).brs[e].state == HalfOpen
  {
    hide Stop;
  }

  /** In every run with a monotone clock, two callers that one endpoint lets in are at least `cooldown`
      apart if its breaker was not closed in between. */
  lemma CallsSpaced(config: Config, n: nat, steps: seq<Step>, e: nat, i: nat, j: nat)
    requires Runs(Initial(config, n), steps) && Clocked(steps) && i < j < |steps| && e < n
    requires LetInAt(Initial(config, n), steps, i, e) && LetInAt(Initial(config, n), steps, j, e)
    requires forall k :: i <= k <= j ==> BreakerAt(Initial(config, n), steps, k, e).state != Closed
    ensures steps[j].now - steps[i].now >= config.cooldown
  {
    hide Stop, Runs, Exec;
    var s := Initial(config, n);
    OpenedSince(s, steps, e, i, j);
    RunsPrefix(s, steps, j);
    RunKeeps(config, n, steps[..j]);
    assert ProbeInFlight(Exec(s, steps[..j]), e);
  }

  // ------------------------------------------------------------------ every call returns

  /** How many more steps a call can take. */
  function Left(s: System, id: nat): nat
    requires Placed(s)
  {
    if id !in s.calls then 0
    else 2 * (|s.brs| - s.calls[id].i) - if s.calls[id].Waiting? then 1 else 0
  }

  predicate Takes(step: Step, id: nat) {
    !step.Begin? && step.id == id
  }

  function StepsOf(steps: seq<Step>, id: nat): nat {
    if steps == [] then 0
    else StepsOf(steps[..|steps| - 1], id) + if Takes(steps[|steps| - 1], id) then 1 else 0
  }

  lemma StepShortens(s: System, step: Step, id: nat)
    requires Placed(s) && Enabled(s, step) && (step.Begin? ==> step.id != id)
    ensures Placed(Apply(s, step))
    ensures Left(Apply(s, step), id) + (if Takes(step, id) then 1 else 0) <= Left(s, id)
    ensures !Takes(step, id) ==> Left(Apply(s, step), id) == Left(s, id)
  {
    hide Stop, Start, Ask, Succeed, Fail;
    ApplyPlaced(s, step);
  }

  /** A call takes at most two steps a stop, whatever the others do. */
  lemma {:induction false} CallsEnd(s: System, steps: seq<Step>, id: nat)
    requires Placed(s) && Runs(s, steps) && (forall k :: 0 <= k < |steps| && steps[k].Begin? ==> steps[k].id != id)
    ensures Left(Exec(s, steps), id) + StepsOf(steps, id) <= Left(s, id) <= 2 * |s.brs|
    decreases |steps|
  {
    hide Apply, Takes;
    if steps != [] {
      var before := steps[..|steps| - 1];
      CallsEnd(s, before, id);
      StepShortens(Exec(s, before), steps[|steps| - 1], id);
    }
  }

  // ------------------------------------------------------------------ round robin

  function Begins(steps: seq<Step>): nat {
    if steps == [] then 0 else Begins(steps[..|steps| - 1]) + if steps[|steps| - 1].Begin? then 1 else 0
  }

  /** Each call starts where the number of calls begun before it says. */
  lemma {:induction false} StartsCounted(config: Config, n: nat, steps: seq<Step>)
    requires Runs(Initial(config, n), steps)
    ensures Exec(Initial(config, n), steps).next == Begins(steps)
    decreases |steps|
  {
    hide Ask, Succeed, Fail, Stop, Start;
    if steps != [] {
      StartsCounted(config, n, steps[..|steps| - 1]);
    }
  }

  /** Among any n calls begun one after the other each starts at its own endpoint. */
  lemma StartsDiffer(n: nat, j: nat, k: nat)
    requires j < k < j + n
    ensures Start(j, n) != Start(k, n)
  {
    hide Start;
    StartIs(j, n);
    StartIs(k, n);
    if j % n == k % n {
      Apart(j, k, n);
    }
  }

  lemma StartIs(k: nat, n: nat)
    requires n > 0
    ensures Start(k, n) == k % n
  {
  }

  lemma Apart(j: nat, k: nat, n: nat)
    requires j < k && n > 0 && j % n == k % n
    ensures k >= j + n
  {
    var p, q := k / n, j / n;
    assert k == n * p + k % n && j == n * q + j % n;
    if p > q {
      Gap(n, p, q);
    } else if p < q {
      Gap(n, q, p);
    }
  }

  // ------------------------------------------------------------------ one call alone

  /** The steps of a call at a stop whose breaker is `br`. */
  function StopSteps(c: Config, br: Status, v: Visit, id: nat): seq<Step> {
    if Ask(c, br, v.asked).1 then [Consult(id, v.asked), Finish(id, v.answer.Some?, v.failed)]
    else [Consult(id, v.asked)]
  }

  /** The steps of a call that nobody interrupts, from stop k on. */
  function CallSteps(c: Config, brs: seq<Status>, start: nat, visits: seq<Visit>, id: nat, k: nat): seq<Step>
    requires |visits| == |brs| && k <= |brs| && (start < |brs| || brs == [])
    decreases |brs| - k
  {
    if k == |brs| then []
    else
      var br := brs[Stop(start, k, |brs|)];
      StopSteps(c, br, visits[k], id)
      + if Answers(c, br, visits[k]) then [] else CallSteps(c, brs, start, visits, id, k + 1)
  }

  lemma {:induction false} RunsConcat(s: System, first: seq<Step>, rest: seq<Step>)
    requires Placed(s) && Runs(s, first) && Runs(Exec(s, first), rest)
    ensures Runs(s, first + rest) && Exec(s, first + rest) == Exec(Exec(s, first), rest)
    decreases |rest|
  {
    hide Enabled, Apply;
    var all := first + rest;
    if rest == [] {
      assert all == first;
    } else {
      RunsConcat(s, first, rest[..|rest| - 1]);
      assert all[..|all| - 1] == first + rest[..|rest| - 1];
    }
  }

  lemma OneStepRuns(s: System, a: Step)
    requires Placed(s) && Enabled(s, a)
    ensures Runs(s, [a]) && Exec(s, [a]) == Apply(s, a)
  {
    hide Enabled, Apply;
    assert [a][..0] == [];
    assert Runs(s, []) && Exec(s, []) == s;
  }

  lemma StopRuns(s: System, v: Visit, id: nat)
    requires Placed(s) && id in s.calls && s.calls[id].Asking?
    ensures var e := At(s, id);
            var steps := StopSteps(s.config, s.brs[e], v, id);
            && Runs(s, steps)
            && Exec(s, steps).brs == s.brs[e := Visited(s.config, s.brs[e], v)] && Exec(s, steps).next == s.next
            && Exec(s, steps).calls
               == if Answers(s.config, s.brs[e], v) then s.calls - {id} else GoOn(s.calls, id, |s.brs|)
  {
    hide Ask, Succeed, Fail, Stop, Runs, Exec;
    var one := Consult(id, v.asked);
    ApplyPlaced(s, one);
    OneStepRuns(s, one);
    if Ask(s.config, s.brs[At(s, id)], v.asked).1 {
      var t := Apply(s, one);
      var two := Finish(id, v.answer.Some?, v.failed);
      OneStepRuns(t, two);
      RunsConcat(s, [one], [two]);
      assert [one] + [two] == [one, two];
    }
  }

  /** A call that nobody interrupts does to the breakers what the pool's method promises. */
  lemma {:induction false} CallStepsRun(s: System, brs: seq<Status>, start: nat, visits: seq<Visit>, id: nat, k: nat)
    requires Placed(s) && |s.brs| == |brs| == |visits| && start < |brs| && k < |brs|
    requires id in s.calls && s.calls[id] == Asking(start, k) && Made(s.config, brs, s.brs, start, visits, k)
    ensures var steps := CallSteps(s.config, brs, start, visits, id, k);
            && Runs(s, steps)
            && Exec(s, steps).calls == s.calls - {id} && Exec(s, steps).next == s.next
            && Made(s.config, brs, Exec(s, steps).brs, start, visits, FirstAnswer(s.config, brs, start, visits, k) + 1)
    decreases |brs| - k
  {
    hide Ask, Visited, Made, Stop, Runs, Exec, Answers, StopSteps;
    MadeNext(s.config, brs, s.brs, start, visits, k);
    StopRuns(s, visits[k], id);
    var e := Stop(start, k, |brs|);
    var steps := StopSteps(s.config, brs[e], visits[k], id);
    if Answers(s.config, brs[e], visits[k]) {
      assert steps + [] == steps;
    } else {
      var t := Exec(s, steps);
      if k + 1 < |brs| {
        CallStepsRun(t, brs, start, visits, id, k + 1);
        RunsConcat(s, steps, CallSteps(s.config, brs, start, visits, id, k + 1));
        assert t.calls - {id} == s.calls - {id};
      } else {
        assert steps + [] == steps;
        MadeAll(s.config, brs, t.brs, start, visits);
      }
    }
  }

  lemma StopStepsEnd(c: Config, br: Status, v: Visit, id: nat)
    ensures var steps := StopSteps(c, br, v, id);
            && steps != []
            && (Answers(c, br, v) ==> steps[|steps| - 1] == Finish(id, true, v.failed))
            && (!Answers(c, br, v) ==> !Succeeds(steps[|steps| - 1]))
  {
  }

  lemma LastOfConcat(a: seq<Step>, b: seq<Step>)
    requires b != []
    ensures (a + b)[|a + b| - 1] == b[|b| - 1]
  {
  }

  /** A call that some stop answers ends by reporting that answer. */
  lemma {:induction false} LastStepAnswered(c: Config, brs: seq<Status>, start: nat, visits: seq<Visit>, id: nat,
                                            k: nat)
    requires |visits| == |brs| && start < |brs| && k < |brs|
    requires FirstAnswer(c, brs, start, visits, k) < |brs|
    ensures var steps := CallSteps(c, brs, start, visits, id, k);
            steps != [] && steps[|steps| - 1] == Finish(id, true, visits[FirstAnswer(c, brs, start, visits, k)].failed)
    decreases |brs| - k
  {
    hide Answers, Stop, StopSteps, Succeeds;
    var br := brs[Stop(start, k, |brs|)];
    StopStepsEnd(c, br, visits[k], id);
    if !Answers(c, br, visits[k]) {
      LastStepAnswered(c, brs, start, visits, id, k + 1);
      LastOfConcat(StopSteps(c, br, visits[k], id), CallSteps(c, brs, start, visits, id, k + 1));
    }
  }

  /** A call that no stop answers ends otherwise. */
  lemma {:induction false} LastStepUnanswered(c: Config, brs: seq<Status>, start: nat, visits: seq<Visit>, id: nat,
                                              k: nat)
    requires |visits| == |brs| && start < |brs| && k < |brs|
    requires FirstAnswer(c, brs, start, visits, k) == |brs|
    ensures var steps := CallSteps(c, brs, start, visits, id, k);
            steps != [] && !Succeeds(steps[|steps| - 1])
    decreases |brs| - k
  {
    hide Answers, Stop, StopSteps, Succeeds;
    var br := brs[Stop(start, k, |brs|)];
    StopStepsEnd(c, br, visits[k], id);
    if k + 1 < |brs| {
      LastStepUnanswered(c, brs, start, visits, id, k + 1);
      LastOfConcat(StopSteps(c, br, visits[k], id), CallSteps(c, brs, start, visits, id, k + 1));
    }
  }

  predicate Succeeds(step: Step) {
    step.Finish? && step.ok
  }

  /** The pool's method, alone, is a run of these steps: same breakers, same counter, the call is gone, and it
      ends by reporting success exactly when the method returns an answer. */
  lemma CallIsRun(s: System, visits: seq<Visit>, id: nat)
    requires Placed(s) && id !in s.calls && |visits| == |s.brs|
    ensures var start := Start(s.next, |s.brs|);
            var steps := [Begin(id)] + CallSteps(s.config, s.brs, start, visits, id, 0);
            && Runs(s, steps)
            && Exec(s, steps).calls == s.calls && Exec(s, steps).next == s.next + 1
            && var f := FirstAnswer(s.config, s.brs, start, visits, 0);
               && Made(s.config, s.brs, Exec(s, steps).brs, start, visits, f + 1)
               && (Succeeds(steps[|steps| - 1]) <==> f < |s.brs|)
  {
    hide Placed, Made, Stop, Start, Runs, Exec, FirstAnswer, CallSteps, Apply, Enabled;
    Begun(s, id);
    var t := Apply(s, Begin(id));
    var start := Start(s.next, |s.brs|);
    if s.brs == [] {
      CallNowhere(s.config, start, visits, id);
      assert [Begin(id)] + [] == [Begin(id)];
    } else {
      MadeNone(s.config, s.brs, start, visits);
      CallStepsRun(t, s.brs, start, visits, id, 0);
      if FirstAnswer(s.config, s.brs, start, visits, 0) < |s.brs| {
        LastStepAnswered(s.config, s.brs, start, visits, id, 0);
      } else {
        LastStepUnanswered(s.config, s.brs, start, visits, id, 0);
      }
      AfterBegin(s, t, CallSteps(s.config, s.brs, start, visits, id, 0), id);
    }
  }

  lemma AfterBegin(s: System, t: System, rest: seq<Step>, id: nat)
    requires Placed(s) && Runs(s, [Begin(id)]) && t == Exec(s, [Begin(id)]) && Runs(t, rest)
    requires id !in s.calls && Exec(t, rest).calls == t.calls - {id}
    requires t.calls - {id} == s.calls - {id}
    ensures Runs(s, [Begin(id)] + rest) && Exec(s, [Begin(id)] + rest) == Exec(t, rest)
    ensures Exec(t, rest).calls == s.calls
  {
    hide Stop, Start, Runs, Exec;
    RunsConcat(s, [Begin(id)], rest);
    assert s.calls - {id} == s.calls;
  }

  lemma Begun(s: System, id: nat)
    requires Placed(s) && id !in s.calls
    ensures Enabled(s, Begin(id)) && Runs(s, [Begin(id)]) && Exec(s, [Begin(id)]) == Apply(s, Begin(id))
    ensures var t := Apply(s, Begin(id));
            && Placed(t) && t.config == s.config && t.brs == s.brs && t.next == s.next + 1
            && (s.brs == [] ==> t.calls == s.calls)
            && (s.brs != [] ==> id in t.calls && t.calls[id] == Asking(Start(s.next, |s.brs|), 0))
            && t.calls - {id} == s.calls - {id}
  {
    hide Start, Stop;
    OneStepRuns(s, Begin(id));
    ApplyPlaced(s, Begin(id));
    var t := Apply(s, Begin(id));
    assert t.calls - {id} == s.calls - {id};
  }

  lemma CallNowhere(c: Config, start: nat, visits: seq<Visit>, id: nat)
    requires visits == []
    ensures CallSteps(c, [], start, visits, id, 0) == []
    ensures Made(c, [], [], start, visits, FirstAnswer(c, [], start, visits, 0) + 1)
  {
  }
}
