/** When a breaker lets a second caller probe while the first probe is still waiting: exactly when the
    outcome of another call came in between. */
module LateOutcomes {
  import opened Breaker
  import opened Upstream
  import opened PoolRuns

  /** Step k reports an outcome to the breaker of endpoint e. */
  ghost predicate Reports(s: System, steps: seq<Step>, k: nat, e: nat)
    requires Placed(s) && Runs(s, steps) && k < |steps|
  {
    RunsPrefix(s, steps, k);
    steps[k].Finish? && At(Exec(s, steps[..k]), steps[k].id) == e
  }

  ghost predicate WaitsAt(s: System, id: nat, e: nat)
    requires Placed(s)
  {
    id in s.calls && s.calls[id].Waiting? && At(s, id) == e
  }

  lemma StepKeepsWaiting(s: System, step: Step, id: nat, e: nat)
    requires Placed(s) && Enabled(s, step) && WaitsAt(s, id, e)
    requires step.Finish? ==> step.id != id
    ensures Placed(Apply(s, step)) && WaitsAt(Apply(s, step), id, e)
  {
    hide Stop, Start, Ask, Succeed, Fail;
    ApplyPlaced(s, step);
  }

  lemma LetInWaits(s: System, step: Step, e: nat)
    requires Placed(s) && Enabled(s, step) && e < |s.brs| && LetIn(s, step, e)
    ensures Placed(Apply(s, step)) && WaitsAt(Apply(s, step), step.id, e)
    ensures s.brs[e].state == Open ==> Apply(s, step).brs[e].state == HalfOpen && Apply(s, step).brs[e].probing
  {
    hide Stop, Start, Succeed, Fail;
    ApplyPlaced(s, step);
  }

  /** A caller that was let in waits at its endpoint until its own outcome is reported. */
  lemma {:induction false} StillWaiting(s: System, steps: seq<Step>, e: nat, i: nat, k: nat)
    requires Placed(s) && Runs(s, steps) && e < |s.brs| && i < k <= |steps| && LetInAt(s, steps, i, e)
    requires forall n :: i < n < k && steps[n].Finish? ==> steps[n].id != steps[i].id
    ensures Runs(s, steps[..k]) && WaitsAt(Exec(s, steps[..k]), steps[i].id, e)
  {
    hide Apply, Enabled, At, Ask, WaitsAt;
    RunsPrefix(s, steps, k - 1);
    if k == i + 1 {
      LetInWaits(Exec(s, steps[..i]), steps[i], e);
    } else {
      StillWaiting(s, steps, e, i, k - 1);
      StepKeepsWaiting(Exec(s, steps[..k - 1]), steps[k - 1], steps[i].id, e);
    }
  }

  lemma StepKeepsProbing(s: System, step: Step, e: nat)
    requires Placed(s) && Enabled(s, step) && e < |s.brs| && s.brs[e].state == HalfOpen && s.brs[e].probing
    requires step.Finish? ==> At(s, step.id) != e
    ensures Apply(s, step).brs[e].state == HalfOpen && Apply(s, step).brs[e].probing
  {
    hide Stop, Start, Succeed, Fail;
  }

  /** After a probe was let in, the breaker stays half-open and probing while nobody reports to it. */
  lemma {:induction false} StillProbing(s: System, steps: seq<Step>, e: nat, i: nat, k: nat)
    requires Placed(s) && Runs(s, steps) && e < |s.brs| && i < k <= |steps|
    requires LetInAt(s, steps, i, e) && BreakerAt(s, steps, i, e).state == Open
    requires forall n :: i < n < k ==> !Reports(s, steps, n, e)
    ensures BreakerAt(s, steps, k, e).state == HalfOpen && BreakerAt(s, steps, k, e).probing
  {
    hide Apply, Enabled, At, Ask;
    RunsPrefix(s, steps, k - 1);
    if k == i + 1 {
      LetInWaits(Exec(s, steps[..i]), steps[i], e);
    } else {
      StillProbing(s, steps, e, i, k - 1);
      assert !Reports(s, steps, k - 1, e);
      StepKeepsProbing(Exec(s, steps[..k - 1]), steps[k - 1], e);
    }
  }

  /** A caller that a tripped breaker lets in found it open. */
  lemma LetInFoundOpen(config: Config, n: nat, steps: seq<Step>, e: nat, i: nat)
    requires Runs(Initial(config, n), steps) && e < n && i < |steps| && LetInAt(Initial(config, n), steps, i, e)
    requires BreakerAt(Initial(config, n), steps, i, e).state != Closed
    ensures BreakerAt(Initial(config, n), steps, i, e).state == Open
  {
    var s := Initial(config, n);
    RunsPrefix(s, steps, i);
    RunKeeps(config, n, steps[..i]);
    assert ProbeInFlight(Exec(s, steps[..i]), e);
  }

  /** A caller let in as a probe at step i has not yet reported. Then it is still waiting, and whoever asks
      that endpoint now is let in exactly when some other call has reported to it since, and the breaker
      is closed again, or no newer probe is out and the cooldown since the last failure is over. */
  lemma SecondProbeExactly(config: Config, n: nat, steps: seq<Step>, e: nat, i: nat, id: nat, now: int)
    requires Runs(Initial(config, n), steps) && e < n && i < |steps| && LetInAt(Initial(config, n), steps, i, e)
    requires BreakerAt(Initial(config, n), steps, i, e).state != Closed
    requires forall k :: i < k < |steps| && steps[k].Finish? ==> steps[k].id != steps[i].id
    requires Enabled(Exec(Initial(config, n), steps), Consult(id, now))
    requires At(Exec(Initial(config, n), steps), id) == e
    ensures var s := Exec(Initial(config, n), steps);
            var seen := EventsAt(Initial(config, n), steps, e);
            && WaitsAt(s, steps[i].id, e) && id != steps[i].id
            && (LetIn(s, Consult(id, now), e) <==>
                && (exists k ::
                      i < k < |steps| && steps[k].id != steps[i].id && Reports(Initial(config, n), steps, k, e))
                && (|| Streak(seen) < Limit(config)
                    || (!ProbeOut(config, seen) && now - LastFailure(seen) >= config.cooldown)))
  {
    hide Apply, At, EventsAt, Streak, ProbeOut, LastFailure, Runs, Exec, Stop;
    var s0 := Initial(config, n);
    assert steps[..|steps|] == steps;
    StillWaiting(s0, steps, e, i, |steps|);
    EndpointHistory(config, n, steps, e);
    FieldsTellHistory(config, EventsAt(s0, steps, e));
    if forall k :: i < k < |steps| ==> !Reports(s0, steps, k, e) {
      LetInFoundOpen(config, n, steps, e, i);
      StillProbing(s0, steps, e, i, |steps|);
    }
  }

  // ------------------------------------------------------------------ two probes at once

  lemma RunsSnoc(s: System, steps: seq<Step>, step: Step, t: System)
    requires Placed(s) && Runs(s, steps) && Enabled(Exec(s, steps), step) && Apply(Exec(s, steps), step) == t
    ensures Runs(s, steps + [step]) && Exec(s, steps + [step]) == t
  {
    hide Apply, Enabled;
    assert (steps + [step])[..|steps|] == steps;
  }

  const TRIPS_AT_ONCE := Config(1, 10)

  /** Calls 0 and 1 are admitted while closed; the failure of 0 opens the breaker; 2 probes; the late failure
      of 1 opens it again under the probe; 3 probes. */
  const TWO_PROBES := [
    Begin(0), Begin(1), Consult(0, 0), Consult(1, 0), Finish(0, false, 0),
    Begin(2), Consult(2, 10), Finish(1, false, 10), Begin(3), Consult(3, 20)]

  /** The system after the first k steps. */
  function Stage(k: nat): System
    requires 1 <= k <= 10
  {
    var open, waits := Status(1, Open, 0, false), Waiting(0, 0);
    match k
    case 1 => One(NEW, 1, map[0 := Asking(0, 0)], 0)
    case 2 => One(NEW, 2, map[0 := Asking(0, 0), 1 := Asking(0, 0)], 0)
    case 3 => One(NEW, 2, map[0 := waits, 1 := Asking(0, 0)], 0)
    case 4 => One(NEW, 2, map[0 := waits, 1 := waits], 0)
    case 5 => One(open, 2, map[1 := waits], 0)
    case 6 => One(open, 3, map[1 := waits, 2 := Asking(0, 0)], 0)
    case 7 => One(open.(state := HalfOpen, probing := true), 3, map[1 := waits, 2 := waits], 2)
    case 8 => One(Status(2, Open, 10, false), 3, map[2 := waits], 2)
    case 9 => One(Status(2, Open, 10, false), 4, map[2 := waits, 3 := Asking(0, 0)], 2)
    case _ => One(Status(2, HalfOpen, 10, true), 4, map[2 := waits, 3 := waits], 3)
  }

  function One(br: Status, next: nat, calls: map<nat, Phase>, probe: nat): System {
    System(TRIPS_AT_ONCE, [br], next, calls, [probe])
  }

  lemma FirstStageSteps(k: nat)
    requires 1 <= k < 5
    ensures Placed(Stage(k)) && Enabled(Stage(k), TWO_PROBES[k]) && Apply(Stage(k), TWO_PROBES[k]) == Stage(k + 1)
  {
    var waits := Waiting(0, 0);
    assert map[0 := waits, 1 := waits] - {0} == map[1 := waits];
  }

  lemma LastStageSteps(k: nat)
    requires 5 <= k < 10
    ensures Placed(Stage(k)) && Enabled(Stage(k), TWO_PROBES[k]) && Apply(Stage(k), TWO_PROBES[k]) == Stage(k + 1)
  {
    var waits := Waiting(0, 0);
    assert map[1 := waits, 2 := waits] - {1} == map[2 := waits];
  }

  lemma StageStep(k: nat)
    requires 1 <= k < 10
    ensures Placed(Stage(k)) && Enabled(Stage(k), TWO_PROBES[k]) && Apply(Stage(k), TWO_PROBES[k]) == Stage(k + 1)
  {
    hide Apply, Stage, Enabled;
    if k < 5 {
      FirstStageSteps(k);
    } else {
      LastStageSteps(k);
    }
  }

  lemma {:induction false} StageReached(k: nat)
    requires 1 <= k <= 10
    ensures Runs(Initial(TRIPS_AT_ONCE, 1), TWO_PROBES[..k])
    ensures Exec(Initial(TRIPS_AT_ONCE, 1), TWO_PROBES[..k]) == Stage(k)
  {
    hide Runs, Exec, Apply, Enabled;
    var s := Initial(TRIPS_AT_ONCE, 1);
    if k == 1 {
      FirstStage();
      assert TWO_PROBES[..1] == [Begin(0)];
    } else {
      StageReached(k - 1);
      StageStep(k - 1);
      RunsSnoc(s, TWO_PROBES[..k - 1], TWO_PROBES[k - 1], Stage(k));
      assert TWO_PROBES[..k - 1] + [TWO_PROBES[k - 1]] == TWO_PROBES[..k];
    }
  }

  lemma FirstStage()
    ensures var s := Initial(TRIPS_AT_ONCE, 1);
            Placed(s) && Enabled(s, Begin(0)) && Runs(s, [Begin(0)]) && Exec(s, [Begin(0)]) == Stage(1)
  {
    hide Runs, Exec;
    OneStepRuns(Initial(TRIPS_AT_ONCE, 1), Begin(0));
  }

  /** Two probes of one endpoint in flight at once, the breaker half-open. */
  lemma TwoProbesAtOnce()
    ensures var s := Initial(TRIPS_AT_ONCE, 1);
            && Runs(s, TWO_PROBES) && Clocked(TWO_PROBES)
            && Exec(s, TWO_PROBES).brs[0].state == HalfOpen
            && WaitsAt(Exec(s, TWO_PROBES), 2, 0) && WaitsAt(Exec(s, TWO_PROBES), 3, 0)
            && LetInAt(s, TWO_PROBES, 6, 0) && BreakerAt(s, TWO_PROBES, 6, 0).state == Open
            && LetInAt(s, TWO_PROBES, 9, 0) && BreakerAt(s, TWO_PROBES, 9, 0).state == Open
  {
    hide Runs, Exec;
    StageReached(6);
    StageReached(9);
    StageReached(10);
    assert TWO_PROBES[..10] == TWO_PROBES;
  }
}
