/** What one call among many does: it asks the endpoints in turn, each once, and goes on only after being
    refused or failing. */
module CallAttempts {
  import opened Breaker
  import opened Upstream
  import opened PoolRuns

  datatype Verdict = Refused | Pending | Erred | Answered

  datatype Attempt = Attempt(endpoint: nat, verdict: Verdict)

  /** The latest call under an id: where it started, and its attempts in order. */
  datatype Record = Unstarted | Started(start: nat, attempts: seq<Attempt>)

  /** What a step adds to the record of a call. */
  function Noted(s: System, step: Step, id: nat, r: Record): Record
    requires Placed(s) && (step.Begin? || step.id in s.calls)
  {
    if step.id != id then r
    else
      match step
      case Begin(_) => Started(Start(s.next, |s.brs|), [])
      case Consult(_, now) =>
        if r.Unstarted? then r
        else
          var e := At(s, id);
          r.(attempts := r.attempts + [Attempt(e, if Ask(s.config, s.brs[e], now).1 then Pending else Refused)])
      case Finish(_, ok, _) =>
        if r.Unstarted? || r.attempts == [] then r
        else
          var k := |r.attempts| - 1;
          r.(attempts := r.attempts[k := r.attempts[k].(verdict := if ok then Answered else Erred)])
  }

  ghost function RecordOf(s: System, steps: seq<Step>, id: nat): Record
    requires Placed(s) && Runs(s, steps)
    decreases |steps|
  {
    if steps == [] then Unstarted
    else
      var before := steps[..|steps| - 1];
      Noted(Exec(s, before), steps[|steps| - 1], id, RecordOf(s, before, id))
  }

  /** The first k attempts were at the first k stops, and each was refused or failed. */
  ghost predicate TriedInTurn(attempts: seq<Attempt>, start: nat, n: nat, k: nat) {
    && k <= |attempts| && k <= n && (start < n || n == 0)
    && forall i :: 0 <= i < k ==>
         attempts[i].endpoint == Stop(start, i, n) && (attempts[i].verdict == Refused || attempts[i].verdict == Erred)
  }

  /** Where the call is, and what it has tried so far. While it asks stop i it has tried the i stops before; while
      it waits at stop i also that one, with no verdict yet; and when it is gone it was answered at the last stop
      it tried, or it has tried all of them. */
  ghost predicate InTurn(calls: map<nat, Phase>, n: nat, id: nat, r: Record) {
    match r
    case Unstarted => id !in calls
    case Started(start, attempts) =>
      if id in calls then
        var i := calls[id].i;
        && calls[id].start == start && start < n && i < n && TriedInTurn(attempts, start, n, i)
        && if calls[id].Asking? then |attempts| == i
           else |attempts| == i + 1 && attempts[i] == Attempt(Stop(start, i, n), Pending)
      else
        || Exhausted(attempts, start, n)
        || EndedByAnswer(attempts, start, n)
  }

  /** Every stop was tried, once each and in turn, and each refused the call or failed. */
  ghost predicate Exhausted(attempts: seq<Attempt>, start: nat, n: nat) {
    |attempts| == n && TriedInTurn(attempts, start, n, n)
  }

  /** The last stop that was tried answered, after those before it refused or failed. */
  ghost predicate EndedByAnswer(attempts: seq<Attempt>, start: nat, n: nat) {
    && 0 < |attempts| <= n && TriedInTurn(attempts, start, n, |attempts| - 1)
    && start < n && attempts[|attempts| - 1] == Attempt(Stop(start, |attempts| - 1, n), Answered)
  }

  lemma TriedOneMore(attempts: seq<Attempt>, more: seq<Attempt>, start: nat, n: nat, k: nat)
    requires TriedInTurn(attempts, start, n, k) && k < n && |more| == k + 1 && more[..k] == attempts[..k]
    requires more[k] == Attempt(Stop(start, k, n), Refused) || more[k] == Attempt(Stop(start, k, n), Erred)
    ensures TriedInTurn(more, start, n, k + 1)
  {
    hide Stop;
    assert forall i :: 0 <= i < k ==> more[..k][i] == more[i] && attempts[..k][i] == attempts[i];
  }

  lemma SamePrefixTried(attempts: seq<Attempt>, more: seq<Attempt>, start: nat, n: nat, k: nat)
    requires TriedInTurn(attempts, start, n, k) && k <= |more| && more[..k] == attempts[..k]
    ensures TriedInTurn(more, start, n, k)
  {
    hide Stop;
    assert forall i :: 0 <= i < k ==> more[..k][i] == more[i] && attempts[..k][i] == attempts[i];
  }

  lemma OthersInTurn(s: System, step: Step, id: nat, r: Record)
    requires Placed(s) && Enabled(s, step) && step.id != id && InTurn(s.calls, |s.brs|, id, r)
    ensures Noted(s, step, id, r) == r && InTurn(Apply(s, step).calls, |s.brs|, id, r)
  {
    hide Stop, Start, Ask, Succeed, Fail, TriedInTurn, Exhausted, EndedByAnswer;
  }

  lemma BeginInTurn(s: System, id: nat, r: Record)
    requires Placed(s) && id !in s.calls
    ensures InTurn(Apply(s, Begin(id)).calls, |s.brs|, id, Noted(s, Begin(id), id, r))
  {
    hide Stop, Start;
  }

  lemma ConsultInTurn(s: System, id: nat, now: int, r: Record)
    requires Placed(s) && Enabled(s, Consult(id, now)) && InTurn(s.calls, |s.brs|, id, r)
    ensures InTurn(Apply(s, Consult(id, now)).calls, |s.brs|, id, Noted(s, Consult(id, now), id, r))
  {
    hide Stop, Ask, TriedInTurn;
    var n, i := |s.brs|, s.calls[id].i;
    var more := Noted(s, Consult(id, now), id, r).attempts;
    assert more[..i] == r.attempts[..i] == r.attempts;
    SamePrefixTried(r.attempts, more, r.start, n, i);
    if !Ask(s.config, s.brs[At(s, id)], now).1 {
      TriedOneMore(r.attempts, more, r.start, n, i);
    }
  }

  lemma FinishInTurn(s: System, id: nat, ok: bool, now: int, r: Record)
    requires Placed(s) && Enabled(s, Finish(id, ok, now)) && InTurn(s.calls, |s.brs|, id, r)
    ensures InTurn(Apply(s, Finish(id, ok, now)).calls, |s.brs|, id, Noted(s, Finish(id, ok, now), id, r))
  {
    hide Stop, Succeed, Fail, TriedInTurn;
    var n, i := |s.brs|, s.calls[id].i;
    var more := Noted(s, Finish(id, ok, now), id, r).attempts;
    assert more[..i] == r.attempts[..i];
    SamePrefixTried(r.attempts, more, r.start, n, i);
    if !ok {
      TriedOneMore(r.attempts, more, r.start, n, i);
    }
  }

  /** In every interleaving, for every call, and for every pool. */
  lemma {:induction false} CallsInTurn(config: Config, n: nat, steps: seq<Step>, id: nat)
    requires Runs(Initial(config, n), steps)
    ensures InTurn(Exec(Initial(config, n), steps).calls, n, id, RecordOf(Initial(config, n), steps, id))
    decreases |steps|
  {
    hide InTurn, Noted, Apply;
    var s0 := Initial(config, n);
    if steps == [] {
      NoneInTurn(n, id);
    } else {
      var before, step := steps[..|steps| - 1], steps[|steps| - 1];
      CallsInTurn(config, n, before, id);
      var s, r := Exec(s0, before), RecordOf(s0, before, id);
      if step.id != id {
        OthersInTurn(s, step, id, r);
      } else {
        match step
        case Begin(_) => BeginInTurn(s, id, r);
        case Consult(_, now) => ConsultInTurn(s, id, now, r);
        case Finish(_, ok, now) => FinishInTurn(s, id, ok, now, r);
      }
    }
  }

  lemma NoneInTurn(n: nat, id: nat)
    ensures InTurn(map[], n, id, Unstarted)
  {
  }

  predicate Tried(attempts: seq<Attempt>, e: nat) {
    exists i :: 0 <= i < |attempts| && attempts[i].endpoint == e
  }

  /** So a call that has returned without an answer asked every endpoint exactly once, and each one
      refused it or failed. */
  lemma UnansweredTriedAll(config: Config, n: nat, steps: seq<Step>, id: nat)
    requires Runs(Initial(config, n), steps) && id !in Exec(Initial(config, n), steps).calls
    requires var r := RecordOf(Initial(config, n), steps, id);
             r.Started? && forall i :: 0 <= i < |r.attempts| ==> r.attempts[i].verdict != Answered
    ensures var r := RecordOf(Initial(config, n), steps, id);
            && |r.attempts| == n
            && (forall i :: 0 <= i < n ==> r.attempts[i].verdict == Refused || r.attempts[i].verdict == Erred)
            && (forall e :: 0 <= e < n ==> Tried(r.attempts, e))
            && (forall i, j :: 0 <= i < j < n ==> r.attempts[i].endpoint != r.attempts[j].endpoint)
  {
    hide RecordOf, Runs, Exec;
    CallsInTurn(config, n, steps, id);
    var r := RecordOf(Initial(config, n), steps, id);
    assert !EndedByAnswer(r.attempts, r.start, n);
    forall e | 0 <= e < n
      ensures Tried(r.attempts, e)
    {
      assert r.attempts[StopOf(r.start, e, n)].endpoint == e;
    }
    forall i, j | 0 <= i < j < n
      ensures r.attempts[i].endpoint != r.attempts[j].endpoint
    {
      StopsDistinct(r.start, i, j, n);
    }
  }
}
