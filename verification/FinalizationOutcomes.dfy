/**
 * What finalization comes to: an undisturbed call calls every finalizer that is not completed, in plan order and
 * once, and stores the operation as completed; a finalizer that fails stops the call there, and the next call goes
 * on from it.
 */
module FinalizationOutcomes {
  import opened Prelude
  import opened FinalizationPlan
  import opened FinalizationRuns
  import opened FinalizationSafety

  /** The finalizers that were called, in order. */
  function Calls(log: seq<Entry>): seq<string> {
    if log == [] then []
    else
      var last := log[|log| - 1];
      Calls(log[..|log| - 1]) + if last.Executed? then [last.id] else []
  }

  /** The steps from position k up to m that are not completed. */
  function Unfinished(steps: seq<Step>, k: nat, m: nat): (ids: seq<string>)
    requires k <= m <= |steps|
    decreases m - k
  {
    if k == m then []
    else (if steps[k].status.Completed? then [] else [steps[k].id]) + Unfinished(steps, k + 1, m)
  }

  /** The first n answers are successes. */
  predicate Succeed(script: seq<Outcome>, n: nat) {
    n <= |script| && forall i | 0 <= i < n :: script[i].Succeeds?
  }

  /** The record has the steps of the plan. */
  predicate Fits(plan: seq<string>, steps: seq<Step>) {
    |steps| == |plan| && forall i | 0 <= i < |plan| :: steps[i].id == plan[i]
  }

  /** The step after a call that reached it and succeeded. */
  function Done(step: Step): Step {
    if step.status.Completed? then step else Step(step.id, Completed, step.attempts + 1)
  }

  /** The steps from k up to m are done, the others are as they were. */
  predicate DoneBetween(before: seq<Step>, after: seq<Step>, k: nat, m: nat) {
    && |after| == |before|
    && forall i | 0 <= i < |before| :: after[i] == if k <= i < m then Done(before[i]) else before[i]
  }

  lemma CallsGrow(log: seq<Entry>, entry: Entry)
    ensures Calls(log + [entry]) == Calls(log) + if entry.Executed? then [entry.id] else []
    ensures LastStored(log + [entry]) == if entry.Stored? then Some(entry.record) else LastStored(log)
  {
    var longer := log + [entry];
    assert longer[..|longer| - 1] == log;
  }

  /** A save that succeeds is the last record stored, and calls nothing. */
  lemma SaveLands(w: World, r: Record)
    requires Succeed(w.script, 1)
    ensures
      var (w1, e) := Save(w, r);
      && e.Returned? && w1.script == w.script[1..] && Calls(w1.log) == Calls(w.log) && LastStored(w1.log) == Some(r)
  {
    CallsGrow(w.log, Stored(r));
  }

  lemma StepChanges(plan: seq<string>, r: Record, k: nat, status: StepStatus, attempts: nat)
    requires Distinct(plan) && Fits(plan, r.steps) && k < |plan|
    ensures |r.steps| == |plan| && r.steps[k].id == plan[k] && Fits(plan, WithStep(r, plan[k], status, attempts).steps)
    ensures WithStep(r, plan[k], status, attempts) == r.(steps := r.steps[k := Step(plan[k], status, attempts)])
  {
    forall i | 0 <= i < |plan|
      ensures ChangeStep(r.steps, plan[k], status, attempts)[i] == r.steps[k := Step(plan[k], status, attempts)][i]
    {
      assert i != k ==> plan[i] != plan[k];
    }
    assert ChangeStep(r.steps, plan[k], status, attempts) == r.steps[k := Step(plan[k], status, attempts)];
  }

  lemma TwoUpdates(steps: seq<Step>, k: nat, a: Step, b: Step)
    requires k < |steps|
    ensures steps[k := a][k := b] == steps[k := b]
  {
  }

  /** A step whose two saves and finalizer succeed is called once and completed. */
  lemma StepCompletes(plan: seq<string>, w: World, r: Record, k: nat)
    requires Distinct(plan) && Fits(plan, r.steps) && k < |plan| && Succeed(w.script, 3)
    requires !r.steps[k].status.Completed?
    ensures
      var (w1, next, e) := ExecuteStep(w, r, r.steps[k]);
      && e.Returned? && w1.script == w.script[3..] && Calls(w1.log) == Calls(w.log) + [plan[k]]
      && next == r.(steps := r.steps[k := Done(r.steps[k])])
  {
    var attempts := r.steps[k].attempts + 1;
    StepChanges(plan, r, k, Running, attempts);
    var running := WithStep(r, plan[k], Running, attempts);
    StepChanges(plan, running, k, Completed, attempts);
    hide WithStep, Save, Calls, LastStored, Distinct, Fits;
    TwoUpdates(r.steps, k, Step(plan[k], Running, attempts), Step(plan[k], Completed, attempts));
    SaveLands(w, running);
    var w1 := Save(w, running).0;
    CallsGrow(w1.log, Executed(plan[k]));
    SaveLands(World(w1.log + [Executed(plan[k])], w1.script[1..]), WithStep(running, plan[k], Completed, attempts));
  }

  /** A step whose finalizer fails is called once and stored failed, with the record. */
  lemma StepFails(plan: seq<string>, w: World, r: Record, k: nat)
    requires Distinct(plan) && Fits(plan, r.steps) && k < |plan| && |w.script| >= 4
    requires Succeed(w.script, 1) && !w.script[1].Succeeds? && w.script[2].Succeeds? && w.script[3].Succeeds?
    ensures
      var (w1, next, e) := ExecuteStep(w, r, r.steps[k]);
      && e.Threw? && w1.script == w.script[4..] && Calls(w1.log) == Calls(w.log) + [plan[k]]
      && LastStored(w1.log) ==
         Some(r.(status := Failed, steps := r.steps[k := Step(plan[k], Failed, r.steps[k].attempts + 1)]))
  {
    var attempts := r.steps[k].attempts + 1;
    StepChanges(plan, r, k, Running, attempts);
    var running := WithStep(r, plan[k], Running, attempts);
    StepChanges(plan, running, k, Failed, attempts);
    var failed := WithStep(running, plan[k], Failed, attempts);
    hide WithStep, Save, Calls, LastStored, Distinct, Fits;
    TwoUpdates(r.steps, k, Step(plan[k], Running, attempts), Step(plan[k], Failed, attempts));
    SaveLands(w, running);
    var w1 := Save(w, running).0;
    CallsGrow(w1.log, Executed(plan[k]));
    var called := World(w1.log + [Executed(plan[k])], w1.script[1..]);
    SaveLands(called, failed);
    SaveLands(Save(called, failed).0, failed.(status := Failed));
  }

  /** As long as everything succeeds the loop comes to position m with the steps before it done. */
  lemma {:induction false} LoopReaches(plan: seq<string>, w: World, r: Record, k: nat, m: nat)
    returns (w1: World, next: Record)
    requires Distinct(plan) && Fits(plan, r.steps) && k <= m <= |plan|
    requires Succeed(w.script, 3 * |Unfinished(r.steps, k, m)|)
    ensures ExecuteFrom(plan, w, r, k) == ExecuteFrom(plan, w1, next, m)
    ensures w1.script == w.script[3 * |Unfinished(r.steps, k, m)|..]
    ensures Calls(w1.log) == Calls(w.log) + Unfinished(r.steps, k, m)
    ensures next == r.(steps := next.steps) && Fits(plan, next.steps) && DoneBetween(r.steps, next.steps, k, m)
    decreases m - k
  {
    hide ExecuteStep, ExecuteFrom, Calls, Succeed, Done, Fits, Distinct, DoneBetween;
    w1, next := w, r;
    if k == m {
      NothingDone(r.steps, k);
    } else {
      LoopStep(plan, w, r, k);
      if r.steps[k].status.Completed? {
        w1, next := LoopReaches(plan, w, r, k + 1, m);
        AlreadyDone(r.steps, k);
        DoneFurther(r.steps, r.steps, next.steps, k, m);
      } else {
        var ids := Unfinished(r.steps, k + 1, m);
        ScriptGoesOn(w.script, 3, 3 * |ids|);
        StepCompletes(plan, w, r, k);
        var (w2, second, e) := ExecuteStep(w, r, r.steps[k]);
        OneIsDone(plan, r.steps, second.steps, k, m);
        w1, next := LoopReaches(plan, w2, second, k + 1, m);
        DoneFurther(r.steps, second.steps, next.steps, k, m);
        assert Calls(w.log) + [plan[k]] + ids == Calls(w.log) + ([plan[k]] + ids);
      }
    }
  }

  /** Position k of the loop. */
  lemma LoopStep(plan: seq<string>, w: World, r: Record, k: nat)
    requires Distinct(plan) && Fits(plan, r.steps) && k < |plan|
    ensures |r.steps| == |plan| && r.steps[k].id == plan[k]
    ensures r.steps[k].status.Completed? ==> ExecuteFrom(plan, w, r, k) == ExecuteFrom(plan, w, r, k + 1)
    ensures
      var (w1, next, e) := ExecuteStep(w, r, r.steps[k]);
      !r.steps[k].status.Completed? && e.Returned? ==>
        ExecuteFrom(plan, w, r, k) == ExecuteFrom(plan, w1, next, k + 1)
  {
    hide ExecuteStep;
    FindsItsStep(r.steps, plan, k);
  }

  lemma ScriptGoesOn(script: seq<Outcome>, a: nat, b: nat)
    requires Succeed(script, a + b)
    ensures Succeed(script, a) && Succeed(script[a..], b) && script[a..][b..] == script[a + b..]
  {
  }

  lemma NothingDone(steps: seq<Step>, k: nat)
    ensures DoneBetween(steps, steps, k, k)
  {
  }

  lemma AlreadyDone(steps: seq<Step>, k: nat)
    requires k < |steps| && steps[k].status.Completed?
    ensures steps == steps[k := Done(steps[k])]
  {
  }

  lemma OneIsDone(plan: seq<string>, before: seq<Step>, after: seq<Step>, k: nat, m: nat)
    requires Fits(plan, before) && k < m <= |before| && after == before[k := Done(before[k])]
    ensures Fits(plan, after) && Unfinished(before, k + 1, m) == Unfinished(after, k + 1, m)
  {
    UnfinishedLater(before, after, k + 1, m);
  }

  lemma DoneFurther(before: seq<Step>, middle: seq<Step>, after: seq<Step>, k: nat, m: nat)
    requires k < m <= |before| && middle == before[k := Done(before[k])] && DoneBetween(middle, after, k + 1, m)
    ensures DoneBetween(before, after, k, m)
  {
  }

  lemma {:induction false} UnfinishedLater(a: seq<Step>, b: seq<Step>, k: nat, m: nat)
    requires k <= m <= |a| == |b| && a[k..m] == b[k..m]
    ensures Unfinished(a, k, m) == Unfinished(b, k, m)
    decreases m - k
  {
    if k < m {
      assert a[k] == a[k..m][0] == b[k..m][0] == b[k];
      assert a[k + 1..m] == a[k..m][1..] == b[k..m][1..] == b[k + 1..m];
      UnfinishedLater(a, b, k + 1, m);
    }
  }

  // ----- Whole calls -----

  /** The record a call of run works on. */
  function Begun(plan: seq<string>, version: string, log: seq<Entry>): Record {
    LastStored(log).GetOr(NewRecord(plan, version))
  }

  /** The operation is stored as completed: every step that was not has been called once, in plan order. */
  predicate Completes(plan: seq<string>, before: seq<Entry>, r: Record, after: seq<Entry>) {
    && Fits(plan, r.steps) && LastStored(after).Some?
    && Calls(after) == Calls(before) + Unfinished(r.steps, 0, |plan|)
    && var stored := LastStored(after).value;
    && stored.status.Completed? && stored.planVersion == r.planVersion && DoneBetween(r.steps, stored.steps, 0, |plan|)
  }

  /** The finalizer at position m failed: it was the last one called, its step and the operation are stored failed. */
  predicate FailsAt(plan: seq<string>, before: seq<Entry>, r: Record, m: nat, after: seq<Entry>) {
    && Fits(plan, r.steps) && LastStored(after).Some? && m < |plan|
    && Calls(after) == Calls(before) + Unfinished(r.steps, 0, m) + [plan[m]]
    && var stored := LastStored(after).value;
    && stored.status.Failed? && stored.planVersion == r.planVersion && |stored.steps| == |plan|
    && DoneBetween(r.steps, stored.steps[m := r.steps[m]], 0, m)
    && stored.steps[m] == Step(plan[m], Failed, r.steps[m].attempts + 1)
  }

  lemma ExecuteCompletes(plan: seq<string>, w: World, r: Record)
    requires Distinct(plan) && Fits(plan, r.steps) && Succeed(w.script, 3 * |Unfinished(r.steps, 0, |plan|)| + 2)
    ensures
      var (w1, e) := Execute(plan, w, r);
      && e.Returned? && Completes(plan, w.log, r, w1.log)
      && LastStored(w1.log).value.hasContext == r.hasContext
  {
    hide Save, Calls, Unfinished;
    var running := r.(status := Running);
    SaveLands(w, running);
    var w1 := Save(w, running).0;
    var w2, next := LoopReaches(plan, w1, running, 0, |plan|);
    SaveLands(w2, next.(status := Completed));
  }

  lemma ExecuteFailsAt(plan: seq<string>, w: World, r: Record, m: nat)
    requires Distinct(plan) && Fits(plan, r.steps) && m < |plan| && !r.steps[m].status.Completed?
    requires FailingScript(w.script, r.steps, m)
    ensures
      var (w1, e) := Execute(plan, w, r);
      && e.Threw? && FailsAt(plan, w.log, r, m, w1.log) && LastStored(w1.log).value.hasContext == r.hasContext
  {
    hide Save, Calls, Unfinished, ExecuteStep;
    var running := r.(status := Running);
    SaveLands(w, running);
    var w1 := Save(w, running).0;
    var w2, next := LoopReaches(plan, w1, running, 0, m);
    FindsItsStep(next.steps, plan, m);
    StepFails(plan, w2, next, m);
  }

  /** The answers up to the finalizer at position m are successes; it fails, and what it leaves is stored. */
  predicate FailingScript(script: seq<Outcome>, steps: seq<Step>, m: nat)
    requires m <= |steps|
  {
    var n := 3 * |Unfinished(steps, 0, m)| + 2;
    && n + 3 <= |script| && Succeed(script, n)
    && !script[n].Succeeds? && script[n + 1].Succeeds? && script[n + 2].Succeeds?
  }

  // ----- After any history -----

  /** Answers to a call of run: the recovery context is saved first where one is projected. */
  function Projection(r: Record, hasProjector: bool): nat {
    if !r.hasContext && hasProjector then 1 else 0
  }

  lemma BegunFits(plan: seq<string>, version: string, calls: seq<Call>)
    requires Distinct(plan) && ResumesStored(plan, version, calls)
    ensures
      var r := Begun(plan, version, History(plan, version, calls));
      Fits(plan, r.steps) && r.planVersion == version
  {
    hide History;
    HistoryKeeps(plan, version, calls);
    StoredFacts(plan, version, History(plan, version, calls));
  }

  lemma RunExecutes(plan: seq<string>, version: string, w: World, hasProjector: bool) returns (w1: World, r: Record)
    requires Begun(plan, version, w.log).planVersion == version
    requires Succeed(w.script, Projection(Begun(plan, version, w.log), hasProjector))
    ensures
      var begun := Begun(plan, version, w.log);
      && r == begun.(hasContext := begun.hasContext || hasProjector)
      && Run(plan, version, w, hasProjector) == Execute(plan, w1, r)
      && w1.script == w.script[Projection(begun, hasProjector)..] && Calls(w1.log) == Calls(w.log)
  {
    hide Save, Execute;
    var begun := Begun(plan, version, w.log);
    w1, r := w, begun;
    if Projection(begun, hasProjector) == 1 {
      r := begun.(hasContext := true);
      SaveLands(w, r);
      w1 := Save(w, r).0;
    }
  }

  /**
   * After any history, a run that nothing disturbs calls every finalizer that is not completed, once and in plan
   * order, and the operation is stored as completed, each attempt counted.
   */
  lemma UndisturbedRunCompletes(
    plan: seq<string>, version: string, calls: seq<Call>, hasProjector: bool, script: seq<Outcome>)
    requires Distinct(plan) && ResumesStored(plan, version, calls)
    requires
      var r := Begun(plan, version, History(plan, version, calls));
      Succeed(script, 3 * |Unfinished(r.steps, 0, |r.steps|)| + 2 + Projection(r, hasProjector))
    ensures
      var log := History(plan, version, calls);
      var (w, e) := Run(plan, version, World(log, script), hasProjector);
      var r := Begun(plan, version, log);
      && e.Returned? && Completes(plan, log, r, w.log)
      && LastStored(w.log).value.hasContext == (r.hasContext || hasProjector)
  {
    hide History, Run, Execute, Calls, Unfinished;
    BegunFits(plan, version, calls);
    var log := History(plan, version, calls);
    var begun := Begun(plan, version, log);
    var w, r := RunExecutes(plan, version, World(log, script), hasProjector);
    ScriptGoesOn(script, Projection(begun, hasProjector), 3 * |Unfinished(r.steps, 0, |plan|)| + 2);
    ExecuteCompletes(plan, w, r);
  }

  /** Resume does the same with the record of the store, provided that it holds a recovery context. */
  lemma UndisturbedResumeCompletes(
    plan: seq<string>, version: string, calls: seq<Call>, given: Record, script: seq<Outcome>)
    requires Distinct(plan) && ResumesStored(plan, version, calls) && given.planVersion == version
    requires LastStored(History(plan, version, calls)).Some?
    requires LastStored(History(plan, version, calls)).value.hasContext
    requires
      var r := Begun(plan, version, History(plan, version, calls));
      Succeed(script, 3 * |Unfinished(r.steps, 0, |r.steps|)| + 2)
    ensures
      var log := History(plan, version, calls);
      var (w, e) := Resume(plan, version, World(log, script), given);
      e.Returned? && Completes(plan, log, LastStored(log).value, w.log)
  {
    hide History, Execute, Unfinished, Completes;
    BegunFits(plan, version, calls);
    var log := History(plan, version, calls);
    ExecuteCompletes(plan, World(log, script), LastStored(log).value);
  }

  /**
   * After any history, a run whose first failing finalizer stands at position m calls the ones before it that are
   * not completed and this one, no later one, and stores the failure.
   */
  lemma FailureIsStored(
    plan: seq<string>, version: string, calls: seq<Call>, hasProjector: bool, script: seq<Outcome>, m: nat)
    requires Distinct(plan) && ResumesStored(plan, version, calls) && m < |plan|
    requires
      var r := Begun(plan, version, History(plan, version, calls));
      var n := Projection(r, hasProjector);
      && m < |r.steps| && !r.steps[m].status.Completed?
      && Succeed(script, n) && FailingScript(script[n..], r.steps, m)
    ensures
      var log := History(plan, version, calls);
      var (w, e) := Run(plan, version, World(log, script), hasProjector);
      e.Threw? && FailsAt(plan, log, Begun(plan, version, log), m, w.log)
  {
    hide History, Run, Execute, Calls, Unfinished, FailingScript;
    BegunFits(plan, version, calls);
    var log := History(plan, version, calls);
    var w, r := RunExecutes(plan, version, World(log, script), hasProjector);
    ExecuteFailsAt(plan, w, r, m);
  }

  /** What is left to do after such a failure is the failed step and those after it. */
  lemma FailedStepIsNext(plan: seq<string>, before: seq<Entry>, r: Record, m: nat, after: seq<Entry>)
    requires FailsAt(plan, before, r, m, after)
    ensures
      var steps := LastStored(after).value.steps;
      && |steps| == |plan| && |r.steps| == |plan|
      && Unfinished(steps, 0, |plan|) == [plan[m]] + Unfinished(r.steps, m + 1, |plan|)
  {
    hide LastStored, Calls, Unfinished, Fits;
    var steps := LastStored(after).value.steps;
    UnfinishedStep(steps, m);
    var others := steps[m := r.steps[m]];
    assert forall i | 0 <= i < |plan| && i != m :: steps[i] == others[i];
    SplitUnfinished(steps, 0, m);
    FinishedHasNone(steps, 0, m);
    assert steps[m + 1..|plan|] == r.steps[m + 1..|plan|];
    UnfinishedLater(steps, r.steps, m + 1, |plan|);
  }

  lemma UnfinishedStep(steps: seq<Step>, m: nat)
    requires m < |steps| && !steps[m].status.Completed?
    ensures Unfinished(steps, m, |steps|) == [steps[m].id] + Unfinished(steps, m + 1, |steps|)
  {
  }

  lemma {:induction false} SplitUnfinished(steps: seq<Step>, k: nat, m: nat)
    requires k <= m <= |steps|
    ensures Unfinished(steps, k, |steps|) == Unfinished(steps, k, m) + Unfinished(steps, m, |steps|)
    decreases m - k
  {
    if k < m {
      SplitUnfinished(steps, k + 1, m);
    }
  }

  lemma {:induction false} FinishedHasNone(steps: seq<Step>, k: nat, m: nat)
    requires k <= m <= |steps| && forall i | k <= i < m :: steps[i].status.Completed?
    ensures Unfinished(steps, k, m) == []
    decreases m - k
  {
    if k < m {
      FinishedHasNone(steps, k + 1, m);
    }
  }

  /** A record of another plan version is refused by run and resume alike, and nothing is saved or called. */
  lemma OtherPlanIsRefused(
    plan: seq<string>, version: string, w: World, hasProjector: bool, given: Record, stored: Record)
    requires LastStored(w.log) == Some(stored)
    ensures Run(plan, version, w, hasProjector) == (w, Threw) || stored.planVersion == version
    ensures given.planVersion != version || stored.planVersion != version || !stored.hasContext ==>
              Resume(plan, version, w, given) == (w, Threw)
  {
  }
}
