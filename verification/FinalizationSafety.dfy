/**
 * What every history of finalization runs keeps: calls of run and resume one after another, failing or stopping
 * anywhere, whatever their saves do.
 */
module FinalizationSafety {
  import opened Prelude
  import opened FinalizationPlan
  import opened FinalizationRuns

  // ----- The invariant -----

  predicate AllCompleted(r: Record) {
    forall i | 0 <= i < |r.steps| :: r.steps[i].status.Completed?
  }

  predicate CompletedBefore(r: Record, k: nat) {
    forall i | 0 <= i < k && i < |r.steps| :: r.steps[i].status.Completed?
  }

  /** The record is one of this plan; a step that was begun has only completed steps before it. */
  predicate RecordOk(plan: seq<string>, version: string, r: Record) {
    && r.planVersion == version && |r.steps| == |plan|
    && (forall i | 0 <= i < |plan| :: r.steps[i].id == plan[i])
    && (forall i | 0 <= i < |plan| :: !r.steps[i].status.Pending? ==> CompletedBefore(r, i))
    && (r.status.Completed? ==> AllCompleted(r))
  }

  /** How often a finalizer was called. */
  function Executions(log: seq<Entry>, id: string): nat {
    if log == [] then 0
    else Executions(log[..|log| - 1], id) + if log[|log| - 1] == Executed(id) then 1 else 0
  }

  /** A completed step has been executed, and a step has not been executed more often than its count says. */
  predicate Counted(log: seq<Entry>, step: Step) {
    Executions(log, step.id) <= step.attempts && (step.status.Completed? ==> Executions(log, step.id) > 0)
  }

  predicate StoredOk(plan: seq<string>, version: string, log: seq<Entry>, r: Record) {
    RecordOk(plan, version, r) && forall i | 0 <= i < |r.steps| :: Counted(log, r.steps[i])
  }

  /** The finalizer at plan position k is called while its step is stored as running, all earlier ones completed. */
  predicate CallOk(plan: seq<string>, version: string, log: seq<Entry>, k: nat) {
    && LastStored(log).Some? && k < |plan|
    && var r := LastStored(log).value;
    && RecordOk(plan, version, r) && r.steps[k].status.Running? && CompletedBefore(r, k)
    && Executions(log, plan[k]) < r.steps[k].attempts
  }

  predicate LogOk(plan: seq<string>, version: string, log: seq<Entry>) {
    log == [] ||
    var n := |log| - 1;
    && LogOk(plan, version, log[..n])
    && match log[n]
       case Stored(r) => StoredOk(plan, version, log[..n], r)
       case Executed(id) => exists k :: 0 <= k < |plan| && plan[k] == id && CallOk(plan, version, log[..n], k)
  }

  /** resume is called with a record that was read from the store. */
  predicate ResumesStored(plan: seq<string>, version: string, calls: seq<Call>) {
    calls == [] ||
    var n := |calls| - 1;
    && ResumesStored(plan, version, calls[..n])
    && (calls[n].ResumeCalled? ==> LastStored(History(plan, version, calls[..n])).Some?)
  }

  // ----- One save, one call -----

  /** What the stored record says holds of the log it ends. */
  lemma {:induction false} StoredFacts(plan: seq<string>, version: string, log: seq<Entry>)
    requires Distinct(plan) && LogOk(plan, version, log)
    ensures LastStored(log).None? ==> forall id: string :: Executions(log, id) == 0
    ensures LastStored(log).Some? ==>
              && RecordOk(plan, version, LastStored(log).value)
              && forall i | 0 <= i < |plan| :: Counted(log, LastStored(log).value.steps[i])
    decreases |log|
  {
    if log != [] {
      var n := |log| - 1;
      StoredFacts(plan, version, log[..n]);
      if log[n].Executed? {
        var k :| 0 <= k < |plan| && plan[k] == log[n].id && CallOk(plan, version, log[..n], k);
        var r := LastStored(log[..n]).value;
        forall i | 0 <= i < |plan| ensures Counted(log, r.steps[i]) {
          assert Counted(log[..n], r.steps[i]);
          if i != k {
            assert plan[i] != plan[k];
          }
        }
      }
    }
  }

  /** A save counts no call, so what fitted the log still fits. */
  lemma SavedFits(plan: seq<string>, version: string, log: seq<Entry>, saved: Record, r: Record)
    requires StoredOk(plan, version, log, r)
    ensures StoredOk(plan, version, log + [Stored(saved)], r)
  {
    var longer := log + [Stored(saved)];
    assert longer[..|longer| - 1] == log;
    assert forall i | 0 <= i < |r.steps| :: Counted(log, r.steps[i]);
    forall i | 0 <= i < |r.steps| ensures Counted(longer, r.steps[i]) {
      assert Executions(longer, r.steps[i].id) == Executions(log, r.steps[i].id);
    }
  }

  lemma SaveKeeps(plan: seq<string>, version: string, w: World, r: Record)
    requires LogOk(plan, version, w.log) && StoredOk(plan, version, w.log, r)
    ensures
      var (w1, e) := Save(w, r);
      && LogOk(plan, version, w1.log) && StoredOk(plan, version, w1.log, r)
      && (w1.log == w.log || w1.log == w.log + [Stored(r)])
      && (e.Returned? ==> w1.log == w.log + [Stored(r)] && LastStored(w1.log) == Some(r))
  {
    hide StoredOk;
    var longer := w.log + [Stored(r)];
    assert longer[..|longer| - 1] == w.log;
    SavedFits(plan, version, w.log, r, r);
  }

  /** A record that differs in what the steps do not show. */
  lemma RelabelOk(plan: seq<string>, version: string, log: seq<Entry>, before: Record, r: Record)
    requires StoredOk(plan, version, log, before)
    requires r.planVersion == before.planVersion && r.steps == before.steps
        && (r.status.Completed? ==> AllCompleted(before))
    ensures StoredOk(plan, version, log, r)
  {
  }

  /** The step at position k changes. */
  lemma ChangeOk(
    plan: seq<string>, version: string, log: seq<Entry>, before: Record, k: nat, status: StepStatus, attempts: nat)
    requires Distinct(plan) && StoredOk(plan, version, log, before)
    requires k < |plan| && CompletedBefore(before, k) && !status.Pending? && before.steps[k].attempts <= attempts
    requires !before.steps[k].status.Completed? && before.status.Running?
    requires status.Completed? ==> Executions(log, plan[k]) > 0
    ensures
      var r := WithStep(before, plan[k], status, attempts);
      StoredOk(plan, version, log, r) && CompletedBefore(r, k) && r.steps[k] == Step(plan[k], status, attempts)
  {
    var r := WithStep(before, plan[k], status, attempts);
    forall i | 0 <= i < |plan|
      ensures r.steps[i] == if i == k then Step(plan[k], status, attempts) else before.steps[i]
    {
      assert before.steps[i].id == plan[i];
      assert i != k ==> plan[i] != plan[k];
    }
    assert Counted(log, before.steps[k]);
  }

  lemma FailKeeps(plan: seq<string>, version: string, w: World, running: Record, k: nat, attempts: nat)
    requires Distinct(plan) && LogOk(plan, version, w.log) && StoredOk(plan, version, w.log, running)
    requires k < |plan| && CompletedBefore(running, k) && running.status.Running?
    requires |running.steps| == |plan| && running.steps[k] == Step(plan[k], Running, attempts)
    ensures LogOk(plan, version, Fail(w, running, plan[k], attempts).0.log)
  {
    var failed := WithStep(running, plan[k], Failed, attempts);
    ChangeOk(plan, version, w.log, running, k, Failed, attempts);
    hide StoredOk, LogOk, Save;
    SaveKeeps(plan, version, w, failed);
    var (w1, e1) := Save(w, failed);
    if e1.Returned? {
      RelabelOk(plan, version, w1.log, failed, failed.(status := Failed));
      SaveKeeps(plan, version, w1, failed.(status := Failed));
    }
  }

  lemma CallKeeps(plan: seq<string>, version: string, log: seq<Entry>, k: nat)
    requires LogOk(plan, version, log) && CallOk(plan, version, log, k)
    ensures
      var longer := log + [Executed(plan[k])];
      && LogOk(plan, version, longer) && LastStored(longer) == LastStored(log)
      && Executions(longer, plan[k]) == Executions(log, plan[k]) + 1
  {
    var longer := log + [Executed(plan[k])];
    assert longer[..|longer| - 1] == log;
  }

  /** After the call the record that allowed it still fits the log. */
  lemma CalledFits(plan: seq<string>, version: string, log: seq<Entry>, k: nat)
    requires Distinct(plan) && LogOk(plan, version, log) && CallOk(plan, version, log, k)
    ensures StoredOk(plan, version, log + [Executed(plan[k])], LastStored(log).value)
    ensures Executions(log + [Executed(plan[k])], plan[k]) > 0
  {
    CallKeeps(plan, version, log, k);
    StoredFacts(plan, version, log + [Executed(plan[k])]);
  }

  lemma ExecuteStepKeeps(plan: seq<string>, version: string, w: World, record: Record, k: nat)
    requires Distinct(plan) && LogOk(plan, version, w.log) && StoredOk(plan, version, w.log, record)
    requires k < |plan| && |record.steps| == |plan| && CompletedBefore(record, k) && record.status.Running?
    requires record.steps[k].id == plan[k] && !record.steps[k].status.Completed?
    ensures
      var (w1, next, e) := ExecuteStep(w, record, record.steps[k]);
      && LogOk(plan, version, w1.log)
      && (e.Returned? ==>
            && LastStored(w1.log) == Some(next) && StoredOk(plan, version, w1.log, next) && |next.steps| == |plan|
            && next.status.Running? && CompletedBefore(next, k + 1))
  {
    hide LogOk, RecordOk, Save, Fail, Executions, WithStep;
    var attempts := record.steps[k].attempts + 1;
    var running := WithStep(record, plan[k], Running, attempts);
    ChangeOk(plan, version, w.log, record, k, Running, attempts);
    assert Counted(w.log, record.steps[k]);
    hide StoredOk;
    WithStepShape(record, plan[k], Running, attempts);
    SaveKeeps(plan, version, w, running);
    var (w1, e1) := Save(w, running);
    if e1.Returned? && w1.script != [] {
      AfterSaveRunning(plan, version, w.log, record, running, k);
      CallKeeps(plan, version, w1.log, k);
      CalledFits(plan, version, w1.log, k);
      var called := World(w1.log + [Executed(plan[k])], w1.script[1..]);
      FailKeeps(plan, version, called, running, k, attempts);
      if w1.script[0].Succeeds? {
        var completed := WithStep(running, plan[k], Completed, attempts);
        ChangeOk(plan, version, called.log, running, k, Completed, attempts);
        WithStepShape(running, plan[k], Completed, attempts);
        SaveKeeps(plan, version, called, completed);
        SavedFits(plan, version, called.log, completed, running);
        var (w3, e3) := Save(called, completed);
        if e3.Threw? {
          FailKeeps(plan, version, w3, running, k, attempts);
        }
      }
    }
  }

  lemma WithStepShape(r: Record, id: string, status: StepStatus, attempts: nat)
    ensures
      var changed := WithStep(r, id, status, attempts);
      changed.status == r.status && |changed.steps| == |r.steps|
  {
  }

  /** Once the step is stored as running its finalizer may be called. */
  lemma AfterSaveRunning(plan: seq<string>, version: string, log: seq<Entry>, record: Record, running: Record, k: nat)
    requires StoredOk(plan, version, log, running) && k < |plan| && |record.steps| == |plan|
    requires Counted(log, record.steps[k]) && record.steps[k].id == plan[k]
    requires CompletedBefore(running, k) && running.steps[k] == Step(plan[k], Running, record.steps[k].attempts + 1)
    ensures CallOk(plan, version, log + [Stored(running)], k)
  {
    var longer := log + [Stored(running)];
    assert longer[..|longer| - 1] == log;
    assert Executions(longer, plan[k]) == Executions(log, plan[k]);
  }

  lemma {:induction false} FindsItsStep(steps: seq<Step>, plan: seq<string>, k: nat)
    requires |steps| == |plan| && k < |plan| && Distinct(plan) && forall i | 0 <= i < |plan| :: steps[i].id == plan[i]
    ensures FindStep(steps, plan[k]) == Some(steps[k])
    decreases k
  {
    if k > 0 {
      assert steps[0].id != plan[k];
      FindsItsStep(steps[1..], plan[1..], k - 1);
    }
  }

  lemma {:induction false} ExecuteFromKeeps(plan: seq<string>, version: string, w: World, record: Record, k: nat)
    requires Distinct(plan) && LogOk(plan, version, w.log) && StoredOk(plan, version, w.log, record)
    requires k <= |plan| && |record.steps| == |plan| && CompletedBefore(record, k) && record.status.Running?
    ensures LogOk(plan, version, ExecuteFrom(plan, w, record, k).0.log)
    ensures ExecuteFrom(plan, w, record, k).1.Returned? ==>
              var stored := LastStored(ExecuteFrom(plan, w, record, k).0.log);
              stored.Some? && stored.value.status.Completed?
    decreases |plan| - k
  {
    assert RecordOk(plan, version, record);
    hide LogOk, StoredOk, Save, ExecuteStep;
    if k == |plan| {
      RelabelOk(plan, version, w.log, record, record.(status := Completed));
      SaveKeeps(plan, version, w, record.(status := Completed));
    } else {
      FindsItsStep(record.steps, plan, k);
      if record.steps[k].status.Completed? {
        ExecuteFromKeeps(plan, version, w, record, k + 1);
      } else {
        ExecuteStepKeeps(plan, version, w, record, k);
        var (w1, next, e) := ExecuteStep(w, record, record.steps[k]);
        if e.Returned? {
          ExecuteFromKeeps(plan, version, w1, next, k + 1);
        }
      }
    }
  }

  /** A record about to be executed: the stored one, or a new one while nothing is stored. */
  predicate Executable(plan: seq<string>, version: string, log: seq<Entry>, source: Record) {
    if LastStored(log).Some? then source == LastStored(log).value
    else source.steps == NewRecord(plan, version).steps && source.planVersion == version && source.status.Pending?
  }

  lemma ExecutableOk(plan: seq<string>, version: string, log: seq<Entry>, source: Record, r: Record)
    requires Distinct(plan) && LogOk(plan, version, log) && Executable(plan, version, log, source)
    requires r.steps == source.steps && r.planVersion == source.planVersion
    requires r.status == source.status || r.status.Running?
    ensures StoredOk(plan, version, log, r)
  {
    StoredFacts(plan, version, log);
  }

  lemma ExecuteKeeps(plan: seq<string>, version: string, w: World, source: Record)
    requires Distinct(plan) && LogOk(plan, version, w.log) && Executable(plan, version, w.log, source)
    ensures LogOk(plan, version, Execute(plan, w, source).0.log)
    ensures Execute(plan, w, source).1.Returned? ==>
              var stored := LastStored(Execute(plan, w, source).0.log);
              stored.Some? && stored.value.status.Completed?
  {
    var running := source.(status := Running);
    ExecutableOk(plan, version, w.log, source, running);
    assert |running.steps| == |plan|;
    hide LogOk, StoredOk, Save, ExecuteFrom;
    SaveKeeps(plan, version, w, running);
    var (w1, e1) := Save(w, running);
    if e1.Returned? {
      ExecuteFromKeeps(plan, version, w1, running, 0);
    }
  }

  lemma RunKeeps(plan: seq<string>, version: string, w: World, hasProjector: bool)
    requires Distinct(plan) && LogOk(plan, version, w.log)
    ensures LogOk(plan, version, Run(plan, version, w, hasProjector).0.log)
  {
    var record := LastStored(w.log).GetOr(NewRecord(plan, version));
    hide LogOk, Save, Execute, StoredOk;
    if record.planVersion == version {
      if !record.hasContext && hasProjector {
        var projected := record.(hasContext := true);
        ExecutableOk(plan, version, w.log, record, projected);
        SaveKeeps(plan, version, w, projected);
        var (w1, e1) := Save(w, projected);
        if e1.Returned? {
          ExecuteKeeps(plan, version, w1, projected);
        }
      } else {
        ExecuteKeeps(plan, version, w, record);
      }
    }
  }

  lemma CallOfHistoryKeeps(plan: seq<string>, version: string, log: seq<Entry>, call: Call)
    requires Distinct(plan) && LogOk(plan, version, log) && (call.ResumeCalled? ==> LastStored(log).Some?)
    ensures LogOk(plan, version, AfterCall(plan, version, log, call))
  {
    hide LogOk, Execute, Run, LastStored;
    match call
    case RunCalled(hasProjector, script) => RunKeeps(plan, version, World(log, script), hasProjector);
    case ResumeCalled(given, script) => ExecuteKeeps(plan, version, World(log, script), LastStored(log).GetOr(given));
  }

  lemma {:induction false} HistoryKeeps(plan: seq<string>, version: string, calls: seq<Call>)
    requires Distinct(plan) && ResumesStored(plan, version, calls)
    ensures LogOk(plan, version, History(plan, version, calls))
    decreases |calls|
  {
    hide AfterCall;
    if calls != [] {
      var n := |calls| - 1;
      HistoryKeeps(plan, version, calls[..n]);
      CallOfHistoryKeeps(plan, version, History(plan, version, calls[..n]), calls[n]);
    }
  }

  // ----- Main results -----

  /** Whatever was stored at any time is a record of this plan whose completed steps form a prefix of the plan. */
  lemma {:induction false} StoredAt(plan: seq<string>, version: string, log: seq<Entry>, p: nat)
    requires LogOk(plan, version, log) && p < |log|
    ensures LogOk(plan, version, log[..p])
    ensures log[p].Stored? ==> StoredOk(plan, version, log[..p], log[p].record)
    ensures log[p].Executed? ==>
              exists k :: 0 <= k < |plan| && plan[k] == log[p].id && CallOk(plan, version, log[..p], k)
    decreases |log|
  {
    var n := |log| - 1;
    if p < n {
      StoredAt(plan, version, log[..n], p);
      assert log[..n][..p] == log[..p];
    }
  }

  /**
   * In every stored record the completed steps are a prefix of the plan, everything before a step that was begun
   * is completed, and the record itself is completed only when every step is.
   */
  lemma StoredRecordsAreInOrder(plan: seq<string>, version: string, calls: seq<Call>, p: nat)
    requires Distinct(plan) && ResumesStored(plan, version, calls)
    requires var log := History(plan, version, calls); p < |log| && log[p].Stored?
    ensures
      var r := History(plan, version, calls)[p].record;
      && |r.steps| == |plan|
      && (forall i, j | 0 <= i < j < |plan| :: !r.steps[j].status.Pending? ==> r.steps[i].status.Completed?)
      && (r.status.Completed? ==> AllCompleted(r))
  {
    hide History;
    HistoryKeeps(plan, version, calls);
    StoredAt(plan, version, History(plan, version, calls), p);
    var r := History(plan, version, calls)[p].record;
    forall i, j | 0 <= i < j < |plan| && !r.steps[j].status.Pending? ensures r.steps[i].status.Completed? {
      assert CompletedBefore(r, j);
    }
  }

  /** A finalizer is called only after every finalizer it depends on is durably completed. */
  lemma DependenciesFirst(after: Dependencies, plan: seq<string>, version: string, calls: seq<Call>, p: nat, i: nat)
    requires IsPlan(after, plan) && ResumesStored(plan, version, calls) && i < |plan|
    requires var log := History(plan, version, calls); p < |log| && log[p].Executed? && log[p].id in after
    requires plan[i] in after[History(plan, version, calls)[p].id]
    ensures
      var stored := LastStored(History(plan, version, calls)[..p]);
      stored.Some? && |stored.value.steps| == |plan|
          && stored.value.steps[i] == Step(plan[i], Completed, stored.value.steps[i].attempts)
  {
    hide History;
    HistoryKeeps(plan, version, calls);
    var log := History(plan, version, calls);
    StoredAt(plan, version, log, p);
    var k :| 0 <= k < |plan| && plan[k] == log[p].id && CallOk(plan, version, log[..p], k);
    hide LogOk, IsPlan;
    assert plan[i] in plan[..k];
    var j :| 0 <= j < k && plan[j] == plan[i];
    assert i == j;
    assert LastStored(log[..p]).value.steps[i].status.Completed?;
  }

  /** A completed step was called at least once; no step was called more often than its stored count. */
  lemma CallsAreCounted(plan: seq<string>, version: string, calls: seq<Call>, k: nat)
    requires Distinct(plan) && ResumesStored(plan, version, calls) && k < |plan|
    requires LastStored(History(plan, version, calls)).Some?
    ensures
      var log := History(plan, version, calls);
      var r := LastStored(log).value;
      && |r.steps| == |plan|
      && Executions(log, plan[k]) <= r.steps[k].attempts
      && (r.steps[k].status.Completed? ==> Executions(log, plan[k]) > 0)
  {
    hide History;
    HistoryKeeps(plan, version, calls);
    StoredFacts(plan, version, History(plan, version, calls));
    assert Counted(History(plan, version, calls), LastStored(History(plan, version, calls)).value.steps[k]);
  }
}
