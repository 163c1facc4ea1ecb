/**
 * When a completed finalizer is called again: exactly when the save that completes its step writes and then throws,
 * and the catch block's save of the failed step lands over it.
 */
module FinalizationRepeats {
  import opened Prelude
  import opened FinalizationPlan
  import opened FinalizationRuns
  import opened FinalizationSafety

  // ----- The condition -----

  /**
   * What the four outcomes of one step have to be: running is stored, the finalizer succeeds, the save of
   * `completed` writes and throws, and the save of `failed` that answers it writes too.
   */
  predicate Overwrites(script: seq<Outcome>) {
    |script| >= 4 && script[0].Succeeds? && script[1].Succeeds? && script[2].FailsAfterWriting? && !script[3].Fails?
  }

  /** The loop from plan position j on meets these outcomes when it executes position k. */
  predicate FromOverwrites(plan: seq<string>, w: World, record: Record, j: nat, k: nat)
    requires j <= |plan|
    decreases |plan| - j
  {
    j < |plan| &&
    var step := FindStep(record.steps, plan[j]);
    if step.None? || step.value.status.Completed? then FromOverwrites(plan, w, record, j + 1, k)
    else if j == k then Overwrites(w.script)
    else
      var (w1, next, e) := ExecuteStep(w, record, step.value);
      e.Returned? && FromOverwrites(plan, w1, next, j + 1, k)
  }

  predicate ExecuteOverwrites(plan: seq<string>, w: World, source: Record, k: nat) {
    var running := source.(status := Running);
    var (w1, e1) := Save(w, running);
    e1.Returned? && FromOverwrites(plan, w1, running, 0, k)
  }

  predicate RunOverwrites(plan: seq<string>, version: string, w: World, hasProjector: bool, k: nat) {
    var record := LastStored(w.log).GetOr(NewRecord(plan, version));
    record.planVersion == version &&
    if !record.hasContext && hasProjector then
      var projected := record.(hasContext := true);
      var (w1, e1) := Save(w, projected);
      e1.Returned? && ExecuteOverwrites(plan, w1, projected, k)
    else ExecuteOverwrites(plan, w, record, k)
  }

  /** In this call the completed step at plan position k is overwritten. */
  predicate CallOverwrites(plan: seq<string>, version: string, log: seq<Entry>, call: Call, k: nat) {
    match call
    case RunCalled(hasProjector, script) => RunOverwrites(plan, version, World(log, script), hasProjector, k)
    case ResumeCalled(given, script) =>
      var latest := LastStored(log).GetOr(given);
      && given.planVersion == version && latest.planVersion == version && latest.hasContext
      && ExecuteOverwrites(plan, World(log, script), latest, k)
  }

  predicate NeverOverwrites(plan: seq<string>, version: string, calls: seq<Call>) {
    calls == [] ||
    var n := |calls| - 1;
    && NeverOverwrites(plan, version, calls[..n])
    && forall k | 0 <= k < |plan| :: !CallOverwrites(plan, version, History(plan, version, calls[..n]), calls[n], k)
  }

  /** The finalizer at plan position k is called after its step was stored as completed. */
  ghost predicate CalledAgain(plan: seq<string>, log: seq<Entry>, k: nat)
    requires k < |plan|
  {
    exists p, q {:trigger log[p], log[q]} :: 0 <= p < q < |log| && CompletedAt(log, p, k) && log[q] == Executed(plan[k])
  }

  predicate CompletedAt(log: seq<Entry>, p: nat, k: nat)
    requires p < |log|
  {
    log[p].Stored? && k < |log[p].record.steps| && log[p].record.steps[k].status.Completed?
  }

  // ----- Without an overwrite completed steps stay completed -----

  predicate KeepsCompleted(before: Record, after: Record) {
    |before.steps| == |after.steps| &&
    forall i | 0 <= i < |before.steps| :: before.steps[i].status.Completed? ==> after.steps[i].status.Completed?
  }

  predicate Follows(log: seq<Entry>, r: Record) {
    LastStored(log).Some? ==> KeepsCompleted(LastStored(log).value, r)
  }

  predicate Steady(log: seq<Entry>) {
    log == [] || (Steady(log[..|log| - 1]) &&
                  (log[|log| - 1].Stored? ==> Follows(log[..|log| - 1], log[|log| - 1].record)))
  }

  lemma EntrySteady(log: seq<Entry>, entry: Entry)
    requires Steady(log) && (entry.Stored? ==> Follows(log, entry.record))
    ensures Steady(log + [entry])
    ensures LastStored(log + [entry]) == if entry.Stored? then Some(entry.record) else LastStored(log)
  {
    assert (log + [entry])[..|log|] == log;
  }

  lemma SaveSteady(w: World, r: Record)
    requires Steady(w.log) && Follows(w.log, r)
    ensures
      var (w1, e) := Save(w, r);
      Steady(w1.log) && (e.Returned? ==> LastStored(w1.log) == Some(r))
          && (w1.log == w.log || LastStored(w1.log) == Some(r))
  {
    hide Steady, LastStored, Follows;
    EntrySteady(w.log, Stored(r));
  }

  /** Changing a step that is not completed keeps the completed ones. */
  lemma ChangeKeeps(plan: seq<string>, version: string, r: Record, k: nat, status: StepStatus, attempts: nat)
    requires Distinct(plan) && RecordOk(plan, version, r) && k < |plan| && !r.steps[k].status.Completed?
    ensures KeepsCompleted(r, WithStep(r, plan[k], status, attempts))
  {
    forall i | 0 <= i < |plan| && i != k ensures r.steps[i].id != plan[k] {
      assert plan[i] != plan[k];
    }
  }

  lemma FailSteady(plan: seq<string>, version: string, w: World, running: Record, k: nat, attempts: nat)
    requires Distinct(plan) && Steady(w.log) && RecordOk(plan, version, running)
    requires k < |plan| && !running.steps[k].status.Completed?
    requires LastStored(w.log) == Some(running) || w.script == [] || w.script[0].Fails?
    ensures Steady(Fail(w, running, plan[k], attempts).0.log)
  {
    var failed := WithStep(running, plan[k], Failed, attempts);
    ChangeKeeps(plan, version, running, k, Failed, attempts);
    if w.script != [] && !w.script[0].Fails? {
      hide Steady, RecordOk, WithStep;
      SaveSteady(w, failed);
      var (w1, e1) := Save(w, failed);
      if e1.Returned? {
        SaveSteady(w1, failed.(status := Failed));
      }
    }
  }

  /** From the finalizer's outcome on. */
  lemma CalledSteady(plan: seq<string>, version: string, called: World, running: Record, k: nat, attempts: nat)
    requires Distinct(plan) && Steady(called.log) && RecordOk(plan, version, running)
    requires k < |plan| && !running.steps[k].status.Completed? && LastStored(called.log) == Some(running)
    requires |called.script| >= 2 && called.script[0].FailsAfterWriting? ==> called.script[1].Fails?
    ensures
      var completed := WithStep(running, plan[k], Completed, attempts);
      var (w3, e3) := Save(called, completed);
      && Steady(w3.log)
      && (e3.Threw? ==> Steady(Fail(w3, running, plan[k], attempts).0.log))
  {
    var completed := WithStep(running, plan[k], Completed, attempts);
    ChangeKeeps(plan, version, running, k, Completed, attempts);
    hide Steady, RecordOk, WithStep, Fail, KeepsCompleted;
    SaveSteady(called, completed);
    var (w3, e3) := Save(called, completed);
    if e3.Threw? {
      FailSteady(plan, version, w3, running, k, attempts);
    }
  }

  lemma ExecuteStepSteady(plan: seq<string>, version: string, w: World, record: Record, k: nat)
    requires Distinct(plan) && Steady(w.log) && RecordOk(plan, version, record) && record.status.Running?
    requires k < |plan| && !record.steps[k].status.Completed? && LastStored(w.log) == Some(record)
    requires CompletedBefore(record, k) && !Overwrites(w.script)
    ensures Steady(ExecuteStep(w, record, record.steps[k]).0.log)
  {
    var attempts := record.steps[k].attempts + 1;
    var running := WithStep(record, plan[k], Running, attempts);
    ChangeKeeps(plan, version, record, k, Running, attempts);
    ChangeFits(plan, version, record, k, Running, attempts);
    assert record.steps[k].id == plan[k];
    hide Steady, RecordOk, WithStep, Fail, KeepsCompleted, LastStored, CompletedBefore;
    assert Follows(w.log, running);
    SaveSteady(w, running);
    var (w1, e1) := Save(w, running);
    if e1.Returned? && w1.script != [] {
      EntrySteady(w1.log, Executed(plan[k]));
      var called := World(w1.log + [Executed(plan[k])], w1.script[1..]);
      if w1.script[0].Succeeds? {
        CalledSteady(plan, version, called, running, k, attempts);
      } else {
        FailSteady(plan, version, called, running, k, attempts);
      }
    }
  }

  lemma ChangeFits(plan: seq<string>, version: string, r: Record, k: nat, status: StepStatus, attempts: nat)
    requires Distinct(plan) && RecordOk(plan, version, r) && k < |plan| && r.status.Running?
    requires CompletedBefore(r, k) && !status.Pending? && !r.steps[k].status.Completed?
    ensures
      var changed := WithStep(r, plan[k], status, attempts);
      && RecordOk(plan, version, changed) && changed.steps[k] == Step(plan[k], status, attempts)
      && CompletedBefore(changed, k) && changed.status.Running?
  {
    var changed := WithStep(r, plan[k], status, attempts);
    forall i | 0 <= i < |plan|
      ensures changed.steps[i] == if i == k then Step(plan[k], status, attempts) else r.steps[i]
    {
      assert i != k ==> plan[i] != plan[k];
    }
  }

  predicate NoneFrom(plan: seq<string>, w: World, record: Record, j: nat)
    requires j <= |plan|
  {
    forall k | j <= k < |plan| :: !FromOverwrites(plan, w, record, j, k)
  }

  /** What is not met from position j on is not met by the step there, nor from the next position on. */
  lemma NoneFromNext(plan: seq<string>, w: World, record: Record, j: nat, next: nat)
    requires j < |plan| && next == j + 1 && j < |record.steps| && NoneFrom(plan, w, record, j)
    requires FindStep(record.steps, plan[j]) == Some(record.steps[j])
    ensures record.steps[j].status.Completed? ==> NoneFrom(plan, w, record, next)
    ensures !record.steps[j].status.Completed? ==>
              var (w1, r1, e) := ExecuteStep(w, record, record.steps[j]);
              !Overwrites(w.script) && (e.Returned? ==> NoneFrom(plan, w1, r1, next))
  {
    hide ExecuteStep, Overwrites;
    assert !FromOverwrites(plan, w, record, j, j);
    if record.steps[j].status.Completed? {
      forall k | next <= k < |plan| ensures !FromOverwrites(plan, w, record, next, k) {
        assert !FromOverwrites(plan, w, record, j, k);
      }
    } else {
      var (w1, r1, e) := ExecuteStep(w, record, record.steps[j]);
      if e.Returned? {
        forall k | next <= k < |plan| ensures !FromOverwrites(plan, w1, r1, next, k) {
          assert !FromOverwrites(plan, w, record, j, k);
        }
      }
    }
  }

  lemma {:induction false} ExecuteFromSteady(plan: seq<string>, version: string, w: World, record: Record, j: nat)
    requires Distinct(plan) && LogOk(plan, version, w.log) && StoredOk(plan, version, w.log, record)
    requires Steady(w.log) && LastStored(w.log) == Some(record)
    requires j <= |plan| && CompletedBefore(record, j) && record.status.Running? && NoneFrom(plan, w, record, j)
    ensures Steady(ExecuteFrom(plan, w, record, j).0.log)
    decreases |plan| - j
  {
    assert RecordOk(plan, version, record);
    if j == |plan| {
      hide LogOk, StoredOk, Save, Steady;
      SaveSteady(w, record.(status := Completed));
    } else {
      FindsItsStep(record.steps, plan, j);
      NoneFromNext(plan, w, record, j, j + 1);
      var step := record.steps[j];
      assert step.status.Completed? ==> CompletedBefore(record, j + 1);
      hide LogOk, StoredOk, Save, ExecuteStep, Steady, NoneFrom, RecordOk, CompletedBefore, LastStored, Overwrites;
      if step.status.Completed? {
        ExecuteFromSteady(plan, version, w, record, j + 1);
      } else {
        ExecuteStepKeeps(plan, version, w, record, j);
        ExecuteStepSteady(plan, version, w, record, j);
        var (w1, next, e) := ExecuteStep(w, record, step);
        if e.Returned? {
          ExecuteFromSteady(plan, version, w1, next, j + 1);
        }
      }
    }
  }

  lemma ExecuteSteady(plan: seq<string>, version: string, w: World, source: Record)
    requires Distinct(plan) && LogOk(plan, version, w.log) && Executable(plan, version, w.log, source) && Steady(w.log)
    requires forall k | 0 <= k < |plan| :: !ExecuteOverwrites(plan, w, source, k)
    ensures Steady(Execute(plan, w, source).0.log)
  {
    var running := source.(status := Running);
    ExecutableOk(plan, version, w.log, source, running);
    hide LogOk, StoredOk, Save, ExecuteFrom, Steady;
    SaveKeeps(plan, version, w, running);
    SaveSteady(w, running);
    var (w1, e1) := Save(w, running);
    if e1.Returned? {
      forall k: nat | k < |plan| ensures !FromOverwrites(plan, w1, running, 0, k) {
        assert !ExecuteOverwrites(plan, w, source, k);
      }
      ExecuteFromSteady(plan, version, w1, running, 0);
    }
  }

  lemma RunSteady(plan: seq<string>, version: string, w: World, hasProjector: bool)
    requires Distinct(plan) && LogOk(plan, version, w.log) && Steady(w.log)
    requires forall k | 0 <= k < |plan| :: !RunOverwrites(plan, version, w, hasProjector, k)
    ensures Steady(Run(plan, version, w, hasProjector).0.log)
  {
    var record := LastStored(w.log).GetOr(NewRecord(plan, version));
    hide LogOk, Save, Execute, StoredOk, Steady, ExecuteOverwrites;
    if record.planVersion == version {
      forall k | 0 <= k < |plan| ensures !RunOverwrites(plan, version, w, hasProjector, k) {
      }
      if !record.hasContext && hasProjector {
        var projected := record.(hasContext := true);
        ExecutableOk(plan, version, w.log, record, projected);
        SaveKeeps(plan, version, w, projected);
        SaveSteady(w, projected);
        var (w1, e1) := Save(w, projected);
        if e1.Returned? {
          forall k | 0 <= k < |plan| ensures !ExecuteOverwrites(plan, w1, projected, k) {
            assert !RunOverwrites(plan, version, w, hasProjector, k);
          }
          ExecuteSteady(plan, version, w1, projected);
        }
      } else {
        forall k | 0 <= k < |plan| ensures !ExecuteOverwrites(plan, w, record, k) {
          assert !RunOverwrites(plan, version, w, hasProjector, k);
        }
        ExecuteSteady(plan, version, w, record);
      }
    }
  }

  lemma {:induction false} HistorySteady(plan: seq<string>, version: string, calls: seq<Call>)
    requires Distinct(plan) && ResumesStored(plan, version, calls) && NeverOverwrites(plan, version, calls)
    ensures Steady(History(plan, version, calls))
    decreases |calls|
  {
    if calls != [] {
      var n := |calls| - 1;
      HistoryKeeps(plan, version, calls[..n]);
      HistorySteady(plan, version, calls[..n]);
      var log := History(plan, version, calls[..n]);
      hide LogOk, Execute, Run, LastStored, Steady, RunOverwrites, ExecuteOverwrites;
      match calls[n]
      case RunCalled(hasProjector, script) =>
        forall k | 0 <= k < |plan| ensures !RunOverwrites(plan, version, World(log, script), hasProjector, k) {
          assert !CallOverwrites(plan, version, log, calls[n], k);
        }
        RunSteady(plan, version, World(log, script), hasProjector);
      case ResumeCalled(given, script) =>
        var latest := LastStored(log).GetOr(given);
        if given.planVersion == version && latest.planVersion == version && latest.hasContext {
          forall k | 0 <= k < |plan| ensures !ExecuteOverwrites(plan, World(log, script), latest, k) {
            assert !CallOverwrites(plan, version, log, calls[n], k);
          }
          ExecuteSteady(plan, version, World(log, script), latest);
        }
    }
  }

  lemma {:induction false} CompletedStays(plan: seq<string>, version: string, log: seq<Entry>, p: nat, k: nat)
    requires LogOk(plan, version, log) && Steady(log) && p < |log| && k < |plan| && CompletedAt(log, p, k)
    ensures
      var last := LastStored(log);
      last.Some? && |last.value.steps| == |plan| && last.value.steps[k].status.Completed?
    decreases |log|
  {
    var n := |log| - 1;
    if p < n {
      CompletedStays(plan, version, log[..n], p, k);
    }
  }

  lemma {:induction false} SteadyBefore(log: seq<Entry>, q: nat)
    requires Steady(log) && q <= |log|
    ensures Steady(log[..q])
    decreases |log|
  {
    if q < |log| {
      SteadyBefore(log[..|log| - 1], q);
      assert log[..|log| - 1][..q] == log[..q];
    } else {
      assert log[..q] == log;
    }
  }

  /**
   * Main result: as long as no completed step is overwritten, a finalizer whose step was once stored as completed is
   * never called again, whatever else the saves and the finalizers do.
   */
  lemma NeverAgain(plan: seq<string>, version: string, calls: seq<Call>, k: nat)
    requires Distinct(plan) && ResumesStored(plan, version, calls) && NeverOverwrites(plan, version, calls)
        && k < |plan|
    ensures !CalledAgain(plan, History(plan, version, calls), k)
  {
    hide History, NeverOverwrites, ResumesStored;
    HistoryKeeps(plan, version, calls);
    HistorySteady(plan, version, calls);
    var log := History(plan, version, calls);
    forall p, q | 0 <= p < q < |log| && CompletedAt(log, p, k)
      ensures log[q] != Executed(plan[k])
    {
      if log[q] == Executed(plan[k]) {
        StoredAt(plan, version, log, q);
        SteadyBefore(log, q);
        assert log[..q][p] == log[p];
        CompletedStays(plan, version, log[..q], p, k);
      }
    }
  }

  // ----- With one the next run calls the finalizer again -----

  /** A run without projector in which everything succeeds up to the first call. */
  const NEXT_RUN := RunCalled(false, [Succeeds, Succeeds, Succeeds])

  /** The step at position k is the next to be executed. */
  predicate NextUp(plan: seq<string>, version: string, r: Record, k: nat) {
    RecordOk(plan, version, r) && k < |plan| && CompletedBefore(r, k) && !r.steps[k].status.Completed?
  }

  lemma {:induction false} SkipsCompleted(plan: seq<string>, version: string, w: World, record: Record, j: nat, k: nat)
    requires Distinct(plan) && NextUp(plan, version, record, k) && j <= k
    ensures ExecuteFrom(plan, w, record, j) == ExecuteFrom(plan, w, record, k)
    ensures FromOverwrites(plan, w, record, j, k) == FromOverwrites(plan, w, record, k, k)
    decreases k - j
  {
    hide ExecuteStep, Save;
    if j < k {
      FindsItsStep(record.steps, plan, j);
      SkipsCompleted(plan, version, w, record, j + 1, k);
    }
  }

  lemma NextRunCalls(plan: seq<string>, version: string, log: seq<Entry>, k: nat)
    requires Distinct(plan) && LastStored(log).Some? && NextUp(plan, version, LastStored(log).value, k)
    ensures
      var longer := AfterCall(plan, version, log, NEXT_RUN);
      |longer| == |log| + 3 && log <= longer && longer[|log| + 2] == Executed(plan[k])
  {
    var source := LastStored(log).value;
    var running := source.(status := Running);
    var w := World(log + [Stored(running)], [Succeeds, Succeeds]);
    assert Save(World(log, NEXT_RUN.script), running) == (w, Returned);
    SkipsCompleted(plan, version, w, running, 0, k);
    FindsItsStep(running.steps, plan, k);
    CallsOnce(w, running, running.steps[k]);
  }

  lemma CallsOnce(w: World, record: Record, step: Step)
    requires w.script == [Succeeds, Succeeds] && !step.status.Completed?
    ensures
      var running := WithStep(record, step.id, Running, step.attempts + 1);
      var (w1, next, e) := ExecuteStep(w, record, step);
      e.Stopped? && w1.log == w.log + [Stored(running), Executed(step.id)]
  {
    var running := WithStep(record, step.id, Running, step.attempts + 1);
    var saved := World(w.log + [Stored(running)], [Succeeds]);
    assert Save(w, running) == (saved, Returned);
    assert w.log + [Stored(running)] + [Executed(step.id)] == w.log + [Stored(running), Executed(step.id)];
  }

  /** The log holds the completed step, and the last record shows it as the next to be executed. */
  ghost predicate Forgotten(plan: seq<string>, version: string, log: seq<Entry>, k: nat) {
    && LastStored(log).Some? && NextUp(plan, version, LastStored(log).value, k)
    && exists p :: 0 <= p < |log| && CompletedAt(log, p, k)
  }

  /** The catch block's save lands: the step is stored as failed. */
  lemma FailForgets(plan: seq<string>, version: string, w: World, running: Record, k: nat, attempts: nat)
    requires Distinct(plan) && RecordOk(plan, version, running) && running.status.Running?
    requires k < |plan| && CompletedBefore(running, k) && !running.steps[k].status.Completed?
    requires w.script != [] && !w.script[0].Fails?
    ensures
      var log := Fail(w, running, plan[k], attempts).0.log;
      w.log <= log && LastStored(log).Some? && NextUp(plan, version, LastStored(log).value, k)
  {
    var failed := WithStep(running, plan[k], Failed, attempts);
    ChangeFits(plan, version, running, k, Failed, attempts);
    hide RecordOk, WithStep;
    var (w1, e1) := Save(w, failed);
    assert w1.log == w.log + [Stored(failed)];
    assert NextUp(plan, version, failed, k);
    assert NextUp(plan, version, failed.(status := Failed), k) by { Relabelled(plan, version, failed, k); }
    if e1.Returned? {
      var (w2, e2) := Save(w1, failed.(status := Failed));
      assert w2.log == w1.log || w2.log == w1.log + [Stored(failed.(status := Failed))];
    }
  }

  lemma Relabelled(plan: seq<string>, version: string, r: Record, k: nat)
    requires NextUp(plan, version, r, k)
    ensures NextUp(plan, version, r.(status := Failed), k)
  {
  }

  lemma OverwriteForgets(plan: seq<string>, version: string, w: World, record: Record, k: nat)
    requires Distinct(plan) && NextUp(plan, version, record, k) && record.status.Running? && Overwrites(w.script)
    ensures
      var (w1, next, e) := ExecuteStep(w, record, record.steps[k]);
      !e.Returned? && Forgotten(plan, version, w1.log, k)
  {
    var attempts := record.steps[k].attempts + 1;
    var running := WithStep(record, plan[k], Running, attempts);
    var completed := WithStep(running, plan[k], Completed, attempts);
    ChangeFits(plan, version, record, k, Running, attempts);
    ChangeFits(plan, version, running, k, Completed, attempts);
    hide RecordOk, WithStep, Fail, LastStored;
    var log := w.log + [Stored(running)] + [Executed(plan[k])] + [Stored(completed)];
    var w3 := World(log, w.script[3..]);
    FailForgets(plan, version, w3, running, k, attempts);
    var (w4, e4) := Fail(w3, running, plan[k], attempts);
    assert ExecuteStep(w, record, record.steps[k]) == (w4, running, e4) by {
      assert w.script[1..][1..][1..] == w.script[3..] && w.script[1..][1..][0] == w.script[2]
          && w.script[1..][0] == w.script[1];
    }
    var p := |log| - 1;
    assert w4.log[p] == log[p] && CompletedAt(w4.log, p, k);
  }

  lemma {:induction false} FromOverwritesForgets(
    plan: seq<string>, version: string, w: World, record: Record, j: nat, k: nat)
    requires Distinct(plan) && LogOk(plan, version, w.log) && StoredOk(plan, version, w.log, record)
    requires j <= |plan| && CompletedBefore(record, j) && record.status.Running? && k < |plan|
    requires FromOverwrites(plan, w, record, j, k)
    ensures Forgotten(plan, version, ExecuteFrom(plan, w, record, j).0.log, k)
    decreases |plan| - j
  {
    assert RecordOk(plan, version, record);
    FindsItsStep(record.steps, plan, j);
    var step := record.steps[j];
    assert step.status.Completed? ==> CompletedBefore(record, j + 1);
    assert !step.status.Completed? ==> NextUp(plan, version, record, j);
    hide LogOk, StoredOk, ExecuteStep, Forgotten, Overwrites, RecordOk, CompletedBefore, LastStored, NextUp;
    if step.status.Completed? {
      FromOverwritesForgets(plan, version, w, record, j + 1, k);
    } else if j == k {
      OverwriteForgets(plan, version, w, record, k);
    } else {
      ExecuteStepKeeps(plan, version, w, record, j);
      var (w1, next, e) := ExecuteStep(w, record, step);
      FromOverwritesForgets(plan, version, w1, next, j + 1, k);
    }
  }

  lemma ExecuteForgets(plan: seq<string>, version: string, w: World, source: Record, k: nat)
    requires Distinct(plan) && LogOk(plan, version, w.log) && Executable(plan, version, w.log, source)
    requires k < |plan| && ExecuteOverwrites(plan, w, source, k)
    ensures Forgotten(plan, version, Execute(plan, w, source).0.log, k)
  {
    var running := source.(status := Running);
    ExecutableOk(plan, version, w.log, source, running);
    hide LogOk, StoredOk, Save, ExecuteFrom, Forgotten;
    SaveKeeps(plan, version, w, running);
    FromOverwritesForgets(plan, version, Save(w, running).0, running, 0, k);
  }

  lemma CallForgets(plan: seq<string>, version: string, log: seq<Entry>, call: Call, k: nat)
    requires Distinct(plan) && LogOk(plan, version, log) && (call.ResumeCalled? ==> LastStored(log).Some?)
    requires k < |plan| && CallOverwrites(plan, version, log, call, k)
    ensures Forgotten(plan, version, AfterCall(plan, version, log, call), k)
  {
    hide LogOk, Execute, Forgotten, Save, ExecuteOverwrites, StoredOk;
    match call
    case RunCalled(hasProjector, script) =>
      var w, record := World(log, script), LastStored(log).GetOr(NewRecord(plan, version));
      if !record.hasContext && hasProjector {
        var projected := record.(hasContext := true);
        ExecutableOk(plan, version, log, record, projected);
        SaveKeeps(plan, version, w, projected);
        ExecuteForgets(plan, version, Save(w, projected).0, projected, k);
      } else {
        ExecuteForgets(plan, version, w, record, k);
      }
    case ResumeCalled(given, script) =>
      ExecuteForgets(plan, version, World(log, script), LastStored(log).GetOr(given), k);
  }

  /**
   * Main result, the converse: after any history, a call in which a completed step is overwritten makes the next run
   * call that finalizer again.
   */
  lemma OverwritingRepeats(plan: seq<string>, version: string, calls: seq<Call>, call: Call, k: nat)
    requires Distinct(plan) && ResumesStored(plan, version, calls + [call]) && k < |plan|
    requires CallOverwrites(plan, version, History(plan, version, calls), call, k)
    ensures CalledAgain(plan, History(plan, version, calls + [call, NEXT_RUN]), k)
  {
    hide CallOverwrites, AfterCall, NextUp;
    var all := calls + [call, NEXT_RUN];
    assert (calls + [call])[..|calls|] == calls && all[..|all| - 1] == calls + [call];
    HistoryKeeps(plan, version, calls);
    var first := AfterCall(plan, version, History(plan, version, calls), call);
    CallForgets(plan, version, History(plan, version, calls), call, k);
    NextRunCalls(plan, version, first, k);
    var log := AfterCall(plan, version, first, NEXT_RUN);
    assert History(plan, version, all) == log;
    var p :| 0 <= p < |first| && CompletedAt(first, p, k);
    assert log[p] == first[p];
    assert CompletedAt(log, p, k) && log[|first| + 2] == Executed(plan[k]);
  }

  /** Every step can meet these outcomes: whenever it is the next one, a run with such saves overwrites it. */
  lemma EveryStepCanRepeat(plan: seq<string>, version: string, calls: seq<Call>, k: nat)
    requires Distinct(plan) && ResumesStored(plan, version, calls)
    requires NextUp(plan, version, LastStored(History(plan, version, calls)).GetOr(NewRecord(plan, version)), k)
    ensures
      var call := RunCalled(false, [Succeeds, Succeeds, Succeeds, FailsAfterWriting, Succeeds, Succeeds]);
      && CallOverwrites(plan, version, History(plan, version, calls), call, k)
      && CalledAgain(plan, History(plan, version, calls + [call, NEXT_RUN]), k)
  {
    hide History;
    var script := [Succeeds, Succeeds, Succeeds, FailsAfterWriting, Succeeds, Succeeds];
    var call := RunCalled(false, script);
    var log := History(plan, version, calls);
    var source := LastStored(log).GetOr(NewRecord(plan, version));
    var running := source.(status := Running);
    var w := World(log + [Stored(running)], script[1..]);
    assert Save(World(log, script), running) == (w, Returned);
    SkipsCompleted(plan, version, w, running, 0, k);
    FindsItsStep(running.steps, plan, k);
    assert CallOverwrites(plan, version, log, call, k);
    assert ResumesStored(plan, version, calls + [call]) by { assert (calls + [call])[..|calls|] == calls; }
    OverwritingRepeats(plan, version, calls, call, k);
  }
}
