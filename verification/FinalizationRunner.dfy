/** The runner object of packages/kiosk-runtime/src/finalization-runner.ts, with its loop over the plan. */
module FinalizationRunner {
  import opened Prelude
  import opened FinalizationRuns

  class Runner {
    const plan: seq<string>
    const version: string
    var log: seq<Entry>        // what the store and the finalizers saw
    var script: seq<Outcome>   // what they will answer

    ghost function View(): World
      reads this
    {
      World(log, script)
    }

    constructor (plan: seq<string>, version: string, log: seq<Entry>, script: seq<Outcome>)
      ensures this.plan == plan && this.version == version && View() == World(log, script)
    {
      this.plan, this.version, this.log, this.script := plan, version, log, script;
    }

    method Save(r: Record) returns (e: Ending)
      modifies this
      ensures (View(), e) == FinalizationRuns.Save(old(View()), r)
    {
      if script == [] {
        return Stopped;
      }
      var outcome := script[0];
      script := script[1..];
      if !outcome.Fails? {
        log := log + [Stored(r)];
      }
      return if outcome.Succeeds? then Returned else Threw;
    }

    method Fail(running: Record, id: string, attempts: nat) returns (e: Ending)
      modifies this
      ensures (View(), e) == FinalizationRuns.Fail(old(View()), running, id, attempts)
    {
      var failed := WithStep(running, id, Failed, attempts);
      e := Save(failed);
      if e.Returned? {
        e := Save(failed.(status := Failed));
        e := if e.Returned? then Threw else e;
      }
    }

    method ExecuteStep(record: Record, step: Step) returns (next: Record, e: Ending)
      modifies this
      ensures (View(), next, e) == FinalizationRuns.ExecuteStep(old(View()), record, step)
    {
      hide FinalizationRuns.Save, FinalizationRuns.Fail;
      var attempts := step.attempts + 1;
      var running := WithStep(record, step.id, Running, attempts);
      e := Save(running);
      if !e.Returned? {
        return record, e;
      }
      if script == [] {
        return running, Stopped;
      }
      var outcome := script[0];
      script := script[1..];
      log := log + [Executed(step.id)];
      if !outcome.Succeeds? {
        e := Fail(running, step.id, attempts);
        return running, e;
      }
      var completed := WithStep(running, step.id, Completed, attempts);
      e := Save(completed);
      if e.Threw? {
        e := Fail(running, step.id, attempts);
        return running, e;
      }
      return completed, e;
    }

    /** #execute: the loop over the plan. */
    method Execute(source: Record) returns (e: Ending)
      modifies this
      ensures (View(), e) == FinalizationRuns.Execute(plan, old(View()), source)
    {
      hide FinalizationRuns.Save, FinalizationRuns.ExecuteStep;
      var record := source.(status := Running);
      e := Save(record);
      if !e.Returned? {
        return;
      }
      var k := 0;
      while k < |plan|
        invariant 0 <= k <= |plan|
        invariant ExecuteFrom(plan, View(), record, k) == FinalizationRuns.Execute(plan, old(View()), source)
      {
        var step := FindStep(record.steps, plan[k]);
        if step.Some? && !step.value.status.Completed? {
          record, e := ExecuteStep(record, step.value);
          if !e.Returned? {
            return;
          }
        }
        k := k + 1;
      }
      e := Save(record.(status := Completed));
    }

    method Run(hasProjector: bool) returns (e: Ending)
      modifies this
      ensures (View(), e) == FinalizationRuns.Run(plan, version, old(View()), hasProjector)
    {
      hide FinalizationRuns.Save, FinalizationRuns.Execute;
      var record := LastStored(log).GetOr(NewRecord(plan, version));
      if record.planVersion != version {
        return Threw;
      }
      if !record.hasContext && hasProjector {
        record := record.(hasContext := true);
        e := Save(record);
        if !e.Returned? {
          return;
        }
      }
      e := Execute(record);
    }

    method Resume(given: Record) returns (e: Ending)
      modifies this
      ensures (View(), e) == FinalizationRuns.Resume(plan, version, old(View()), given)
    {
      hide FinalizationRuns.Execute;
      if given.planVersion != version {
        return Threw;
      }
      var latest := LastStored(log).GetOr(given);
      if latest.planVersion != version || !latest.hasContext {
        return Threw;
      }
      e := Execute(latest);
    }
  }
}
