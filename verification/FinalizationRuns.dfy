/**
 * The resumable plan executor of packages/kiosk-runtime/src/finalization-runner.ts.
 *
 * A call of run or resume meets a script: one outcome for every save and every finalizer it calls, in order.
 * Where the script ends the process stops. The log keeps what reached the store and which finalizers were called.
 */
module FinalizationRuns {
  import opened Prelude

  datatype StepStatus = Pending | Running | Completed | Failed

  datatype Step = Step(id: string, status: StepStatus, attempts: nat)

  datatype Record = Record(planVersion: string, status: StepStatus, steps: seq<Step>, hasContext: bool)

  datatype Entry = Stored(record: Record) | Executed(id: string)

  /** FailsAfterWriting: the save reached the store, and yet it throws. */
  datatype Outcome = Succeeds | Fails | FailsAfterWriting

  datatype World = World(log: seq<Entry>, script: seq<Outcome>)

  datatype Ending = Returned | Threw | Stopped

  /** What load() gives. */
  function LastStored(log: seq<Entry>): Option<Record> {
    if log == [] then None
    else if log[|log| - 1].Stored? then Some(log[|log| - 1].record)
    else LastStored(log[..|log| - 1])
  }

  /** A save, and how it ended: Returned when the caller goes on. */
  function Save(w: World, r: Record): (World, Ending) {
    if w.script == [] then (w, Stopped)
    else match w.script[0]
      case Succeeds => (World(w.log + [Stored(r)], w.script[1..]), Returned)
      case Fails => (World(w.log, w.script[1..]), Threw)
      case FailsAfterWriting => (World(w.log + [Stored(r)], w.script[1..]), Threw)
  }

  /** record.steps.find by id. */
  function FindStep(steps: seq<Step>, id: string): (found: Option<Step>)
    ensures found.Some? ==> found.value in steps && found.value.id == id
  {
    if steps == [] then None
    else if steps[0].id == id then Some(steps[0])
    else FindStep(steps[1..], id)
  }

  function ChangeStep(steps: seq<Step>, id: string, status: StepStatus, attempts: nat): (changed: seq<Step>)
    ensures |changed| == |steps|
    ensures forall i | 0 <= i < |steps| ::
              changed[i] == if steps[i].id == id then Step(id, status, attempts) else steps[i]
  {
    seq(|steps|, i requires 0 <= i < |steps| => if steps[i].id == id then Step(id, status, attempts) else steps[i])
  }

  function WithStep(r: Record, id: string, status: StepStatus, attempts: nat): Record {
    r.(steps := ChangeStep(r.steps, id, status, attempts))
  }

  /** The catch block: the step is stored failed, then the record; the error goes on to the caller. */
  function Fail(w: World, running: Record, id: string, attempts: nat): (r: (World, Ending))
    ensures !r.1.Returned?
  {
    var failed := WithStep(running, id, Failed, attempts);
    var (w1, e1) := Save(w, failed);
    if !e1.Returned? then (w1, e1)
    else
      var (w2, e2) := Save(w1, failed.(status := Failed));
      (w2, if e2.Returned? then Threw else e2)
  }

  /** One finalizer that is not completed: (world, record, ending), where Returned goes on to the next one. */
  function ExecuteStep(w: World, record: Record, step: Step): (World, Record, Ending) {
    var attempts := step.attempts + 1;
    var running := WithStep(record, step.id, Running, attempts);
    var (w1, e1) := Save(w, running);
    if !e1.Returned? then (w1, record, e1)
    else if w1.script == [] then (w1, running, Stopped)
    else
      var called := World(w1.log + [Executed(step.id)], w1.script[1..]);
      if !w1.script[0].Succeeds? then
        var (w2, e2) := Fail(called, running, step.id, attempts);
        (w2, running, e2)
      else
        var completed := WithStep(running, step.id, Completed, attempts);
        var (w3, e3) := Save(called, completed);
        if e3.Threw? then
          var (w4, e4) := Fail(w3, running, step.id, attempts);
          (w4, running, e4)
        else (w3, completed, e3)
  }

  /** The loop of #execute from plan position k, and the last save. */
  function ExecuteFrom(plan: seq<string>, w: World, record: Record, k: nat): (World, Ending)
    requires k <= |plan|
    decreases |plan| - k
  {
    if k == |plan| then Save(w, record.(status := Completed))
    else
      var step := FindStep(record.steps, plan[k]);
      if step.None? || step.value.status.Completed? then ExecuteFrom(plan, w, record, k + 1)
      else
        var (w1, next, e) := ExecuteStep(w, record, step.value);
        if e.Returned? then ExecuteFrom(plan, w1, next, k + 1) else (w1, e)
  }

  function Execute(plan: seq<string>, w: World, source: Record): (World, Ending) {
    var running := source.(status := Running);
    var (w1, e1) := Save(w, running);
    if e1.Returned? then ExecuteFrom(plan, w1, running, 0) else (w1, e1)
  }

  function NewRecord(plan: seq<string>, version: string): Record {
    Record(version, Pending, seq(|plan|, i requires 0 <= i < |plan| => Step(plan[i], Pending, 0)), false)
  }

  datatype Call =
    | RunCalled(hasProjector: bool, script: seq<Outcome>)
    | ResumeCalled(given: Record, script: seq<Outcome>)

  function Run(plan: seq<string>, version: string, w: World, hasProjector: bool): (World, Ending) {
    var record := LastStored(w.log).GetOr(NewRecord(plan, version));
    if record.planVersion != version then (w, Threw)
    else if !record.hasContext && hasProjector then
      var projected := record.(hasContext := true);
      var (w1, e1) := Save(w, projected);
      if e1.Returned? then Execute(plan, w1, projected) else (w1, e1)
    else Execute(plan, w, record)
  }

  function Resume(plan: seq<string>, version: string, w: World, given: Record): (World, Ending) {
    if given.planVersion != version then (w, Threw)
    else
      var latest := LastStored(w.log).GetOr(given);
      if latest.planVersion != version || !latest.hasContext then (w, Threw)
      else Execute(plan, w, latest)
  }

  function AfterCall(plan: seq<string>, version: string, log: seq<Entry>, call: Call): seq<Entry> {
    match call
    case RunCalled(hasProjector, script) => Run(plan, version, World(log, script), hasProjector).0.log
    case ResumeCalled(given, script) => Resume(plan, version, World(log, script), given).0.log
  }

  /** One call after another, each of which may fail or stop anywhere. */
  function History(plan: seq<string>, version: string, calls: seq<Call>): seq<Entry> {
    if calls == [] then []
    else AfterCall(plan, version, History(plan, version, calls[..|calls| - 1]), calls[|calls| - 1])
  }
}
