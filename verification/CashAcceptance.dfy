/**
 * A cash acceptance session and its recovery: ActiveCashAcceptanceSession of
 * packages/xfs-device-service/src/cash-acceptance.ts and decide of cash-acceptance-recovery.ts.
 *
 * An event is the code between two awaits; an event that cannot occur leaves the state unchanged. A write of the
 * record lands when it is issued or fails. The device log lists the commands that decide where the cash goes.
 */
module CashAcceptance {
  import opened Prelude
  import opened CashNotes

  datatype Phase =
    | Starting | Accepting | Escrowed | Authorizing | Committing | RollingBack | Retracting | Completed | Failed

  datatype Record = Record(
    phase: Phase, revision: nat, snapshotHash: Option<string>, physicalCommitDispatched: bool)

  datatype Authorization = Authorization(operationId: string, revision: nat, snapshotHash: string, approved: bool)

  datatype Config = Config(operationId: string, hash: Hash)

  /** A call of the session that is waiting for something. */
  datatype Work =
    | AcceptWork(dispatched: bool)                 // acceptBatch; dispatched: cashIn was called
    | AuthorizeWork(snapshot: Snapshot)            // authorize, with the snapshot shown to the authorizer
    | CommitWork(authorization: Authorization, snapshot: Snapshot, ended: bool)
    | AbortWork(rolledBack: bool)
    | RetractWork(sent: bool)                      // abort, retracting what was not taken
    | RefusalWork                                  // resolveRefusedMedia, waiting for the customer
    | RefusalRetractWork(sent: bool)

  datatype Command =
    | CashInEnd(authorization: Authorization, snapshot: Snapshot)
    | CashInRollback
    | Retract

  datatype State = State(
    record: Record,
    snapshot: Option<Snapshot>,
    stored: Record,
    work: map<nat, Work>,
    calls: nat,                // calls made so far; the next one gets this number
    batches: seq<Report>,      // what the device reported for each finished cash-in
    device: seq<Command>,
    crashed: bool)

  const NEW_RECORD := Record(Starting, 0, None, false)

  const INITIAL := State(NEW_RECORD, None, NEW_RECORD, map[], 0, [], [], false)

  /** How cash that was offered to the customer was left. */
  datatype Taking = Taken | NotTakenRetract | NotTakenIntervention

  datatype Event =
    | AcceptBegins(lands: bool)
    | CashInDispatched(i: nat)
    | CashInReturns(i: nat, report: Report, lands: bool)
    | AuthorizeBegins(lands: bool)
    | AuthorizerAnswers(i: nat, authorization: Authorization, lands: bool)
    | CommitBegins(given: Authorization, lands: bool)
    | EndDispatched(i: nat)
    | EndReturns(i: nat, lands: bool)
    | AbortBegins(lands: bool)
    | RollbackDispatched(i: nat)
    | CashOffered(i: nat, taking: Taking, lands: bool)
    | RetractDispatched(i: nat)
    | CashRetracted(i: nat, lands: bool)
    | RefusalBegins
    | RefusalOffered(i: nat, taking: Taking, lands: bool)
    | WorkFails(i: nat)
    | Crash
    | RecoveryRollsBack(deviceStatus: string)

  // ----- Authorization and recovery decisions -----

  /** assertExactAuthorization. */
  predicate Exact(operationId: string, snapshot: Snapshot, a: Authorization) {
    a.operationId == operationId && a.revision == snapshot.revision && a.snapshotHash == snapshot.hash
  }

  datatype Decision = Observe | Rollback | Intervention

  function Decide(stored: Record, deviceStatus: string): Decision {
    if stored.physicalCommitDispatched then Observe
    else if deviceStatus in ["active", "escrow", "cash-in-active"] then Rollback
    else Intervention
  }

  /** listUnresolved. */
  predicate Unresolved(stored: Record) {
    !stored.phase.Completed? && !stored.phase.Failed?
  }

  // ----- The pieces of code the events run -----

  /** #update: the record in memory changes at once, the stored one if the write lands. */
  function Update(s: State, r: Record, lands: bool): State {
    s.(record := r, stored := if lands then r else s.stored)
  }

  function Begin(s: State, w: Work): State {
    s.(work := s.work[s.calls := w], calls := s.calls + 1)
  }

  function End(s: State, i: nat): State {
    s.(work := s.work - {i})
  }

  function BeginAccept(s: State, lands: bool): State {
    if !s.record.phase.Starting? && !s.record.phase.Accepting? && !s.record.phase.Escrowed? then s
    else
      var t := Update(s, s.record.(phase := Accepting), lands);
      if lands then Begin(t, AcceptWork(false)) else t
  }

  function FinishCashIn(c: Config, s: State, i: nat, report: Report, lands: bool): State {
    var snapshot := NextSnapshot(c.hash, s.snapshot, report, s.record.revision + 1);
    var t := s.(snapshot := Some(snapshot), batches := s.batches + [report]);
    var record := s.record.(phase := Escrowed, revision := snapshot.revision, snapshotHash := Some(snapshot.hash));
    End(Update(t, record, lands), i)
  }

  function BeginAuthorize(s: State, lands: bool): State {
    if !s.record.phase.Escrowed? || s.snapshot.None? then s
    else
      var t := Update(s, s.record.(phase := Authorizing), lands);
      if lands then Begin(t, AuthorizeWork(s.snapshot.value)) else t
  }

  /** A stale authorization leaves the phase at authorizing; an exact one, approved or not, escrows again. */
  function FinishAuthorize(c: Config, s: State, i: nat, shown: Snapshot, a: Authorization, lands: bool): State {
    End(if Exact(c.operationId, shown, a) then Update(s, s.record.(phase := Escrowed), lands) else s, i)
  }

  predicate MayCommit(c: Config, s: State, a: Authorization) {
    s.record.phase.Escrowed? && s.snapshot.Some? && Exact(c.operationId, s.snapshot.value, a) && a.approved
  }

  function BeginCommit(c: Config, s: State, a: Authorization, lands: bool): State {
    if !MayCommit(c, s, a) then s
    else
      var t := Update(s, s.record.(phase := Committing, physicalCommitDispatched := true), lands);
      if lands then Begin(t, CommitWork(a, s.snapshot.value, false)) else t
  }

  function DispatchEnd(s: State, i: nat, a: Authorization, snapshot: Snapshot): State {
    s.(work := s.work[i := CommitWork(a, snapshot, true)], device := s.device + [CashInEnd(a, snapshot)])
  }

  /** abort once it is past its guards. */
  predicate MayAbort(s: State) {
    !s.record.physicalCommitDispatched
    && (s.record.phase.Starting? || s.record.phase.Accepting? || s.record.phase.Escrowed?
        || s.record.phase.Authorizing?)
  }

  function BeginAbort(s: State, lands: bool): State {
    if s.record.physicalCommitDispatched then Update(s, s.record.(phase := Failed), lands)
    else if !MayAbort(s) then s
    else
      var t := Update(s, s.record.(phase := RollingBack), lands);
      if lands then Begin(t, AbortWork(false)) else t
  }

  function DispatchRollback(s: State, i: nat): State {
    s.(work := s.work[i := AbortWork(true)], device := s.device + [CashInRollback])
  }

  /** The customer took the cash, or it is retracted, or the operation is left for an intervention. */
  function SettleOffer(s: State, i: nat, taking: Taking, lands: bool, retracting: Work): State {
    if taking.NotTakenRetract? then
      var t := Update(s, s.record.(phase := Retracting), lands);
      if lands then t.(work := t.work[i := retracting]) else End(t, i)
    else End(Update(s, s.record.(phase := Failed), lands), i)
  }

  function DispatchRetract(s: State, i: nat, sent: Work): State {
    s.(work := s.work[i := sent], device := s.device + [Retract])
  }

  predicate Has(s: State, i: nat, w: Work) {
    i in s.work && s.work[i] == w
  }

  function Step(c: Config, s: State, e: Event): State {
    if e.RecoveryRollsBack? then
      if s.crashed && Unresolved(s.stored) && Decide(s.stored, e.deviceStatus).Rollback?
      then s.(device := s.device + [CashInRollback]) else s
    else if s.crashed then s
    else match e
      case AcceptBegins(lands) => BeginAccept(s, lands)
      case CashInDispatched(i) => if Has(s, i, AcceptWork(false)) then s.(work := s.work[i := AcceptWork(true)]) else s
      case CashInReturns(i, report, lands) =>
        if Has(s, i, AcceptWork(true)) then FinishCashIn(c, s, i, report, lands) else s
      case AuthorizeBegins(lands) => BeginAuthorize(s, lands)
      case AuthorizerAnswers(i, a, lands) =>
        if i in s.work && s.work[i].AuthorizeWork? then FinishAuthorize(c, s, i, s.work[i].snapshot, a, lands) else s
      case CommitBegins(a, lands) => BeginCommit(c, s, a, lands)
      case EndDispatched(i) =>
        if i in s.work && s.work[i].CommitWork? && !s.work[i].ended
        then DispatchEnd(s, i, s.work[i].authorization, s.work[i].snapshot) else s
      case EndReturns(i, lands) =>
        if i in s.work && s.work[i].CommitWork? && s.work[i].ended
        then End(Update(s, s.record.(phase := Completed), lands), i) else s
      case AbortBegins(lands) => BeginAbort(s, lands)
      case RollbackDispatched(i) => if Has(s, i, AbortWork(false)) then DispatchRollback(s, i) else s
      case CashOffered(i, taking, lands) =>
        if Has(s, i, AbortWork(true)) then SettleOffer(s, i, taking, lands, RetractWork(false)) else s
      case RetractDispatched(i) =>
        if Has(s, i, RetractWork(false)) then DispatchRetract(s, i, RetractWork(true))
        else if Has(s, i, RefusalRetractWork(false)) then DispatchRetract(s, i, RefusalRetractWork(true))
        else s
      case CashRetracted(i, lands) =>
        if Has(s, i, RetractWork(true)) || Has(s, i, RefusalRetractWork(true))
        then End(Update(s, s.record.(phase := Failed), lands), i) else s
      case RefusalBegins =>
        if s.record.phase.Escrowed? && s.snapshot.Some? && s.snapshot.value.refused > 0 then Begin(s, RefusalWork)
        else s
      case RefusalOffered(i, taking, lands) =>
        if !Has(s, i, RefusalWork) then s
        else if taking.Taken? then End(s, i)
        else SettleOffer(s, i, taking, lands, RefusalRetractWork(false))
      case WorkFails(i) => End(s, i)
      case Crash => s.(crashed := true, work := map[])
  }

  function Run(c: Config, events: seq<Event>): State {
    if events == [] then INITIAL else Step(c, Run(c, events[..|events| - 1]), events[|events| - 1])
  }
}
