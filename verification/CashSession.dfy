/**
 * The session object of packages/xfs-device-service/src/cash-acceptance.ts: its record and snapshot are updated in
 * place by each call. A method runs one call to its end with no other call in flight; its parameters say what the
 * store, the device, the authorizer and the customer do. It does what the events of module CashAcceptance do.
 */
module CashSession {
  import opened Prelude
  import opened CashNotes
  import opened CashAcceptance

  /** How a commit or an abort ends for the caller. */
  datatype Result = Committed | Returned | RetractedCash | LeftForIntervention | RecoveryRequired | Throws

  /** What a commit meets: each write, the evidence before cashInEnd, what follows it, and the release of the lease. */
  datatype CommitCourse = CommitCourse(lands: bool, recorded: bool, ends: bool, landsAgain: bool, released: bool)

  /** What an abort meets; `taking` is None when the rollback or the wait for the customer throws. */
  datatype AbortCourse = AbortCourse(
    lands: bool, recorded: bool, taking: Option<Taking>, landsAgain: bool, recordedAgain: bool, retracts: bool,
    landsLast: bool, released: bool)

  // ----- Whole calls -----

  function AfterAccept(c: Config, s: State, lands: bool, report: Option<Report>, landsAgain: bool): State {
    if !s.record.phase.Starting? && !s.record.phase.Accepting? && !s.record.phase.Escrowed? then s
    else
      var t := Update(s, s.record.(phase := Accepting), lands);
      if !lands then t
      else if report.None? then t.(calls := t.calls + 1)
      else FinishCashIn(c, t.(calls := t.calls + 1), t.calls, report.value, landsAgain)
  }

  function AfterAuthorize(c: Config, s: State, lands: bool, answer: Option<Authorization>, landsAgain: bool): State {
    if !s.record.phase.Escrowed? || s.snapshot.None? then s
    else
      var t := Update(s, s.record.(phase := Authorizing), lands);
      if !lands then t
      else
        var u := t.(calls := t.calls + 1);
        if answer.None? || !Exact(c.operationId, s.snapshot.value, answer.value) then u
        else Update(u, u.record.(phase := Escrowed), landsAgain)
  }

  function AfterCommit(c: Config, s: State, a: Authorization, course: CommitCourse): State {
    if !MayCommit(c, s, a) then s
    else
      var t := Update(s, s.record.(phase := Committing, physicalCommitDispatched := true), course.lands);
      if !course.lands then t
      else
        var u := t.(calls := t.calls + 1);
        if !course.recorded then u
        else
          var v := u.(device := u.device + [CashInEnd(a, s.snapshot.value)]);
          if course.ends then Update(v, v.record.(phase := Completed), course.landsAgain) else v
  }

  function AfterAbort(s: State, course: AbortCourse): State {
    if s.record.physicalCommitDispatched then Update(s, s.record.(phase := Failed), course.lands)
    else if !MayAbort(s) then s
    else
      var t := Update(s, s.record.(phase := RollingBack), course.lands);
      if !course.lands then t
      else if !course.recorded then t.(calls := t.calls + 1)
      else AfterRollback(t.(calls := t.calls + 1, device := t.device + [CashInRollback]), course)
  }

  /** The abort once the device rolled back. */
  function AfterRollback(u: State, course: AbortCourse): State {
    if course.taking.None? then u
    else if !course.taking.value.NotTakenRetract? then Update(u, u.record.(phase := Failed), course.landsAgain)
    else
      var v := Update(u, u.record.(phase := Retracting), course.landsAgain);
      if !course.landsAgain || !course.recordedAgain then v
      else
        var w := v.(device := v.device + [Retract]);
        if course.retracts then Update(w, w.record.(phase := Failed), course.landsLast) else w
  }

  /** What the caller of an abort is told once the device rolled back: where the cash is, or nothing at all. */
  function Given(course: AbortCourse): Result {
    match course.taking
    case None => Throws
    case Some(Taken) => if course.landsAgain && course.released then Returned else Throws
    case Some(NotTakenIntervention) => if course.landsAgain then LeftForIntervention else Throws
    case Some(NotTakenRetract) =>
      if course.landsAgain && course.recordedAgain && course.retracts && course.landsLast && course.released
      then RetractedCash else Throws
  }

  // ----- Whole calls are sequences of events -----

  predicate AtRest(s: State) {
    s.work == map[] && !s.crashed
  }

  lemma OneWork(s: State, w: Work)
    requires s.work == map[]
    ensures Begin(s, w).work == map[s.calls := w]
    ensures End(Begin(s, w), s.calls) == s.(calls := s.calls + 1)
  {
    assert map[s.calls := w] - {s.calls} == map[];
  }

  lemma AcceptIsARun(c: Config, s: State, lands: bool, report: Option<Report>, landsAgain: bool)
    requires AtRest(s)
    ensures
      var i := s.calls;
      var called := Step(c, Step(c, s, AcceptBegins(lands)), CashInDispatched(i));
      AfterAccept(c, s, lands, report, landsAgain) ==
        Step(c, called, if report.None? then WorkFails(i) else CashInReturns(i, report.value, landsAgain))
  {
    hide NextSnapshot;
    var t := Update(s, s.record.(phase := Accepting), lands);
    OneWork(t, AcceptWork(false));
    OneWork(t, AcceptWork(true));
    assert map[t.calls := AcceptWork(false)][t.calls := AcceptWork(true)] == map[t.calls := AcceptWork(true)];
    assert s.work - {s.calls} == s.work && t.work - {t.calls} == t.work;
    if lands && report.Some? {
      assert FinishCashIn(c, t.(calls := t.calls + 1), t.calls, report.value, landsAgain).work == map[];
    }
  }

  lemma AuthorizeIsARun(c: Config, s: State, lands: bool, answer: Option<Authorization>, landsAgain: bool)
    requires AtRest(s)
    ensures
      var i := s.calls;
      AfterAuthorize(c, s, lands, answer, landsAgain) ==
        Step(c, Step(c, s, AuthorizeBegins(lands)),
             if answer.None? then WorkFails(i) else AuthorizerAnswers(i, answer.value, landsAgain))
  {
    var t := Update(s, s.record.(phase := Authorizing), lands);
    if s.snapshot.Some? {
      OneWork(t, AuthorizeWork(s.snapshot.value));
    }
    assert s.work - {s.calls} == s.work && t.work - {t.calls} == t.work;
  }

  lemma CommitIsARun(c: Config, s: State, a: Authorization, course: CommitCourse)
    requires AtRest(s)
    ensures
      var i := s.calls;
      var begun := Step(c, s, CommitBegins(a, course.lands));
      AfterCommit(c, s, a, course) ==
        if !course.recorded then Step(c, begun, WorkFails(i))
        else Step(c, Step(c, begun, EndDispatched(i)),
                  if course.ends then EndReturns(i, course.landsAgain) else WorkFails(i))
  {
    hide MayCommit;
    var t := Update(s, s.record.(phase := Committing, physicalCommitDispatched := true), course.lands);
    if s.snapshot.Some? {
      OneWork(t, CommitWork(a, s.snapshot.value, false));
      OneWork(t, CommitWork(a, s.snapshot.value, true));
    }
    assert s.work - {s.calls} == s.work && t.work - {t.calls} == t.work;
  }

  /** The state of an abort that waits for the customer. */
  function RolledBack(s: State): State {
    Update(s, s.record.(phase := RollingBack), true).(
      calls := s.calls + 1, device := s.device + [CashInRollback], work := map[s.calls := AbortWork(true)])
  }

  lemma AbortCalled(c: Config, s: State, lands: bool)
    requires AtRest(s)
    ensures
      Step(c, Step(c, s, AbortBegins(lands)), RollbackDispatched(s.calls)) ==
        if lands && MayAbort(s) then RolledBack(s) else BeginAbort(s, lands)
  {
    assert map[s.calls := AbortWork(false)][s.calls := AbortWork(true)] == map[s.calls := AbortWork(true)];
  }

  /** What follows the rollback, as events of call `i`. */
  function OfferEvents(c: Config, s: State, i: nat, course: AbortCourse): State {
    if course.taking.None? then Step(c, s, WorkFails(i))
    else
      var offered := Step(c, s, CashOffered(i, course.taking.value, course.landsAgain));
      if !course.recordedAgain then Step(c, offered, WorkFails(i))
      else Step(c, Step(c, offered, RetractDispatched(i)),
                if course.retracts then CashRetracted(i, course.landsLast) else WorkFails(i))
  }

  lemma OfferSettled(c: Config, s: State, course: AbortCourse)
    requires AtRest(s)
    ensures OfferEvents(c, RolledBack(s), s.calls, course) == AfterRollback(RolledBack(s).(work := map[]), course)
  {
    hide RolledBack, Step;
    var i, u := s.calls, RolledBack(s);
    assert u.work == map[i := AbortWork(true)] && !u.crashed by { WaitingAbort(s); }
    assert map[i := AbortWork(true)] - {i} == map[];
    FailsNow(c, u, i);
    if course.taking.Some? {
      OffersNow(c, u, i, course.taking.value, course.landsAgain);
      if course.taking.value.NotTakenRetract? && course.landsAgain {
        assert u.work[i := RetractWork(false)] == map[i := RetractWork(false)];
        var retracting := Update(u, u.record.(phase := Retracting), true).(work := map[i := RetractWork(false)]);
        RetractSettled(c, retracting, i, course);
      } else {
        var closed := if course.taking.value.NotTakenRetract? then Retracting else Failed;
        NothingWaits(c, Update(u, u.record.(phase := closed), course.landsAgain).(work := map[]), i, course.landsLast);
      }
    }
  }

  lemma FailsNow(c: Config, s: State, i: nat)
    requires !s.crashed
    ensures Step(c, s, WorkFails(i)) == End(s, i)
  {
  }

  lemma OffersNow(c: Config, s: State, i: nat, taking: Taking, lands: bool)
    requires Has(s, i, AbortWork(true)) && !s.crashed
    ensures Step(c, s, CashOffered(i, taking, lands)) == SettleOffer(s, i, taking, lands, RetractWork(false))
  {
  }

  /** The events of a call that has ended change nothing. */
  lemma NothingWaits(c: Config, s: State, i: nat, lands: bool)
    requires s.work == map[] && !s.crashed
    ensures Step(c, s, WorkFails(i)) == Step(c, s, RetractDispatched(i)) == Step(c, s, CashRetracted(i, lands)) == s
  {
    assert s.work - {i} == s.work;
  }

  lemma WaitingAbort(s: State)
    ensures RolledBack(s).work == map[s.calls := AbortWork(true)] && RolledBack(s).crashed == s.crashed
  {
  }

  lemma RetractSettled(c: Config, v: State, i: nat, course: AbortCourse)
    requires v.work == map[i := RetractWork(false)] && !v.crashed
    ensures
      var w := v.(work := map[], device := v.device + [Retract]);
      && Step(c, v, WorkFails(i)) == v.(work := map[])
      && Step(c, Step(c, v, RetractDispatched(i)),
              if course.retracts then CashRetracted(i, course.landsLast) else WorkFails(i))
         == if course.retracts then Update(w, w.record.(phase := Failed), course.landsLast) else w
  {
    assert map[i := RetractWork(false)] - {i} == map[] && map[i := RetractWork(true)] - {i} == map[];
    assert v.work[i := RetractWork(true)] == map[i := RetractWork(true)];
  }

  lemma AbortIsARun(c: Config, s: State, course: AbortCourse)
    requires AtRest(s)
    ensures
      var i := s.calls;
      var begun := Step(c, s, AbortBegins(course.lands));
      AfterAbort(s, course) ==
        if !course.recorded then Step(c, begun, WorkFails(i))
        else if !course.lands || !MayAbort(s) then begun
        else OfferEvents(c, Step(c, begun, RollbackDispatched(i)), i, course)
  {
    AbortCalled(c, s, course.lands);
    assert map[s.calls := AbortWork(false)] - {s.calls} == map[] && s.work - {s.calls} == s.work;
    if course.lands && MayAbort(s) {
      OfferSettled(c, s, course);
    }
  }

  class ActiveSession {
    const config: Config
    var record: Record
    var snapshot: Option<Snapshot>
    var stored: Record             // the record as the store has it
    var batches: seq<Report>       // what the device reported
    var device: seq<Command>       // what the device was told
    var calls: nat

    function View(): State
      reads this
    {
      State(record, snapshot, stored, map[], calls, batches, device, false)
    }

    constructor (config: Config)
      ensures View() == INITIAL && this.config == config
    {
      this.config := config;
      record, stored, snapshot := NEW_RECORD, NEW_RECORD, None;
      batches, device, calls := [], [], 0;
    }

    predicate MayAccept()
      reads this
    {
      record.phase.Starting? || record.phase.Accepting? || record.phase.Escrowed?
    }

    method Update(r: Record, lands: bool)
      modifies this`record, this`stored
      ensures record == r && stored == if lands then r else old(stored)
    {
      record := r;
      if lands {
        stored := r;
      }
    }

    /** The snapshot of the whole escrow, or None when the call throws. */
    method AcceptBatch(lands: bool, report: Option<Report>, landsAgain: bool, recorded: bool)
      returns (r: Option<Snapshot>)
      modifies this
      ensures View() == AfterAccept(config, old(View()), lands, report, landsAgain)
      ensures device == old(device) && record.physicalCommitDispatched == old(record.physicalCommitDispatched)
      ensures r.Some? ==> snapshot == r && record.phase.Escrowed? && stored == record
                          && r.value.revision == old(record.revision) + 1
      ensures r.Some? <==> old(MayAccept()) && lands && report.Some? && landsAgain && recorded
      ensures old(MayAccept()) && lands && report.Some? ==>
                snapshot.Some?
                && snapshot.value.refused
                     == Max(0, (if old(snapshot).Some? then old(snapshot).value.refused else 0) + report.value.refused)
    {
      hide NextSnapshot, Exact;
      if !record.phase.Starting? && !record.phase.Accepting? && !record.phase.Escrowed? {
        return None;
      }
      Update(record.(phase := Accepting), lands);
      if !lands {
        return None;
      }
      calls := calls + 1;
      if report.None? {
        return None;
      }
      var next := NextSnapshot(config.hash, snapshot, report.value, record.revision + 1);
      RevisionOf(config.hash, snapshot, report.value, record.revision + 1);
      snapshot := Some(next);
      batches := batches + [report.value];
      Update(record.(phase := Escrowed, revision := next.revision, snapshotHash := Some(next.hash)), landsAgain);
      return if landsAgain && recorded then Some(next) else None;
    }

    /** True when the authorizer approves exactly the escrowed snapshot. */
    method Authorize(lands: bool, answer: Option<Authorization>, landsAgain: bool) returns (approved: bool)
      modifies this
      ensures View() == AfterAuthorize(config, old(View()), lands, answer, landsAgain)
      ensures device == old(device) && snapshot == old(snapshot)
      ensures approved ==> answer.Some? && MayCommit(config, View(), answer.value)
      ensures approved <==>
                && old(record.phase).Escrowed? && snapshot.Some? && lands && landsAgain
                && answer.Some? && answer.value.approved && Exact(config.operationId, snapshot.value, answer.value)
    {
      if !record.phase.Escrowed? || snapshot.None? {
        return false;
      }
      var shown := snapshot.value;
      Update(record.(phase := Authorizing), lands);
      if !lands {
        return false;
      }
      calls := calls + 1;
      if answer.None? || !Exact(config.operationId, shown, answer.value) {
        return false;
      }
      Update(record.(phase := Escrowed), landsAgain);
      return landsAgain && answer.value.approved;
    }

    method Commit(a: Authorization, course: CommitCourse) returns (r: Result)
      modifies this
      ensures View() == AfterCommit(config, old(View()), a, course)
      ensures r.Committed? || r.Throws?
      ensures r.Committed? ==>
                && old(snapshot).Some? && device == old(device) + [CashInEnd(a, old(snapshot).value)]
                && stored.phase.Completed? && stored.physicalCommitDispatched
      ensures || device == old(device)
              || (MayCommit(config, old(View()), a) && device == old(device) + [CashInEnd(a, old(snapshot).value)])
      ensures device != old(device) ==> stored.physicalCommitDispatched && record.physicalCommitDispatched
      ensures snapshot == old(snapshot)
      ensures r.Committed? <==>
                && MayCommit(config, old(View()), a) && course.lands && course.recorded && course.ends
                && course.landsAgain && course.released
      ensures device != old(device) <==> MayCommit(config, old(View()), a) && course.lands && course.recorded
    {
      if !MayCommit(config, View(), a) {
        return Throws;
      }
      Update(record.(phase := Committing, physicalCommitDispatched := true), course.lands);
      if !course.lands {
        return Throws;
      }
      calls := calls + 1;
      if !course.recorded {
        return Throws;
      }
      device := device + [CashInEnd(a, snapshot.value)];
      if !course.ends {
        return Throws;
      }
      Update(record.(phase := Completed), course.landsAgain);
      return if course.landsAgain && course.released then Committed else Throws;
    }

    method Abort(course: AbortCourse) returns (r: Result)
      modifies this
      ensures View() == AfterAbort(old(View()), course)
      ensures !r.Committed?
      ensures old(record.physicalCommitDispatched) ==> device == old(device) && (r.RecoveryRequired? || r.Throws?)
      ensures r.Returned? || r.RetractedCash? ==> CashInRollback in device && stored.phase.Failed?
      ensures old(device) <= device && forall k | |old(device)| <= k < |device| :: !device[k].CashInEnd?
      ensures snapshot == old(snapshot)
      ensures old(record.physicalCommitDispatched) ==> (r.RecoveryRequired? <==> course.lands)
      ensures !old(record.physicalCommitDispatched) ==>
                && r == (if MayAbort(old(View())) && course.lands && course.recorded then Given(course) else Throws)
                && (CashInRollback in device <==>
                      CashInRollback in old(device) || (MayAbort(old(View())) && course.lands && course.recorded))
    {
      if record.physicalCommitDispatched {
        Update(record.(phase := Failed), course.lands);
        return if course.lands then RecoveryRequired else Throws;
      }
      if !MayAbort(View()) {
        return Throws;
      }
      Update(record.(phase := RollingBack), course.lands);
      if !course.lands {
        return Throws;
      }
      calls := calls + 1;
      if !course.recorded {
        return Throws;
      }
      device := device + [CashInRollback];
      r := AwaitTaking(course);
    }

    /** The abort from waitForCashTaken on. */
    method AwaitTaking(course: AbortCourse) returns (r: Result)
      modifies this
      ensures View() == AfterRollback(old(View()), course)
      ensures !r.Committed? && !r.RecoveryRequired?
      ensures r.Returned? || r.RetractedCash? ==> stored.phase.Failed?
      ensures device == old(device) || device == old(device) + [Retract]
      ensures snapshot == old(snapshot)
      ensures r == Given(course)
    {
      if course.taking.None? {
        return Throws;
      }
      if !course.taking.value.NotTakenRetract? {
        Update(record.(phase := Failed), course.landsAgain);
        if !course.landsAgain {
          return Throws;
        }
        if course.taking.value.NotTakenIntervention? {
          return LeftForIntervention;
        }
        return if course.released then Returned else Throws;
      }
      Update(record.(phase := Retracting), course.landsAgain);
      if !course.landsAgain || !course.recordedAgain {
        return Throws;
      }
      device := device + [Retract];
      if !course.retracts {
        return Throws;
      }
      Update(record.(phase := Failed), course.landsLast);
      return if course.landsLast && course.released then RetractedCash else Throws;
    }
  }

  lemma RevisionOf(hash: Hash, before: Option<Snapshot>, report: Report, revision: nat)
    ensures NextSnapshot(hash, before, report, revision).revision == revision
    ensures NextSnapshot(hash, before, report, revision).refused
         == Max(0, (if before.Some? then before.value.refused else 0) + report.refused)
  {
  }
}
