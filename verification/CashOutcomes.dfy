/**
 * What the calls of a cash acceptance session bring about: an escrowed batch, an admitted commit, cash committed or
 * given back, and the rollback of a crashed operation. All results are about reachable states; other calls may be in
 * flight.
 */
module CashOutcomes {
  import opened Prelude
  import opened CashNotes
  import opened CashAcceptance
  import opened CashSafety

  // ----- Recovery -----

  /**
   * Recovery of a crashed operation tells the device to roll back if and only if the stored record is unresolved, its
   * commit flag is not set, and the device reports an open cash-in; otherwise it changes nothing.
   */
  lemma RecoveryRollsBackIff(c: Config, events: seq<Event>, deviceStatus: string)
    requires Run(c, events).crashed
    ensures
      var s, t := Run(c, events), Run(c, events + [RecoveryRollsBack(deviceStatus)]);
      if && !s.stored.phase.Completed? && !s.stored.phase.Failed? && !s.stored.physicalCommitDispatched
         && (deviceStatus == "active" || deviceStatus == "escrow" || deviceStatus == "cash-in-active")
      then t == s.(device := s.device + [CashInRollback])
      else t == s
  {
    hide Run;
    RunAppend(c, events, RecoveryRollsBack(deviceStatus));
  }

  /** While the session lives there is no recovery. */
  lemma NoRecoveryBeforeCrash(c: Config, events: seq<Event>, deviceStatus: string)
    requires !Run(c, events).crashed
    ensures Run(c, events + [RecoveryRollsBack(deviceStatus)]) == Run(c, events)
  {
    hide Run;
    RunAppend(c, events, RecoveryRollsBack(deviceStatus));
  }

  // ----- Calls in flight -----

  lemma NewCall(c: Config, events: seq<Event>)
    ensures Run(c, events).calls !in Run(c, events).work
  {
    hide Run;
    RunKeeps(c, events);
  }

  lemma TwoEvents(c: Config, events: seq<Event>, e: Event, f: Event)
    ensures Run(c, events + [e, f]) == Step(c, Step(c, Run(c, events), e), f)
  {
    hide Run, Step;
    RunAppend(c, events, e);
    RunAppend(c, events + [e], f);
    assert events + [e] + [f] == events + [e, f];
  }

  lemma ThreeEvents(c: Config, events: seq<Event>, e: Event, f: Event, g: Event)
    ensures Run(c, events + [e, f, g]) == Step(c, Step(c, Step(c, Run(c, events), e), f), g)
  {
    hide Run, Step;
    TwoEvents(c, events, e, f);
    RunAppend(c, events + [e, f], g);
    assert events + [e, f] + [g] == events + [e, f, g];
  }

  // ----- A batch -----

  predicate CanAccept(s: State) {
    !s.crashed && (s.record.phase.Starting? || s.record.phase.Accepting? || s.record.phase.Escrowed?)
  }

  /** An undisturbed acceptBatch escrows the batch: it is in the snapshot, under the next revision, and stored. */
  lemma BatchIsEscrowed(c: Config, events: seq<Event>, report: Report)
    requires CanAccept(Run(c, events))
    ensures
      var s := Run(c, events);
      var i := s.calls;
      var t := Run(c, events + [AcceptBegins(true), CashInDispatched(i), CashInReturns(i, report, true)]);
      && t.batches == s.batches + [report] && t.snapshot.Some? && t.snapshot == AfterBatches(c.hash, t.batches)
      && t.record.phase.Escrowed? && t.record.revision == s.record.revision + 1
      && t.record.snapshotHash == Some(t.snapshot.value.hash) && t.stored == t.record
      && t.record.physicalCommitDispatched == s.record.physicalCommitDispatched
      && t.device == s.device && t.work == s.work && !t.crashed
  {
    var s := Run(c, events);
    var i := s.calls;
    var more := [AcceptBegins(true), CashInDispatched(i), CashInReturns(i, report, true)];
    NewCall(c, events);
    RunKeeps(c, events + more);
    ThreeEvents(c, events, more[0], more[1], more[2]);
    hide Run, AfterBatches, NextSnapshot, Inv;
    assert s.work[i := AcceptWork(false)][i := AcceptWork(true)] - {i} == s.work;
    SnapshotFollowsBatches(c, Run(c, events + more));
  }

  lemma SnapshotFollowsBatches(c: Config, s: State)
    requires Inv(c, s)
    ensures s.snapshot == AfterBatches(c.hash, s.batches)
  {
  }

  // ----- Authorizing and committing -----

  predicate Escrow(s: State) {
    !s.crashed && s.record.phase.Escrowed? && s.snapshot.Some?
  }

  /** The authorization is for this operation and for exactly the escrowed snapshot. */
  predicate ForSnapshot(c: Config, s: State, a: Authorization)
    requires s.snapshot.Some?
  {
    a.operationId == c.operationId && a.revision == s.snapshot.value.revision && a.snapshotHash == s.snapshot.value.hash
  }

  /** An answer for exactly the shown snapshot escrows again; another answer leaves the session authorizing. */
  lemma AnswerEscrowsAgain(c: Config, events: seq<Event>, a: Authorization)
    requires Escrow(Run(c, events))
    ensures
      var s := Run(c, events);
      var t := Run(c, events + [AuthorizeBegins(true), AuthorizerAnswers(s.calls, a, true)]);
      && t.record.phase == (if ForSnapshot(c, s, a) then Escrowed else Authorizing) && t.stored == t.record
      && t.snapshot == s.snapshot && t.device == s.device && t.work == s.work && !t.crashed
      && t.record.revision == s.record.revision && t.batches == s.batches
      && t.record.physicalCommitDispatched == s.record.physicalCommitDispatched
  {
    var s := Run(c, events);
    var i := s.calls;
    NewCall(c, events);
    TwoEvents(c, events, AuthorizeBegins(true), AuthorizerAnswers(i, a, true));
    hide Run;
    assert s.work[i := AuthorizeWork(s.snapshot.value)] - {i} == s.work;
  }

  /** With an approval of exactly the escrowed snapshot the device commits it, and the operation is completed. */
  lemma ApprovedEscrowIsCommitted(c: Config, events: seq<Event>, a: Authorization)
    requires var s := Run(c, events); Escrow(s) && ForSnapshot(c, s, a) && a.approved
    ensures
      var s := Run(c, events);
      var t := Run(c, events + [CommitBegins(a, true), EndDispatched(s.calls), EndReturns(s.calls, true)]);
      && t.device == s.device + [CashInEnd(a, s.snapshot.value)] && t.snapshot == s.snapshot
      && t.record.phase.Completed? && t.record.physicalCommitDispatched && t.stored == t.record
      && t.work == s.work && !t.crashed
  {
    var s := Run(c, events);
    var i := s.calls;
    NewCall(c, events);
    ThreeEvents(c, events, CommitBegins(a, true), EndDispatched(i), EndReturns(i, true));
    hide Run;
    var snapshot := s.snapshot.value;
    assert s.work[i := CommitWork(a, snapshot, false)][i := CommitWork(a, snapshot, true)] - {i} == s.work;
  }

  /** Anything less is refused: no record is written and the device hears nothing. */
  lemma OtherCommitsAreRefused(c: Config, events: seq<Event>, a: Authorization, lands: bool)
    requires var s := Run(c, events); !(Escrow(s) && ForSnapshot(c, s, a) && a.approved)
    ensures Run(c, events + [CommitBegins(a, lands)]) == Run(c, events)
  {
    hide Run;
    RunAppend(c, events, CommitBegins(a, lands));
  }

  // ----- Giving the cash back -----

  predicate CanAbort(s: State) {
    && !s.crashed && !s.record.physicalCommitDispatched
    && (s.record.phase.Starting? || s.record.phase.Accepting? || s.record.phase.Escrowed?
        || s.record.phase.Authorizing?)
  }

  /** The operation is closed without a commit, and stored so. */
  predicate ClosedWithout(s: State, t: State, device: seq<Command>) {
    && t.record == s.record.(phase := Failed) && t.stored == t.record && t.device == s.device + device
    && t.work == s.work && t.snapshot == s.snapshot && !t.crashed
  }

  /** An abort rolls back; cash that the customer takes, or that is left for an intervention, closes the operation. */
  lemma AbortRollsBack(c: Config, events: seq<Event>, taking: Taking)
    requires CanAbort(Run(c, events)) && !taking.NotTakenRetract?
    ensures
      var s := Run(c, events);
      var i := s.calls;
      ClosedWithout(s, Run(c, events + [AbortBegins(true), RollbackDispatched(i), CashOffered(i, taking, true)]),
                    [CashInRollback])
  {
    var s := Run(c, events);
    var i := s.calls;
    NewCall(c, events);
    ThreeEvents(c, events, AbortBegins(true), RollbackDispatched(i), CashOffered(i, taking, true));
    hide Run;
    assert s.work[i := AbortWork(false)][i := AbortWork(true)] - {i} == s.work;
  }

  /** A call that is about to retract does so, and closes the operation. */
  lemma RetractCloses(c: Config, events: seq<Event>, i: nat)
    requires
      var s := Run(c, events);
      && !s.crashed && i in s.work
      && (s.work[i] == RetractWork(false) || s.work[i] == RefusalRetractWork(false))
    ensures
      var s := Run(c, events);
      var failed := s.record.(phase := Failed);
      Run(c, events + [RetractDispatched(i), CashRetracted(i, true)]) == s.(
        record := failed, stored := failed, work := s.work - {i}, device := s.device + [Retract])
  {
    var s := Run(c, events);
    TwoEvents(c, events, RetractDispatched(i), CashRetracted(i, true));
    hide Run;
    assert s.work[i := RetractWork(true)] - {i} == s.work[i := RefusalRetractWork(true)] - {i} == s.work - {i};
  }

  lemma AbortBegun(c: Config, events: seq<Event>)
    requires CanAbort(Run(c, events))
    ensures
      var s := Run(c, events);
      var i, rolling := s.calls, s.record.(phase := RollingBack);
      Run(c, events + [AbortBegins(true), RollbackDispatched(i)]) == s.(
        record := rolling, stored := rolling, calls := i + 1, work := s.work[i := AbortWork(true)],
        device := s.device + [CashInRollback])
  {
    var s := Run(c, events);
    var i := s.calls;
    TwoEvents(c, events, AbortBegins(true), RollbackDispatched(i));
    hide Run;
    assert s.work[i := AbortWork(false)][i := AbortWork(true)] == s.work[i := AbortWork(true)];
  }

  lemma AbortOffers(c: Config, events: seq<Event>)
    requires CanAbort(Run(c, events))
    ensures
      var s := Run(c, events);
      var i, retracting := s.calls, s.record.(phase := Retracting);
      Run(c, events + [AbortBegins(true), RollbackDispatched(i), CashOffered(i, NotTakenRetract, true)]) == s.(
        record := retracting, stored := retracting, calls := i + 1, work := s.work[i := RetractWork(false)],
        device := s.device + [CashInRollback])
  {
    var s := Run(c, events);
    var i := s.calls;
    AbortBegun(c, events);
    hide Run;
    var begun := events + [AbortBegins(true), RollbackDispatched(i)];
    RunAppend(c, begun, CashOffered(i, NotTakenRetract, true));
    assert begun + [CashOffered(i, NotTakenRetract, true)]
        == events + [AbortBegins(true), RollbackDispatched(i), CashOffered(i, NotTakenRetract, true)];
    assert s.work[i := AbortWork(true)][i := RetractWork(false)] == s.work[i := RetractWork(false)];
  }

  /** Cash that is not taken is retracted. */
  lemma AbortRetracts(c: Config, events: seq<Event>)
    requires CanAbort(Run(c, events))
    ensures
      var s := Run(c, events);
      var i := s.calls;
      ClosedWithout(s, Run(c, events + [AbortBegins(true), RollbackDispatched(i), CashOffered(i, NotTakenRetract, true)]
                              + [RetractDispatched(i), CashRetracted(i, true)]),
                    [CashInRollback, Retract])
  {
    var s := Run(c, events);
    var i := s.calls;
    NewCall(c, events);
    AbortOffers(c, events);
    hide Run, Step;
    RetractCloses(c, events + [AbortBegins(true), RollbackDispatched(i), CashOffered(i, NotTakenRetract, true)], i);
    assert s.work[i := RetractWork(false)] - {i} == s.work;
    assert s.device + [CashInRollback] + [Retract] == s.device + [CashInRollback, Retract];
  }

  /** After the commit flag is set an abort only marks the operation failed; in any other phase it is refused. */
  lemma OtherAbortsTellNothing(c: Config, events: seq<Event>, lands: bool)
    requires var s := Run(c, events); !s.crashed && !CanAbort(s)
    ensures
      var s, t := Run(c, events), Run(c, events + [AbortBegins(lands)]);
      if s.record.physicalCommitDispatched
      then
        var failed := s.record.(phase := Failed);
        t == s.(record := failed, stored := if lands then failed else s.stored)
      else t == s
  {
    hide Run;
    RunAppend(c, events, AbortBegins(lands));
  }

  // ----- Refused notes -----

  predicate HasRefused(s: State) {
    Escrow(s) && s.snapshot.value.refused > 0
  }

  /** Refused notes that are taken leave the escrow as it is; if they are left, the operation ends. */
  lemma RefusedNotesAreOffered(c: Config, events: seq<Event>, taking: Taking)
    requires HasRefused(Run(c, events)) && !taking.NotTakenRetract?
    ensures
      var s := Run(c, events);
      var t := Run(c, events + [RefusalBegins, RefusalOffered(s.calls, taking, true)]);
      if taking.Taken? then t == s.(calls := s.calls + 1) else ClosedWithout(s, t, [])
  {
    var s := Run(c, events);
    var i := s.calls;
    NewCall(c, events);
    TwoEvents(c, events, RefusalBegins, RefusalOffered(i, taking, true));
    hide Run;
    assert s.work[i := RefusalWork] - {i} == s.work;
    assert s.device + [] == s.device;
  }

  lemma RefusedNotesAreRetracted(c: Config, events: seq<Event>)
    requires HasRefused(Run(c, events))
    ensures
      var s := Run(c, events);
      var i := s.calls;
      ClosedWithout(s, Run(c, events + [RefusalBegins, RefusalOffered(i, NotTakenRetract, true)]
                              + [RetractDispatched(i), CashRetracted(i, true)]), [Retract])
  {
    var s := Run(c, events);
    var i := s.calls;
    NewCall(c, events);
    TwoEvents(c, events, RefusalBegins, RefusalOffered(i, NotTakenRetract, true));
    var offered := events + [RefusalBegins, RefusalOffered(i, NotTakenRetract, true)];
    hide Run;
    assert i in Run(c, offered).work && Run(c, offered).work[i] == RefusalRetractWork(false);
    RetractCloses(c, offered, i);
    assert s.work[i := RefusalWork][i := RefusalRetractWork(false)] - {i} == s.work;
  }

  // ----- A whole operation -----

  /** Batches accepted one after another. */
  lemma {:induction false} BatchesAreEscrowed(c: Config, reports: seq<Report>) returns (events: seq<Event>)
    requires reports != []
    ensures
      var s := Run(c, events);
      && Escrow(s) && s.batches == reports && s.snapshot == AfterBatches(c.hash, reports) && s.stored == s.record
      && s.device == [] && s.work == map[] && !s.record.physicalCommitDispatched
    decreases |reports|
  {
    hide AfterBatches;
    var before, last := reports[..|reports| - 1], reports[|reports| - 1];
    assert before + [last] == reports;
    var earlier: seq<Event> := [];
    if before != [] {
      earlier := BatchesAreEscrowed(c, before);
    }
    hide Run;
    assert before == [] ==> Run(c, earlier) == INITIAL by { EmptyRun(c); }
    var i := Run(c, earlier).calls;
    BatchIsEscrowed(c, earlier, last);
    events := earlier + [AcceptBegins(true), CashInDispatched(i), CashInReturns(i, last, true)];
  }

  lemma EmptyRun(c: Config)
    ensures Run(c, []) == INITIAL
  {
  }

  /**
   * Whatever batches the customer puts in, an approval of the whole escrow commits it: the device is told to commit
   * once, the snapshot of all batches, and the operation is stored as completed.
   */
  lemma DepositIsCommitted(c: Config, reports: seq<Report>, approval: Authorization) returns (events: seq<Event>)
    requires reports != [] && approval.approved && approval.operationId == c.operationId
    requires
      var s := AfterBatches(c.hash, reports);
      s.Some? && approval.revision == s.value.revision && approval.snapshotHash == s.value.hash
    ensures
      var s := Run(c, events);
      && s.device == [CashInEnd(approval, AfterBatches(c.hash, reports).value)] && s.batches == reports
      && s.stored.phase.Completed? && s.stored.physicalCommitDispatched && s.work == map[]
  {
    hide Run, AfterBatches;
    var escrowed := BatchesAreEscrowed(c, reports);
    var i := Run(c, escrowed).calls;
    AnswerEscrowsAgain(c, escrowed, approval);
    var authorized := escrowed + [AuthorizeBegins(true), AuthorizerAnswers(i, approval, true)];
    var j := Run(c, authorized).calls;
    ApprovedEscrowIsCommitted(c, authorized, approval);
    events := authorized + [CommitBegins(approval, true), EndDispatched(j), EndReturns(j, true)];
    CommitKeepsBatches(c, authorized, approval, j);
    assert [] + [CashInEnd(approval, AfterBatches(c.hash, reports).value)]
        == [CashInEnd(approval, AfterBatches(c.hash, reports).value)];
  }

  lemma CommitKeepsBatches(c: Config, events: seq<Event>, a: Authorization, j: nat)
    ensures Run(c, events + [CommitBegins(a, true), EndDispatched(j), EndReturns(j, true)]).batches
         == Run(c, events).batches
  {
    ThreeEvents(c, events, CommitBegins(a, true), EndDispatched(j), EndReturns(j, true));
    hide Run;
  }
}
