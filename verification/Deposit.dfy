/**
 * The deposit workflow of packages/deposit-orchestration/src (workflow.ts, outcome.ts, workflow-decisions.ts),
 * driving the cash acceptance session of module CashSession.
 *
 * The course of an operation says what the device, the host, the store, the review gate, the inventory and the
 * customer do; it is arbitrary, and the outcome is stated in terms of it.
 */
module Deposit {
  import opened Prelude
  import opened CashNotes
  import C = CashAcceptance
  import S = CashSession
  import CashSafety

  datatype Policy = Policy(maxBatches: int)

  datatype HostStatus = NotRequested | Approved | Declined | Unavailable

  datatype Custody = Customer | Transport | InEscrow | CashUnit | Presented | RetractUnit | Unknown

  datatype PortionKind = AcceptedPortion | RefusedPortion | ReturnedPortion

  datatype Portion = Portion(kind: PortionKind, custody: Custody, noteCount: int)

  datatype Commit = CommitNotRequested | Dispatched | CommitCompleted | ExecutionUnknown

  datatype Escrow = Escrow(batchCount: nat, revision: nat, snapshotHash: Option<string>, acceptedNoteCount: int,
      refusedCount: int)

  datatype Physical = Physical(commit: Commit, committed: bool, reconciliationRequired: bool)

  datatype Inventory = Inventory(before: Option<string>, after: Option<string>, afterCaptureFailed: bool)

  datatype Facts = Facts(host: HostStatus, escrow: Escrow, physical: Physical, inventory: Inventory,
      portions: seq<Portion>)

  const INITIAL_FACTS := Facts(NotRequested, Escrow(0, 0, None, 0, 0), Physical(CommitNotRequested, false, false),
                               Inventory(None, None, false), [])

  datatype Status = Completed | Cancelled | TimedOut | DeclinedStatus | Failed | Intervention

  /** The decision of the review gate. */
  datatype Decision = AcceptMore | Confirm | CancelledByCustomer | ReviewTimedOut | Rejected

  datatype Refusal = RefusedTaken | RefusedRetracted | RefusedPresented | RefusedUnknown

  // ----- outcome.ts -----

  function NoteTotal(notes: seq<Note>): int {
    if notes == [] then 0 else notes[0].count + NoteTotal(notes[1..])
  }

  predicate SafeCustody(custody: Custody) {
    custody.Customer? || custody.CashUnit? || custody.RetractUnit?
  }

  predicate Settled(portions: seq<Portion>) {
    forall i | 0 <= i < |portions| :: SafeCustody(portions[i].custody)
  }

  /** Nothing about the cash is open. */
  predicate Safe(f: Facts) {
    Settled(f.portions) && !f.physical.commit.ExecutionUnknown? && !f.physical.reconciliationRequired
    && !f.inventory.afterCaptureFailed
  }

  function SafetyStatus(f: Facts, requested: Status): Status {
    if Safe(f) then requested else Intervention
  }

  /** The notes of accepted portions. */
  function AcceptedTotal(portions: seq<Portion>): int {
    if portions == [] then 0
    else
      AcceptedTotal(portions[..|portions| - 1]) +
      if portions[|portions| - 1].kind.AcceptedPortion? then portions[|portions| - 1].noteCount else 0
  }

  /** Where the result of a session call says the escrowed notes are. */
  function ResultCustody(r: S.Result): Custody
    requires !r.Throws?
  {
    match r
    case Committed => CashUnit
    case Returned => Customer
    case RetractedCash => RetractUnit
    case LeftForIntervention => Presented
    case RecoveryRequired => Unknown
  }

  /** applyAcceptanceResult: the reconciliation mark is overwritten, not kept. */
  function ApplyResult(f: Facts, r: S.Result, notes: seq<Note>): Facts
    requires !r.Throws?
  {
    var custody := ResultCustody(r);
    f.(physical := Physical(if r.Committed? then CommitCompleted else f.physical.commit, r.Committed?,
                            r.RecoveryRequired? || custody.Unknown? || custody.Presented?),
       portions := f.portions +
         [Portion(if r.Committed? then AcceptedPortion else ReturnedPortion, custody, NoteTotal(notes))])
  }

  function RefusalCustody(r: Refusal): Custody {
    match r
    case RefusedTaken => Customer
    case RefusedRetracted => RetractUnit
    case RefusedPresented => Presented
    case RefusedUnknown => Unknown
  }

  /** The status reviewFailure asks for. */
  function ReviewStatus(decision: Decision): Status {
    match decision
    case ReviewTimedOut => TimedOut
    case CancelledByCustomer => Cancelled
    case _ => Failed
  }

  // ----- What happened to a session -----

  /** The calls that close a session: whether each succeeded. */
  datatype Closing = CommitCalled(succeeded: bool) | AbortCalled(succeeded: bool)

  /** One commit, one abort, or a failed commit and one abort. */
  predicate ClosedOnce(calls: seq<Closing>) {
    (|calls| == 1 && (calls[0].AbortCalled? || calls[0].succeeded))
    || (|calls| == 2 && calls[0] == CommitCalled(false) && calls[1].AbortCalled?)
  }

  /** How collectAndReview ends: confirmed, with an outcome, or by the error after its loop. */
  datatype Review = Confirmed | Ended(status: Status) | LoopEnded

  datatype Boundary = Before | After

  /** What the inventory port returns: recordInventory goes by the boundary written in it. */
  datatype InventorySnapshot = InventorySnapshot(id: string, boundary: Boundary)

  function RecordInventory(f: Facts, s: InventorySnapshot): Facts {
    f.(inventory :=
         if s.boundary.Before? then f.inventory.(before := Some(s.id)) else f.inventory.(after := Some(s.id)))
  }

  // ----- What an operation meets -----

  /** One call of acceptBatch: the request's signal, the two writes, the device's report and the evidence. */
  datatype Accepting = Accepting(aborted: bool, lands: bool, report: Option<Report>, landsAgain: bool, recorded: bool)

  /** One round of the review loop. */
  datatype Round = Round(
    interrupted: bool,               // the request's signal before the round
    accepting: Accepting,
    marked: bool,                    // markEscrow
    refusal: Refusal,                // what became of newly refused notes
    decision: Option<Decision>)      // of the review gate; None when it throws

  /** session.authorize: its two writes, the evidence between them, and the host's answer, None when it throws. */
  datatype Authorizing = Authorizing(lands: bool, recorded: bool, answer: Option<C.Authorization>, landsAgain: bool)

  datatype Course = Course(
    before: Option<InventorySnapshot>,
    interrupted: bool,               // the request's signal before the session starts
    timeout: bool,                   // whether an interruption is a timeout
    starts: bool,
    rounds: nat -> Round,            // numbered from 1
    authorizing: Authorizing,
    marked: bool,                    // markAuthorized and its audit entry
    commit: S.CommitCourse,
    abort: S.AbortCourse,
    after: Option<InventorySnapshot>)

  predicate Began(c: Course) {
    c.before.Some? && !c.interrupted && c.starts
  }

  predicate Accepts(a: Accepting) {
    !a.aborted && a.lands && a.report.Some? && a.landsAgain && a.recorded
  }

  /** The refused notes the device counted in the first `k` rounds. */
  function RefusedAfter(c: Course, k: nat): nat {
    if k == 0 then 0
    else
      var report := c.rounds(k).accepting.report;
      Max(0, RefusedAfter(c, k - 1) + if report.Some? then report.value.refused else 0)
  }

  /** The portions of the notes refused in the first `k` rounds, each where the customer or the device left it. */
  function RefusedPortions(c: Course, k: nat): seq<Portion> {
    if k == 0 then []
    else
      var newly := RefusedAfter(c, k) - RefusedAfter(c, k - 1);
      RefusedPortions(c, k - 1) +
      if newly > 0 then [Portion(RefusedPortion, RefusalCustody(c.rounds(k).refusal), newly)] else []
  }

  /** Notes refused in this round were taken or retracted. */
  predicate RefusedSettled(c: Course, k: nat)
    requires k > 0
  {
    RefusedAfter(c, k) <= RefusedAfter(c, k - 1)
    || c.rounds(k).refusal.RefusedTaken? || c.rounds(k).refusal.RefusedRetracted?
  }

  /** The round reaches its review with nothing open. */
  predicate Reviewed(c: Course, k: nat)
    requires k > 0
  {
    var round := c.rounds(k);
    !round.interrupted && Accepts(round.accepting) && round.marked && RefusedSettled(c, k)
  }

  predicate GoesOn(c: Course, k: nat)
    requires k > 0
  {
    Reviewed(c, k) && c.rounds(k).decision == Some(AcceptMore)
  }

  /** All rounds before this one went on. */
  predicate Reaches(c: Course, maxBatches: int, n: nat) {
    1 <= n <= maxBatches && forall m: nat | 1 <= m < n :: GoesOn(c, m)
  }

  predicate ConfirmsAt(c: Course, maxBatches: int, n: nat) {
    Reaches(c, maxBatches, n) && Reviewed(c, n) && c.rounds(n).decision == Some(Confirm)
  }

  ghost predicate CustomerConfirms(c: Course, maxBatches: int) {
    exists n: nat :: ConfirmsAt(c, maxBatches, n)
  }

  /** The loop ends in round `n` without a confirmation, asking for this outcome. */
  predicate EndsAt(c: Course, maxBatches: int, n: nat, requested: Status) {
    && Reaches(c, maxBatches, n)
    && var round := c.rounds(n);
    match requested
    case TimedOut =>
      (round.interrupted && c.timeout) || (Reviewed(c, n) && round.decision == Some(ReviewTimedOut))
    case Cancelled =>
      (round.interrupted && !c.timeout) || (Reviewed(c, n) && round.decision == Some(CancelledByCustomer))
    case Failed =>
      || (!round.interrupted && !Accepts(round.accepting))
      || (Reviewed(c, n)
          && (round.decision == Some(Rejected) || (round.decision == Some(AcceptMore) && n == maxBatches)))
    case _ => false
  }

  ghost predicate LoopEndsAs(c: Course, maxBatches: int, requested: Status) {
    exists n: nat :: EndsAt(c, maxBatches, n, requested)
  }

  /** The host approved exactly the escrowed snapshot, and that is stored. */
  predicate HostGrants(c: Course, operation: C.Config, snapshot: Option<Snapshot>) {
    var a := c.authorizing;
    && a.lands && a.recorded && a.landsAgain && a.answer.Some? && a.answer.value.approved
    && snapshot.Some? && C.Exact(operation.operationId, snapshot.value, a.answer.value)
  }

  /** The host was asked and said no. */
  predicate HostDeclines(c: Course) {
    var a := c.authorizing;
    a.lands && a.recorded && a.answer.Some? && !a.answer.value.approved
  }

  predicate CommitSucceeds(c: Course) {
    c.commit.lands && c.commit.recorded && c.commit.ends && c.commit.landsAgain && c.commit.released
  }

  /** An abort leaves the cash with the customer or in the retract unit, and the inventory is captured. */
  predicate ComesBack(c: Course) {
    && c.abort.lands && c.abort.recorded
    && (S.Given(c.abort).Returned? || S.Given(c.abort).RetractedCash?)
    && c.after.Some?
  }

  class DepositWorkflow {
    const policy: Policy
    const operation: C.Config
    /** The inventory port labels each snapshot with the boundary it was asked for. */
    const labelled: bool
    const course: Course
    var facts: Facts
    var session: Option<S.ActiveSession>
    var calls: seq<Closing>

    constructor (policy: Policy, operation: C.Config, labelled: bool, course: Course)
      ensures this.policy == policy && this.operation == operation && this.labelled == labelled
      ensures this.course == course
      ensures facts == INITIAL_FACTS && session == None && calls == []
    {
      this.policy, this.operation, this.labelled, this.course := policy, operation, labelled, course;
      facts, session, calls := INITIAL_FACTS, None, [];
    }

    // ----- What holds between the steps -----

    ghost function Parts(): set<object>
      reads this
    {
      if session.Some? then {session.value} else {}
    }

    ghost predicate NothingEnded()
      requires session.Some?
      reads this, session.value
    {
      NoEnd(session.value.device)
    }

    /** The device was never told both to commit and to roll back. */
    ghost predicate OneWay()
      requires session.Some?
      reads this, session.value
    {
      !(CashSafety.HasEnd(session.value.device) && CashSafety.HasRollback(session.value.device))
    }

    /** A session is open, its cash has gone nowhere, and every portion so far is settled. */
    ghost predicate Open()
      reads this, Parts()
    {
      && session.Some? && session.value.config == operation && calls == [] && NothingEnded()
      && !CashSafety.HasRollback(session.value.device)
      && !session.value.record.physicalCommitDispatched && C.MayAbort(session.value.View())
      && Settled(facts.portions) && AcceptedTotal(facts.portions) == 0
      && facts.physical == INITIAL_FACTS.physical && !facts.inventory.afterCaptureFailed
      && (labelled ==> facts.inventory.before.Some?)
    }

    /** The escrow facts are those of the session's latest snapshot. */
    ghost predicate Observed()
      requires session.Some?
      reads this, session.value
    {
      && session.value.snapshot.Some?
      && var s := session.value.snapshot.value;
      && facts.escrow.revision == s.revision && facts.escrow.snapshotHash == Some(s.hash)
      && facts.escrow.acceptedNoteCount == NoteTotal(s.notes)
    }

    /** The session takes batches, and the refused notes of the rounds so far are counted. */
    ghost predicate Collecting(rounds: nat)
      reads this, Parts()
    {
      && session.Some? && session.value.MayAccept()
      && facts.escrow.refusedCount == RefusedAfter(course, rounds)
      && facts.portions == RefusedPortions(course, rounds)
      && (if session.value.snapshot.Some? then session.value.snapshot.value.refused else 0) == facts.escrow.refusedCount
    }

    /** The escrow is back where the abort says: with the customer, or in the retract unit. */
    ghost predicate CashBack()
      reads this`facts
    {
      && facts.portions != []
      && var last := facts.portions[|facts.portions| - 1];
      last.kind.ReturnedPortion? && last.custody == if S.Given(course.abort).Returned? then Customer else RetractUnit
    }

    /** The session is closed without a commit, and the outcome asked for is not `completed`. */
    ghost predicate GivenBack(status: Status)
      reads this, Parts()
    {
      && session.Some? && ClosedOnce(calls) && NothingEnded()
      && !status.Completed? && (!status.Intervention? ==> Safe(facts) && CashBack()) && MarkIsRedundant(facts)
    }

    // ----- Inventory -----

    method Capture(boundary: Boundary, answer: Option<InventorySnapshot>)
      returns (labelledAnswer: Option<InventorySnapshot>)
      ensures labelledAnswer.Some? <==> answer.Some?
      ensures labelled && answer.Some? ==> labelledAnswer.value.boundary == boundary
    {
      return if labelled && answer.Some? then Some(InventorySnapshot(answer.value.id, boundary)) else answer;
    }

    method CaptureBefore() returns (captured: bool)
      modifies this`facts
      ensures captured <==> course.before.Some?
      ensures facts == old(facts).(inventory := facts.inventory)
      ensures facts.inventory.afterCaptureFailed == old(facts.inventory.afterCaptureFailed)
      ensures captured && labelled ==> facts.inventory.before.Some?
    {
      var answer := Capture(Before, course.before);
      if answer.Some? {
        facts := RecordInventory(facts, answer.value);
      }
      captured := answer.Some?;
    }

    method CaptureAfter()
      modifies this`facts
      ensures facts == old(facts).(inventory := facts.inventory, physical := facts.physical)
      ensures facts.physical == old(facts).physical.(reconciliationRequired := facts.physical.reconciliationRequired)
      ensures old(facts.inventory.before).Some? ==> facts.inventory.before.Some?
      ensures !facts.inventory.afterCaptureFailed ==>
                && !old(facts.inventory.afterCaptureFailed) && facts.physical == old(facts.physical)
                && (labelled ==> facts.inventory.after.Some?)
      ensures facts.inventory.afterCaptureFailed <==> old(facts.inventory.afterCaptureFailed) || course.after.None?
    {
      var answer := Capture(After, course.after);
      if answer.Some? {
        facts := RecordInventory(facts, answer.value);
      } else {
        facts := facts.(inventory := facts.inventory.(afterCaptureFailed := true),
                        physical := facts.physical.(reconciliationRequired := true));
      }
    }

    // ----- Closing the session -----

    method Abort() returns (result: Option<S.Result>)
      requires session.Some? && MarkIsRedundant(facts)
      modifies this`facts, this`calls, session.value
      ensures calls == old(calls) + [AbortCalled(result.Some?)]
      ensures old(NothingEnded()) <==> NothingEnded()
      ensures session.value.snapshot == old(session.value.snapshot)
      ensures old(session.value.record.physicalCommitDispatched) ==> session.value.device == old(session.value.device)
      ensures facts.host == old(facts.host) && facts.inventory == old(facts.inventory)
      ensures |facts.portions| == |old(facts.portions)| + 1 && old(facts.portions) <= facts.portions
      ensures facts.portions[|facts.portions| - 1].kind.ReturnedPortion?
      ensures facts.physical.commit == old(facts.physical.commit)
      ensures old(session.value.record.physicalCommitDispatched) ==> facts.physical.reconciliationRequired
      ensures MarkIsRedundant(facts) && (old(!Safe(facts)) ==> !Safe(facts))
      ensures facts.inventory.afterCaptureFailed == old(facts.inventory.afterCaptureFailed)
      ensures
        var back := course.abort.lands && course.abort.recorded
                    && (S.Given(course.abort).Returned? || S.Given(course.abort).RetractedCash?);
        old(Safe(facts) && !session.value.record.physicalCommitDispatched && C.MayAbort(session.value.View())) ==>
          (Safe(facts) <==> back) && (back ==> CashBack())
    {
      hide S.AfterAbort, S.AfterRollback, NoteTotal;
      ghost var told := session.value.device;
      var r := session.value.Abort(course.abort);
      SameEnds(told, session.value.device);
      calls := calls + [AbortCalled(!r.Throws?)];
      if r.Throws? {
        PortionAppended(facts.portions, Portion(ReturnedPortion, Unknown, facts.escrow.acceptedNoteCount));
        facts := facts.(physical := facts.physical.(reconciliationRequired := true),
                        portions := facts.portions + [Portion(ReturnedPortion, Unknown,
                            facts.escrow.acceptedNoteCount)]);
        return None;
      }
      var notes := if session.value.snapshot.Some? then session.value.snapshot.value.notes else [];
      OverwritingTheMarkIsHarmless(facts, r, notes);
      facts := ApplyResult(facts, r, notes);
      return Some(r);
    }

    /** Abort, capture the inventory, and report this status unless something is open. */
    method GiveBack(requested: Status) returns (status: Status)
      requires Open() && !requested.Completed?
      modifies this`facts, this`calls, session.value
      ensures GivenBack(status) && status == (if ComesBack(course) then requested else Intervention)
      ensures facts.host == old(facts.host) && session == old(session)
      ensures session.value.snapshot == old(session.value.snapshot)
    {
      var _ := Abort();
      CaptureAfter();
      status := SafetyStatus(facts, requested);
    }

    // ----- Collecting -----

    method AcceptBatch(a: Accepting, ghost round: nat) returns (snapshot: Option<Snapshot>)
      requires Open() && round > 0 && a == course.rounds(round).accepting && Collecting(round - 1)
      modifies session.value
      ensures Open() && (snapshot.Some? ==> session.value.snapshot == snapshot)
      ensures snapshot.Some? <==> Accepts(a)
      ensures snapshot.Some? ==>
                session.value.record.phase.Escrowed? && snapshot.value.refused == RefusedAfter(course, round)
    {
      if a.aborted {
        return None;
      }
      snapshot := session.value.AcceptBatch(a.lands, a.report, a.landsAgain, a.recorded);
    }

    /** observeEscrow: the number of newly refused notes. */
    method ObserveEscrow(snapshot: Snapshot) returns (newlyRefused: nat)
      requires Open() && session.value.snapshot == Some(snapshot)
      modifies this`facts
      ensures Open() && Observed() && facts == old(facts).(escrow := facts.escrow)
      ensures newlyRefused == Max(0, snapshot.refused - old(facts.escrow.refusedCount))
      ensures facts.escrow.refusedCount == snapshot.refused
    {
      newlyRefused := Max(0, snapshot.refused - facts.escrow.refusedCount);
      facts := facts.(escrow := Escrow(facts.escrow.batchCount + 1, snapshot.revision, Some(snapshot.hash),
                                       NoteTotal(snapshot.notes), snapshot.refused));
    }

    /** Persist the escrow and deal with refused notes: None to go on, or the outcome, which is an intervention. */
    method PersistEscrow(snapshot: Snapshot, round: nat) returns (ended: Option<Status>)
      requires Open() && round > 0 && session.value.snapshot == Some(snapshot) && session.value.record.phase.Escrowed?
      requires snapshot.refused == RefusedAfter(course, round)
      requires facts.escrow.refusedCount == RefusedAfter(course, round - 1)
      requires facts.portions == RefusedPortions(course, round - 1)
      modifies this`facts, this`calls, session.value
      ensures ended.None? <==> course.rounds(round).marked && RefusedSettled(course, round)
      ensures ended.None? ==> Open() && Observed() && Collecting(round) && session.value.record.phase.Escrowed?
      ensures ended.Some? ==> GivenBack(ended.value) && ended.value.Intervention?
      ensures facts.host == old(facts.host) && session == old(session)
    {
      var newlyRefused := ObserveEscrow(snapshot);
      if !course.rounds(round).marked {
        var status := GiveBack(Intervention);
        return Some(status);
      }
      if newlyRefused == 0 {
        return None;
      }
      var resolution := course.rounds(round).refusal;
      var portion := Portion(RefusedPortion, RefusalCustody(resolution), newlyRefused);
      PortionAppended(facts.portions, portion);
      facts := facts.(portions := facts.portions + [portion]);
      if resolution.RefusedTaken? || resolution.RefusedRetracted? {
        return None;
      }
      var _ := Abort();
      CaptureAfter();
      return Some(SafetyStatus(facts, Intervention));
    }

    /** evaluateReview: confirmed, on to the next round, or the outcome. */
    method EvaluateReview(round: nat) returns (confirmed: bool, more: bool, status: Status)
      requires Open() && Observed() && round > 0 && Reaches(course, policy.maxBatches, round) && Reviewed(course, round)
      modifies this`facts, this`calls, session.value
      ensures confirmed <==> course.rounds(round).decision == Some(Confirm)
      ensures more <==> course.rounds(round).decision == Some(AcceptMore) && round < policy.maxBatches
      ensures confirmed || more ==> unchanged(this) && unchanged(session.value)
      ensures !confirmed && !more ==> GivenBack(status) && EndedAs(status, round)
      ensures facts.host == old(facts.host) && session == old(session)
    {
      status := Failed;
      var decision := course.rounds(round).decision;
      if decision.None? {
        status := GiveBack(Intervention);
        return false, false, status;
      }
      if decision.value.Confirm? {
        return true, false, status;
      }
      if decision.value.AcceptMore? && round < policy.maxBatches {
        return false, true, status;
      }
      status := GiveBack(ReviewStatus(decision.value));
      return false, false, status;
    }

    /** The outcome of a loop that ended in this round: what the round asks for, unless something is open. */
    ghost predicate EndedAs(status: Status, round: nat) {
      && (status.TimedOut? <==> EndsAt(course, policy.maxBatches, round, TimedOut) && ComesBack(course))
      && (status.Cancelled? <==> EndsAt(course, policy.maxBatches, round, Cancelled) && ComesBack(course))
      && (status.Failed? <==> EndsAt(course, policy.maxBatches, round, Failed) && ComesBack(course))
      && !status.Completed? && !status.DeclinedStatus?
    }

    /** The loop over batches; it ends with a decision whenever the policy allows a batch at all. */
    method CollectAndReview() returns (review: Review, ghost last: nat)
      requires Open() && facts.host.NotRequested? && Collecting(0)
      modifies this`facts, this`calls, session.value
      ensures review.LoopEnded? <==> policy.maxBatches < 1
      ensures review.Confirmed? ==>
                && Open() && Observed() && session.value.record.phase.Escrowed?
                && ConfirmsAt(course, policy.maxBatches, last) && facts.portions == RefusedPortions(course, last)
      ensures review.LoopEnded? ==> Open()
      ensures review.Ended? ==>
                && GivenBack(review.status) && Reaches(course, policy.maxBatches, last)
                && !ConfirmsAt(course, policy.maxBatches, last) && EndedAs(review.status, last)
                && (last == policy.maxBatches || !GoesOn(course, last))
      ensures facts.host == old(facts.host) && session == old(session)
    {
      var round: nat := 1;
      last := 0;
      while round <= policy.maxBatches
        invariant Open() && facts.host == old(facts.host) && session == old(session)
        invariant round >= 1 && Collecting(round - 1) && (round > 1 ==> round <= policy.maxBatches)
        invariant forall m: nat | 1 <= m < round :: GoesOn(course, m)
        decreases policy.maxBatches - round
      {
        last := round;
        if course.rounds(round).interrupted {
          var status := GiveBack(if course.timeout then TimedOut else Cancelled);
          return Ended(status), last;
        }
        var ended, confirmed := CollectOnce(round);
        if ended.Some? {
          return Ended(ended.value), last;
        }
        if confirmed {
          return Confirmed, last;
        }
        round := round + 1;
      }
      return LoopEnded, last;
    }

    /** One round: an outcome, a confirmation, or on to the next one. */
    method CollectOnce(round: nat) returns (ended: Option<Status>, confirmed: bool)
      requires Open() && Reaches(course, policy.maxBatches, round) && Collecting(round - 1)
      requires !course.rounds(round).interrupted
      modifies this`facts, this`calls, session.value
      ensures confirmed ==> ended.None? && ConfirmsAt(course, policy.maxBatches, round)
      ensures ended.None? ==>
                Open() && Observed() && Collecting(round) && session.value.record.phase.Escrowed?
                && (!confirmed ==> GoesOn(course, round) && round < policy.maxBatches)
      ensures ended.Some? ==>
                && GivenBack(ended.value) && EndedAs(ended.value, round)
                && !ConfirmsAt(course, policy.maxBatches, round)
                && (round == policy.maxBatches || !GoesOn(course, round))
      ensures facts.host == old(facts.host) && session == old(session)
    {
      confirmed := false;
      var snapshot := AcceptBatch(course.rounds(round).accepting, round);
      if snapshot.None? {
        var status := GiveBack(Failed);
        return Some(status), false;
      }
      ended := PersistEscrow(snapshot.value, round);
      if ended.Some? {
        return;
      }
      var more, status;
      confirmed, more, status := EvaluateReview(round);
      ended := if confirmed || more then None else Some(status);
    }

    // ----- Authorizing and committing -----

    /** authorizeHost: the host's answer, or None when it throws. */
    method AuthorizeHost() returns (answer: Option<C.Authorization>)
      requires Open() && Observed()
      modifies this`facts
      ensures Open() && Observed() && answer == course.authorizing.answer
      ensures facts == old(facts).(host := facts.host)
      ensures facts.host == if answer.None? then Unavailable else if answer.value.approved then Approved else Declined
    {
      answer := course.authorizing.answer;
      facts := facts.(host :=
        if answer.None? then Unavailable else if answer.value.approved then Approved else Declined);
    }

    /** session.authorize with authorizeHost as the authorizer: the authorization, or None when it throws. */
    method Authorize() returns (granted: Option<C.Authorization>)
      requires Open() && Observed() && session.value.record.phase.Escrowed? && facts.host.NotRequested?
      modifies this`facts, session.value
      ensures Open() && Observed() && session.value.snapshot == old(session.value.snapshot)
      ensures granted.Some? ==>
                && facts.host.Approved? && C.MayCommit(operation, session.value.View(), granted.value)
      ensures facts == old(facts).(host := facts.host)
      ensures granted.Some? <==> HostGrants(course, operation, session.value.snapshot)
      ensures facts.host.Declined? <==> HostDeclines(course)
    {
      var a := course.authorizing;
      var answer := None;
      if session.value.record.phase.Escrowed? && a.lands && a.recorded {
        answer := AuthorizeHost();
      }
      var approved := session.value.Authorize(a.lands, answer, a.landsAgain);
      granted := if approved then answer else None;
    }

    /** The device has committed exactly the escrow this workflow observed, once, under this authorization. */
    ghost predicate CommittedEscrow()
      reads this, Parts()
    {
      && session.Some? && session.value.snapshot.Some? && session.value.device != []
      && var device, s := session.value.device, session.value.snapshot.value;
      && device[|device| - 1].CashInEnd? && device[|device| - 1].snapshot == s
      && device[|device| - 1].authorization.approved
      && C.Exact(operation.operationId, s, device[|device| - 1].authorization)
      && (forall k | 0 <= k < |device| - 1 :: !device[k].CashInEnd?)
      && facts.escrow.revision == s.revision && facts.escrow.snapshotHash == Some(s.hash)
      && facts.escrow.acceptedNoteCount == NoteTotal(s.notes)
    }

    /** Everything a `completed` outcome claims. */
    ghost predicate IsComplete()
      reads this, Parts()
    {
      && facts.host.Approved? && CommittedEscrow() && calls == [CommitCalled(true)]
      && facts.physical == Physical(CommitCompleted, true, false)
      && (labelled ==> facts.inventory.before.Some? && facts.inventory.after.Some?)
      && !facts.inventory.afterCaptureFailed
      && Settled(facts.portions) && AcceptedTotal(facts.portions) == facts.escrow.acceptedNoteCount
    }

    /** These portions, and the whole escrow in the cash units. */
    ghost function WithAccepted(before: seq<Portion>): seq<Portion>
      reads this`facts
    {
      before + [Portion(AcceptedPortion, CashUnit, facts.escrow.acceptedNoteCount)]
    }

    /** The error path of a commit: the execution is unknown, and one abort closes the session. */
    method AfterFailedCommit() returns (status: Status)
      requires session.Some? && calls == [CommitCalled(false)]
      requires NothingEnded() || (session.value.record.physicalCommitDispatched && OneWay())
      modifies this`facts, this`calls, session.value
      ensures ClosedOnce(calls) && status.Intervention? && MarkIsRedundant(facts) && OneWay()
      ensures NothingEnded() <==> old(NothingEnded())
      ensures session.value.snapshot == old(session.value.snapshot) && facts.host == old(facts.host)
    {
      facts := facts.(physical := facts.physical.(commit := ExecutionUnknown, reconciliationRequired := true));
      var _ := Abort();
      CaptureAfter();
      status := SafetyStatus(facts, Intervention);
    }

    method Commit(authorization: C.Authorization) returns (status: Status)
      requires Open() && Observed() && facts.host.Approved?
      requires C.MayCommit(operation, session.value.View(), authorization)
      modifies this`facts, this`calls, session.value
      ensures ClosedOnce(calls) && (status.Completed? || status.Intervention?) && MarkIsRedundant(facts) && OneWay()
      ensures status.Completed? ==> IsComplete() && facts.portions == WithAccepted(old(facts.portions))
      ensures status.Completed? <==> CommitSucceeds(course) && course.after.Some?
      ensures NothingEnded() <==> !(course.commit.lands && course.commit.recorded)
      ensures session == old(session) && session.value.snapshot == old(session.value.snapshot)
      ensures facts.host == old(facts.host)
    {
      hide S.AfterCommit, C.Exact, NoteTotal;
      facts := facts.(physical := facts.physical.(commit := Dispatched));
      var r := session.value.Commit(authorization, course.commit);
      calls := calls + [CommitCalled(r.Committed?)];
      ghost var told := session.value.device;
      assert course.commit.lands && course.commit.recorded ==> told[|told| - 1].CashInEnd?;
      if r.Throws? {
        status := AfterFailedCommit();
        return;
      }
      status := AfterCommit(r);
    }

    /** The rest of commit(), once the session has committed. */
    method AfterCommit(r: S.Result) returns (status: Status)
      requires r.Committed? && CommittedEscrow() && facts.host.Approved? && calls == [CommitCalled(true)]
      requires Settled(facts.portions) && AcceptedTotal(facts.portions) == 0 && !facts.inventory.afterCaptureFailed
      requires labelled ==> facts.inventory.before.Some?
      modifies this`facts
      ensures status == (if course.after.Some? then Completed else Intervention) && MarkIsRedundant(facts)
      ensures status.Completed? ==> IsComplete() && facts.portions == WithAccepted(old(facts.portions))
      ensures facts.host == old(facts.host)
    {
      hide C.Exact, NoteTotal;
      var notes := session.value.snapshot.value.notes;
      PortionAppended(facts.portions, Portion(AcceptedPortion, CashUnit, NoteTotal(notes)));
      facts := ApplyResult(facts, r, notes);
      CaptureAfter();
      status := SafetyStatus(facts, if facts.inventory.afterCaptureFailed then Intervention else Completed);
    }

    method AuthorizeAndCommit() returns (status: Status)
      requires Open() && Observed() && session.value.record.phase.Escrowed? && facts.host.NotRequested?
      modifies this`facts, this`calls, session.value
      ensures session.Some? && ClosedOnce(calls) && MarkIsRedundant(facts) && OneWay()
      ensures status.Completed? ==> IsComplete() && facts.portions == WithAccepted(old(facts.portions))
      ensures !NothingEnded() ==> status.Completed? || status.Intervention?
      ensures !status.Intervention? ==> Safe(facts) && (!status.Completed? ==> CashBack())
      ensures status.DeclinedStatus? ==> facts.host.Declined?
      ensures session == old(session) && session.value.snapshot == old(session.value.snapshot)
      ensures
        var grants := HostGrants(course, operation, session.value.snapshot);
        && (status.Completed? <==> grants && course.marked && CommitSucceeds(course) && course.after.Some?)
        && (NothingEnded() <==> !(grants && course.marked && course.commit.lands && course.commit.recorded))
        && (status.DeclinedStatus? <==> !grants && HostDeclines(course) && ComesBack(course))
        && (status.Failed? <==> !grants && !HostDeclines(course) && ComesBack(course))
        && !status.TimedOut? && !status.Cancelled?
    {
      var granted := Authorize();
      if granted.None? {
        var declined := facts.host.Declined?;
        status := GiveBack(if declined then DeclinedStatus else Failed);
        return;
      }
      if !course.marked {
        status := GiveBack(Intervention);
        return;
      }
      status := Commit(granted.value);
    }

    // ----- The workflow -----

    /** The cash was confirmed, authorized and marked: the device may commit it. */
    ghost predicate Released()
      reads this, Parts()
    {
      && Began(course) && CustomerConfirms(course, policy.maxBatches)
      && session.Some? && HostGrants(course, operation, session.value.snapshot) && course.marked
    }

    /** Every note is accounted for: those refused in each round up to the confirmation, and those accepted. */
    ghost predicate AllPortions()
      reads this
    {
      exists n: nat ::
        ConfirmsAt(course, policy.maxBatches, n) && facts.portions == WithAccepted(RefusedPortions(course, n))
    }

    /** The outcome is what the course says, for each status but intervention, which is all the rest. */
    ghost predicate OutcomeFollows(status: Status)
      reads this, Parts()
    {
      var c, max := course, policy.maxBatches;
      var refused := session.Some? && !HostGrants(c, operation, session.value.snapshot);
      && (status.Completed? <==> Released() && CommitSucceeds(c) && c.after.Some?)
      && (status.DeclinedStatus? <==>
            Began(c) && CustomerConfirms(c, max) && refused && HostDeclines(c) && ComesBack(c))
      && (status.TimedOut? <==>
            || (c.before.Some? && c.interrupted && c.timeout && c.after.Some?)
            || (Began(c) && LoopEndsAs(c, max, TimedOut) && ComesBack(c)))
      && (status.Cancelled? <==>
            || (c.before.Some? && c.interrupted && !c.timeout && c.after.Some?)
            || (Began(c) && LoopEndsAs(c, max, Cancelled) && ComesBack(c)))
      && (status.Failed? <==>
            || c.before.None? || (!c.interrupted && !c.starts && c.after.Some?)
            || (Began(c) && LoopEndsAs(c, max, Failed) && ComesBack(c))
            || (Began(c) && CustomerConfirms(c, max) && refused && !HostDeclines(c) && ComesBack(c)))
    }

    /**
     * run(): the outcome is `completed` if and only if everything up to the last capture succeeds, and then it is
     * complete in every respect; the device is told to commit if and only if the cash was released and the flag is
     * stored; every other outcome than intervention leaves nothing open; a session that was started is closed exactly
     * once; and the device is never told both to commit and to roll back.
     */
    method Run() returns (status: Status)
      requires facts == INITIAL_FACTS && session == None && calls == []
      modifies this
      ensures OutcomeFollows(status)
      ensures session.Some? <==> Began(course)
      ensures session.Some? ==>
                (NothingEnded() <==> !(Released() && course.commit.lands && course.commit.recorded))
      ensures status.Completed? ==> IsComplete() && AllPortions()
      ensures !status.Intervention? ==> Safe(facts) && (session.Some? && !status.Completed? ==> CashBack())
      ensures session.Some? ==>
                ClosedOnce(calls) && OneWay() && (!NothingEnded() ==> status.Completed? || status.Intervention?)
      ensures session.None? ==> calls == [] && !status.Completed?
      ensures MarkIsRedundant(facts)
      ensures status.DeclinedStatus? ==> facts.host.Declined?
    {
      var captured := CaptureBefore();
      if !captured {
        return SafetyStatus(facts, Failed);
      }
      if course.interrupted {
        CaptureAfter();
        return SafetyStatus(facts, if course.timeout then TimedOut else Cancelled);
      }
      if !course.starts {
        CaptureAfter();
        return SafetyStatus(facts, Failed);
      }
      var started := new S.ActiveSession(operation);
      session := Some(started);
      var review, last := CollectAndReview();
      match review
      case Ended(ended) =>
        LoopEndedHere(course, policy.maxBatches, last);
        return ended;
      case LoopEnded =>
        NoRounds(course, policy.maxBatches);
        status := GiveBack(Intervention);
      case Confirmed =>
        LoopConfirmedHere(course, policy.maxBatches, last);
        status := AuthorizeAndCommit();
    }
  }

  /** A round that does not go on is the only one in which the loop can end. */
  lemma LoopEndedHere(c: Course, max: int, n: nat)
    requires Reaches(c, max, n) && !ConfirmsAt(c, max, n) && (n == max || !GoesOn(c, n))
    ensures !CustomerConfirms(c, max)
    ensures forall requested: Status :: LoopEndsAs(c, max, requested) <==> EndsAt(c, max, n, requested)
  {
    forall m: nat ensures !ConfirmsAt(c, max, m) {
      if 1 <= m < n {
        assert GoesOn(c, m);
      }
    }
    forall requested: Status ensures LoopEndsAs(c, max, requested) <==> EndsAt(c, max, n, requested) {
      forall m: nat | EndsAt(c, max, m, requested) ensures m == n {
        OnlyEnd(c, max, n, m, requested);
      }
      assert EndsAt(c, max, n, requested) ==> LoopEndsAs(c, max, requested);
    }
  }

  lemma OnlyEnd(c: Course, max: int, n: nat, m: nat, requested: Status)
    requires Reaches(c, max, n) && (n == max || !GoesOn(c, n)) && EndsAt(c, max, m, requested)
    ensures m == n
  {
    assert m < n ==> GoesOn(c, m);
  }

  lemma LoopConfirmedHere(c: Course, max: int, n: nat)
    requires ConfirmsAt(c, max, n)
    ensures CustomerConfirms(c, max) && forall requested: Status :: !LoopEndsAs(c, max, requested)
  {
    forall m: nat, requested: Status ensures !EndsAt(c, max, m, requested) {
      if 1 <= m < n {
        assert GoesOn(c, m);
      } else if n < m {
        assert !GoesOn(c, n);
      }
    }
  }

  lemma NoRounds(c: Course, max: int)
    requires max < 1
    ensures !CustomerConfirms(c, max) && forall requested: Status :: !LoopEndsAs(c, max, requested)
  {
  }

  predicate NoEnd(device: seq<C.Command>) {
    forall k | 0 <= k < |device| :: !device[k].CashInEnd?
  }

  lemma SameEnds(before: seq<C.Command>, after: seq<C.Command>)
    requires before <= after && forall k | |before| <= k < |after| :: !after[k].CashInEnd?
    ensures NoEnd(before) <==> NoEnd(after)
  {
    assert forall k | 0 <= k < |before| :: before[k] == after[k];
  }

  /** Whatever sets the reconciliation mark also leaves another trace. */
  predicate MarkIsRedundant(f: Facts) {
    f.physical.reconciliationRequired ==>
      !Settled(f.portions) || f.physical.commit.ExecutionUnknown? || f.inventory.afterCaptureFailed
  }

  /**
   * applyAcceptanceResult overwrites the reconciliation mark. No open question is lost by that: facts that are not
   * safe stay so, because whatever set the mark is still to be seen elsewhere.
   */
  lemma OverwritingTheMarkIsHarmless(f: Facts, r: S.Result, notes: seq<Note>)
    requires !r.Throws? && !r.Committed? && MarkIsRedundant(f)
    ensures MarkIsRedundant(ApplyResult(f, r, notes))
    ensures !Safe(f) ==> !Safe(ApplyResult(f, r, notes))
  {
    hide NoteTotal, AcceptedTotal, Settled;
    PortionAppended(f.portions, Portion(ReturnedPortion, ResultCustody(r), NoteTotal(notes)));
  }

  lemma PortionAppended(portions: seq<Portion>, p: Portion)
    ensures AcceptedTotal(portions + [p])
            == AcceptedTotal(portions) + if p.kind.AcceptedPortion? then p.noteCount else 0
    ensures Settled(portions + [p]) <==> Settled(portions) && SafeCustody(p.custody)
  {
    var longer := portions + [p];
    assert longer[..|portions|] == portions;
    assert longer[|portions|] == p;
    if Settled(longer) {
      forall i | 0 <= i < |portions| ensures SafeCustody(portions[i].custody) {
        assert longer[i] == portions[i];
      }
    }
  }
}
