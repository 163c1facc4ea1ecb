/**
 * What happens to one row of the outbox, over all runs: every event, and any number of calls at work on one record.
 * Rows stay in order, attempts count claims, and a lease or a scheduled retry stands until something acts on it.
 */
module OutboxRows {
  import opened Prelude
  import opened Outbox
  import opened OutboxRuns

  /** The lease columns are set exactly on leased rows, and a row that waits for an attempt has a time for it. */
  predicate RowOk(row: Row) {
    && (row.status.Leased? <==> row.leaseOwner.Some?)
    && (row.status.Leased? <==> row.leaseUntil.Some?)
    && (row.status.Pending? || row.status.RetryScheduled? ==> row.nextAttemptAt.Some?)
  }

  /** The policy a claimed row was claimed under. */
  predicate UnderPolicy(policies: Policies, row: Row) {
    row.policyId in policies && policies[row.policyId].version == row.policyVersion
  }

  predicate Good(policies: Policies, row: Row) {
    RowOk(row) && (row.status.Leased? ==> UnderPolicy(policies, row))
  }

  // ----- One step -----

  /** The record a claim hands out. */
  function HandedOut(policies: Policies, s: System, e: Event): Option<string> {
    if e.ClaimCalled? then
      var r := Claim(s.tables, policies, e.id, e.owner, e.now);
      if r.Ok? && r.value.1.Some? then Some(e.id) else None
    else None
  }

  /** How a row moves on: its policy stays, its attempts count the claims that hand it out. */
  predicate RowMoves(policies: Policies, before: Row, after: Row, handed: bool) {
    && after.policyId == before.policyId && after.policyVersion == before.policyVersion
    && after.attempts == before.attempts + (if handed then 1 else 0)
    && (Good(policies, before) ==> Good(policies, after))
  }

  predicate RowsMove(policies: Policies, before: map<string, Row>, after: map<string, Row>, handed: Option<string>) {
    && (forall id <- before :: id in after && RowMoves(policies, before[id], after[id], handed == Some(id)))
    && (forall id <- after :: id !in before ==> Good(policies, after[id]) && after[id].attempts == 0)
    && (handed.Some? ==> handed.value in before)
  }

  lemma NothingMoves(policies: Policies, rows: map<string, Row>)
    ensures RowsMove(policies, rows, rows, None)
  {
  }

  lemma OneMoves(policies: Policies, rows: map<string, Row>, id: string, row: Row, handed: Option<string>)
    requires id in rows && (handed == None || handed == Some(id))
    requires RowMoves(policies, rows[id], row, handed.Some?)
    ensures RowsMove(policies, rows, rows[id := row], handed)
  {
  }

  lemma ExpireMoves(policies: Policies, rows: map<string, Row>, now: nat)
    ensures RowsMove(policies, rows, ExpireLeases(rows, now), None)
  {
  }

  lemma MovesCompose(policies: Policies, a: map<string, Row>, b: map<string, Row>, c: map<string, Row>,
      handed: Option<string>)
    requires RowsMove(policies, a, b, None) && RowsMove(policies, b, c, handed) && a.Keys == b.Keys == c.Keys
    ensures RowsMove(policies, a, c, handed)
  {
    hide Good;
  }

  /** A row that is due is not leased, so a failed version check leaves no lease behind. */
  lemma TakeLeaseMoves(policies: Policies, expired: Tables, id: string, owner: string, now: nat)
    requires id in expired.outbox && Due(expired.outbox[id], now)
    requires TakeLease(expired, policies, id, owner, now).Ok?
    ensures
      var (u, row) := TakeLease(expired, policies, id, owner, now).value;
      && u.outbox.Keys == expired.outbox.Keys
      && RowsMove(policies, expired.outbox, u.outbox, if row.Some? then Some(id) else None)
  {
    var (u, row) := TakeLease(expired, policies, id, owner, now).value;
    assert u.outbox == expired.outbox[id := u.outbox[id]];
    OneMoves(policies, expired.outbox, id, u.outbox[id], if row.Some? then Some(id) else None);
    hide RowsMove;
  }

  lemma ClaimStep(policies: Policies, s: System, e: Event)
    requires e.ClaimCalled?
    ensures Step(policies, s, e) == TryClaim(policies, s, e.id, e.owner, e.now)
  {
  }

  lemma ClaimMoves(policies: Policies, s: System, e: Event)
    requires e.ClaimCalled?
    ensures RowsMove(policies, s.tables.outbox, Step(policies, s, e).tables.outbox, HandedOut(policies, s, e))
  {
    ExpireMoves(policies, s.tables.outbox, e.now);
    NothingMoves(policies, s.tables.outbox);
    hide RowsMove, ExpireLeases, TakeLease, Step, Due;
    assert Step(policies, s, e) == TryClaim(policies, s, e.id, e.owner, e.now) by { ClaimStep(policies, s, e); }
    var expired := s.tables.(outbox := ExpireLeases(s.tables.outbox, e.now));
    if e.id in expired.outbox && Due(expired.outbox[e.id], e.now) {
      var r := TakeLease(expired, policies, e.id, e.owner, e.now);
      if r.Ok? {
        TakeLeaseMoves(policies, expired, e.id, e.owner, e.now);
        MovesCompose(policies, s.tables.outbox, expired.outbox, r.value.0.outbox, HandedOut(policies, s, e));
      }
    }
  }

  lemma UpdateMoves(policies: Policies, t: Tables, id: string, status: Status, nextAttemptAt: Option<nat>)
    requires !status.Leased? && !status.Pending? && (status.RetryScheduled? ==> nextAttemptAt.Some?)
    ensures UpdateState(t, id, status, nextAttemptAt).Ok? ==>
              RowsMove(policies, t.outbox, UpdateState(t, id, status, nextAttemptAt).value.outbox, None)
  {
    if id in t.outbox {
      OneMoves(policies, t.outbox, id, Release(t.outbox[id], status).(nextAttemptAt := nextAttemptAt), None);
    }
  }

  lemma ApplyMoves(policies: Policies, t: Tables, id: string, responseId: string)
    ensures ApplyResponse(t, id, responseId).Ok? ==>
              RowsMove(policies, t.outbox, ApplyResponse(t, id, responseId).value.0.outbox, None)
  {
    hide AppendMessage, AppendAudit;
    NothingMoves(policies, t.outbox);
    if id in t.outbox {
      OneMoves(policies, t.outbox, id, Release(t.outbox[id], Reconciled).(responseId := Some(responseId)), None);
    }
    hide RowsMove;
  }

  lemma OperatorMoves(policies: Policies, s: System, id: string, resolution: Resolution, identified: bool, now: nat)
    ensures RowsMove(policies, s.tables.outbox, AfterOperator(s, id, resolution, identified, now).tables.outbox, None)
  {
    hide AppendAudit;
    NothingMoves(policies, s.tables.outbox);
    if id in s.tables.outbox {
      var retryAt := if resolution.ConfirmedNotSent? then Some(now) else None;
      OneMoves(policies, s.tables.outbox, id,
               Release(s.tables.outbox[id], ManualStatus(resolution)).(nextAttemptAt := retryAt), None);
    }
    hide RowsMove;
  }

  lemma EnqueueMoves(policies: Policies, t: Tables, input: NewRecord, now: nat)
    ensures Enqueue(t, input, now).Ok? ==> RowsMove(policies, t.outbox, Enqueue(t, input, now).value.outbox, None)
  {
    hide AppendMessage, KeyTaken, SameRecord;
  }

  lemma ConcludeMoves(policies: Policies, s: System, k: nat, id: string, status: Status, nextAttemptAt: Option<nat>)
    requires !status.Leased? && !status.Pending? && (status.RetryScheduled? ==> nextAttemptAt.Some?)
    ensures RowsMove(policies, s.tables.outbox, Conclude(s, k, id, status, nextAttemptAt).tables.outbox, None)
  {
    hide RowsMove, UpdateState;
    NothingMoves(policies, s.tables.outbox);
    UpdateMoves(policies, s.tables, id, status, nextAttemptAt);
  }

  lemma NotSentMoves(policies: Policies, s: System, k: nat, id: string, attempt: Positive, now: nat)
    ensures RowsMove(policies, s.tables.outbox, AfterNotSent(policies, s, k, id, attempt, now).tables.outbox, None)
  {
    hide RowsMove, Conclude;
    var noted := Note(s, ReportedNotSent(id));
    NothingMoves(policies, s.tables.outbox);
    ConcludeMoves(policies, noted, k, id, Failed, None);
    if id in s.tables.outbox && s.tables.outbox[id].policyId in policies {
      var delay := policies[s.tables.outbox[id].policyId].RetryDelay(attempt);
      ConcludeMoves(policies, noted, k, id, RetryScheduled, Some(now + delay));
    }
  }

  lemma AnswerMoves(policies: Policies, s: System, k: nat, id: string, responseId: string)
    ensures RowsMove(policies, s.tables.outbox, ApplyAnswer(s, k, id, responseId).tables.outbox, None)
  {
    NothingMoves(policies, s.tables.outbox);
    ApplyMoves(policies, s.tables, id, responseId);
    hide RowsMove, ApplyResponse;
  }

  lemma SendEndsMoves(policies: Policies, s: System, k: nat, id: string, attempt: Positive, answer: Answer, now: nat)
    ensures RowsMove(policies, s.tables.outbox, AfterSend(policies, s, k, id, attempt, answer, now).tables.outbox, None)
  {
    hide RowsMove, Conclude, ApplyAnswer, AfterNotSent;
    match answer
    case AnswersResponse(responseId) => AnswerMoves(policies, s, k, id, responseId);
    case AnswersNotSent => NotSentMoves(policies, s, k, id, attempt, now);
    case _ => ConcludeMoves(policies, s, k, id, Uncertain, None);
  }

  lemma StepMoves(policies: Policies, s: System, e: Event)
    ensures RowsMove(policies, s.tables.outbox, Step(policies, s, e).tables.outbox, HandedOut(policies, s, e))
  {
    NothingMoves(policies, s.tables.outbox);
    hide RowsMove, UpdateState, ApplyResponse, Claim, Enqueue, ExpireLeases, AfterOperator, AfterSend, TryClaim;
    match e
    case EnqueueCalled(input, now) => EnqueueMoves(policies, s.tables, input, now);
    case ClaimCalled(_, _, _) => ClaimMoves(policies, s, e);
    case ClaimFindsNothing(now) => ExpireMoves(policies, s.tables.outbox, now);
    case PayloadMissing(k) => if k in s.work { UpdateMoves(policies, s.tables, s.work[k].id, Failed, None); }
    case SendEnds(k, answer, now) =>
      if k in s.work && s.work[k].activity.Sending? {
        SendEndsMoves(policies, s, k, s.work[k].id, s.work[k].activity.attempt, answer, now);
      }
    case ConflictMarked(k) => if k in s.work { UpdateMoves(policies, s.tables, s.work[k].id, Uncertain, None); }
    case InquiryEnds(k, found, now) =>
      if k in s.work {
        UpdateMoves(policies, s.tables, s.work[k].id, RetryScheduled, Some(now));
        if found.Found? { ApplyMoves(policies, s.tables, s.work[k].id, found.responseId); }
      }
    case ResponseApplied(id, responseId) => ApplyMoves(policies, s.tables, id, responseId);
    case OperatorResolves(id, resolution, identified, now) =>
      OperatorMoves(policies, s, id, resolution, identified, now);
    case _ =>
  }

  // ----- Over all runs -----

  lemma {:induction false} RowsStayGood(policies: Policies, events: seq<Event>, id: string)
    requires id in Run(policies, events).tables.outbox
    ensures Good(policies, Run(policies, events).tables.outbox[id])
    decreases |events|
  {
    hide Step, Good;
    if events != [] {
      var s := Run(policies, events[..|events| - 1]);
      StepMoves(policies, s, events[|events| - 1]);
      if id in s.tables.outbox {
        RowsStayGood(policies, events[..|events| - 1], id);
      }
    }
  }

  /**
   * In every run, whatever calls are at work on one record at a time: a row is leased exactly when it has an owner and
   * an expiry, and a waiting row has a time for its next attempt.
   */
  lemma RowsStayInOrder(policies: Policies, events: seq<Event>, id: string)
    requires id in Run(policies, events).tables.outbox
    ensures RowOk(Run(policies, events).tables.outbox[id])
  {
    RowsStayGood(policies, events, id);
  }

  /** How many claims of the run handed the record out. */
  function HandOuts(policies: Policies, events: seq<Event>, id: string): nat {
    if events == [] then 0
    else
      var before := events[..|events| - 1];
      HandOuts(policies, before, id)
      + if HandedOut(policies, Run(policies, before), events[|events| - 1]) == Some(id) then 1 else 0
  }

  /**
   * In every run the attempts of a record are the claims that handed it out; a record never stored was never
   * claimed.
   */
  lemma {:induction false} AttemptsCountClaims(policies: Policies, events: seq<Event>, id: string)
    ensures
      var outbox := Run(policies, events).tables.outbox;
      HandOuts(policies, events, id) == if id in outbox then outbox[id].attempts else 0
    decreases |events|
  {
    hide Step, HandedOut;
    if events != [] {
      AttemptsCountClaims(policies, events[..|events| - 1], id);
      StepMoves(policies, Run(policies, events[..|events| - 1]), events[|events| - 1]);
    }
  }

  // ----- What leaves a row alone -----

  /** The record that a call is about. */
  function RecordOf(s: System, k: nat): Option<string> {
    if k in s.work then Some(s.work[k].id) else None
  }

  /** The record whose row the event may write, besides the leases that a claim expires. */
  function Subject(s: System, e: Event): Option<string> {
    match e
    case EnqueueCalled(input, _) => None
    case ClaimFindsNothing(_) => None
    case ClaimCalled(id, _, _) => Some(id)
    case PayloadMissing(k) => RecordOf(s, k)
    case SendBegins(k) => RecordOf(s, k)
    case SendEnds(k, _, _) => RecordOf(s, k)
    case ConflictMarked(k) => RecordOf(s, k)
    case Crash(k) => RecordOf(s, k)
    case InquiryBegins(id) => Some(id)
    case InquiryEnds(k, _, _) => RecordOf(s, k)
    case ResponseApplied(id, _) => Some(id)
    case OperatorResolves(id, _, _, _) => Some(id)
  }

  predicate ExpiresAt(e: Event, row: Row) {
    (e.ClaimCalled? || e.ClaimFindsNothing?) && LeaseExpired(row, e.now)
  }

  lemma EnqueueLeaves(t: Tables, input: NewRecord, now: nat, id: string)
    requires id in t.outbox
    ensures Enqueue(t, input, now).Ok? ==>
              id in Enqueue(t, input, now).value.outbox && Enqueue(t, input, now).value.outbox[id] == t.outbox[id]
  {
    hide AppendMessage, KeyTaken, SameRecord;
  }

  lemma ClaimLeaves(policies: Policies, t: Tables, claimed: string, owner: string, now: nat, id: string)
    requires id in t.outbox && (claimed != id || !Due(ExpireLeases(t.outbox, now)[id], now))
    ensures Claim(t, policies, claimed, owner, now).Ok? ==>
              var after := Claim(t, policies, claimed, owner, now).value.0.outbox;
              && id in after
              && after[id] ==
                   if LeaseExpired(t.outbox[id], now) then Release(t.outbox[id], Uncertain) else t.outbox[id]
  {
  }

  /** Events about other records leave the row as it is, except that a claim expires leases. */
  lemma OthersLeave(policies: Policies, s: System, e: Event, id: string)
    requires id in s.tables.outbox && Subject(s, e) != Some(id)
    ensures
      var before, after := s.tables.outbox[id], Step(policies, s, e).tables.outbox;
      id in after && (after[id] == before || (ExpiresAt(e, before) && after[id] == Release(before, Uncertain)))
  {
    hide Claim, Enqueue, AfterSend, AfterInquiry, ApplyResponse, AfterOperator;
    match e
    case EnqueueCalled(input, now) => EnqueueLeaves(s.tables, input, now, id);
    case ClaimCalled(x, owner, now) => ClaimLeaves(policies, s.tables, x, owner, now, id);
    case SendEnds(k, answer, now) =>
      if k in s.work && s.work[k].activity.Sending? {
        SendEndsLeaves(policies, s, k, s.work[k].id, s.work[k].activity.attempt, answer, now, id);
      }
    case InquiryEnds(k, found, now) => if k in s.work { InquiryLeaves(policies, s, k, s.work[k].id, found, now, id); }
    case ResponseApplied(x, responseId) => ApplyLeaves(s.tables, x, responseId, id);
    case OperatorResolves(x, resolution, identified, now) => OperatorLeaves(s, x, resolution, identified, now, id);
    case _ =>
  }

  lemma ApplyLeaves(t: Tables, x: string, responseId: string, id: string)
    requires id in t.outbox && x != id
    ensures ApplyResponse(t, x, responseId).Ok? ==>
              var u := ApplyResponse(t, x, responseId).value.0;
              id in u.outbox && u.outbox[id] == t.outbox[id]
  {
    hide AppendMessage, AppendAudit;
  }

  lemma SendEndsLeaves(policies: Policies, s: System, k: nat, x: string, attempt: Positive, answer: Answer, now: nat,
      id: string)
    requires id in s.tables.outbox && x != id
    ensures
      var t := AfterSend(policies, s, k, x, attempt, answer, now);
      id in t.tables.outbox && t.tables.outbox[id] == s.tables.outbox[id]
  {
    hide ApplyResponse, Conclude;
    if answer.AnswersResponse? {
      ApplyLeaves(s.tables, x, answer.responseId, id);
    }
  }

  lemma InquiryLeaves(policies: Policies, s: System, k: nat, x: string, found: Inquired, now: nat, id: string)
    requires id in s.tables.outbox && x != id
    ensures
      var t := AfterInquiry(policies, s, k, x, found, now);
      id in t.tables.outbox && t.tables.outbox[id] == s.tables.outbox[id]
  {
    hide ApplyResponse, Conclude;
    if found.Found? {
      ApplyLeaves(s.tables, x, found.responseId, id);
    }
  }

  lemma OperatorLeaves(s: System, x: string, resolution: Resolution, identified: bool, now: nat, id: string)
    requires id in s.tables.outbox && x != id
    ensures
      var t := AfterOperator(s, x, resolution, identified, now);
      id in t.tables.outbox && t.tables.outbox[id] == s.tables.outbox[id]
  {
    hide AppendAudit;
  }

  /** A call at work on the record comes to its outcome, or a response for the record is brought in. */
  predicate Concludes(s: System, e: Event, id: string) {
    match e
    case PayloadMissing(k) => k in s.work && s.work[k].id == id && s.work[k].activity.Claimed?
    case SendEnds(k, _, _) => k in s.work && s.work[k].id == id && s.work[k].activity.Sending?
    case ConflictMarked(k) => k in s.work && s.work[k].id == id && s.work[k].activity.Conflicted?
    case InquiryEnds(k, _, _) => k in s.work && s.work[k].id == id && s.work[k].activity.Inquiring?
    case ResponseApplied(x, _) => x == id
    case _ => false
  }

  /** What can end a lease that runs until this time. */
  predicate EndsLease(s: System, e: Event, id: string, until: nat) {
    ((e.ClaimCalled? || e.ClaimFindsNothing?) && until <= e.now) || Concludes(s, e, id)
  }

  lemma LeaseStays(policies: Policies, s: System, e: Event, id: string)
    requires id in s.tables.outbox && s.tables.outbox[id].status.Leased? && s.tables.outbox[id].leaseUntil.Some?
    requires !EndsLease(s, e, id, s.tables.outbox[id].leaseUntil.value)
    ensures id in Step(policies, s, e).tables.outbox && Step(policies, s, e).tables.outbox[id] == s.tables.outbox[id]
    ensures HandedOut(policies, s, e) != Some(id)
  {
    if Subject(s, e) != Some(id) {
      OthersLeave(policies, s, e, id);
      hide Step, Claim;
    } else {
      hide AppendAudit, Claim;
      if e.ClaimCalled? {
        ClaimLeaves(policies, s.tables, id, e.owner, e.now, id);
        LeasedIsNotDue(policies, s.tables, id, e.owner, e.now);
      }
    }
  }

  lemma LeasedIsNotDue(policies: Policies, t: Tables, id: string, owner: string, now: nat)
    requires id in t.outbox && t.outbox[id].status.Leased?
    ensures Claim(t, policies, id, owner, now).Ok? && Claim(t, policies, id, owner, now).value.1.None?
  {
    assert ExpireLeases(t.outbox, now)[id] ==
      if LeaseExpired(t.outbox[id], now) then Release(t.outbox[id], Uncertain) else t.outbox[id];
  }

  /** What can act on a retry scheduled for this time. */
  predicate ActsOnRetry(s: System, e: Event, id: string, at: nat) {
    (e.ClaimCalled? && e.id == id && at <= e.now) || Concludes(s, e, id)
  }

  lemma RetryStays(policies: Policies, s: System, e: Event, id: string)
    requires id in s.tables.outbox && s.tables.outbox[id].status.RetryScheduled?
        && s.tables.outbox[id].nextAttemptAt.Some?
    requires !ActsOnRetry(s, e, id, s.tables.outbox[id].nextAttemptAt.value)
    ensures id in Step(policies, s, e).tables.outbox && Step(policies, s, e).tables.outbox[id] == s.tables.outbox[id]
    ensures HandedOut(policies, s, e) != Some(id)
  {
    if Subject(s, e) != Some(id) {
      OthersLeave(policies, s, e, id);
      hide Step, Claim;
    } else {
      hide AppendAudit, Claim;
      if e.ClaimCalled? {
        NotYetDue(policies, s.tables, id, e.owner, e.now);
        ClaimLeaves(policies, s.tables, id, e.owner, e.now, id);
      }
    }
  }

  lemma NotYetDue(policies: Policies, t: Tables, id: string, owner: string, now: nat)
    requires id in t.outbox && t.outbox[id].status.RetryScheduled? && t.outbox[id].nextAttemptAt.Some?
    requires now < t.outbox[id].nextAttemptAt.value
    ensures Claim(t, policies, id, owner, now).Ok? && Claim(t, policies, id, owner, now).value.1.None?
    ensures !Due(ExpireLeases(t.outbox, now)[id], now)
  {
    assert ExpireLeases(t.outbox, now)[id] == t.outbox[id];
  }
}
