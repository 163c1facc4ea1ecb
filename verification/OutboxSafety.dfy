/**
 * When a financial message may be sent again.
 *
 * The results hold for runs in which calls on one record do not overlap; OutboxOverlap shows what overlap allows.
 * Workers may stop anywhere.
 */
module OutboxSafety {
  import opened Prelude
  import opened Outbox
  import opened OutboxRuns
  import opened OutboxRows

  // ----- The hypothesis -----

  predicate IsWorker(a: Activity) {
    !a.Inquiring?
  }

  /** No live worker holds a lease that has run out. */
  predicate LeasesHold(s: System, now: nat) {
    forall k <- s.work :: IsWorker(s.work[k].activity) && s.work[k].id in s.tables.outbox ==>
      !LeaseExpired(s.tables.outbox[s.work[k].id], now)
  }

  /** Some call is at work on the record. */
  predicate Busy(s: System, id: string) {
    exists k <- s.work :: s.work[k].id == id
  }

  /** The response is new and its record is known. */
  predicate Reconciles(t: Tables, id: string, responseId: string) {
    ApplyResponse(t, id, responseId).Ok? && ApplyResponse(t, id, responseId).value.1.ResponseReconciled?
  }

  /**
   * The next event lets no lease run out under a live worker, and nobody who is let in acts on a record that a call is
   * at work on. Whatever the code refuses by itself is allowed.
   */
  predicate NoOverlap(policies: Policies, s: System, e: Event) {
    match e
    case ClaimCalled(_, _, now) => LeasesHold(s, now)
    case ClaimFindsNothing(now) => LeasesHold(s, now)
    case InquiryBegins(id) => MayInquire(policies, s.tables, id) ==> !Busy(s, id)
    case ResponseApplied(id, responseId) => Reconciles(s.tables, id, responseId) ==> !Busy(s, id)
    case OperatorResolves(id, resolution, identified, now) =>
      Resolve(s.tables, id, resolution, identified, now).Ok? ==> !Busy(s, id)
    case _ => true
  }

  predicate NeverOverlaps(policies: Policies, events: seq<Event>) {
    events == []
    || (NeverOverlaps(policies, events[..|events| - 1])
        && NoOverlap(policies, Run(policies, events[..|events| - 1]), events[|events| - 1]))
  }

  // ----- The log -----

  /** An entry that allows the record to be sent once more. */
  predicate Reopens(entry: Entry, id: string) {
    !entry.Sent? && entry.id == id
  }

  /** An inquiry or an operator declared the record not sent. */
  predicate ReopensFromOutside(entry: Entry, id: string) {
    (entry.InquiryNotFound? || entry.OperatorNotSent?) && entry.id == id
  }

  /** The record has not been sent since it was last declared not sent. */
  predicate Unsent(log: seq<Entry>, id: string) {
    log != [] ==>
      var last := log[|log| - 1];
      last != Sent(id) && (Reopens(last, id) || Unsent(log[..|log| - 1], id))
  }

  function Sends(log: seq<Entry>, id: string): nat {
    if log == [] then 0
    else Sends(log[..|log| - 1], id) + if log[|log| - 1] == Sent(id) then 1 else 0
  }

  function OutsideReopenings(log: seq<Entry>, id: string): nat {
    if log == [] then 0
    else OutsideReopenings(log[..|log| - 1], id) + if ReopensFromOutside(log[|log| - 1], id) then 1 else 0
  }

  /** Every send was allowed: the record was unsent when it was made. */
  predicate SendsAllowed(log: seq<Entry>, id: string) {
    log == []
    || (SendsAllowed(log[..|log| - 1], id) && (log[|log| - 1] == Sent(id) ==> Unsent(log[..|log| - 1], id)))
  }

  // ----- The invariant -----

  predicate Waiting(row: Row) {
    row.status.Pending? || row.status.RetryScheduled?
  }

  /** The attempts the policy allows, and one more for every reopening from outside. */
  predicate Within(policies: Policies, row: Row, attempts: nat, log: seq<Entry>, id: string) {
    attempts > 0 ==>
      UnderPolicy(policies, row) && attempts <= policies[row.policyId].maxAttempts + OutsideReopenings(log, id)
  }

  predicate CountsOk(policies: Policies, row: Row, log: seq<Entry>, id: string) {
    && Sends(log, id) <= row.attempts
    && Within(policies, row, row.attempts, log, id)
    && (Waiting(row) && UnderPolicy(policies, row) ==> Within(policies, row, row.attempts + 1, log, id))
  }

  predicate ActivityOk(policies: Policies, row: Row, a: Activity, log: seq<Entry>, id: string) {
    match a
    case Claimed(attempt) =>
      row.status.Leased? && row.attempts == attempt && Unsent(log, id) && Sends(log, id) < row.attempts
    case Sending(attempt) => row.status.Leased? && row.attempts == attempt
    case Conflicted => row.status.Leased?
    case Inquiring => row.status.Uncertain? && UnderPolicy(policies, row)
  }

  /** At most one call is at work on the record, and `row` is as it left it. */
  predicate WorkOk(policies: Policies, s: System, row: Row, id: string) {
    && (forall k <- s.work :: s.work[k].id == id ==> ActivityOk(policies, row, s.work[k].activity, s.log, id))
    && (forall j, k | j in s.work && k in s.work :: s.work[j].id == id && s.work[k].id == id ==> j == k)
  }

  /** Everything about one record. */
  predicate RecordOk(policies: Policies, s: System, id: string) {
    && (id !in s.tables.outbox ==>
          !Busy(s, id) && Sends(s.log, id) == 0 && Unsent(s.log, id) && SendsAllowed(s.log, id))
    && (id in s.tables.outbox ==>
          var row := s.tables.outbox[id];
          && RowOk(row) && CountsOk(policies, row, s.log, id) && SendsAllowed(s.log, id)
          && (Waiting(row) ==> Unsent(s.log, id))
          && WorkOk(policies, s, row, id))
  }

  /** A stored response belongs to a reconciled record. */
  ghost predicate ResponsesOk(t: Tables) {
    forall r <- t.responses :: t.responses[r] in t.outbox && t.outbox[t.responses[r]].status.Reconciled?
  }

  ghost predicate Inv(policies: Policies, s: System) {
    && (forall id: string :: RecordOk(policies, s, id))
    && (forall k <- s.work :: k < s.calls)
    && ResponsesOk(s.tables)
  }

  // ----- Events that touch one record -----

  /** Only the record `id` may differ, and at most one entry about it was logged. */
  predicate TouchesOne(s: System, t: System, id: string) {
    && (t.log == s.log || (t.log != [] && t.log[..|t.log| - 1] == s.log && t.log[|t.log| - 1].id == id))
    && t.tables.outbox.Keys + {id} == s.tables.outbox.Keys + {id}
    && (forall other <- s.tables.outbox :: other != id ==> t.tables.outbox[other] == s.tables.outbox[other])
    && (forall k <- s.work :: s.work[k].id != id ==> k in t.work && t.work[k] == s.work[k])
    && (forall k <- t.work :: t.work[k].id != id ==> k in s.work && s.work[k] == t.work[k])
    && s.calls <= t.calls && (forall k <- t.work :: k in s.work || k < t.calls)
  }

  /** Entries about another record do not matter. */
  lemma OthersKeep(policies: Policies, s: System, t: System, id: string, other: string)
    requires TouchesOne(s, t, id) && other != id && RecordOk(policies, s, other)
    ensures RecordOk(policies, t, other)
  {
    assert other in t.tables.outbox.Keys <==> other in t.tables.outbox.Keys + {id};
    assert other in s.tables.outbox.Keys <==> other in s.tables.outbox.Keys + {id};
    assert Unsent(t.log, other) == Unsent(s.log, other);
    assert SendsAllowed(t.log, other) == SendsAllowed(s.log, other);
    assert Sends(t.log, other) == Sends(s.log, other);
    assert OutsideReopenings(t.log, other) == OutsideReopenings(s.log, other);
  }

  lemma TouchKeeps(policies: Policies, s: System, t: System, id: string)
    requires Inv(policies, s) && TouchesOne(s, t, id) && RecordOk(policies, t, id) && ResponsesOk(t.tables)
    ensures Inv(policies, t)
  {
    hide RecordOk;
    forall other: string ensures RecordOk(policies, t, other) {
      if other != id {
        OthersKeep(policies, s, t, id, other);
      }
    }
  }

  /** A record that is not reconciled has no stored response; a reconciled one keeps its status. */
  lemma ResponsesKeep(s: Tables, t: Tables, id: string)
    requires ResponsesOk(s) && t.responses == s.responses
    requires t.outbox.Keys >= s.outbox.Keys
    requires forall other <- s.outbox :: other != id ==> t.outbox[other].status == s.outbox[other].status
    requires id in s.outbox && s.outbox[id].status.Reconciled? ==> t.outbox[id].status.Reconciled?
    ensures ResponsesOk(t)
  {
  }

  // ----- Each event -----

  lemma ExpireKeeps(policies: Policies, s: System, now: nat)
    requires Inv(policies, s) && LeasesHold(s, now)
    ensures Inv(policies, s.(tables := s.tables.(outbox := ExpireLeases(s.tables.outbox, now))))
  {
    var t := s.(tables := s.tables.(outbox := ExpireLeases(s.tables.outbox, now)));
    forall id: string ensures RecordOk(policies, t, id) {
      assert RecordOk(policies, s, id);
    }
  }

  lemma EnqueueKeeps(policies: Policies, s: System, input: NewRecord, now: nat)
    requires Inv(policies, s)
    ensures Inv(policies, Write(s, Enqueue(s.tables, input, now)))
  {
    hide KeyTaken, SameRecord, AppendMessage, Unsent, SendsAllowed, Sends, OutsideReopenings;
    var t := Write(s, Enqueue(s.tables, input, now));
    if t != s {
      assert RecordOk(policies, s, input.id);
      assert t.tables.outbox == s.tables.outbox[input.id := NewRow(input, now)];
      ResponsesKeep(s.tables, t.tables, input.id);
      TouchKeeps(policies, s, t, input.id);
    }
  }

  lemma ClaimKeeps(policies: Policies, s: System, id: string, owner: string, now: nat)
    requires Inv(policies, s) && LeasesHold(s, now)
    ensures Inv(policies, TryClaim(policies, s, id, owner, now))
  {
    hide ExpireLeases, Unsent, SendsAllowed, Sends, OutsideReopenings, Inv;
    var t := TryClaim(policies, s, id, owner, now);
    var expired := s.(tables := s.tables.(outbox := ExpireLeases(s.tables.outbox, now)));
    ExpireKeeps(policies, s, now);
    if t != s && t != expired {
      assert TakeLease(expired.tables, policies, id, owner, now).Ok?;
      TakeLeaseKeeps(policies, expired, id, owner, now);
    }
  }

  /** The state after a claim that found this row due. */
  function AfterLease(policies: Policies, s: System, id: string, owner: string, now: nat): System
    requires id in s.tables.outbox && TakeLease(s.tables, policies, id, owner, now).Ok?
  {
    var r := TakeLease(s.tables, policies, id, owner, now).value;
    var t := s.(tables := r.0);
    if r.1.None? then t else Begin(t, Job(id, Claimed(r.1.value.attempts)))
  }

  lemma LeasedRecordOk(policies: Policies, s: System, id: string, owner: string, now: nat)
    requires RecordOk(policies, s, id) && id in s.tables.outbox && Due(s.tables.outbox[id], now)
    requires TakeLease(s.tables, policies, id, owner, now).Ok?
    ensures RecordOk(policies, AfterLease(policies, s, id, owner, now), id)
  {
    hide Unsent, SendsAllowed, Sends, OutsideReopenings;
  }

  lemma LeaseTouches(policies: Policies, s: System, id: string, owner: string, now: nat)
    requires id in s.tables.outbox && TakeLease(s.tables, policies, id, owner, now).Ok?
    requires forall k <- s.work :: k < s.calls
    ensures TouchesOne(s, AfterLease(policies, s, id, owner, now), id)
  {
  }

  lemma TakeLeaseKeeps(policies: Policies, s: System, id: string, owner: string, now: nat)
    requires Inv(policies, s) && id in s.tables.outbox && Due(s.tables.outbox[id], now)
    requires TakeLease(s.tables, policies, id, owner, now).Ok?
    ensures Inv(policies, AfterLease(policies, s, id, owner, now))
  {
    assert RecordOk(policies, s, id);
    LeasedRecordOk(policies, s, id, owner, now);
    LeaseTouches(policies, s, id, owner, now);
    hide RecordOk, TouchesOne;
    var t := AfterLease(policies, s, id, owner, now);
    ResponsesKeep(s.tables, t.tables, id);
    TouchKeeps(policies, s, t, id);
  }

  lemma ConcludeTouches(s: System, k: nat, id: string, status: Status, nextAttemptAt: Option<nat>, log: seq<Entry>)
    requires id in s.tables.outbox && k in s.work && s.work[k].id == id
    requires log == s.log || (|log| > 0 && log[..|log| - 1] == s.log && Reopens(log[|log| - 1], id))
    ensures TouchesOne(s, Conclude(s.(log := log), k, id, status, nextAttemptAt), id)
  {
  }

  /** What one entry that reopens the record does to its counts. */
  lemma ReopenedLog(before: seq<Entry>, log: seq<Entry>, id: string)
    requires SendsAllowed(before, id)
    requires log == before || (|log| > 0 && log[..|log| - 1] == before && Reopens(log[|log| - 1], id))
    ensures SendsAllowed(log, id) && Sends(log, id) == Sends(before, id)
    ensures OutsideReopenings(log, id) >= OutsideReopenings(before, id)
    ensures log != before ==> Unsent(log, id)
  {
  }

  lemma ConcludedRecordOk(policies: Policies, s: System, k: nat, id: string, status: Status,
      nextAttemptAt: Option<nat>, log: seq<Entry>)
    requires RecordOk(policies, s, id) && k in s.work && s.work[k].id == id && id in s.tables.outbox
    requires status.Uncertain? || status.Failed? || (status.RetryScheduled? && nextAttemptAt.Some?)
    requires log == s.log || (|log| > 0 && log[..|log| - 1] == s.log && Reopens(log[|log| - 1], id))
    requires status.RetryScheduled? ==>
               log != s.log && Within(policies, s.tables.outbox[id], s.tables.outbox[id].attempts + 1, log, id)
    ensures RecordOk(policies, Conclude(s.(log := log), k, id, status, nextAttemptAt), id)
  {
    ReopenedLog(s.log, log, id);
    LeftAlone(policies, s, k, id, status, nextAttemptAt, log);
    hide Unsent, SendsAllowed, Sends, OutsideReopenings, Reopens, WorkOk, Busy;
  }

  /** The only call at work on the record has left. */
  lemma LeftAlone(policies: Policies, s: System, k: nat, id: string, status: Status, nextAttemptAt: Option<nat>,
      log: seq<Entry>)
    requires RecordOk(policies, s, id) && k in s.work && s.work[k].id == id && id in s.tables.outbox
    ensures
      var t := Conclude(s.(log := log), k, id, status, nextAttemptAt);
      id in t.tables.outbox && WorkOk(policies, t, t.tables.outbox[id], id)
  {
    hide RowOk, CountsOk, Unsent, SendsAllowed, ActivityOk;
  }

  /** Marking the record of a live worker. */
  lemma ConcludeKeeps(policies: Policies, s: System, k: nat, id: string, status: Status, nextAttemptAt: Option<nat>,
      log: seq<Entry>)
    requires Inv(policies, s) && k in s.work && s.work[k].id == id
    requires id in s.tables.outbox && !s.tables.outbox[id].status.Reconciled?
    requires status.Uncertain? || status.Failed? || (status.RetryScheduled? && nextAttemptAt.Some?)
    requires log == s.log || (|log| > 0 && log[..|log| - 1] == s.log && Reopens(log[|log| - 1], id))
    requires status.RetryScheduled? ==>
               log != s.log && Within(policies, s.tables.outbox[id], s.tables.outbox[id].attempts + 1, log, id)
    ensures Inv(policies, Conclude(s.(log := log), k, id, status, nextAttemptAt))
  {
    assert RecordOk(policies, s, id);
    ConcludedRecordOk(policies, s, k, id, status, nextAttemptAt, log);
    ConcludeTouches(s, k, id, status, nextAttemptAt, log);
    hide RecordOk, Within, Reopens, TouchesOne;
    var t := Conclude(s.(log := log), k, id, status, nextAttemptAt);
    ResponsesKeep(s.tables, t.tables, id);
    TouchKeeps(policies, s, t, id);
  }

  /** The record of a live call is in the table and is not reconciled. */
  lemma LiveRecord(policies: Policies, s: System, k: nat, id: string)
    requires Inv(policies, s) && k in s.work && s.work[k].id == id
    ensures id in s.tables.outbox && (s.tables.outbox[id].status.Leased? || s.tables.outbox[id].status.Uncertain?)
    ensures ActivityOk(policies, s.tables.outbox[id], s.work[k].activity, s.log, id)
    ensures CountsOk(policies, s.tables.outbox[id], s.log, id)
  {
    assert RecordOk(policies, s, id);
  }

  lemma LeaveKeeps(policies: Policies, s: System, k: nat)
    requires Inv(policies, s)
    ensures Inv(policies, Leave(s, k))
  {
    if k !in s.work {
      assert s.work - {k} == s.work;
    } else {
      var t, id := Leave(s, k), s.work[k].id;
      assert RecordOk(policies, s, id);
      hide Unsent, SendsAllowed, Sends, OutsideReopenings;
      TouchKeeps(policies, s, t, id);
    }
  }

  lemma SentRecordOk(policies: Policies, s: System, k: nat, id: string, attempt: Positive)
    requires RecordOk(policies, s, id) && Is(s, k, Job(id, Claimed(attempt))) && id in s.tables.outbox
    requires
      var t := SendFrom(s, k, id, attempt);
      && Sends(t.log, id) == Sends(s.log, id) + 1 && SendsAllowed(t.log, id)
      && OutsideReopenings(t.log, id) == OutsideReopenings(s.log, id)
    ensures RecordOk(policies, SendFrom(s, k, id, attempt), id)
  {
    hide Unsent, SendsAllowed, Sends, OutsideReopenings;
  }

  lemma SendKeeps(policies: Policies, s: System, k: nat, id: string, attempt: Positive)
    requires Inv(policies, s) && Is(s, k, Job(id, Claimed(attempt)))
    ensures Inv(policies, SendFrom(s, k, id, attempt))
  {
    var t := SendFrom(s, k, id, attempt);
    assert RecordOk(policies, s, id);
    assert t.log[..|t.log| - 1] == s.log;
    assert Sends(t.log, id) == Sends(s.log, id) + 1 && SendsAllowed(t.log, id);
    assert OutsideReopenings(t.log, id) == OutsideReopenings(s.log, id);
    hide Unsent, SendsAllowed, Sends, OutsideReopenings;
    SentRecordOk(policies, s, k, id, attempt);
    hide RecordOk;
    TouchKeeps(policies, s, t, id);
  }

  /** No call but `k` is at work on the record. */
  predicate OnlyWork(s: System, k: nat, id: string) {
    forall j <- s.work :: s.work[j].id == id <==> j == k
  }

  lemma AppliedRecordOk(policies: Policies, s: System, k: nat, id: string, responseId: string)
    requires RecordOk(policies, s, id) && OnlyWork(s, k, id) && ApplyResponse(s.tables, id, responseId).Ok?
    ensures RecordOk(policies, Leave(s.(tables := ApplyResponse(s.tables, id, responseId).value.0), k), id)
  {
    hide AppendMessage, AppendAudit, Unsent, SendsAllowed, Sends, OutsideReopenings;
  }

  /** Applying a response reconciles the record, whoever brings it. */
  lemma ApplyKeeps(policies: Policies, s: System, k: nat, id: string, responseId: string)
    requires Inv(policies, s) && OnlyWork(s, k, id) && ApplyResponse(s.tables, id, responseId).Ok?
    ensures Inv(policies, Leave(s.(tables := ApplyResponse(s.tables, id, responseId).value.0), k))
  {
    assert RecordOk(policies, s, id);
    AppliedRecordOk(policies, s, k, id, responseId);
    hide RecordOk, AppendMessage, AppendAudit;
    TouchKeeps(policies, s, Leave(s.(tables := ApplyResponse(s.tables, id, responseId).value.0), k), id);
  }

  lemma OnlyLive(policies: Policies, s: System, k: nat, id: string)
    requires Inv(policies, s) && k in s.work && s.work[k].id == id
    ensures OnlyWork(s, k, id)
  {
    assert RecordOk(policies, s, id);
  }

  lemma NotSentKeeps(policies: Policies, s: System, k: nat, id: string, attempt: Positive, now: nat)
    requires Inv(policies, s) && Is(s, k, Job(id, Sending(attempt)))
    ensures Inv(policies, AfterNotSent(policies, s, k, id, attempt, now))
  {
    LiveRecord(policies, s, k, id);
    var row, log := s.tables.outbox[id], s.log + [ReportedNotSent(id)];
    var policy := policies[row.policyId];
    assert OutsideReopenings(log, id) == OutsideReopenings(s.log, id) by { assert log[..|log| - 1] == s.log; }
    hide Inv, Conclude;
    assert log[..|log| - 1] == s.log;
    if attempt >= policy.maxAttempts {
      ConcludeKeeps(policies, s, k, id, Failed, None, log);
    } else {
      ConcludeKeeps(policies, s, k, id, RetryScheduled, Some(now + policy.RetryDelay(attempt)), log);
    }
  }

  lemma AfterSendKeeps(policies: Policies, s: System, k: nat, id: string, attempt: Positive, answer: Answer, now: nat)
    requires Inv(policies, s) && Is(s, k, Job(id, Sending(attempt)))
    ensures Inv(policies, AfterSend(policies, s, k, id, attempt, answer, now))
  {
    LiveRecord(policies, s, k, id);
    OnlyLive(policies, s, k, id);
    hide Inv, ApplyResponse, Conclude, AfterNotSent, OnlyWork;
    assert s.(log := s.log) == s;
    match answer
    case AnswersResponse(responseId) =>
      LeaveKeeps(policies, s, k);
      if ApplyResponse(s.tables, id, responseId).Ok? {
        ApplyKeeps(policies, s, k, id, responseId);
        ConflictKeeps(policies, s, k, id, attempt);
      }
    case AnswersNotSent => NotSentKeeps(policies, s, k, id, attempt, now);
    case _ => ConcludeKeeps(policies, s, k, id, Uncertain, None, s.log);
  }

  lemma ConflictKeeps(policies: Policies, s: System, k: nat, id: string, attempt: Positive)
    requires Inv(policies, s) && Is(s, k, Job(id, Sending(attempt)))
    ensures Inv(policies, s.(work := s.work[k := Job(id, Conflicted)]))
  {
    hide Unsent, SendsAllowed, Sends, OutsideReopenings;
    assert RecordOk(policies, s, id);
    TouchKeeps(policies, s, s.(work := s.work[k := Job(id, Conflicted)]), id);
  }

  lemma InquiryBeginsKeeps(policies: Policies, s: System, id: string)
    requires Inv(policies, s) && !Busy(s, id) && MayInquire(policies, s.tables, id)
    ensures Inv(policies, Begin(s, Job(id, Inquiring)))
  {
    hide Unsent, SendsAllowed, Sends, OutsideReopenings;
    assert RecordOk(policies, s, id);
    TouchKeeps(policies, s, Begin(s, Job(id, Inquiring)), id);
  }

  /** The host does not know the message: the record may be sent once more. */
  lemma NotFoundKeeps(policies: Policies, s: System, k: nat, id: string, now: nat)
    requires Inv(policies, s) && Is(s, k, Job(id, Inquiring))
    ensures Inv(policies, Conclude(Note(s, InquiryNotFound(id)), k, id, RetryScheduled, Some(now)))
  {
    LiveRecord(policies, s, k, id);
    var log := s.log + [InquiryNotFound(id)];
    assert log[..|log| - 1] == s.log;
    assert OutsideReopenings(log, id) == OutsideReopenings(s.log, id) + 1;
    hide Inv, Conclude, OutsideReopenings;
    ConcludeKeeps(policies, s, k, id, RetryScheduled, Some(now), log);
  }

  lemma AfterInquiryKeeps(policies: Policies, s: System, k: nat, id: string, found: Inquired, now: nat)
    requires Inv(policies, s) && Is(s, k, Job(id, Inquiring))
    ensures Inv(policies, AfterInquiry(policies, s, k, id, found, now))
  {
    OnlyLive(policies, s, k, id);
    hide Inv, ApplyResponse, Conclude, Is, OnlyWork;
    LeaveKeeps(policies, s, k);
    match found
    case Found(responseId) =>
      if ApplyResponse(s.tables, id, responseId).Ok? { ApplyKeeps(policies, s, k, id, responseId); }
    case NotFound => NotFoundKeeps(policies, s, k, id, now);
    case Unavailable =>
  }

  lemma OperatorRecordOk(policies: Policies, s: System, id: string, resolution: Resolution, identified: bool, now: nat)
    requires RecordOk(policies, s, id) && !Busy(s, id)
    ensures RecordOk(policies, AfterOperator(s, id, resolution, identified, now), id)
  {
    hide AppendAudit;
    var t := AfterOperator(s, id, resolution, identified, now);
    if t.log != s.log {
      assert t.log[..|t.log| - 1] == s.log;
      ReopenedLog(s.log, t.log, id);
      OutsideEntry(s.log, OperatorNotSent(id), id);
    }
    hide Unsent, SendsAllowed, Sends, OutsideReopenings;
  }

  lemma OutsideEntry(log: seq<Entry>, entry: Entry, id: string)
    requires ReopensFromOutside(entry, id)
    ensures OutsideReopenings(log + [entry], id) == OutsideReopenings(log, id) + 1
  {
    assert (log + [entry])[..|log|] == log;
  }

  lemma OperatorKeeps(policies: Policies, s: System, id: string, resolution: Resolution, identified: bool, now: nat)
    requires Inv(policies, s) && !Busy(s, id)
    ensures Inv(policies, AfterOperator(s, id, resolution, identified, now))
  {
    var t := AfterOperator(s, id, resolution, identified, now);
    if t != s {
      assert RecordOk(policies, s, id);
      OperatorRecordOk(policies, s, id, resolution, identified, now);
      hide RecordOk, AppendAudit;
      ResponsesKeep(s.tables, t.tables, id);
      TouchKeeps(policies, s, t, id);
    }
  }

  lemma StepKeeps(policies: Policies, s: System, e: Event)
    requires Inv(policies, s) && NoOverlap(policies, s, e)
    ensures Inv(policies, Step(policies, s, e))
  {
    hide Inv, Enqueue, TryClaim, LeasesHold, AfterSend, AfterInquiry, MayInquire, ApplyResponse, Conclude, SendFrom,
      ExpireLeases, Resolve, Busy;
    assert s.(log := s.log) == s;
    match e
    case EnqueueCalled(input, now) => EnqueueKeeps(policies, s, input, now);
    case ClaimCalled(id, owner, now) => ClaimKeeps(policies, s, id, owner, now);
    case ClaimFindsNothing(now) => ExpireKeeps(policies, s, now);
    case PayloadMissing(k) =>
      if k in s.work && s.work[k].activity.Claimed? {
        LiveRecord(policies, s, k, s.work[k].id);
        ConcludeKeeps(policies, s, k, s.work[k].id, Failed, None, s.log);
      }
    case SendBegins(k) =>
      if k in s.work && s.work[k].activity.Claimed? {
        SendKeeps(policies, s, k, s.work[k].id, s.work[k].activity.attempt);
      }
    case SendEnds(k, answer, now) =>
      if k in s.work && s.work[k].activity.Sending? {
        AfterSendKeeps(policies, s, k, s.work[k].id, s.work[k].activity.attempt, answer, now);
      }
    case ConflictMarked(k) =>
      if k in s.work && s.work[k].activity.Conflicted? {
        LiveRecord(policies, s, k, s.work[k].id);
        ConcludeKeeps(policies, s, k, s.work[k].id, Uncertain, None, s.log);
      }
    case Crash(k) => LeaveKeeps(policies, s, k);
    case InquiryBegins(id) => if MayInquire(policies, s.tables, id) { InquiryBeginsKeeps(policies, s, id); }
    case InquiryEnds(k, found, now) =>
      if k in s.work && s.work[k].activity.Inquiring? {
        AfterInquiryKeeps(policies, s, k, s.work[k].id, found, now);
      }
    case ResponseApplied(id, responseId) => PushedKeeps(policies, s, id, responseId);
    case OperatorResolves(id, resolution, identified, now) =>
      if Resolve(s.tables, id, resolution, identified, now).Ok? {
        OperatorKeeps(policies, s, id, resolution, identified, now);
      }
  }

  lemma PushedKeeps(policies: Policies, s: System, id: string, responseId: string)
    requires Inv(policies, s) && (Reconciles(s.tables, id, responseId) ==> !Busy(s, id))
    ensures Inv(policies, Step(policies, s, ResponseApplied(id, responseId)))
  {
    if Reconciles(s.tables, id, responseId) {
      var t := s.(tables := ApplyResponse(s.tables, id, responseId).value.0);
      assert t.work - {s.calls} == t.work;
      assert OnlyWork(s, s.calls, id);
      hide Inv, ApplyResponse, Busy, OnlyWork;
      ApplyKeeps(policies, s, s.calls, id, responseId);
    } else {
      hide Inv, AppendMessage, AppendAudit;
    }
  }

  lemma {:induction false} RunKeeps(policies: Policies, events: seq<Event>)
    requires NeverOverlaps(policies, events)
    ensures Inv(policies, Run(policies, events))
    decreases |events|
  {
    hide Step, NoOverlap;
    if events != [] {
      RunKeeps(policies, events[..|events| - 1]);
      StepKeeps(policies, Run(policies, events[..|events| - 1]), events[|events| - 1]);
    }
  }

  // ----- Main results -----

  /** A record that is unsent was declared not sent after each of its sends. */
  lemma {:induction false} UnsentMeansReopened(log: seq<Entry>, id: string, i: nat) returns (k: nat)
    requires Unsent(log, id) && i < |log| && log[i] == Sent(id)
    ensures i < k < |log| && Reopens(log[k], id)
    decreases |log|
  {
    var n := |log| - 1;
    if Reopens(log[n], id) {
      k := n;
    } else {
      k := UnsentMeansReopened(log[..n], id, i);
    }
  }

  lemma {:induction false} AllowedAt(log: seq<Entry>, id: string, j: nat)
    requires SendsAllowed(log, id) && j < |log| && log[j] == Sent(id)
    ensures Unsent(log[..j], id)
    decreases |log|
  {
    var n := |log| - 1;
    if j < n {
      AllowedAt(log[..n], id, j);
      assert log[..n][..j] == log[..j];
    }
  }

  /**
   * Two sends of a record are separated by a reported notSent, an inquiry's not-found or an operator's
   * confirmation.
   */
  lemma ResendNeedsReopening(policies: Policies, events: seq<Event>, id: string, i: nat, j: nat)
    requires NeverOverlaps(policies, events)
    requires var log := Run(policies, events).log; i < j < |log| && log[i] == Sent(id) && log[j] == Sent(id)
    ensures var log := Run(policies, events).log; exists k | i < k < j :: Reopens(log[k], id)
  {
    hide Run;
    RunKeeps(policies, events);
    var log := Run(policies, events).log;
    assert RecordOk(policies, Run(policies, events), id);
    AllowedAt(log, id, j);
    var k := UnsentMeansReopened(log[..j], id, i);
    assert Reopens(log[k], id);
  }

  /** A record is sent at most maxAttempts times, and once more for each reopening by an inquiry or an operator. */
  lemma AttemptBound(policies: Policies, events: seq<Event>, id: string)
    requires NeverOverlaps(policies, events)
    ensures
      var s := Run(policies, events);
      Sends(s.log, id) > 0 ==>
        && id in s.tables.outbox && UnderPolicy(policies, s.tables.outbox[id])
        && Sends(s.log, id) <= policies[s.tables.outbox[id].policyId].maxAttempts + OutsideReopenings(s.log, id)
  {
    hide Run;
    RunKeeps(policies, events);
    assert RecordOk(policies, Run(policies, events), id);
  }

  predicate IsReconciled(t: Tables, id: string) {
    id in t.outbox && t.outbox[id].status.Reconciled?
  }

  /** What can happen to a record nobody is at work on. */
  predicate IdleChange(before: Row, after: Row) {
    || after == before
    || after.status.Reconciled?
    || (before.status.Leased? && after == Release(before, Uncertain))
    || (Waiting(before) && (after.status.Leased? || after.status.Uncertain?))
    || before.status.Uncertain? || before.status.Failed?
  }

  lemma ClaimIsIdleChange(policies: Policies, t: Tables, owner: string, now: nat, id: string)
    requires id in t.outbox && Claim(t, policies, id, owner, now).Ok?
    ensures id in Claim(t, policies, id, owner, now).value.0.outbox
    ensures IdleChange(t.outbox[id], Claim(t, policies, id, owner, now).value.0.outbox[id])
  {
  }

  lemma ApplyIsIdleChange(t: Tables, responseId: string, id: string)
    requires id in t.outbox && ApplyResponse(t, id, responseId).Ok?
    ensures id in ApplyResponse(t, id, responseId).value.0.outbox
    ensures IdleChange(t.outbox[id], ApplyResponse(t, id, responseId).value.0.outbox[id])
  {
    hide AppendMessage, AppendAudit;
  }

  lemma OperatorIsIdleChange(s: System, resolution: Resolution, identified: bool, now: nat, id: string)
    requires id in s.tables.outbox
    ensures id in AfterOperator(s, id, resolution, identified, now).tables.outbox
    ensures IdleChange(s.tables.outbox[id], AfterOperator(s, id, resolution, identified, now).tables.outbox[id])
  {
    hide AppendAudit;
  }

  lemma IdleStep(policies: Policies, s: System, e: Event, id: string)
    requires id in s.tables.outbox && !Busy(s, id)
    ensures id in Step(policies, s, e).tables.outbox
    ensures IdleChange(s.tables.outbox[id], Step(policies, s, e).tables.outbox[id])
  {
    if Subject(s, e) != Some(id) {
      OthersLeave(policies, s, e, id);
      hide Step;
    } else {
      hide Claim, ApplyResponse, AfterOperator;
      match e
      case ClaimCalled(_, owner, now) =>
        if Claim(s.tables, policies, id, owner, now).Ok? { ClaimIsIdleChange(policies, s.tables, owner, now, id); }
      case ResponseApplied(_, r) => if ApplyResponse(s.tables, id, r).Ok? { ApplyIsIdleChange(s.tables, r, id); }
      case OperatorResolves(_, resolution, identified, now) => OperatorIsIdleChange(s, resolution, identified, now, id);
      case _ =>
    }
  }

  lemma ReconciledStays(policies: Policies, s: System, e: Event, id: string)
    requires Inv(policies, s) && IsReconciled(s.tables, id)
    ensures IsReconciled(Step(policies, s, e).tables, id)
  {
    assert RecordOk(policies, s, id);
    hide Step, RecordOk;
    IdleStep(policies, s, e, id);
  }

  /** No event takes a record out of `reconciled`. */
  lemma {:induction false} ReconciledIsFinal(policies: Policies, events: seq<Event>, more: seq<Event>, id: string)
    requires NeverOverlaps(policies, events + more) && IsReconciled(Run(policies, events).tables, id)
    ensures IsReconciled(Run(policies, events + more).tables, id)
    decreases |more|
  {
    hide Step, NoOverlap, IsReconciled, Inv;
    if more == [] {
      assert events + more == events;
    } else {
      var all := events + more;
      assert all[..|all| - 1] == events + more[..|more| - 1];
      ReconciledIsFinal(policies, events, more[..|more| - 1], id);
      RunKeeps(policies, all[..|all| - 1]);
      ReconciledStays(policies, Run(policies, all[..|all| - 1]), all[|all| - 1], id);
    }
  }

  /** The lease of a worker that stopped leads to `uncertain` (or a response arrives): never to a new attempt. */
  lemma AbandonedLeaseIsNotRetried(policies: Policies, s: System, e: Event, id: string)
    requires id in s.tables.outbox && s.tables.outbox[id].status.Leased? && !Busy(s, id)
    ensures id in Step(policies, s, e).tables.outbox
    ensures
      var before, after := s.tables.outbox[id], Step(policies, s, e).tables.outbox[id];
      after == before || after.status.Uncertain? || after.status.Reconciled?
  {
    hide Step;
    IdleStep(policies, s, e, id);
  }

  /**
   * reconcile() reports `reconciled` whenever the inquiry finds a response; the record is reconciled
   * exactly when that response id was not already stored.
   */
  lemma FoundReconcilesIff(policies: Policies, s: System, k: nat, id: string, responseId: string, now: nat)
    requires Inv(policies, s) && Is(s, k, Job(id, Inquiring)) && ApplyResponse(s.tables, id, responseId).Ok?
    ensures IsReconciled(Step(policies, s, InquiryEnds(k, Found(responseId), now)).tables, id)
            <==> responseId !in s.tables.responses
  {
    assert RecordOk(policies, s, id);
  }
}
