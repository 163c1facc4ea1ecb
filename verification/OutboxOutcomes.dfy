/**
 * What each answer does to a record: how an attempt, an inquiry and an operator leave the row, who may claim it, and
 * how an enqueued message is delivered. The row is given column by column.
 */
module OutboxOutcomes {
  import opened Prelude
  import opened Outbox
  import opened OutboxRuns
  import opened OutboxRows
  import OutboxReplay

  // ----- A row and its surroundings -----

  /** Only the row `id` differs. */
  predicate OnlyRow(t: Tables, u: Tables, id: string) {
    && u.responses == t.responses && u.messages == t.messages && u.audits == t.audits
    && u.outbox.Keys == t.outbox.Keys
    && forall other <- t.outbox :: other != id ==> u.outbox[other] == t.outbox[other]
  }

  /** The row is unleased, has this status and waits until `at`, if it waits; nothing else about it changed. */
  predicate Marked(before: Row, after: Row, status: Status, at: Option<nat>) {
    && after.status == status && after.leaseOwner.None? && after.leaseUntil.None? && after.nextAttemptAt == at
    && after == before.(status := after.status, leaseOwner := None, leaseUntil := None, nextAttemptAt := at)
  }

  /** Call `k` is over, and what it leaves behind is its mark on the row of its record. */
  predicate EndsMarking(s: System, t: System, k: nat, id: string, status: Status, at: Option<nat>) {
    && k !in t.work && t.work == s.work - {k}
    && id in s.tables.outbox && OnlyRow(s.tables, t.tables, id)
    && Marked(s.tables.outbox[id], t.tables.outbox[id], status, at)
  }

  /** Call `k` is over and nothing was written. */
  predicate EndsSilently(s: System, t: System, k: nat) {
    t == s.(work := s.work - {k})
  }

  /** The response is stored for the record, which is reconciled, in a message and an audit row of its own. */
  predicate ResponseStored(t: Tables, u: Tables, id: string, responseId: string) {
    && id in t.outbox && responseId !in t.responses && u.responses == t.responses[responseId := id]
    && u.outbox.Keys == t.outbox.Keys
    && (forall other <- t.outbox :: other != id ==> u.outbox[other] == t.outbox[other])
    && var before, after := t.outbox[id], u.outbox[id];
    && after.status.Reconciled? && after.responseId == Some(responseId)
    && after.leaseOwner.None? && after.leaseUntil.None?
    && after == before.(status := after.status, responseId := after.responseId, leaseOwner := None, leaseUntil := None)
    && |u.messages| == |t.messages| + 1 && u.messages[..|t.messages|] == t.messages
    && u.audits == t.audits + [ReconciliationAudit(responseId)]
    && var m := u.messages[|t.messages|];
    && m.id == "host-response:" + responseId && m.transaction == before.transaction && m.inbound && m.requestId == id
  }

  // ----- The end of a send -----

  predicate IsSending(s: System, k: nat, id: string, attempt: Positive) {
    Is(s, k, Job(id, Sending(attempt))) && id in s.tables.outbox
  }

  /** A transport that does not know, or throws, leaves the record uncertain, unleased and without a next attempt. */
  lemma UnknownLeavesUncertain(policies: Policies, s: System, k: nat, id: string, attempt: Positive, answer: Answer,
      now: nat)
    requires IsSending(s, k, id, attempt) && (answer.AnswersUnknown? || answer.Throws?)
    ensures EndsMarking(s, Step(policies, s, SendEnds(k, answer, now)), k, id, Uncertain, None)
    ensures Step(policies, s, SendEnds(k, answer, now)).log == s.log
  {
  }

  /** A message that did not leave is tried again after the policy's delay, and fails when its attempts are used up. */
  lemma NotSentIsRetriedOrFails(policies: Policies, s: System, k: nat, id: string, attempt: Positive, now: nat)
    requires IsSending(s, k, id, attempt) && s.tables.outbox[id].policyId in policies
    ensures
      var policy, t := policies[s.tables.outbox[id].policyId], Step(policies, s, SendEnds(k, AnswersNotSent, now));
      && EndsMarking(s, t, k, id, if attempt < policy.maxAttempts then RetryScheduled else Failed,
                     if attempt < policy.maxAttempts then Some(now + policy.RetryDelay(attempt)) else None)
      && t.log == s.log + [ReportedNotSent(id)]
  {
  }

  /** A new response reconciles the record; one that is stored for it changes nothing. */
  lemma ResponseReconciles(policies: Policies, s: System, k: nat, id: string, attempt: Positive, responseId: string,
      now: nat)
    requires IsSending(s, k, id, attempt) && ApplyResponse(s.tables, id, responseId).Ok?
    requires responseId in s.tables.responses ==> s.tables.responses[responseId] == id
    ensures
      var t := Step(policies, s, SendEnds(k, AnswersResponse(responseId), now));
      && k !in t.work && t.work == s.work - {k} && t.log == s.log
      && if responseId in s.tables.responses then t.tables == s.tables
         else ResponseStored(s.tables, t.tables, id, responseId)
  {
    Applied(s.tables, id, responseId);
    hide ApplyResponse, ResponseStored;
  }

  lemma Applied(t: Tables, id: string, responseId: string)
    requires id in t.outbox && ApplyResponse(t, id, responseId).Ok?
    ensures
      var (u, projection) := ApplyResponse(t, id, responseId).value;
      if responseId !in t.responses then projection.ResponseReconciled? && ResponseStored(t, u, id, responseId)
      else u == t && (projection.ResponseDuplicate? <==> t.responses[responseId] == id)
           && (projection.ResponseConflict? <==> t.responses[responseId] != id)
  {
    hide HasMessage;
  }

  /** A response id that belongs to another record leaves this one uncertain, in a second transaction. */
  lemma ConflictLeavesUncertain(policies: Policies, s: System, k: nat, id: string, attempt: Positive,
      responseId: string, now: nat)
    requires IsSending(s, k, id, attempt) && responseId in s.tables.responses && s.tables.responses[responseId] != id
    ensures
      var t := Step(policies, s, SendEnds(k, AnswersResponse(responseId), now));
      && t.tables == s.tables && t.work == s.work[k := Job(id, Conflicted)]
      && EndsMarking(s, Step(policies, t, ConflictMarked(k)), k, id, Uncertain, None)
  {
    assert s.work[k := Job(id, Conflicted)] - {k} == s.work - {k};
  }

  /** Without its payload the record fails before anything is sent. */
  lemma MissingPayloadFails(policies: Policies, s: System, k: nat, id: string, attempt: Positive)
    requires Is(s, k, Job(id, Claimed(attempt))) && id in s.tables.outbox
    ensures EndsMarking(s, Step(policies, s, PayloadMissing(k)), k, id, Failed, None)
    ensures Step(policies, s, PayloadMissing(k)).log == s.log
  {
  }

  // ----- Inquiries -----

  /** Exactly an uncertain record under its registered policy with inquiries is asked about. */
  lemma InquiryBeginsIff(policies: Policies, s: System, id: string)
    ensures
      var t := Step(policies, s, InquiryBegins(id));
      if id in s.tables.outbox && s.tables.outbox[id].status.Uncertain? && UnderPolicy(policies, s.tables.outbox[id])
         && policies[s.tables.outbox[id].policyId].uncertainStrategy.Inquiry?
      then t == s.(work := s.work[s.calls := Job(id, Inquiring)], calls := s.calls + 1) else t == s
  {
  }

  /** The four ways an inquiry ends. */
  lemma InquiryEndsAs(policies: Policies, s: System, k: nat, id: string, found: Inquired, now: nat)
    requires Is(s, k, Job(id, Inquiring)) && id in s.tables.outbox && s.tables.outbox[id].policyId in policies
    ensures
      var t, retries := Step(policies, s, InquiryEnds(k, found, now)),
                        policies[s.tables.outbox[id].policyId].inquiryNotFound.Retry?;
      match found
      case Unavailable => EndsSilently(s, t, k)
      case NotFound =>
        if retries then EndsMarking(s, t, k, id, RetryScheduled, Some(now)) && t.log == s.log + [InquiryNotFound(id)]
        else EndsSilently(s, t, k)
      case Found(responseId) =>
        if responseId in s.tables.responses || ApplyResponse(s.tables, id, responseId).Err? then EndsSilently(s, t, k)
        else k !in t.work && t.log == s.log && ResponseStored(s.tables, t.tables, id, responseId)
  {
    if found.Found? && ApplyResponse(s.tables, id, found.responseId).Ok? {
      Applied(s.tables, id, found.responseId);
      hide ApplyResponse, ResponseStored;
    }
  }

  // ----- Operators -----

  /** What each decision of an operator makes of the record. */
  predicate Decided(before: Row, after: Row, resolution: Resolution, now: nat) {
    match resolution
    case ConfirmedDelivered => Marked(before, after, Reconciled, None)
    case ConfirmedNotSent => Marked(before, after, RetryScheduled, Some(now))
    case CancelDelivery => Marked(before, after, Cancelled, None)
  }

  /**
   * An identified operator decides about an uncertain or failed record, once at a time; everybody and everything else
   * is refused and changes nothing.
   */
  lemma OperatorDecidesIff(policies: Policies, s: System, id: string, resolution: Resolution, identified: bool,
      now: nat)
    ensures
      var t := Step(policies, s, OperatorResolves(id, resolution, identified, now));
      if && identified && id in s.tables.outbox
         && (s.tables.outbox[id].status.Uncertain? || s.tables.outbox[id].status.Failed?)
         && ManualAudit(id, now) !in s.tables.audits
      then
        && OnlyRow(s.tables, t.tables.(audits := s.tables.audits), id)
        && t.tables.audits == s.tables.audits + [ManualAudit(id, now)]
        && Decided(s.tables.outbox[id], t.tables.outbox[id], resolution, now)
        && t.work == s.work && t.log == s.log + if resolution.ConfirmedNotSent? then [OperatorNotSent(id)] else []
      else t == s
  {
  }

  // ----- Claims -----

  /** A lease that has run out leaves its record uncertain; every other row stays. */
  predicate LeasesExpired(before: map<string, Row>, after: map<string, Row>, now: nat, but: Option<string>) {
    && after.Keys == before.Keys
    && forall id <- before :: but != Some(id) ==>
      if before[id].status.Leased? && before[id].leaseUntil.Some? && before[id].leaseUntil.value <= now
      then Marked(before[id], after[id], Uncertain, before[id].nextAttemptAt) else after[id] == before[id]
  }

  lemma Expiring(outbox: map<string, Row>, now: nat)
    ensures LeasesExpired(outbox, ExpireLeases(outbox, now), now, None)
  {
  }

  /** claimNext with nothing due. */
  lemma NothingDueOnlyExpires(policies: Policies, s: System, now: nat)
    ensures
      var t := Step(policies, s, ClaimFindsNothing(now));
      && LeasesExpired(s.tables.outbox, t.tables.outbox, now, None)
      && t == s.(tables := s.tables.(outbox := t.tables.outbox))
  {
    Expiring(s.tables.outbox, now);
    hide ExpireLeases;
  }

  /** Waiting, and its time has come. */
  predicate IsDue(row: Row, now: nat) {
    (row.status.Pending? || row.status.RetryScheduled?) && row.nextAttemptAt.Some? && row.nextAttemptAt.value <= now
  }

  lemma DueUnchanged(outbox: map<string, Row>, id: string, now: nat)
    requires id in outbox
    ensures
      var after := ExpireLeases(outbox, now);
      (IsDue(outbox[id], now) ==> after[id] == outbox[id]) && (Due(after[id], now) <==> IsDue(outbox[id], now))
  {
  }

  /** A record that is not due is not handed out; the claim only expires leases. */
  lemma ClaimOfOthersOnlyExpires(policies: Policies, s: System, id: string, owner: string, now: nat)
    requires id !in s.tables.outbox || !IsDue(s.tables.outbox[id], now)
    ensures
      var t := Step(policies, s, ClaimCalled(id, owner, now));
      && LeasesExpired(s.tables.outbox, t.tables.outbox, now, None)
      && t == s.(tables := s.tables.(outbox := t.tables.outbox))
  {
    Expiring(s.tables.outbox, now);
    if id in s.tables.outbox {
      DueUnchanged(s.tables.outbox, id, now);
    }
    hide ExpireLeases, Due, IsDue, LeasesExpired, TakeLease;
  }

  /** A claim of a due record whose policy is not registered fails as a whole. */
  lemma ClaimWithoutPolicyFails(policies: Policies, s: System, id: string, owner: string, now: nat)
    requires id in s.tables.outbox && IsDue(s.tables.outbox[id], now) && s.tables.outbox[id].policyId !in policies
    ensures Claim(s.tables, policies, id, owner, now) == Err(PolicyNotRegistered)
    ensures Step(policies, s, ClaimCalled(id, owner, now)) == s
  {
    DueUnchanged(s.tables.outbox, id, now);
    hide ExpireLeases, Due, IsDue;
  }

  /**
   * A claim of any other due record: under its own version of the policy it is leased to the caller, for the policy's
   * time and as one more attempt; under another version it becomes uncertain, and nobody works on it.
   */
  lemma ClaimLeasesDueRecord(policies: Policies, s: System, id: string, owner: string, now: nat)
    requires id in s.tables.outbox && IsDue(s.tables.outbox[id], now) && s.tables.outbox[id].policyId in policies
    ensures
      var row, t := s.tables.outbox[id], Step(policies, s, ClaimCalled(id, owner, now));
      var after, policy := t.tables.outbox, policies[row.policyId];
      && LeasesExpired(s.tables.outbox, after, now, Some(id)) && t.log == s.log
      && t.tables == s.tables.(outbox := after)
      && if policy.version != row.policyVersion
         then t.work == s.work && after[id] == row.(status := Uncertain)
         else
           && t.work == s.work[s.calls := Job(id, Claimed(row.attempts + 1))] && t.calls == s.calls + 1
           && after[id] == row.(status := Leased, attempts := row.attempts + 1, leaseOwner := Some(owner),
                                leaseUntil := Some(now + policy.leaseMs))
  {
    Expiring(s.tables.outbox, now);
    DueUnchanged(s.tables.outbox, id, now);
    hide ExpireLeases, Due, IsDue, Marked;
  }

  // ----- Enqueueing, and a whole delivery -----

  /** A new record waits for its first attempt, which is due at once; its message is the next one of its transaction. */
  lemma EnqueuedRecordIsDue(policies: Policies, s: System, input: NewRecord, now: nat)
    requires Enqueue(s.tables, input, now).Ok? && input.id !in s.tables.outbox
    ensures
      var t := Step(policies, s, EnqueueCalled(input, now));
      && input.id in t.tables.outbox
      && var row := t.tables.outbox[input.id];
      && IsDue(row, now) && row.status.Pending? && row.attempts == 0 && row.responseId.None?
      && row.transaction == input.transaction && row.messageId == input.messageId && row.payloadRef == input.payloadRef
      && row.idempotencyKey == input.idempotencyKey
      && row.policyId == input.policyId && row.policyVersion == input.policyVersion
      && t == s.(tables := s.tables.(outbox := s.tables.outbox[input.id := row], messages := t.tables.messages))
      && t.tables == Enqueue(s.tables, input, now).value
      && |t.tables.messages| == |s.tables.messages| + 1
      && t.tables.messages[..|s.tables.messages|] == s.tables.messages
      && var m := t.tables.messages[|s.tables.messages|];
      m.id == input.messageId && m.transaction == input.transaction && !m.inbound && m.requestId == input.id
  {
    hide HasMessage, MaxNumber;
    assert KeyTaken(s.tables.outbox, input.idempotencyKey) ==> !SameRecord(s.tables.outbox, input);
  }

  lemma RunAppend(policies: Policies, events: seq<Event>, e: Event)
    ensures Run(policies, events + [e]) == Step(policies, Run(policies, events), e)
  {
    assert (events + [e])[..|events|] == events;
  }

  /** A due record under its registered policy is claimed and sent: the first send, and attempt number one more. */
  lemma DueRecordIsSent(policies: Policies, events: seq<Event>, id: string, owner: string, now: nat)
    requires
      var s := Run(policies, events);
      id in s.tables.outbox && IsDue(s.tables.outbox[id], now) && UnderPolicy(policies, s.tables.outbox[id])
    ensures
      var s := Run(policies, events);
      var t := Run(policies, events + [ClaimCalled(id, owner, now), SendBegins(s.calls)]);
      && id in t.tables.outbox && IsSending(t, s.calls, id, s.tables.outbox[id].attempts + 1)
      && t.log == s.log + [Sent(id)]
      && t.tables.outbox[id].attempts == s.tables.outbox[id].attempts + 1
      && t.tables.responses == s.tables.responses && t.tables.messages == s.tables.messages
      && t.tables.audits == s.tables.audits
  {
    hide Run, LeasesExpired, Step;
    var s := Run(policies, events);
    var claim, send := ClaimCalled(id, owner, now), SendBegins(s.calls);
    RunAppend(policies, events, claim);
    RunAppend(policies, events + [claim], send);
    assert events + [claim] + [send] == events + [claim, send];
    ClaimKeepsRow(policies, s, id, owner, now);
    ClaimLeasesDueRecord(policies, s, id, owner, now);
    ClaimedSends(policies, Run(policies, events + [claim]), s.calls, id, s.tables.outbox[id].attempts + 1);
  }

  lemma ClaimedSends(policies: Policies, s: System, k: nat, id: string, attempt: Positive)
    requires Is(s, k, Job(id, Claimed(attempt))) && id in s.tables.outbox
    ensures
      var t := Step(policies, s, SendBegins(k));
      IsSending(t, k, id, attempt) && t.log == s.log + [Sent(id)] && t.tables == s.tables
  {
  }

  lemma ClaimKeepsRow(policies: Policies, s: System, id: string, owner: string, now: nat)
    requires id in s.tables.outbox
    ensures id in Step(policies, s, ClaimCalled(id, owner, now)).tables.outbox
  {
    StepMoves(policies, s, ClaimCalled(id, owner, now));
    hide Step;
  }

  /**
   * A message enqueued anew under a registered policy can be claimed at once, is sent, and a new response to it
   * reconciles its record; from every reachable state.
   */
  lemma EnqueuedIsDelivered(policies: Policies, events: seq<Event>, input: NewRecord, owner: string,
      responseId: string, now: nat, later: nat)
    requires
      var t := Run(policies, events).tables;
      && Enqueue(t, input, now).Ok? && input.id !in t.outbox
      && input.policyId in policies && policies[input.policyId].version == input.policyVersion
      && ApplyResponse(Enqueue(t, input, now).value, input.id, responseId).Ok? && responseId !in t.responses
    ensures
      var s := Run(policies, events);
      var t := Run(policies, events + [EnqueueCalled(input, now), ClaimCalled(input.id, owner, now),
                                       SendBegins(s.calls), SendEnds(s.calls, AnswersResponse(responseId), later)]);
      && t.log == s.log + [Sent(input.id)] && s.calls !in t.work
      && input.id in t.tables.outbox && t.tables.outbox[input.id].status.Reconciled?
      && t.tables.outbox[input.id].responseId == Some(responseId) && t.tables.outbox[input.id].attempts == 1
      && responseId in t.tables.responses && t.tables.responses[responseId] == input.id
  {
    var s := Run(policies, events);
    var enqueue, claim, send, end := EnqueueCalled(input, now), ClaimCalled(input.id, owner, now), SendBegins(s.calls),
                                     SendEnds(s.calls, AnswersResponse(responseId), later);
    hide Run, Step, Enqueue, ApplyResponse, IsSending;
    RunAppend(policies, events, enqueue);
    EnqueuedRecordIsDue(policies, s, input, now);
    DueRecordIsSent(policies, events + [enqueue], input.id, owner, now);
    var sent := events + [enqueue] + [claim, send];
    RunAppend(policies, sent, end);
    var u := Run(policies, sent);
    ApplyDependsOn(Run(policies, events + [enqueue]).tables, u.tables, input.id, responseId);
    ResponseReconciles(policies, u, s.calls, input.id, 1, responseId, later);
    assert sent + [end] == events + [enqueue, claim, send, end];
  }

  /** Whether a response can be applied depends on the messages, the audit rows and the responses. */
  lemma ApplyDependsOn(t: Tables, u: Tables, id: string, responseId: string)
    requires u.responses == t.responses && u.messages == t.messages && u.audits == t.audits
    requires id in t.outbox && id in u.outbox && ApplyResponse(t, id, responseId).Ok?
    ensures ApplyResponse(u, id, responseId).Ok?
  {
  }

  // ----- Which due record comes first -----

  /** The two texts part at position k, where the first one ends or has the smaller character. */
  predicate PartsBefore(a: string, b: string, k: nat) {
    k <= |a| && k < |b| && a[..k] == b[..k] && (k == |a| || a[k] < b[k])
  }

  lemma {:induction false} TextOrder(a: string, b: string) returns (k: nat)
    requires a != b && !TextBefore(b, a)
    ensures PartsBefore(a, b, k)
  {
    k := 0;
    if a != [] && b != [] && a[0] == b[0] {
      assert a == [a[0]] + a[1..] && b == [b[0]] + b[1..];
      k := TextOrder(a[1..], b[1..]);
      assert a[..k + 1] == [a[0]] + a[1..][..k] && b[..k + 1] == [b[0]] + b[1..][..k];
      k := k + 1;
    }
  }

  /**
   * The record that is claimed next has been due the longest; among those due since the same moment it was enqueued
   * first, and among those enqueued at the same moment its id comes first.
   */
  lemma NextDueIsOldest(outbox: map<string, Row>, now: nat, id: string, other: string) returns (k: nat)
    requires IsNextDue(outbox, now, id) && other in outbox && Due(outbox[other], now) && other != id
    ensures
      var x, y := outbox[id], outbox[other];
      && x.nextAttemptAt.value <= y.nextAttemptAt.value
      && (x.nextAttemptAt == y.nextAttemptAt ==> x.createdAt <= y.createdAt)
      && (x.nextAttemptAt == y.nextAttemptAt && x.createdAt == y.createdAt ==> PartsBefore(id, other, k))
  {
    k := 0;
    assert !Earlier(outbox, other, id);
    if !TextBefore(other, id) {
      k := TextOrder(id, other);
    }
  }
}
