/**
 * HostDeliveryWorker.runOnce of packages/kiosk-host-delivery/src/worker.ts: one claimed attempt, from claim to
 * outcome.
 */
module OutboxWorker {
  import opened Prelude
  import opened Outbox
  import opened OutboxRuns
  import opened OutboxStore
  import opened OutboxRows
  import opened OutboxOutcomes

  /** Rejected: a transaction failed and the caller gets the error. */
  datatype WorkResult = Idle | Worked(id: string, status: Status) | WorkRejected

  /** What the transport and the payload vault will say during one call, and the time when it is said. */
  datatype Environment = Environment(payloadAvailable: bool, answer: Answer, later: nat)

  /** The events of one undisturbed call after its claim. */
  function AfterClaim(policies: Policies, claimed: System, k: nat, env: Environment): System {
    if !env.payloadAvailable then Step(policies, claimed, PayloadMissing(k))
    else
      var sent := Step(policies, claimed, SendBegins(k));
      var answered := Step(policies, sent, SendEnds(k, env.answer, env.later));
      Step(policies, answered, ConflictMarked(k))
  }

  /** One undisturbed call as events of the outbox. */
  function AfterWork(policies: Policies, s: System, id: string, owner: string, now: nat, env: Environment): System {
    var claimed := Step(policies, s, ClaimCalled(id, owner, now));
    if s.calls in claimed.work then AfterClaim(policies, claimed, s.calls, env) else claimed
  }

  /** The record is due and its policy's version is registered: a claim hands it out. */
  predicate CanBeWorked(policies: Policies, outbox: map<string, Row>, id: string, now: nat) {
    id in outbox && IsDue(outbox[id], now) && UnderPolicy(policies, outbox[id])
  }

  /** The record is due under a policy that is not registered: the claim throws. */
  predicate HasNoPolicy(policies: Policies, outbox: map<string, Row>, id: string, now: nat) {
    id in outbox && IsDue(outbox[id], now) && outbox[id].policyId !in policies
  }

  /** A response that is not stored yet, and whose message or audit row is already there. */
  predicate CannotBeStored(t: Tables, responseId: string) {
    && responseId !in t.responses
    && (HasMessage(t.messages, "host-response:" + responseId) || ReconciliationAudit(responseId) in t.audits)
  }

  /** What an attempt under this policy reports, by what the vault and the transport say. */
  predicate Reports(policy: Policy, attempt: nat, id: string, responses: map<string, string>, env: Environment,
      status: Status)
  {
    if !env.payloadAvailable then status.Failed?
    else match env.answer
      case AnswersUnknown => status.Uncertain?
      case Throws => status.Uncertain?
      case AnswersNotSent => if attempt < policy.maxAttempts then status.RetryScheduled? else status.Failed?
      case AnswersResponse(responseId) =>
        if responseId in responses && responses[responseId] != id then status.Uncertain? else status.Reconciled?
  }

  /** The row after an attempt that did not reconcile the record: unleased, and waiting only if it is to be retried. */
  predicate LeftBy(policy: Policy, attempt: Positive, env: Environment, before: Row, after: Row, status: Status)
    requires policy.Valid()
  {
    Marked(before, after, status, if status.RetryScheduled? then Some(env.later + policy.RetryDelay(attempt)) else None)
  }

  class HostDeliveryWorker {
    const ownerId: string
    const deliveries: HostDeliveryStore

    constructor (ownerId: string, deliveries: HostDeliveryStore)
      ensures this.ownerId == ownerId && this.deliveries == deliveries
    {
      this.ownerId := ownerId;
      this.deliveries := deliveries;
    }

    /** runOnce: the named record, or without a name (an empty one counts as none) the first due record. */
    method RunOnce(outboxId: Option<string>, now: nat, env: Environment) returns (chosen: Option<string>, r: WorkResult)
      modifies deliveries
      ensures outboxId.Some? && outboxId.value != "" ==> chosen == outboxId
      ensures outboxId.None? || outboxId.value == "" ==>
                var expired := ExpireLeases(old(deliveries.outbox), now);
                && (chosen.Some? ==> IsNextDue(expired, now, chosen.value))
                && (chosen.None? ==>
                      NothingDue(expired, now) && r.Idle?
                          && deliveries.View() == old(deliveries.View()).(outbox := expired))
      ensures chosen.Some? ==>
                var start := System(old(deliveries.View()), map[], 0, []);
                deliveries.View() == AfterWork(deliveries.policies, start, chosen.value, ownerId, now, env).tables
      ensures r.Worked? ==> chosen == Some(r.id) && r.id in deliveries.outbox
      ensures r.Worked? && !r.status.Reconciled? ==> deliveries.outbox[r.id].status == r.status
      ensures r.Worked? && r.status.Reconciled? ==>
                && env.answer.AnswersResponse? && env.answer.responseId in deliveries.responses
                && deliveries.responses[env.answer.responseId] == r.id
      ensures chosen.Some? && !CanBeWorked(deliveries.policies, old(deliveries.outbox), chosen.value, now) ==>
                && !r.Worked?
                && (r.WorkRejected? <==> HasNoPolicy(deliveries.policies, old(deliveries.outbox), chosen.value, now))
      ensures chosen.Some? && CanBeWorked(deliveries.policies, old(deliveries.outbox), chosen.value, now) ==>
                var before := old(deliveries.outbox)[chosen.value];
                var policy, attempt := deliveries.policies[before.policyId], before.attempts + 1;
                && !r.Idle?
                && (r.WorkRejected? <==> env.payloadAvailable && env.answer.AnswersResponse?
                                         && CannotBeStored(old(deliveries.View()), env.answer.responseId))
                && (r.Worked? ==>
                      && Reports(policy, attempt, r.id, old(deliveries.responses), env, r.status)
                      && (!r.status.Reconciled? ==>
                            LeftBy(policy, attempt, env, before.(attempts := attempt), deliveries.outbox[r.id],
                                   r.status)))
    {
      hide Outbox.Claim, Outbox.ApplyResponse, AfterSend, Outbox.ExpireLeases, IsNextDue, NothingDue, CanBeWorked,
        HasNoPolicy, Outbox.HasMessage, Reports, LeftBy;
      var record: Result<Option<Row>, StoreError>;
      if outboxId.Some? && outboxId.value != "" {
        chosen := outboxId;
        record := deliveries.Claim(chosen.value, ownerId, now);
      } else {
        chosen, record := deliveries.ClaimNext(ownerId, now);
        if chosen.None? {
          return None, Idle;
        }
      }
      ClaimedRow(old(deliveries.View()), deliveries.policies, chosen.value, ownerId, now);
      if record.Err? {
        return chosen, WorkRejected;
      }
      if record.value.None? {
        return chosen, Idle;
      }
      ghost var before := old(deliveries.outbox)[chosen.value];
      r := Attempt(chosen.value, record.value.value, env);
      if r.Worked? {
        LeftByClaim(deliveries.policies[before.policyId], env, before, record.value.value, deliveries.outbox[r.id],
                    r.status);
      }
    }

    /** The rest of runOnce, once the record is claimed. */
    method Attempt(id: string, record: Row, env: Environment) returns (r: WorkResult)
      requires id in deliveries.outbox && deliveries.outbox[id] == record && record.attempts > 0
      requires record.policyId in deliveries.policies
      modifies deliveries
      ensures
        var claimed := System(old(deliveries.View()), map[0 := Job(id, Claimed(record.attempts))], 1, []);
        deliveries.View() == AfterClaim(deliveries.policies, claimed, 0, env).tables
      ensures r.Worked? ==> r.id == id && id in deliveries.outbox
      ensures r.Worked? && !r.status.Reconciled? ==> deliveries.outbox[id].status == r.status
      ensures r.Worked? && r.status.Reconciled? ==>
                && env.answer.AnswersResponse? && env.answer.responseId in deliveries.responses
                && deliveries.responses[env.answer.responseId] == id
      ensures !r.Idle?
      ensures r.WorkRejected? <==>
                env.payloadAvailable && env.answer.AnswersResponse?
                && CannotBeStored(old(deliveries.View()), env.answer.responseId)
      ensures
        var policy := deliveries.policies[record.policyId];
        r.Worked? ==>
          && Reports(policy, record.attempts, id, old(deliveries.responses), env, r.status)
          && (!r.status.Reconciled? ==>
                LeftBy(policy, record.attempts, env, record, deliveries.outbox[id], r.status))
    {
      hide Outbox.ApplyResponse;
      if !env.payloadAvailable {
        var _ := deliveries.UpdateState(id, Failed, None);
        return Worked(id, Failed);
      }
      match env.answer
      case Throws =>
        var _ := deliveries.UpdateState(id, Uncertain, None);
        return Worked(id, Uncertain);
      case AnswersResponse(responseId) =>
        r := Project(id, record, responseId, env);
      case AnswersUnknown =>
        var _ := deliveries.UpdateState(id, Uncertain, None);
        return Worked(id, Uncertain);
      case AnswersNotSent =>
        r := TryLater(id, record, env);
    }

    /** The notSent branch: the record fails, or waits for its next attempt. */
    method TryLater(id: string, record: Row, env: Environment) returns (r: WorkResult)
      requires id in deliveries.outbox && deliveries.outbox[id] == record && record.attempts > 0
      requires record.policyId in deliveries.policies && env.answer.AnswersNotSent? && env.payloadAvailable
      modifies deliveries
      ensures
        var claimed := System(old(deliveries.View()), map[0 := Job(id, Claimed(record.attempts))], 1, []);
        deliveries.View() == AfterClaim(deliveries.policies, claimed, 0, env).tables
      ensures r.Worked? && r.id == id && id in deliveries.outbox && deliveries.outbox[id].status == r.status
      ensures
        var policy := deliveries.policies[record.policyId];
        && r.status == (if record.attempts < policy.maxAttempts then RetryScheduled else Failed)
        && LeftBy(policy, record.attempts, env, record, deliveries.outbox[id], r.status)
    {
      var policy := deliveries.policies[record.policyId];
      if record.attempts >= policy.maxAttempts {
        var _ := deliveries.UpdateState(id, Failed, None);
        return Worked(id, Failed);
      }
      var delay := policy.RetryDelay(record.attempts);
      var _ := deliveries.UpdateState(id, RetryScheduled, Some(env.later + delay));
      return Worked(id, RetryScheduled);
    }

    /** The response branch: a conflicting response id leaves the record uncertain. */
    method Project(id: string, record: Row, responseId: string, env: Environment) returns (r: WorkResult)
      requires id in deliveries.outbox && deliveries.outbox[id] == record && record.attempts > 0
      requires env.answer == AnswersResponse(responseId) && env.payloadAvailable
      modifies deliveries
      ensures
        var claimed := System(old(deliveries.View()), map[0 := Job(id, Claimed(record.attempts))], 1, []);
        deliveries.View() == AfterClaim(deliveries.policies, claimed, 0, env).tables
      ensures r.Worked? ==> r.id == id && id in deliveries.outbox
      ensures r.Worked? && !r.status.Reconciled? ==> deliveries.outbox[id].status == r.status
      ensures r.Worked? && r.status.Reconciled? ==>
                responseId in deliveries.responses && deliveries.responses[responseId] == id
      ensures
        var conflict := responseId in old(deliveries.responses) && old(deliveries.responses)[responseId] != id;
        && !r.Idle? && (r.WorkRejected? <==> CannotBeStored(old(deliveries.View()), responseId))
        && (r.Worked? ==> r.status == if conflict then Uncertain else Reconciled)
        && (r.Worked? && conflict ==> Marked(record, deliveries.outbox[id], Uncertain, None))
    {
      var projected := deliveries.ApplyResponse(id, responseId);
      if projected.Err? {
        return WorkRejected;
      }
      if projected.value.ResponseConflict? {
        var _ := deliveries.UpdateState(id, Uncertain, None);
        return Worked(id, Uncertain);
      }
      return Worked(id, Reconciled);
    }
  }

  /** The lease that the claim put on the row is gone again after the attempt. */
  lemma LeftByClaim(policy: Policy, env: Environment, before: Row, record: Row, after: Row, status: Status)
    requires policy.Valid() && record.attempts == before.attempts + 1
    requires record == before.(status := record.status, attempts := record.attempts, leaseOwner := record.leaseOwner,
                               leaseUntil := record.leaseUntil)
    ensures LeftBy(policy, record.attempts, env, record, after, status)
            ==> LeftBy(policy, record.attempts, env, before.(attempts := record.attempts), after, status)
  {
  }

  /** A claim returns a row exactly when the record can be worked: leased, as one more attempt. */
  lemma ClaimedRow(t: Tables, policies: Policies, id: string, owner: string, now: nat)
    ensures
      var r := Claim(t, policies, id, owner, now);
      && (r.Ok? && r.value.1.Some? <==> CanBeWorked(policies, t.outbox, id, now))
      && (r.Err? <==> HasNoPolicy(policies, t.outbox, id, now))
      && (r.Ok? && r.value.1.Some? ==>
            && id in r.value.0.outbox && r.value.0.outbox[id] == r.value.1.value
            && r.value.0 == t.(outbox := r.value.0.outbox)
            && id in t.outbox && t.outbox[id].policyId in policies
            && var before, row := t.outbox[id], r.value.1.value;
            && row.status.Leased? && row.policyId == before.policyId && row.attempts == before.attempts + 1
            && row == before.(status := Leased, attempts := row.attempts, leaseOwner := row.leaseOwner,
                              leaseUntil := row.leaseUntil))
  {
    if id in t.outbox {
      DueUnchanged(t.outbox, id, now);
    }
    hide ExpireLeases, Due, IsDue;
  }

  // ----- HostUncertainReconciliationService -----

  datatype ReconcileResult =
    | ReconcileThrows
    | ManualRequired
    | InquiryUnavailable
    | ReportsReconciled
    | ReportsRetryScheduled

  /** What the caller is told, by the record, its policy and the host's answer. */
  function Answered(policies: Policies, t: Tables, id: string, found: Inquired): ReconcileResult {
    if id !in t.outbox || !t.outbox[id].status.Uncertain? || t.outbox[id].policyId !in policies then ReconcileThrows
    else
      var policy := policies[t.outbox[id].policyId];
      if policy.version != t.outbox[id].policyVersion || policy.uncertainStrategy.ManualOnly? then ManualRequired
      else match found
        case Unavailable => InquiryUnavailable
        case Found(responseId) => if CannotBeStored(t, responseId) then ReconcileThrows else ReportsReconciled
        case NotFound => if policy.inquiryNotFound.Retry? then ReportsRetryScheduled else ManualRequired
  }

  class UncertainReconciliation {
    const deliveries: HostDeliveryStore

    constructor (deliveries: HostDeliveryStore)
      ensures this.deliveries == deliveries
    {
      this.deliveries := deliveries;
    }

    /** reconcile(): ask the host about an uncertain record and act on the answer. */
    method Reconcile(id: string, found: Inquired, now: nat) returns (r: ReconcileResult)
      modifies deliveries
      ensures
        var policies, before := deliveries.policies, old(deliveries.View());
        deliveries.View() ==
          if MayInquire(policies, before, id)
          then AfterInquiry(policies, System(before, map[0 := Job(id, Inquiring)], 1, []), 0, id, found, now).tables
          else before
      ensures r == Answered(deliveries.policies, old(deliveries.View()), id, found)
      ensures r.ReportsRetryScheduled? ==> id in deliveries.outbox && deliveries.outbox[id].status.RetryScheduled?
      ensures r.ReportsReconciled? ==> found.Found? && found.responseId in deliveries.responses
    {
      if id !in deliveries.outbox {
        return ReconcileThrows;
      }
      var record := deliveries.outbox[id];
      if !record.status.Uncertain? || record.policyId !in deliveries.policies {
        return ReconcileThrows;
      }
      var policy := deliveries.policies[record.policyId];
      if policy.version != record.policyVersion || policy.uncertainStrategy.ManualOnly? {
        return ManualRequired;
      }
      match found
      case Unavailable => return InquiryUnavailable;
      case Found(responseId) =>
        var projected := deliveries.ApplyResponse(id, responseId);
        return if projected.Err? then ReconcileThrows else ReportsReconciled;
      case NotFound =>
        if policy.inquiryNotFound.AskOperator? {
          return ManualRequired;
        }
        var _ := deliveries.UpdateState(id, RetryScheduled, Some(now));
        return ReportsRetryScheduled;
    }
  }
}
