/** What claims, enqueues and scheduled retries promise to the callers that come after them, over all runs. */
module OutboxClaims {
  import opened Prelude
  import opened Outbox
  import opened OutboxRuns
  import opened OutboxRows

  /** Event `i` of the run is a claim that hands the record out. */
  predicate HandsOutAt(policies: Policies, events: seq<Event>, i: nat, id: string)
    requires i < |events|
  {
    HandedOut(policies, Run(policies, events[..i]), events[i]) == Some(id)
  }

  lemma Prefix(policies: Policies, events: seq<Event>, k: nat)
    requires k < |events|
    ensures Run(policies, events[..k + 1]) == Step(policies, Run(policies, events[..k]), events[k])
  {
    assert events[..k + 1][..k] == events[..k];
  }

  /** A claim that hands a record out found it due, under a registered version of its policy, and leases it. */
  lemma HandingOut(policies: Policies, s: System, e: Event, id: string)
    requires HandedOut(policies, s, e) == Some(id)
    ensures e.ClaimCalled? && e.id == id && id in s.tables.outbox
    ensures Due(s.tables.outbox[id], e.now) && UnderPolicy(policies, s.tables.outbox[id])
    ensures
      var after := Step(policies, s, e).tables.outbox;
      && id in after && after[id].status.Leased? && after[id].policyId == s.tables.outbox[id].policyId
      && after[id].leaseUntil == Some(e.now + policies[s.tables.outbox[id].policyId].leaseMs)
      && after[id].leaseOwner == Some(e.owner)
  {
    var expired := ExpireLeases(s.tables.outbox, e.now);
    assert expired[id] ==
      if LeaseExpired(s.tables.outbox[id], e.now) then Release(s.tables.outbox[id], Uncertain) else s.tables.outbox[id];
  }

  /**
   * In every run a record that is handed out was due, its policy's version is the registered one, and its attempts are
   * now the number of claims that handed it out.
   */
  lemma OnlyDueRecordsAreClaimed(policies: Policies, events: seq<Event>, i: nat, id: string)
    requires i < |events| && HandsOutAt(policies, events, i, id)
    ensures events[i].ClaimCalled? && id in Run(policies, events[..i]).tables.outbox
    ensures
      var row := Run(policies, events[..i]).tables.outbox[id];
      Due(row, events[i].now) && UnderPolicy(policies, row)
    ensures
      var after := Run(policies, events[..i + 1]).tables.outbox;
      && id in after && after[id].leaseOwner == Some(events[i].owner)
      && after[id].attempts == HandOuts(policies, events[..i + 1], id)
  {
    hide Run, Step, HandedOut, HandOuts;
    Prefix(policies, events, i);
    HandingOut(policies, Run(policies, events[..i]), events[i], id);
    AttemptsCountClaims(policies, events[..i + 1], id);
  }

  /** Until something ends it, the lease taken by event `i` is still there before event `j`. */
  lemma {:induction false} LeaseHolds(policies: Policies, events: seq<Event>, i: nat, j: nat, id: string, row: Row)
    requires i < j <= |events| && id in Run(policies, events[..i + 1]).tables.outbox
    requires row == Run(policies, events[..i + 1]).tables.outbox[id] && row.status.Leased? && row.leaseUntil.Some?
    requires forall k | i < k < j :: !EndsLease(Run(policies, events[..k]), events[k], id, row.leaseUntil.value)
    ensures id in Run(policies, events[..j]).tables.outbox && Run(policies, events[..j]).tables.outbox[id] == row
    decreases j
  {
    hide Run, Step;
    if i + 1 < j {
      LeaseHolds(policies, events, i, j - 1, id, row);
      Prefix(policies, events, j - 1);
      LeaseStays(policies, Run(policies, events[..j - 1]), events[j - 1], id);
    }
  }

  /**
   * In every run, between two claims that hand out the same record there is an event that ends the first lease: a
   * claim after the lease ran out, or the outcome of the work on the record.
   */
  lemma LeaseExcludes(policies: Policies, events: seq<Event>, i: nat, j: nat, id: string)
    requires i < j < |events| && HandsOutAt(policies, events, i, id) && HandsOutAt(policies, events, j, id)
    ensures events[i].ClaimCalled? && id in Run(policies, events[..i]).tables.outbox
    ensures
      var row := Run(policies, events[..i]).tables.outbox[id];
      && row.policyId in policies
      && exists k :: i < k < j && EndsLease(Run(policies, events[..k]), events[k], id,
                                            events[i].now + policies[row.policyId].leaseMs)
  {
    hide Run, Step, HandedOut;
    Prefix(policies, events, i);
    HandingOut(policies, Run(policies, events[..i]), events[i], id);
    var row := Run(policies, events[..i + 1]).tables.outbox[id];
    if forall k | i < k < j :: !EndsLease(Run(policies, events[..k]), events[k], id, row.leaseUntil.value) {
      LeaseHolds(policies, events, i, j, id, row);
      HandingOut(policies, Run(policies, events[..j]), events[j], id);
      assert false;
    }
  }

  /** Until something acts on it, the retry scheduled by event `i` is still there before event `j`. */
  lemma {:induction false} RetryHolds(policies: Policies, events: seq<Event>, i: nat, j: nat, id: string, row: Row)
    requires i < j <= |events| && id in Run(policies, events[..i + 1]).tables.outbox
    requires row == Run(policies, events[..i + 1]).tables.outbox[id] && row.status.RetryScheduled?
        && row.nextAttemptAt.Some?
    requires forall k | i < k < j :: !ActsOnRetry(Run(policies, events[..k]), events[k], id, row.nextAttemptAt.value)
    ensures id in Run(policies, events[..j]).tables.outbox && Run(policies, events[..j]).tables.outbox[id] == row
    decreases j
  {
    hide Run, Step;
    if i + 1 < j {
      RetryHolds(policies, events, i, j - 1, id, row);
      Prefix(policies, events, j - 1);
      RetryStays(policies, Run(policies, events[..j - 1]), events[j - 1], id);
    }
  }

  /** A reported notSent below the policy's limit schedules the next attempt after the policy's delay. */
  lemma NotSentSchedules(policies: Policies, s: System, k: nat, id: string, attempt: Positive, now: nat)
    requires id in s.tables.outbox && s.tables.outbox[id].policyId in policies
    requires Is(s, k, Job(id, Sending(attempt))) && attempt < policies[s.tables.outbox[id].policyId].maxAttempts
    ensures
      var after := Step(policies, s, SendEnds(k, AnswersNotSent, now)).tables.outbox;
      && id in after && after[id].status.RetryScheduled?
      && after[id].nextAttemptAt == Some(now + policies[s.tables.outbox[id].policyId].RetryDelay(attempt))
  {
  }

  /**
   * In every run a record that was reported as not sent is handed out again only by a claim after the policy's delay,
   * unless somebody else concluded work on the record in between.
   */
  lemma RetryWaits(policies: Policies, events: seq<Event>, i: nat, j: nat, id: string, attempt: Positive)
    requires i < j < |events| && HandsOutAt(policies, events, j, id)
    requires events[i].SendEnds? && events[i].answer.AnswersNotSent?
    requires
      var s := Run(policies, events[..i]);
      && Is(s, events[i].k, Job(id, Sending(attempt)))
      && id in s.tables.outbox && s.tables.outbox[id].policyId in policies
      && attempt < policies[s.tables.outbox[id].policyId].maxAttempts
    ensures
      var policy := policies[Run(policies, events[..i]).tables.outbox[id].policyId];
      exists k :: i < k <= j && ActsOnRetry(Run(policies, events[..k]), events[k], id,
                                            events[i].now + policy.RetryDelay(attempt))
  {
    hide Run, Step, HandedOut;
    var s := Run(policies, events[..i]);
    Prefix(policies, events, i);
    NotSentSchedules(policies, s, events[i].k, id, attempt, events[i].now);
    var row := Run(policies, events[..i + 1]).tables.outbox[id];
    if forall k | i < k < j :: !ActsOnRetry(Run(policies, events[..k]), events[k], id, row.nextAttemptAt.value) {
      RetryHolds(policies, events, i, j, id, row);
      HandingOut(policies, Run(policies, events[..j]), events[j], id);
      assert ActsOnRetry(Run(policies, events[..j]), events[j], id, row.nextAttemptAt.value);
    }
  }

  predicate UniqueKeys(outbox: map<string, Row>) {
    forall a, b | a in outbox && b in outbox :: outbox[a].idempotencyKey == outbox[b].idempotencyKey ==> a == b
  }

  /** The same records under the same keys. */
  predicate SameKeys(before: map<string, Row>, after: map<string, Row>) {
    before.Keys == after.Keys && forall id <- before :: after[id].idempotencyKey == before[id].idempotencyKey
  }

  lemma ClaimKeepsKeys(t: Tables, policies: Policies, id: string, owner: string, now: nat)
    ensures Claim(t, policies, id, owner, now).Ok?
        ==> SameKeys(t.outbox, Claim(t, policies, id, owner, now).value.0.outbox)
  {
  }

  lemma UpdateKeepsKeys(t: Tables, id: string, status: Status, nextAttemptAt: Option<nat>)
    ensures UpdateState(t, id, status, nextAttemptAt).Ok? ==>
              SameKeys(t.outbox, UpdateState(t, id, status, nextAttemptAt).value.outbox)
  {
  }

  lemma ApplyKeepsKeys(t: Tables, id: string, responseId: string)
    ensures ApplyResponse(t, id, responseId).Ok? ==> SameKeys(t.outbox, ApplyResponse(t, id, responseId).value.0.outbox)
  {
    hide AppendMessage, AppendAudit;
  }

  lemma OperatorKeepsKeys(t: Tables, id: string, resolution: Resolution, identified: bool, retryAt: Option<nat>,
      now: nat)
    ensures ApplyManualResolution(t, id, resolution, identified, retryAt, now).Ok? ==>
              SameKeys(t.outbox, ApplyManualResolution(t, id, resolution, identified, retryAt, now).value.outbox)
  {
    hide AppendAudit;
  }

  lemma EnqueueKeepsUnique(t: Tables, input: NewRecord, now: nat)
    requires UniqueKeys(t.outbox)
    ensures Enqueue(t, input, now).Ok? ==> UniqueKeys(Enqueue(t, input, now).value.outbox)
  {
    hide AppendMessage;
    if Enqueue(t, input, now).Ok? && !KeyTaken(t.outbox, input.idempotencyKey) {
      forall id | id in t.outbox ensures t.outbox[id].idempotencyKey != input.idempotencyKey {
      }
    }
  }

  lemma StepKeepsUnique(policies: Policies, s: System, e: Event)
    requires UniqueKeys(s.tables.outbox)
    ensures UniqueKeys(Step(policies, s, e).tables.outbox)
  {
    hide UniqueKeys, Claim, UpdateState, ApplyResponse, ApplyManualResolution, Enqueue, ExpireLeases;
    var before, after := s.tables.outbox, Step(policies, s, e).tables.outbox;
    match e
    case EnqueueCalled(input, now) => EnqueueKeepsUnique(s.tables, input, now);
    case ClaimCalled(id, owner, now) => ClaimKeepsKeys(s.tables, policies, id, owner, now); SameKeysKeep(before, after);
    case ClaimFindsNothing(now) => ExpireKeepsKeys(before, now); SameKeysKeep(before, after);
    case PayloadMissing(k) =>
      if k in s.work { UpdateKeepsKeys(s.tables, s.work[k].id, Failed, None); }
      SameKeysKeep(before, after);
    case SendEnds(k, answer, now) => SendEndsKeepsKeys(policies, s, k, answer, now); SameKeysKeep(before, after);
    case ConflictMarked(k) =>
      if k in s.work { UpdateKeepsKeys(s.tables, s.work[k].id, Uncertain, None); }
      SameKeysKeep(before, after);
    case InquiryEnds(k, found, now) =>
      if k in s.work {
        UpdateKeepsKeys(s.tables, s.work[k].id, RetryScheduled, Some(now));
        if found.Found? { ApplyKeepsKeys(s.tables, s.work[k].id, found.responseId); }
      }
      SameKeysKeep(before, after);
    case ResponseApplied(id, responseId) => ApplyKeepsKeys(s.tables, id, responseId); SameKeysKeep(before, after);
    case OperatorResolves(id, resolution, identified, now) =>
      var retryAt := if resolution.ConfirmedNotSent? then Some(now) else None;
      OperatorKeepsKeys(s.tables, id, resolution, identified, retryAt, now);
      SameKeysKeep(before, after);
    case _ =>
  }

  lemma SendEndsKeepsKeys(policies: Policies, s: System, k: nat, answer: Answer, now: nat)
    ensures SameKeys(s.tables.outbox, Step(policies, s, SendEnds(k, answer, now)).tables.outbox)
  {
    hide UpdateState, ApplyResponse;
    if k in s.work && s.work[k].activity.Sending? {
      var id, attempt := s.work[k].id, s.work[k].activity.attempt;
      UpdateKeepsKeys(s.tables, id, Uncertain, None);
      UpdateKeepsKeys(s.tables, id, Failed, None);
      if answer.AnswersResponse? {
        ApplyKeepsKeys(s.tables, id, answer.responseId);
      }
      if id in s.tables.outbox && s.tables.outbox[id].policyId in policies {
        UpdateKeepsKeys(s.tables, id, RetryScheduled,
            Some(now + policies[s.tables.outbox[id].policyId].RetryDelay(attempt)));
      }
    }
  }

  lemma ExpireKeepsKeys(outbox: map<string, Row>, now: nat)
    ensures SameKeys(outbox, ExpireLeases(outbox, now))
  {
  }

  lemma SameKeysKeep(before: map<string, Row>, after: map<string, Row>)
    requires UniqueKeys(before) && SameKeys(before, after)
    ensures UniqueKeys(after)
  {
  }

  /** No two records ever share an idempotency key. */
  lemma {:induction false} KeysStayUnique(policies: Policies, events: seq<Event>)
    ensures UniqueKeys(Run(policies, events).tables.outbox)
    decreases |events|
  {
    hide Step, UniqueKeys;
    if events == [] {
      NoRecords();
    } else {
      KeysStayUnique(policies, events[..|events| - 1]);
      StepKeepsUnique(policies, Run(policies, events[..|events| - 1]), events[|events| - 1]);
    }
  }

  lemma NoRecords()
    ensures UniqueKeys(INITIAL.tables.outbox)
  {
  }

  /** A successful enqueue can be repeated, and its key belongs to that record and transaction alone. */
  lemma EnqueueIsIdempotent(t: Tables, input: NewRecord, now: nat, again: NewRecord, later: nat)
    requires Enqueue(t, input, now).Ok? && again.idempotencyKey == input.idempotencyKey
    requires UniqueKeys(t.outbox)
    ensures
      var u := Enqueue(t, input, now).value;
      Enqueue(u, again, later) ==
        if again.id == input.id && again.transaction == input.transaction then Ok(u) else Err(IdempotencyConflict)
  {
    var u := Enqueue(t, input, now).value;
    assert input.id in u.outbox && u.outbox[input.id].idempotencyKey == input.idempotencyKey;
    assert KeyTaken(u.outbox, again.idempotencyKey);
    if KeyTaken(t.outbox, input.idempotencyKey) {
      assert u == t;
    } else if again.id != input.id && again.id in t.outbox {
      assert t.outbox[again.id].idempotencyKey != input.idempotencyKey;
    }
  }
}
