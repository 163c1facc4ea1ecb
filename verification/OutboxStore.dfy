/**
 * The store objects and the worker that change the outbox in place: SqliteHostDeliveryStore,
 * SqliteHostReconciliationStore and HostDeliveryWorker of packages/kiosk-host-delivery/src.
 */
module OutboxStore {
  import opened Prelude
  import opened Outbox
  import opened OutboxRuns

  class HostDeliveryStore {
    const policies: Policies
    var outbox: map<string, Row>
    var responses: map<string, string>
    var messages: seq<Message>
    var audits: seq<AuditId>

    function View(): Tables
      reads this
    {
      Tables(outbox, responses, messages, audits)
    }

    constructor (policies: Policies)
      ensures View() == INITIAL.tables && this.policies == policies
    {
      this.policies := policies;
      outbox, responses, messages, audits := map[], map[], [], [];
    }

    method Enqueue(input: NewRecord, now: nat) returns (r: Result<Row, StoreError>)
      modifies this
      ensures r.Ok? <==> Outbox.Enqueue(old(View()), input, now).Ok?
      ensures r.Ok? ==>
                && View() == Outbox.Enqueue(old(View()), input, now).value
                && input.id in outbox && r.value == outbox[input.id]
      ensures r.Err? ==> View() == old(View()) && r.error == Outbox.Enqueue(old(View()), input, now).error
    {
      if KeyTaken(outbox, input.idempotencyKey) {
        if !SameRecord(outbox, input) {
          return Err(IdempotencyConflict);
        }
        return Ok(outbox[input.id]);
      }
      if !FreshColumns(outbox, input) || HasMessage(messages, input.messageId) {
        return Err(ConstraintViolated);
      }
      outbox := outbox[input.id := NewRow(input, now)];
      var number := NextNumber(input.transaction);
      messages := messages + [Message(input.messageId, input.transaction, number, false, input.id)];
      return Ok(outbox[input.id]);
    }

    /** COALESCE(MAX(seq), 0) + 1. */
    method NextNumber(transaction: string) returns (number: nat)
      ensures number == MaxNumber(messages, transaction) + 1
    {
      var max, i := 0, 0;
      while i < |messages|
        invariant 0 <= i <= |messages|
        invariant max == MaxNumber(messages[..i], transaction)
      {
        assert messages[..i + 1][..i] == messages[..i];
        if messages[i].transaction == transaction && messages[i].number > max {
          max := messages[i].number;
        }
        i := i + 1;
      }
      assert messages[..i] == messages;
      return max + 1;
    }

    /** The due row that comes first, by next attempt time, then creation time, then id. */
    method FirstDue(now: nat) returns (first: Option<string>)
      ensures first.None? ==> NothingDue(outbox, now)
      ensures first.Some? ==> IsNextDue(outbox, now, first.value)
    {
      first := None;
      var left := outbox.Keys;
      while left != {}
        invariant left <= outbox.Keys
        invariant first.None? ==> forall id <- outbox.Keys - left :: !Due(outbox[id], now)
        invariant first.Some? ==>
                    && first.value in outbox && Due(outbox[first.value], now)
                    && forall id <- outbox.Keys - left :: Due(outbox[id], now) ==> !Earlier(outbox, id, first.value)
        decreases left
      {
        var id :| id in left;
        left := left - {id};
        if Due(outbox[id], now) {
          if first.None? {
            assert !Earlier(outbox, id, id) by { NotBeforeItself(id); }
            first := Some(id);
          } else if Earlier(outbox, id, first.value) {
            forall other | other in outbox.Keys - left && Due(outbox[other], now)
              ensures !Earlier(outbox, other, id)
            {
              EarlierIsOrder(outbox, other, id, first.value);
            }
            first := Some(id);
          }
        }
      }
    }

    method ExpireLeases(now: nat)
      modifies this
      ensures View() == old(View()).(outbox := Outbox.ExpireLeases(old(outbox), now))
    {
      outbox := Outbox.ExpireLeases(outbox, now);
    }

    /** The part of a claim after a due row is selected; an unregistered policy rolls the transaction back. */
    method TakeLease(id: string, owner: string, now: nat) returns (r: Result<Option<Row>, StoreError>)
      requires id in outbox
      modifies this
      ensures
        var spec := Outbox.TakeLease(old(View()), policies, id, owner, now);
        if spec.Err? then r == Err(spec.error) && View() == old(View())
        else r == Ok(spec.value.1) && View() == spec.value.0
    {
      var row := outbox[id];
      if row.policyId !in policies {
        return Err(PolicyNotRegistered);
      }
      var policy := policies[row.policyId];
      if policy.version != row.policyVersion {
        outbox := outbox[id := row.(status := Uncertain)];
        return Ok(None);
      }
      row := row.(status := Leased, attempts := row.attempts + 1, leaseOwner := Some(owner),
                  leaseUntil := Some(now + policy.leaseMs));
      outbox := outbox[id := row];
      return Ok(Some(row));
    }

    method Claim(id: string, owner: string, now: nat) returns (r: Result<Option<Row>, StoreError>)
      modifies this
      ensures
        var spec := Outbox.Claim(old(View()), policies, id, owner, now);
        if spec.Err? then r == Err(spec.error) && View() == old(View())
        else r == Ok(spec.value.1) && View() == spec.value.0
    {
      var before := outbox;
      ExpireLeases(now);
      if id !in outbox || !Due(outbox[id], now) {
        return Ok(None);
      }
      r := TakeLease(id, owner, now);
      if r.Err? {
        outbox := before;
      }
    }

    /** claimNext: a claim of the first due row, or nothing but the expiry of leases. */
    method ClaimNext(owner: string, now: nat) returns (chosen: Option<string>, r: Result<Option<Row>, StoreError>)
      modifies this
      ensures
        var expired := Outbox.ExpireLeases(old(outbox), now);
        && (chosen.None? ==>
              && NothingDue(expired, now) && r == Ok(None) && View() == old(View()).(outbox := expired))
        && (chosen.Some? ==>
              && IsNextDue(expired, now, chosen.value)
              && var spec := Outbox.Claim(old(View()), policies, chosen.value, owner, now);
              if spec.Err? then r == Err(spec.error) && View() == old(View())
              else r == Ok(spec.value.1) && View() == spec.value.0)
    {
      var before := outbox;
      ExpireLeases(now);
      chosen := FirstDue(now);
      if chosen.None? {
        return chosen, Ok(None);
      }
      r := TakeLease(chosen.value, owner, now);
      if r.Err? {
        outbox := before;
      }
    }

    method UpdateState(id: string, status: Status, nextAttemptAt: Option<nat>) returns (found: bool)
      modifies this
      ensures found == Outbox.UpdateState(old(View()), id, status, nextAttemptAt).Ok?
      ensures View() == if found then Outbox.UpdateState(old(View()), id, status, nextAttemptAt).value else old(View())
    {
      if id !in outbox {
        return false;
      }
      outbox := outbox[id := Release(outbox[id], status).(nextAttemptAt := nextAttemptAt)];
      return true;
    }

    method ApplyResponse(outboxId: string, responseId: string) returns (r: Result<Projection, StoreError>)
      modifies this
      ensures
        var spec := Outbox.ApplyResponse(old(View()), outboxId, responseId);
        if spec.Err? then r == Err(spec.error) && View() == old(View())
        else r == Ok(spec.value.1) && View() == spec.value.0
    {
      if responseId in responses {
        return Ok(if responses[responseId] == outboxId then ResponseDuplicate else ResponseConflict);
      }
      if outboxId !in outbox {
        return Err(RecordNotFound);
      }
      var row, messageId, audit := outbox[outboxId], RESPONSE_PREFIX + responseId, ReconciliationAudit(responseId);
      if HasMessage(messages, messageId) || audit in audits {
        return Err(ConstraintViolated);
      }
      responses := responses[responseId := outboxId];
      var number := NextNumber(row.transaction);
      messages := messages + [Message(messageId, row.transaction, number, true, outboxId)];
      audits := audits + [audit];
      outbox := outbox[outboxId := Release(row, Reconciled).(responseId := Some(responseId))];
      return Ok(ResponseReconciled);
    }

    method ApplyManualResolution(id: string, resolution: Resolution, identified: bool, retryAt: Option<nat>, now: nat)
      returns (r: Option<StoreError>)
      modifies this
      ensures
        var spec := Outbox.ApplyManualResolution(old(View()), id, resolution, identified, retryAt, now);
        if spec.Err? then r == Some(spec.error) && View() == old(View()) else r == None && View() == spec.value
    {
      if !identified {
        return Some(OperatorRequired);
      }
      if id !in outbox {
        return Some(RecordNotFound);
      }
      if !outbox[id].status.Uncertain? && !outbox[id].status.Failed? {
        return Some(NotResolvable);
      }
      var status := ManualStatus(resolution);
      if status.RetryScheduled? && retryAt.None? {
        return Some(RetryTimeRequired);
      }
      if ManualAudit(id, now) in audits {
        return Some(ConstraintViolated);
      }
      outbox := outbox[id := Release(outbox[id], status).(nextAttemptAt := retryAt)];
      audits := audits + [ManualAudit(id, now)];
      return None;
    }
  }

  lemma {:induction false} NotBeforeItself(a: string)
    ensures !TextBefore(a, a)
  {
    if a != "" {
      NotBeforeItself(a[1..]);
    }
  }

  lemma {:induction false} TextBeforeIsOrder(a: string, b: string, c: string)
    requires TextBefore(b, c)
    ensures TextBefore(a, b) ==> TextBefore(a, c) && !TextBefore(b, a)
    decreases |b|
  {
    if a != "" && b != "" && a[0] == b[0] {
      if b[0] == c[0] {
        TextBeforeIsOrder(a[1..], b[1..], c[1..]);
      }
      NotBothBefore(a[1..], b[1..]);
    }
  }

  lemma {:induction false} NotBothBefore(a: string, b: string)
    ensures !(TextBefore(a, b) && TextBefore(b, a))
    decreases |a|
  {
    if a != "" && b != "" && a[0] == b[0] {
      NotBothBefore(a[1..], b[1..]);
    }
  }

  /** If nothing so far comes before `last`, nothing so far comes before an earlier row. */
  lemma EarlierIsOrder(outbox: map<string, Row>, other: string, id: string, last: string)
    requires other in outbox && id in outbox && last in outbox
    requires outbox[other].nextAttemptAt.Some? && outbox[id].nextAttemptAt.Some? && outbox[last].nextAttemptAt.Some?
    requires Earlier(outbox, id, last) && (other == id || !Earlier(outbox, other, last))
    ensures !Earlier(outbox, other, id)
  {
    NotBeforeItself(id);
    if TextBefore(id, last) {
      TextBeforeIsOrder(other, id, last);
    }
  }
}
