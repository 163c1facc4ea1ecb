/**
 * The durable host outbox: the tables and transactions of
 * packages/kiosk-host-delivery/src/sqlite-store.ts and sqlite-reconciliation.ts.
 *
 * A table is a map or a sequence of rows, a transaction is a function on all tables: it either gives the new
 * tables or an error, and then nothing is written. Times are milliseconds.
 */
module Outbox {
  import opened Prelude

  datatype Status = Pending | Leased | RetryScheduled | Uncertain | Reconciled | Failed | Cancelled

  datatype Row = Row(
    transaction: string,
    messageId: string,
    idempotencyKey: string,
    payloadRef: string,
    policyId: string,
    policyVersion: string,
    status: Status,
    attempts: nat,
    nextAttemptAt: Option<nat>,
    leaseOwner: Option<string>,
    leaseUntil: Option<nat>,
    responseId: Option<string>,
    createdAt: nat)

  datatype Strategy = Inquiry | ManualOnly

  datatype NotFoundAction = Retry | AskOperator

  datatype Policy = Policy(
    version: string,
    leaseMs: nat,
    maxAttempts: nat,
    retryDelaysMs: seq<nat>,
    uncertainStrategy: Strategy,
    inquiryNotFound: NotFoundAction)
  {
    /** The policies the registry accepts. */
    predicate Valid() {
      leaseMs > 0 && maxAttempts > 0 && retryDelaysMs != []
    }

    /** The wait after `attempt` attempts: the list's last entry serves all later ones. */
    function RetryDelay(attempt: nat): (delay: nat)
      requires Valid() && attempt > 0
      ensures attempt <= |retryDelaysMs| ==> delay == retryDelaysMs[attempt - 1]
      ensures attempt > |retryDelaysMs| ==> delay == retryDelaysMs[|retryDelaysMs| - 1]
    {
      retryDelaysMs[if attempt - 1 < |retryDelaysMs| - 1 then attempt - 1 else |retryDelaysMs| - 1]
    }
  }

  type Policies = p: map<string, Policy> | forall id <- p :: p[id].Valid()
    witness map[]

  datatype Message = Message(id: string, transaction: string, number: nat, inbound: bool, requestId: string)

  datatype AuditId = ReconciliationAudit(responseId: string) | ManualAudit(outboxId: string, at: nat)

  datatype Tables = Tables(
    outbox: map<string, Row>,
    responses: map<string, string>,   // response id to outbox id
    messages: seq<Message>,
    audits: seq<AuditId>)

  datatype StoreError =
    | IdempotencyConflict
    | ConstraintViolated
    | RecordNotFound
    | PolicyNotRegistered
    | OperatorRequired
    | NotResolvable
    | RetryTimeRequired

  datatype NewRecord = NewRecord(
    id: string, transaction: string, messageId: string, idempotencyKey: string, payloadRef: string,
    policyId: string, policyVersion: string)

  /** Only outbox rows may have changed. */
  predicate OnlyRows(t: Tables, u: Tables) {
    u == t.(outbox := u.outbox)
  }

  // ----- Messages of a transaction -----

  /** SELECT MAX(seq), 0 when there is no message. */
  function MaxNumber(messages: seq<Message>, transaction: string): nat {
    if messages == [] then 0
    else
      var last, before := messages[|messages| - 1], MaxNumber(messages[..|messages| - 1], transaction);
      if last.transaction == transaction && last.number > before then last.number else before
  }

  predicate HasMessage(messages: seq<Message>, id: string) {
    exists i :: 0 <= i < |messages| && messages[i].id == id
  }

  /** INSERT INTO kiosk_transaction_message with the next number; the id is a primary key. */
  function AppendMessage(messages: seq<Message>, id: string, transaction: string, inbound: bool, requestId: string)
    : Result<seq<Message>, StoreError>
  {
    if HasMessage(messages, id) then Err(ConstraintViolated)
    else Ok(messages + [Message(id, transaction, MaxNumber(messages, transaction) + 1, inbound, requestId)])
  }

  function AppendAudit(audits: seq<AuditId>, id: AuditId): Result<seq<AuditId>, StoreError> {
    if id in audits then Err(ConstraintViolated) else Ok(audits + [id])
  }

  // ----- enqueue -----

  /** The row with this idempotency key, which the table keeps unique. */
  predicate KeyTaken(outbox: map<string, Row>, key: string) {
    exists id :: id in outbox && outbox[id].idempotencyKey == key
  }

  predicate SameRecord(outbox: map<string, Row>, input: NewRecord) {
    && input.id in outbox && outbox[input.id].idempotencyKey == input.idempotencyKey
    && outbox[input.id].transaction == input.transaction
  }

  /** The primary key and the unique columns of the outbox. */
  predicate FreshColumns(outbox: map<string, Row>, input: NewRecord) {
    && input.id !in outbox
    && forall id <- outbox :: outbox[id].messageId != input.messageId && outbox[id].payloadRef != input.payloadRef
  }

  function NewRow(input: NewRecord, now: nat): Row {
    Row(input.transaction, input.messageId, input.idempotencyKey, input.payloadRef, input.policyId, input.policyVersion,
        Pending, 0, Some(now), None, None, None, now)
  }

  function Enqueue(t: Tables, input: NewRecord, now: nat): Result<Tables, StoreError> {
    if KeyTaken(t.outbox, input.idempotencyKey) then
      if SameRecord(t.outbox, input) then Ok(t) else Err(IdempotencyConflict)
    else if !FreshColumns(t.outbox, input) then Err(ConstraintViolated)
    else
      var messages :- AppendMessage(t.messages, input.messageId, input.transaction, false, input.id);
      Ok(t.(outbox := t.outbox[input.id := NewRow(input, now)], messages := messages))
  }

  // ----- claim and claimNext -----

  predicate LeaseExpired(row: Row, now: nat) {
    row.status.Leased? && row.leaseUntil.Some? && row.leaseUntil.value <= now
  }

  function Release(row: Row, status: Status): Row {
    row.(status := status, leaseOwner := None, leaseUntil := None)
  }

  function ExpireLeases(outbox: map<string, Row>, now: nat): (expired: map<string, Row>)
    ensures expired.Keys == outbox.Keys
  {
    map id | id in outbox :: if LeaseExpired(outbox[id], now) then Release(outbox[id], Uncertain) else outbox[id]
  }

  predicate Due(row: Row, now: nat) {
    (row.status.Pending? || row.status.RetryScheduled?) && row.nextAttemptAt.Some? && row.nextAttemptAt.value <= now
  }

  /** Claiming a due row, in the transaction that has already expired the leases. */
  function TakeLease(expired: Tables, policies: Policies, id: string, owner: string, now: nat)
    : (r: Result<(Tables, Option<Row>), StoreError>)
    requires id in expired.outbox
    ensures r.Ok? ==> OnlyRows(expired, r.value.0)
    ensures r.Ok? && r.value.1.Some? ==> r.value.1.value.attempts > 0
  {
    var row := expired.outbox[id];
    if row.policyId !in policies then Err(PolicyNotRegistered)
    else if policies[row.policyId].version != row.policyVersion then
      Ok((expired.(outbox := expired.outbox[id := row.(status := Uncertain)]), None))
    else
      var leased := row.(status := Leased, attempts := row.attempts + 1, leaseOwner := Some(owner),
                         leaseUntil := Some(now + policies[row.policyId].leaseMs));
      Ok((expired.(outbox := expired.outbox[id := leased]), Some(leased)))
  }

  function Claim(t: Tables, policies: Policies, id: string, owner: string, now: nat)
    : (r: Result<(Tables, Option<Row>), StoreError>)
    ensures r.Ok? ==> OnlyRows(t, r.value.0)
    ensures r.Ok? && r.value.1.Some? ==> r.value.1.value.attempts > 0
  {
    var expired := t.(outbox := ExpireLeases(t.outbox, now));
    if id !in expired.outbox || !Due(expired.outbox[id], now) then Ok((expired, None))
    else TakeLease(expired, policies, id, owner, now)
  }

  /** Text order of the BINARY collation. */
  predicate TextBefore(a: string, b: string) {
    b != [] && (a == [] || a[0] < b[0] || (a[0] == b[0] && TextBefore(a[1..], b[1..])))
  }

  /** ORDER BY next_attempt_at, created_at, id. */
  predicate Earlier(outbox: map<string, Row>, a: string, b: string)
    requires a in outbox && outbox[a].nextAttemptAt.Some? && b in outbox && outbox[b].nextAttemptAt.Some?
  {
    var x, y := outbox[a], outbox[b];
    x.nextAttemptAt.value < y.nextAttemptAt.value
    || (x.nextAttemptAt == y.nextAttemptAt
        && (x.createdAt < y.createdAt || (x.createdAt == y.createdAt && TextBefore(a, b))))
  }

  /** The row claimNext selects: due, and no due row comes earlier. */
  ghost predicate IsNextDue(outbox: map<string, Row>, now: nat, id: string) {
    && id in outbox && Due(outbox[id], now)
    && forall other <- outbox :: Due(outbox[other], now) ==> !Earlier(outbox, other, id)
  }

  ghost predicate NothingDue(outbox: map<string, Row>, now: nat) {
    forall id <- outbox :: !Due(outbox[id], now)
  }

  // ----- scheduleRetry, markUncertain, markFailed -----

  /** The update has no condition on the row's state or owner. */
  function UpdateState(t: Tables, id: string, status: Status, nextAttemptAt: Option<nat>)
    : (r: Result<Tables, StoreError>)
    ensures r.Ok? ==> OnlyRows(t, r.value)
  {
    if id !in t.outbox then Err(RecordNotFound)
    else Ok(t.(outbox := t.outbox[id := Release(t.outbox[id], status).(nextAttemptAt := nextAttemptAt)]))
  }

  // ----- Responses and manual resolution -----

  datatype Projection = ResponseReconciled | ResponseDuplicate | ResponseConflict

  const RESPONSE_PREFIX := "host-response:"

  function ApplyResponse(t: Tables, outboxId: string, responseId: string): Result<(Tables, Projection), StoreError> {
    if responseId in t.responses then
      Ok((t, if t.responses[responseId] == outboxId then ResponseDuplicate else ResponseConflict))
    else if outboxId !in t.outbox then Err(RecordNotFound)
    else
      var row := t.outbox[outboxId];
      var messages :- AppendMessage(t.messages, RESPONSE_PREFIX + responseId, row.transaction, true, outboxId);
      var audits :- AppendAudit(t.audits, ReconciliationAudit(responseId));
      Ok((Tables(t.outbox[outboxId := Release(row, Reconciled).(responseId := Some(responseId))],
                 t.responses[responseId := outboxId], messages, audits),
          ResponseReconciled))
  }

  datatype Resolution = ConfirmedDelivered | ConfirmedNotSent | CancelDelivery

  function ManualStatus(resolution: Resolution): Status {
    match resolution
    case ConfirmedDelivered => Reconciled
    case ConfirmedNotSent => RetryScheduled
    case CancelDelivery => Cancelled
  }

  /** applyManualResolution; `identified` says that operator and reason code are not blank. */
  function ApplyManualResolution(
    t: Tables, id: string, resolution: Resolution, identified: bool, retryAt: Option<nat>, now: nat)
    : Result<Tables, StoreError>
  {
    if !identified then Err(OperatorRequired)
    else if id !in t.outbox then Err(RecordNotFound)
    else if !t.outbox[id].status.Uncertain? && !t.outbox[id].status.Failed? then Err(NotResolvable)
    else if ManualStatus(resolution).RetryScheduled? && retryAt.None? then Err(RetryTimeRequired)
    else
      var audits :- AppendAudit(t.audits, ManualAudit(id, now));
      Ok(t.(outbox := t.outbox[id := Release(t.outbox[id], ManualStatus(resolution)).(nextAttemptAt := retryAt)],
            audits := audits))
  }
}
