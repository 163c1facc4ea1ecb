/**
 * Everything that happens to the outbox, as a run of events: workers
 * (packages/kiosk-host-delivery/src/worker.ts), inquiries and operators (reconciliation.ts) acting on the tables.
 *
 * A call of a worker or of an inquiry is between two of its awaits at every event, and may disappear there. Calls are
 * numbered, so any number of them may be at work, on one record or on several. The log records the sends and the three
 * ways a record is declared not sent.
 */
module OutboxRuns {
  import opened Prelude
  import opened Outbox

  type Positive = n: nat | n > 0 witness 1

  /** How far a call has come. */
  datatype Activity =
    | Claimed(attempt: Positive)      // holding the lease, about to send
    | Sending(attempt: Positive)      // the transport has the message
    | Conflicted                      // answered with a response id of another record
    | Inquiring                       // an inquiry is under way

  /** A call that is waiting for something, and the record it is about. */
  datatype Job = Job(id: string, activity: Activity)

  datatype Entry =
    | Sent(id: string)
    | ReportedNotSent(id: string)     // the transport answered notSent
    | InquiryNotFound(id: string)     // under the policy's `retry`
    | OperatorNotSent(id: string)     // confirmedNotSent

  datatype System = System(
    tables: Tables,
    work: map<nat, Job>,
    calls: nat,                // calls made so far; the next one gets this number
    log: seq<Entry>)

  const INITIAL := System(Tables(map[], map[], [], []), map[], 0, [])

  datatype Answer =
    | AnswersResponse(responseId: string)
    | AnswersUnknown
    | AnswersNotSent
    | Throws

  datatype Inquired = Found(responseId: string) | NotFound | Unavailable

  datatype Event =
    | EnqueueCalled(input: NewRecord, now: nat)
    | ClaimCalled(id: string, owner: string, now: nat)
    | ClaimFindsNothing(now: nat)             // claimNext with no due row
    | PayloadMissing(k: nat)
    | SendBegins(k: nat)
    | SendEnds(k: nat, answer: Answer, now: nat)
    | ConflictMarked(k: nat)
    | Crash(k: nat)
    | InquiryBegins(id: string)
    | InquiryEnds(k: nat, found: Inquired, now: nat)
    | ResponseApplied(id: string, responseId: string)   // by any other caller of the response service
    | OperatorResolves(id: string, resolution: Resolution, identified: bool, now: nat)

  function Begin(s: System, job: Job): System {
    s.(work := s.work[s.calls := job], calls := s.calls + 1)
  }

  function Leave(s: System, k: nat): System {
    s.(work := s.work - {k})
  }

  function Note(s: System, entry: Entry): System {
    s.(log := s.log + [entry])
  }

  /** A transaction that fails writes nothing. */
  function Write(s: System, r: Result<Tables, StoreError>): System {
    if r.Ok? then s.(tables := r.value) else s
  }

  predicate Is(s: System, k: nat, job: Job) {
    k in s.work && s.work[k] == job
  }

  function TryClaim(policies: Policies, s: System, id: string, owner: string, now: nat): System {
    var r := Claim(s.tables, policies, id, owner, now);
    if r.Err? then s
    else
      var t := s.(tables := r.value.0);
      if r.value.1.None? then t
      else Begin(t, Job(id, Claimed(r.value.1.value.attempts)))
  }

  /** The call marks its record and is done. */
  function Conclude(s: System, k: nat, id: string, status: Status, nextAttemptAt: Option<nat>): (t: System)
    ensures OnlyRows(s.tables, t.tables)
    ensures forall other <- s.tables.outbox ::
              other in t.tables.outbox && (other != id ==> t.tables.outbox[other] == s.tables.outbox[other])
  {
    Leave(Write(s, UpdateState(s.tables, id, status, nextAttemptAt)), k)
  }

  /** The message is handed to the transport. */
  function SendFrom(s: System, k: nat, id: string, attempt: Positive): System {
    Note(s.(work := s.work[k := Job(id, Sending(attempt))]), Sent(id))
  }

  /** responses.apply at the end of a send: a conflict is marked in a second transaction. */
  function ApplyAnswer(s: System, k: nat, id: string, responseId: string): System {
    var r := ApplyResponse(s.tables, id, responseId);
    if r.Err? then Leave(s, k)
    else if r.value.1.ResponseConflict? then s.(work := s.work[k := Job(id, Conflicted)])
    else Leave(s.(tables := r.value.0), k)
  }

  /** The transport is sure the message did not leave: fail it, or schedule the next attempt. */
  function AfterNotSent(policies: Policies, s: System, k: nat, id: string, attempt: Positive, now: nat): System {
    var noted := Note(s, ReportedNotSent(id));
    if id !in s.tables.outbox || s.tables.outbox[id].policyId !in policies then Leave(noted, k)
    else
      var policy := policies[s.tables.outbox[id].policyId];
      if attempt >= policy.maxAttempts then Conclude(noted, k, id, Failed, None)
      else Conclude(noted, k, id, RetryScheduled, Some(now + policy.RetryDelay(attempt)))
  }

  function AfterSend(policies: Policies, s: System, k: nat, id: string, attempt: Positive, answer: Answer, now: nat)
    : System
  {
    match answer
    case AnswersResponse(responseId) => ApplyAnswer(s, k, id, responseId)
    case AnswersUnknown => Conclude(s, k, id, Uncertain, None)
    case Throws => Conclude(s, k, id, Uncertain, None)
    case AnswersNotSent => AfterNotSent(policies, s, k, id, attempt, now)
  }

  /** reconcile() goes on to ask the host. */
  predicate MayInquire(policies: Policies, t: Tables, id: string) {
    && id in t.outbox && t.outbox[id].status.Uncertain?
    && var row := t.outbox[id];
    && row.policyId in policies && policies[row.policyId].version == row.policyVersion
    && policies[row.policyId].uncertainStrategy.Inquiry?
  }

  function AfterInquiry(policies: Policies, s: System, k: nat, id: string, found: Inquired, now: nat): System {
    match found
    case Unavailable => Leave(s, k)
    case Found(responseId) =>
      var r := ApplyResponse(s.tables, id, responseId);
      Leave(if r.Ok? then s.(tables := r.value.0) else s, k)
    case NotFound =>
      if id in s.tables.outbox && s.tables.outbox[id].policyId in policies
         && policies[s.tables.outbox[id].policyId].inquiryNotFound.Retry?
      then Conclude(Note(s, InquiryNotFound(id)), k, id, RetryScheduled, Some(now))
      else Leave(s, k)
  }

  /** ManualHostReconciliationService.resolve supplies the retry time of a confirmedNotSent. */
  function Resolve(t: Tables, id: string, resolution: Resolution, identified: bool, now: nat)
    : Result<Tables, StoreError>
  {
    ApplyManualResolution(t, id, resolution, identified, if resolution.ConfirmedNotSent? then Some(now) else None, now)
  }

  function AfterOperator(s: System, id: string, resolution: Resolution, identified: bool, now: nat): System {
    var r := Resolve(s.tables, id, resolution, identified, now);
    if r.Err? then s
    else
      var t := s.(tables := r.value);
      if resolution.ConfirmedNotSent? then Note(t, OperatorNotSent(id)) else t
  }

  function Step(policies: Policies, s: System, e: Event): System {
    match e
    case EnqueueCalled(input, now) => Write(s, Enqueue(s.tables, input, now))
    case ClaimCalled(id, owner, now) => TryClaim(policies, s, id, owner, now)
    case ClaimFindsNothing(now) => s.(tables := s.tables.(outbox := ExpireLeases(s.tables.outbox, now)))
    case PayloadMissing(k) =>
      if k in s.work && s.work[k].activity.Claimed? then Conclude(s, k, s.work[k].id, Failed, None) else s
    case SendBegins(k) =>
      if k in s.work && s.work[k].activity.Claimed? then SendFrom(s, k, s.work[k].id, s.work[k].activity.attempt) else s
    case SendEnds(k, answer, now) =>
      if k in s.work && s.work[k].activity.Sending?
      then AfterSend(policies, s, k, s.work[k].id, s.work[k].activity.attempt, answer, now) else s
    case ConflictMarked(k) =>
      if k in s.work && s.work[k].activity.Conflicted? then Conclude(s, k, s.work[k].id, Uncertain, None) else s
    case Crash(k) => Leave(s, k)
    case InquiryBegins(id) => if MayInquire(policies, s.tables, id) then Begin(s, Job(id, Inquiring)) else s
    case InquiryEnds(k, found, now) =>
      if k in s.work && s.work[k].activity.Inquiring? then AfterInquiry(policies, s, k, s.work[k].id, found, now) else s
    case ResponseApplied(id, responseId) =>
      var r := ApplyResponse(s.tables, id, responseId);
      if r.Ok? then s.(tables := r.value.0) else s
    case OperatorResolves(id, resolution, identified, now) => AfterOperator(s, id, resolution, identified, now)
  }

  function Run(policies: Policies, events: seq<Event>): System {
    if events == [] then INITIAL else Step(policies, Run(policies, events[..|events| - 1]), events[|events| - 1])
  }
}
