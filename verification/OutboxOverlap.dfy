/**
 * What calls that overlap on a record can do: the runs that OutboxSafety excludes. A reconciled record is left exactly
 * when a call still at work on it comes to an outcome, and from every state with such a call there is a run in which
 * that happens.
 */
module OutboxOverlap {
  import opened Prelude
  import opened Outbox
  import opened OutboxRuns
  import opened OutboxRows
  import opened OutboxSafety
  import OutboxReplay

  lemma RunAppend(policies: Policies, events: seq<Event>, e: Event)
    ensures Run(policies, events + [e]) == Step(policies, Run(policies, events), e)
  {
    assert (events + [e])[..|events|] == events;
  }

  // ----- Calls at work -----

  /** The call's record exists, under a policy that is registered. */
  predicate HasRecord(policies: Policies, s: System, k: nat) {
    && k in s.work && k < s.calls
    && s.work[k].id in s.tables.outbox && s.tables.outbox[s.work[k].id].policyId in policies
  }

  /** A step starts at most the next call, and keeps the record of every other one. */
  lemma StepStarts(policies: Policies, s: System, e: Event, k: nat)
    requires k in Step(policies, s, e).work
    ensures s.calls <= Step(policies, s, e).calls
    ensures
      var job := Step(policies, s, e).work[k];
      || (k in s.work && s.work[k].id == job.id)
      || (k == s.calls < Step(policies, s, e).calls
          && (HandedOut(policies, s, e) == Some(job.id) || MayInquire(policies, s.tables, job.id)))
  {
    hide Enqueue, ExpireLeases, Due, UpdateState, ApplyResponse, Resolve, MayInquire;
  }

  lemma StartedOnRecord(policies: Policies, s: System, e: Event, id: string)
    requires HandedOut(policies, s, e) == Some(id) || MayInquire(policies, s.tables, id)
    ensures id in s.tables.outbox && s.tables.outbox[id].policyId in policies
  {
    assert e.ClaimCalled? && id in s.tables.outbox ==>
      ExpireLeases(s.tables.outbox, e.now)[id].policyId == s.tables.outbox[id].policyId;
  }

  /** In every run, each call at work has a record under a registered policy. */
  lemma {:induction false} WorkHasRecord(policies: Policies, events: seq<Event>, k: nat)
    requires k in Run(policies, events).work
    ensures HasRecord(policies, Run(policies, events), k)
    decreases |events|
  {
    hide Step, HandedOut, MayInquire;
    if events != [] {
      var s, e := Run(policies, events[..|events| - 1]), events[|events| - 1];
      StepStarts(policies, s, e, k);
      StepMoves(policies, s, e);
      if k in s.work && s.work[k].id == Step(policies, s, e).work[k].id {
        WorkHasRecord(policies, events[..|events| - 1], k);
      } else {
        StartedOnRecord(policies, s, e, Step(policies, s, e).work[k].id);
      }
    }
  }

  // ----- When a reconciled record is left -----

  /** The event ends the call with an outcome that is written to the call's record, whatever became of it meanwhile. */
  predicate Marks(policies: Policies, s: System, k: nat, e: Event) {
    && k in s.work
    && match e
       case PayloadMissing(j) => j == k && s.work[k].activity.Claimed?
       case SendEnds(j, answer, _) => j == k && s.work[k].activity.Sending? && !answer.AnswersResponse?
       case ConflictMarked(j) => j == k && s.work[k].activity.Conflicted?
       case InquiryEnds(j, found, _) =>
         && j == k && s.work[k].activity.Inquiring? && found.NotFound?
         && s.work[k].id in s.tables.outbox && s.tables.outbox[s.work[k].id].policyId in policies
         && policies[s.tables.outbox[s.work[k].id].policyId].inquiryNotFound.Retry?
       case _ => false
  }

  lemma MarkIsWritten(policies: Policies, s: System, k: nat, e: Event)
    requires HasRecord(policies, s, k) && Marks(policies, s, k, e)
    ensures
      var after := Step(policies, s, e).tables.outbox;
      s.work[k].id in after && !after[s.work[k].id].status.Reconciled?
  {
  }

  /** Everything else leaves a reconciled record reconciled. */
  lemma OthersKeepReconciled(policies: Policies, s: System, e: Event, id: string)
    requires IsReconciled(s.tables, id) && forall k <- s.work :: s.work[k].id == id ==> !Marks(policies, s, k, e)
    ensures IsReconciled(Step(policies, s, e).tables, id)
  {
    if Subject(s, e) != Some(id) {
      OthersLeave(policies, s, e, id);
      hide Step, Marks;
    } else if e.ClaimCalled? || e.OperatorResolves? {
      hide AppendAudit, TakeLease;
      assert e.ClaimCalled? ==> ExpireLeases(s.tables.outbox, e.now)[id] == s.tables.outbox[id];
    } else {
      hide Resolve, AppendMessage, AppendAudit;
    }
  }

  /**
   * In every run a reconciled record is left by exactly the events that end a call still at work on it with an outcome
   * other than a response.
   */
  lemma ReconciledIsLeftIff(policies: Policies, events: seq<Event>, e: Event, id: string)
    requires IsReconciled(Run(policies, events).tables, id)
    ensures
      var s := Run(policies, events);
      !IsReconciled(Run(policies, events + [e]).tables, id)
      <==> exists k :: k in s.work && s.work[k].id == id && Marks(policies, s, k, e)
  {
    hide Run, Step, Marks;
    var s := Run(policies, events);
    RunAppend(policies, events, e);
    if k :| k in s.work && s.work[k].id == id && Marks(policies, s, k, e) {
      WorkHasRecord(policies, events, k);
      MarkIsWritten(policies, s, k, e);
    } else {
      OthersKeepReconciled(policies, s, e, id);
    }
  }

  // ----- Who can reconcile a record under a call -----

  /** A time from `least` on that no operator has used for the record. */
  lemma {:induction false} FreshTime(audits: seq<AuditId>, id: string, least: nat) returns (at: nat)
    ensures least <= at && forall later | at <= later :: ManualAudit(id, later) !in audits
  {
    if audits == [] {
      at := least;
    } else {
      at := FreshTime(audits[1..], id, least);
      if audits[0].ManualAudit? && audits[0].at >= at {
        at := audits[0].at + 1;
      }
      assert audits == [audits[0]] + audits[1..];
    }
  }

  lemma OperatorActs(policies: Policies, s: System, id: string, resolution: Resolution, at: nat)
    requires id in s.tables.outbox && s.tables.outbox[id].status.Uncertain? && ManualAudit(id, at) !in s.tables.audits
    requires !resolution.CancelDelivery?
    ensures Resolve(s.tables, id, resolution, true, at).Ok?
    ensures
      var t := Step(policies, s, OperatorResolves(id, resolution, true, at));
      var retryAt := if resolution.ConfirmedNotSent? then Some(at) else None;
      && t.work == s.work && t.calls == s.calls && id in t.tables.outbox
      && t.log == s.log + (if resolution.ConfirmedNotSent? then [OperatorNotSent(id)] else [])
      && t.tables.outbox[id] == Release(s.tables.outbox[id], ManualStatus(resolution)).(nextAttemptAt := retryAt)
  {
  }

  /** A length that no message id and no audited response id has. */
  lemma {:induction false} Longest(messages: seq<Message>, audits: seq<AuditId>) returns (n: nat)
    ensures forall i | 0 <= i < |messages| :: |messages[i].id| < n
    ensures forall r: string | ReconciliationAudit(r) in audits :: |r| < n
    decreases |messages| + |audits|
  {
    n := 0;
    if messages != [] {
      var last := messages[|messages| - 1];
      n := Longest(messages[..|messages| - 1], audits);
      n := if |last.id| < n then n else |last.id| + 1;
    } else if audits != [] {
      var first := audits[0];
      n := Longest(messages, audits[1..]);
      n := if first.ReconciliationAudit? && |first.responseId| >= n then |first.responseId| + 1 else n;
      assert audits == [first] + audits[1..];
    }
  }

  /** There is always a response id that is new for a known record. */
  lemma FreshResponse(policies: Policies, events: seq<Event>, id: string) returns (responseId: string)
    requires id in Run(policies, events).tables.outbox
    ensures Reconciles(Run(policies, events).tables, id, responseId)
  {
    var t := Run(policies, events).tables;
    OutboxReplay.RunKeeps(policies, events);
    hide Run;
    var n := Longest(t.messages, t.audits);
    responseId := seq(n, _ => 'r');
    OutboxReplay.AuditCountedIff(t.audits, ReconciliationAudit(responseId));
    assert ReconciliationAudit(responseId) !in t.audits && responseId !in t.responses;
    assert !HasMessage(t.messages, RESPONSE_PREFIX + responseId);
  }

  lemma ResponseActs(policies: Policies, s: System, id: string, responseId: string)
    requires Reconciles(s.tables, id, responseId)
    ensures id in s.tables.outbox
    ensures
      var t := Step(policies, s, ResponseApplied(id, responseId));
      && t.work == s.work && t.calls == s.calls && IsReconciled(t.tables, id)
      && t.tables.outbox[id].policyId == s.tables.outbox[id].policyId
  {
    hide AppendMessage, AppendAudit;
  }

  // ----- A call's outcome undoes a reconciliation -----

  /** `first` overlaps with a call and reconciles the record, and `e`, which ends the call, takes that back. */
  predicate Undone(policies: Policies, events: seq<Event>, first: Event, e: Event, id: string) {
    && !NoOverlap(policies, Run(policies, events), first)
    && IsReconciled(Run(policies, events + [first]).tables, id)
    && !IsReconciled(Run(policies, events + [first, e]).tables, id)
  }

  lemma UndoneBy(policies: Policies, events: seq<Event>, first: Event, e: Event, k: nat)
    requires k in Run(policies, events).work && Marks(policies, Run(policies, events), k, e)
    requires !NoOverlap(policies, Run(policies, events), first)
    requires
      var s := Run(policies, events);
      var t := Step(policies, s, first);
      && t.work == s.work && IsReconciled(t.tables, s.work[k].id) && s.work[k].id in s.tables.outbox
      && t.tables.outbox[s.work[k].id].policyId == s.tables.outbox[s.work[k].id].policyId
    ensures Undone(policies, events, first, e, Run(policies, events).work[k].id)
  {
    var s, t := Run(policies, events), Run(policies, events + [first]);
    RunAppend(policies, events, first);
    RunAppend(policies, events + [first], e);
    assert events + [first] + [e] == events + [first, e];
    assert Marks(policies, t, k, e);
    hide Run, Step, NoOverlap, Marks;
    ReconciledIsLeftIff(policies, events + [first], e, s.work[k].id);
  }

  /**
   * From every state with a call at work on an uncertain record, an operator can confirm the record as delivered, and
   * any outcome of the call but a response undoes that.
   */
  lemma DecisionIsUndone(policies: Policies, events: seq<Event>, k: nat, e: Event) returns (first: Event)
    requires k in Run(policies, events).work && Marks(policies, Run(policies, events), k, e)
    requires
      var s := Run(policies, events);
      s.work[k].id in s.tables.outbox && s.tables.outbox[s.work[k].id].status.Uncertain?
    ensures first.OperatorResolves? && Undone(policies, events, first, e, Run(policies, events).work[k].id)
  {
    hide Run, Step, Marks, Resolve;
    var s := Run(policies, events);
    var id := s.work[k].id;
    var at := FreshTime(s.tables.audits, id, 0);
    first := OperatorResolves(id, ConfirmedDelivered, true, at);
    OperatorActs(policies, s, id, ConfirmedDelivered, at);
    UndoneBy(policies, events, first, e, k);
  }

  /**
   * From every state with a call at work on a record, whatever the record's status, another caller can bring in a
   * response for the record, and any outcome of the call but a response undoes that.
   */
  lemma ResponseIsUndone(policies: Policies, events: seq<Event>, k: nat, e: Event) returns (first: Event)
    requires k in Run(policies, events).work && Marks(policies, Run(policies, events), k, e)
    ensures first.ResponseApplied? && Undone(policies, events, first, e, Run(policies, events).work[k].id)
  {
    var s := Run(policies, events);
    var id := s.work[k].id;
    WorkHasRecord(policies, events, k);
    hide Run, Step, Marks, Reconciles;
    var responseId := FreshResponse(policies, events, id);
    first := ResponseApplied(id, responseId);
    ResponseActs(policies, s, id, responseId);
    UndoneBy(policies, events, first, e, k);
  }

  // ----- A worker outlives its lease -----

  /** A live worker's lease has run out. */
  predicate Outlived(s: System, k: nat, now: nat) {
    && k in s.work && IsWorker(s.work[k].activity)
    && s.work[k].id in s.tables.outbox && LeaseExpired(s.tables.outbox[s.work[k].id], now)
  }

  /** The lease expires under the worker, who does not notice. */
  lemma ExpiresUnder(policies: Policies, s: System, k: nat, now: nat)
    requires Outlived(s, k, now)
    ensures
      var t, id := Step(policies, s, ClaimFindsNothing(now)), s.work[k].id;
      && t.work == s.work && t.calls == s.calls && t.log == s.log && t.tables.audits == s.tables.audits
      && id in t.tables.outbox && t.tables.outbox[id] == Release(s.tables.outbox[id], Uncertain)
    ensures !NoOverlap(policies, s, ClaimFindsNothing(now))
  {
  }

  /**
   * From every state in which the lease of a live worker has run out, the record can leave `reconciled`: an operator
   * confirms it as delivered, and the worker's late outcome is written over that.
   */
  lemma OverlapLeavesReconciled(policies: Policies, events: seq<Event>, k: nat, now: nat, e: Event)
    returns (first: Event)
    requires Outlived(Run(policies, events), k, now) && Marks(policies, Run(policies, events), k, e)
    ensures !NoOverlap(policies, Run(policies, events), ClaimFindsNothing(now))
    ensures first.OperatorResolves?
    ensures Undone(policies, events + [ClaimFindsNothing(now)], first, e, Run(policies, events).work[k].id)
  {
    var s := Run(policies, events);
    RunAppend(policies, events, ClaimFindsNothing(now));
    ExpiresUnder(policies, s, k, now);
    assert Marks(policies, Step(policies, s, ClaimFindsNothing(now)), k, e);
    hide Run, Step, Marks, NoOverlap, Outlived, Undone;
    first := DecisionIsUndone(policies, events + [ClaimFindsNothing(now)], k, e);
  }

  lemma ClaimSucceeds(policies: Policies, s: System, id: string, owner: string, now: nat)
    requires id in s.tables.outbox && Due(s.tables.outbox[id], now) && UnderPolicy(policies, s.tables.outbox[id])
    ensures
      var t := Step(policies, s, ClaimCalled(id, owner, now));
      && t.log == s.log && t.work == s.work[s.calls := t.work[s.calls]]
      && t.work[s.calls].id == id && t.work[s.calls].activity.Claimed?
  {
    assert ExpireLeases(s.tables.outbox, now)[id] == s.tables.outbox[id];
  }

  lemma SendGoesOut(policies: Policies, s: System, k: nat)
    requires k in s.work && s.work[k].activity.Claimed?
    ensures
      var t, id := Step(policies, s, SendBegins(k)), s.work[k].id;
      && t.tables == s.tables && t.calls == s.calls && t.log == s.log + [Sent(id)]
      && t.work == s.work[k := Job(id, Sending(s.work[k].activity.attempt))]
  {
  }

  /** Both calls have handed the message of the record to the transport. */
  predicate BothSending(s: System, j: nat, k: nat, id: string) {
    && j != k && j in s.work && k in s.work && s.work[j].id == id && s.work[k].id == id
    && s.work[j].activity.Sending? && s.work[k].activity.Sending?
  }

  /** A worker that still believes in its claim sends, and then the next claim of the due record sends. */
  lemma BothSend(policies: Policies, events: seq<Event>, k: nat, now: nat)
    requires
      var s := Run(policies, events);
      && k in s.work && s.work[k].activity.Claimed?
      && var id := s.work[k].id;
      && id in s.tables.outbox && Due(s.tables.outbox[id], now) && UnderPolicy(policies, s.tables.outbox[id])
    ensures
      var s := Run(policies, events);
      var id, j := s.work[k].id, s.calls;
      var t := Run(policies, events + [SendBegins(k), ClaimCalled(id, "another worker", now), SendBegins(j)]);
      t.log == s.log + [Sent(id), Sent(id)] && BothSending(t, j, k, id)
  {
    WorkHasRecord(policies, events, k);
    hide Run, Step;
    var s := Run(policies, events);
    var id, j := s.work[k].id, s.calls;
    var claim := ClaimCalled(id, "another worker", now);
    var sent := events + [SendBegins(k)];
    var claimed := sent + [claim];
    RunAppend(policies, events, SendBegins(k));
    SendGoesOut(policies, s, k);
    RunAppend(policies, sent, claim);
    ClaimSucceeds(policies, Run(policies, sent), id, "another worker", now);
    RunAppend(policies, claimed, SendBegins(j));
    SendGoesOut(policies, Run(policies, claimed), j);
    assert claimed + [SendBegins(j)] == events + [SendBegins(k), claim, SendBegins(j)];
  }

  /** The lease expires under the worker, and an operator decides that nothing was sent. */
  lemma ReopenedUnder(policies: Policies, events: seq<Event>, k: nat, now: nat) returns (under: seq<Event>, at: nat)
    requires Outlived(Run(policies, events), k, now)
    ensures under != [] && !NoOverlap(policies, Run(policies, events), under[0])
    ensures
      var s, t := Run(policies, events), Run(policies, events + under);
      var id := s.work[k].id;
      && t.work == s.work && t.log == s.log + [OperatorNotSent(id)] && id in t.tables.outbox
      && Due(t.tables.outbox[id], at) && UnderPolicy(policies, t.tables.outbox[id])
  {
    var s := Run(policies, events);
    var id := s.work[k].id;
    RowsStayGood(policies, events, id);
    hide Run, Step, NoOverlap;
    at := FreshTime(s.tables.audits, id, now);
    var first, decides := ClaimFindsNothing(now), OperatorResolves(id, ConfirmedNotSent, true, at);
    RunAppend(policies, events, first);
    ExpiresUnder(policies, s, k, now);
    RunAppend(policies, events + [first], decides);
    OperatorActs(policies, Run(policies, events + [first]), id, ConfirmedNotSent, at);
    under := [first, decides];
    assert events + [first] + [decides] == events + under;
  }

  /**
   * From every state in which the lease of a live worker has run out before its send, the record can be sent twice
   * with nothing between the two sends: the lease expires, an operator confirms that nothing was sent, the worker
   * sends after all, and the next claim sends again while the first send is still under way.
   */
  lemma OverlapSendsTwice(policies: Policies, events: seq<Event>, k: nat, now: nat) returns (more: seq<Event>, j: nat)
    requires Outlived(Run(policies, events), k, now) && Run(policies, events).work[k].activity.Claimed?
    ensures more != [] && !NoOverlap(policies, Run(policies, events), more[0])
    ensures
      var s, t := Run(policies, events), Run(policies, events + more);
      var id := s.work[k].id;
      t.log == s.log + [OperatorNotSent(id), Sent(id), Sent(id)] && BothSending(t, j, k, id)
  {
    hide Run, NoOverlap, UnderPolicy, BothSending;
    var s := Run(policies, events);
    var id := s.work[k].id;
    var under, at := ReopenedUnder(policies, events, k, now);
    BothSend(policies, events + under, k, at);
    j := Run(policies, events + under).calls;
    var sends := [SendBegins(k), ClaimCalled(id, "another worker", at), SendBegins(j)];
    more := under + sends;
    assert events + under + sends == events + more;
    assert s.log + [OperatorNotSent(id)] + [Sent(id), Sent(id)] == s.log + [OperatorNotSent(id), Sent(id), Sent(id)];
  }
}
