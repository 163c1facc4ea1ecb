/** What every run of the outbox keeps, whatever calls overlap on a record: responses, messages and audit rows. */
module OutboxReplay {
  import opened Prelude
  import opened Outbox
  import opened OutboxRuns

  function CountMessages(messages: seq<Message>, id: string): nat {
    if messages == [] then 0
    else CountMessages(messages[..|messages| - 1], id) + if messages[|messages| - 1].id == id then 1 else 0
  }

  function CountAudits(audits: seq<AuditId>, id: AuditId): nat {
    if audits == [] then 0
    else CountAudits(audits[..|audits| - 1], id) + if audits[|audits| - 1] == id then 1 else 0
  }

  /** The numbers of a transaction's messages, oldest first. */
  function Numbers(messages: seq<Message>, transaction: string): seq<nat> {
    if messages == [] then []
    else
      var last, before := messages[|messages| - 1], Numbers(messages[..|messages| - 1], transaction);
      if last.transaction == transaction then before + [last.number] else before
  }

  /** [1, 2, ..., n]. */
  function UpTo(n: nat): seq<nat> {
    seq(n, i => i + 1)
  }

  predicate Numbered(messages: seq<Message>, transaction: string) {
    Numbers(messages, transaction) == UpTo(|Numbers(messages, transaction)|)
  }

  ghost predicate TablesOk(t: Tables) {
    && (forall transaction :: Numbered(t.messages, transaction))
    && (forall id :: CountMessages(t.messages, id) <= 1)
    && (forall id :: CountAudits(t.audits, id) <= 1)
    && (forall r :: r in t.responses ==> CountMessages(t.messages, RESPONSE_PREFIX + r) == 1)
    && (forall r :: r in t.responses <==> CountAudits(t.audits, ReconciliationAudit(r)) == 1)
  }

  lemma {:induction false} CountedIff(messages: seq<Message>, id: string)
    ensures CountMessages(messages, id) > 0 <==> HasMessage(messages, id)
  {
    if messages != [] {
      var before := messages[..|messages| - 1];
      CountedIff(before, id);
      if HasMessage(messages, id) {
        var i :| 0 <= i < |messages| && messages[i].id == id;
        assert i < |before| ==> before[i].id == id;
      }
      if HasMessage(before, id) {
        var i :| 0 <= i < |before| && before[i].id == id;
        assert messages[i].id == id;
      }
      assert messages[|messages| - 1].id == id ==> HasMessage(messages, id);
    }
  }

  lemma {:induction false} AuditCountedIff(audits: seq<AuditId>, id: AuditId)
    ensures CountAudits(audits, id) > 0 <==> id in audits
  {
    if audits != [] {
      AuditCountedIff(audits[..|audits| - 1], id);
      assert audits == audits[..|audits| - 1] + [audits[|audits| - 1]];
    }
  }

  /** While a transaction's numbers are 1..n, the largest is n. */
  lemma {:induction false} MaxOfNumbers(messages: seq<Message>, transaction: string)
    requires Numbered(messages, transaction)
    ensures MaxNumber(messages, transaction) == |Numbers(messages, transaction)|
  {
    if messages != [] {
      var before, all := Numbers(messages[..|messages| - 1], transaction), Numbers(messages, transaction);
      assert all[..|before|] == before;
      assert UpTo(|all|)[..|before|] == UpTo(|before|);
      assert all != before ==> all[|before|] == UpTo(|all|)[|before|] == |before| + 1;
      MaxOfNumbers(messages[..|messages| - 1], transaction);
    }
  }

  // ----- One insertion -----

  lemma AppendedMessage(messages: seq<Message>, id: string, transaction: string, inbound: bool, requestId: string)
    requires AppendMessage(messages, id, transaction, inbound, requestId).Ok?
    ensures
      var after := AppendMessage(messages, id, transaction, inbound, requestId).value;
      && (forall other :: CountMessages(after, other) == CountMessages(messages, other) + if other == id then 1 else 0)
      && CountMessages(messages, id) == 0
  {
    var after := AppendMessage(messages, id, transaction, inbound, requestId).value;
    assert after[..|after| - 1] == messages;
    CountedIff(messages, id);
  }

  lemma AppendedNumber(messages: seq<Message>, id: string, transaction: string, inbound: bool, requestId: string,
      of: string)
    requires AppendMessage(messages, id, transaction, inbound, requestId).Ok?
    requires Numbered(messages, transaction) && Numbered(messages, of)
    ensures
      var after := AppendMessage(messages, id, transaction, inbound, requestId).value;
      && Numbered(after, of)
      && |Numbers(after, of)| == |Numbers(messages, of)| + if of == transaction then 1 else 0
  {
    var after := AppendMessage(messages, id, transaction, inbound, requestId).value;
    assert after[..|after| - 1] == messages;
    MaxOfNumbers(messages, transaction);
    var n := |Numbers(messages, of)|;
    assert UpTo(n + 1) == UpTo(n) + [n + 1];
  }

  lemma AppendedAudit(audits: seq<AuditId>, id: AuditId)
    requires AppendAudit(audits, id).Ok?
    ensures forall other ::
              CountAudits(audits + [id], other) == CountAudits(audits, other) + if other == id then 1 else 0
    ensures CountAudits(audits, id) == 0
  {
    assert (audits + [id])[..|audits|] == audits;
    AuditCountedIff(audits, id);
  }

  // ----- Each transaction keeps the tables in order -----

  lemma EnqueueKeeps(t: Tables, input: NewRecord, now: nat)
    requires TablesOk(t) && Enqueue(t, input, now).Ok?
    ensures TablesOk(Enqueue(t, input, now).value)
  {
    hide KeyTaken, SameRecord, FreshColumns, Numbered, AppendMessage, CountMessages, CountAudits;
    var u := Enqueue(t, input, now).value;
    if u.messages != t.messages {
      AppendedMessage(t.messages, input.messageId, input.transaction, false, input.id);
      forall of ensures Numbered(u.messages, of) {
        AppendedNumber(t.messages, input.messageId, input.transaction, false, input.id, of);
      }
    }
  }

  lemma ApplyKeeps(t: Tables, outboxId: string, responseId: string)
    requires TablesOk(t) && ApplyResponse(t, outboxId, responseId).Ok?
    ensures TablesOk(ApplyResponse(t, outboxId, responseId).value.0)
  {
    hide Numbered, AppendMessage, CountMessages, CountAudits;
    if responseId !in t.responses {
      var u := ApplyResponse(t, outboxId, responseId).value.0;
      var transaction := t.outbox[outboxId].transaction;
      AppendedMessage(t.messages, RESPONSE_PREFIX + responseId, transaction, true, outboxId);
      AppendedAudit(t.audits, ReconciliationAudit(responseId));
      forall of ensures Numbered(u.messages, of) {
        AppendedNumber(t.messages, RESPONSE_PREFIX + responseId, transaction, true, outboxId, of);
      }
      forall r | r in u.responses ensures CountMessages(u.messages, RESPONSE_PREFIX + r) == 1 {
        if r != responseId {
          assert (RESPONSE_PREFIX + r)[|RESPONSE_PREFIX|..] == r;
          assert (RESPONSE_PREFIX + responseId)[|RESPONSE_PREFIX|..] == responseId;
        }
      }
    }
  }

  lemma ManualKeeps(t: Tables, id: string, resolution: Resolution, identified: bool, retryAt: Option<nat>, now: nat)
    requires TablesOk(t) && ApplyManualResolution(t, id, resolution, identified, retryAt, now).Ok?
    ensures TablesOk(ApplyManualResolution(t, id, resolution, identified, retryAt, now).value)
  {
    hide Numbered, CountMessages, CountAudits;
    AppendedAudit(t.audits, ManualAudit(id, now));
  }

  /** A step changes nothing but outbox rows, or is one of the three transactions above. */
  lemma StepKeeps(policies: Policies, s: System, e: Event)
    requires TablesOk(s.tables)
    ensures TablesOk(Step(policies, s, e).tables)
  {
    hide TablesOk, Enqueue, ApplyResponse, ApplyManualResolution, ExpireLeases, Claim, UpdateState, Conclude;
    var t := Step(policies, s, e).tables;
    match e
    case EnqueueCalled(input, now) => if Enqueue(s.tables, input, now).Ok? { EnqueueKeeps(s.tables, input, now); }
    case SendEnds(k, answer, now) =>
      if k in s.work && answer.AnswersResponse? && ApplyResponse(s.tables, s.work[k].id, answer.responseId).Ok? {
        ApplyKeeps(s.tables, s.work[k].id, answer.responseId);
      } else {
        SameRowsKeep(s.tables, t);
      }
    case InquiryEnds(k, found, now) =>
      if k in s.work && found.Found? && ApplyResponse(s.tables, s.work[k].id, found.responseId).Ok? {
        ApplyKeeps(s.tables, s.work[k].id, found.responseId);
      } else {
        SameRowsKeep(s.tables, t);
      }
    case ResponseApplied(id, responseId) =>
      if ApplyResponse(s.tables, id, responseId).Ok? { ApplyKeeps(s.tables, id, responseId); }
    case OperatorResolves(id, resolution, identified, now) =>
      var retryAt := if resolution.ConfirmedNotSent? then Some(now) else None;
      if ApplyManualResolution(s.tables, id, resolution, identified, retryAt, now).Ok? {
        ManualKeeps(s.tables, id, resolution, identified, retryAt, now);
      }
    case _ => SameRowsKeep(s.tables, t);
  }

  lemma SameRowsKeep(t: Tables, u: Tables)
    requires TablesOk(t) && OnlyRows(t, u)
    ensures TablesOk(u)
  {
  }

  lemma {:induction false} RunKeeps(policies: Policies, events: seq<Event>)
    ensures TablesOk(Run(policies, events).tables)
    decreases |events|
  {
    hide Step, TablesOk;
    if events == [] {
      EmptyTablesOk();
    } else {
      RunKeeps(policies, events[..|events| - 1]);
      StepKeeps(policies, Run(policies, events[..|events| - 1]), events[|events| - 1]);
    }
  }

  lemma EmptyTablesOk()
    ensures TablesOk(INITIAL.tables)
  {
    assert UpTo(0) == [];
  }

  // ----- Main results -----

  /**
   * After any run, whatever calls overlap on a record: a transaction's messages are numbered 1..n in the order they
   * were written, and each stored response has exactly one inbound message and exactly one audit row.
   */
  lemma EveryResponseOnce(policies: Policies, events: seq<Event>, transaction: string, responseId: string)
    ensures
      var t := Run(policies, events).tables;
      && Numbers(t.messages, transaction) == UpTo(|Numbers(t.messages, transaction)|)
      && (responseId in t.responses ==> CountMessages(t.messages, RESPONSE_PREFIX + responseId) == 1)
      && CountAudits(t.audits, ReconciliationAudit(responseId)) == (if responseId in t.responses then 1 else 0)
  {
    hide Run;
    RunKeeps(policies, events);
    assert Numbered(Run(policies, events).tables.messages, transaction);
  }

  lemma StoredResponsesStay(policies: Policies, s: System, e: Event, responseId: string)
    requires responseId in s.tables.responses
    ensures responseId in Step(policies, s, e).tables.responses
    ensures Step(policies, s, e).tables.responses[responseId] == s.tables.responses[responseId]
  {
    hide Claim, UpdateState, Conclude, ApplyResponse;
    match e
    case SendEnds(k, answer, _) =>
      if k in s.work && answer.AnswersResponse? { ApplyKeepsResponses(s.tables, s.work[k].id, answer.responseId); }
    case InquiryEnds(k, found, _) =>
      if k in s.work && found.Found? { ApplyKeepsResponses(s.tables, s.work[k].id, found.responseId); }
    case ResponseApplied(id, r) => ApplyKeepsResponses(s.tables, id, r);
    case _ =>
  }

  lemma ApplyKeepsResponses(t: Tables, id: string, responseId: string)
    ensures ApplyResponse(t, id, responseId).Ok? ==>
              var u := ApplyResponse(t, id, responseId).value.0;
              forall r <- t.responses :: r in u.responses && u.responses[r] == t.responses[r]
  {
  }

  /** Over any continuation of a run a stored response keeps its record. */
  lemma {:induction false} ResponsesAreForever(policies: Policies, events: seq<Event>, more: seq<Event>,
      responseId: string)
    requires responseId in Run(policies, events).tables.responses
    ensures responseId in Run(policies, events + more).tables.responses
    ensures Run(policies, events + more).tables.responses[responseId]
        == Run(policies, events).tables.responses[responseId]
    decreases |more|
  {
    hide Step;
    if more == [] {
      assert events + more == events;
    } else {
      var all := events + more;
      assert all[..|all| - 1] == events + more[..|more| - 1];
      ResponsesAreForever(policies, events, more[..|more| - 1], responseId);
      StoredResponsesStay(policies, Run(policies, all[..|all| - 1]), all[|all| - 1], responseId);
    }
  }

  /**
   * Once a response is stored, in every continuation of the run applying its id again, for whichever record, changes
   * nothing at all, and reports a duplicate for its own record and a conflict for any other.
   */
  lemma ReplayChangesNothing(policies: Policies, events: seq<Event>, more: seq<Event>, responseId: string,
      other: string)
    requires responseId in Run(policies, events).tables.responses
    ensures
      var owner := Run(policies, events).tables.responses[responseId];
      var s := Run(policies, events + more);
      && ApplyResponse(s.tables, other, responseId)
           == Ok((s.tables, if other == owner then ResponseDuplicate else ResponseConflict))
      && Step(policies, s, ResponseApplied(other, responseId)) == s
  {
    hide Run;
    ResponsesAreForever(policies, events, more, responseId);
  }

  /** A response that is applied is stored for its record, unless the id was already another record's. */
  lemma AppliedResponseIsStored(t: Tables, outboxId: string, responseId: string)
    requires ApplyResponse(t, outboxId, responseId).Ok?
    ensures
      var (u, projection) := ApplyResponse(t, outboxId, responseId).value;
      responseId in u.responses && (u.responses[responseId] == outboxId <==> !projection.ResponseConflict?)
  {
  }
}
