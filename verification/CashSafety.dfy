/** Commit and rollback of one cash acceptance operation, over all runs, crashes and recovery. */
module CashSafety {
  import opened Prelude
  import opened CashNotes
  import opened CashAcceptance

  // ----- What holds of every run -----

  predicate HasEnd(device: seq<Command>) {
    exists k :: 0 <= k < |device| && device[k].CashInEnd?
  }

  predicate HasRollback(device: seq<Command>) {
    CashInRollback in device
  }

  /** A snapshot this operation took: the one after its first `revision` batches. */
  predicate Taken(c: Config, batches: seq<Report>, s: Snapshot) {
    0 < s.revision <= |batches| && AfterBatches(c.hash, batches[..s.revision]) == Some(s)
  }

  /** An approved authorization for exactly this snapshot of this operation. */
  predicate Approves(c: Config, batches: seq<Report>, a: Authorization, s: Snapshot) {
    a.approved && Exact(c.operationId, s, a) && Taken(c, batches, s)
  }

  ghost predicate WorkOk(c: Config, s: State) {
    && (forall i <- s.work :: i < s.calls)
    && (forall i <- s.work :: s.work[i].CommitWork? ==>
          s.stored.physicalCommitDispatched && Approves(c, s.batches, s.work[i].authorization, s.work[i].snapshot))
    && (forall i <- s.work :: s.work[i].AuthorizeWork? ==> s.snapshot.Some?)
  }

  ghost predicate DeviceOk(c: Config, s: State) {
    forall k | 0 <= k < |s.device| :: s.device[k].CashInEnd? ==>
      s.stored.physicalCommitDispatched && Approves(c, s.batches, s.device[k].authorization, s.device[k].snapshot)
  }

  /** The snapshot and the revision count the finished batches; the commit flag is never lost. */
  predicate CountOk(c: Config, s: State) {
    && s.snapshot == AfterBatches(c.hash, s.batches)
    && s.record.revision == |s.batches|
    && (s.snapshot.Some? ==> s.snapshot.value.revision == |s.batches|)
    && (s.stored.physicalCommitDispatched ==> s.record.physicalCommitDispatched)
    && (s.crashed ==> s.work == map[])
  }

  ghost predicate Inv(c: Config, s: State) {
    CountOk(c, s) && WorkOk(c, s) && DeviceOk(c, s)
  }

  lemma TakenStays(c: Config, batches: seq<Report>, report: Report, s: Snapshot)
    requires Taken(c, batches, s)
    ensures Taken(c, batches + [report], s)
  {
    assert (batches + [report])[..s.revision] == batches[..s.revision];
  }

  lemma FinishCashInKeeps(c: Config, s: State, i: nat, report: Report, lands: bool)
    requires Inv(c, s)
    ensures Inv(c, FinishCashIn(c, s, i, report, lands))
  {
    hide NextSnapshot;
    var t := FinishCashIn(c, s, i, report, lands);
    var n := |s.batches|;
    assert t.batches[..n] == s.batches;
    assert t.snapshot == AfterBatches(c.hash, t.batches);
    hide AfterBatches;
    assert t.snapshot.value.revision == n + 1 by { SnapshotRevision(c.hash, s.snapshot, report, n + 1); }
    forall j | j in t.work && t.work[j].CommitWork?
      ensures Approves(c, t.batches, t.work[j].authorization, t.work[j].snapshot)
    {
      TakenStays(c, s.batches, report, s.work[j].snapshot);
    }
    forall k | 0 <= k < |t.device| && t.device[k].CashInEnd?
      ensures Approves(c, t.batches, t.device[k].authorization, t.device[k].snapshot)
    {
      TakenStays(c, s.batches, report, s.device[k].snapshot);
    }
  }

  lemma SnapshotRevision(hash: Hash, before: Option<Snapshot>, report: Report, revision: nat)
    ensures NextSnapshot(hash, before, report, revision).revision == revision
  {
  }

  lemma CommitKeeps(c: Config, s: State, a: Authorization, lands: bool)
    requires Inv(c, s) && !s.crashed
    ensures Inv(c, BeginCommit(c, s, a, lands))
  {
    hide AfterBatches;
    if MayCommit(c, s, a) {
      assert s.batches[..|s.batches|] == s.batches;
      assert s.batches != [] by { NoSnapshotYet(c.hash, s.batches); }
      assert Approves(c, s.batches, a, s.snapshot.value);
    }
  }

  lemma NoSnapshotYet(hash: Hash, reports: seq<Report>)
    ensures AfterBatches(hash, reports).Some? <==> reports != []
  {
  }

  lemma DispatchEndKeeps(c: Config, s: State, i: nat)
    requires Inv(c, s) && i in s.work && s.work[i].CommitWork?
    ensures Inv(c, DispatchEnd(s, i, s.work[i].authorization, s.work[i].snapshot))
  {
    hide AfterBatches, Taken;
  }

  /** Steps that leave batches and the device log alone, and start no commit. */
  predicate Plain(s: State, t: State) {
    && t.batches == s.batches && t.snapshot == s.snapshot && t.record.revision == s.record.revision
    && (|| t.device == s.device
        || (|t.device| > 0 && t.device[..|t.device| - 1] == s.device && !t.device[|t.device| - 1].CashInEnd?))
    && (s.record.physicalCommitDispatched ==> t.record.physicalCommitDispatched)
    && (t.stored == s.stored || t.stored == t.record)
    && (t.crashed ==> t.work == map[]) && s.calls <= t.calls
    && forall i <- t.work ::
         && i < t.calls
         && (t.work[i].CommitWork? ==> i in s.work && t.work[i] == s.work[i])
         && (t.work[i].AuthorizeWork? ==> t.snapshot.Some?)
  }

  lemma PlainKeeps(c: Config, s: State, t: State)
    requires Inv(c, s) && Plain(s, t)
    ensures Inv(c, t)
  {
    hide AfterBatches, Taken;
    forall k | 0 <= k < |t.device| && t.device[k].CashInEnd? ensures k < |s.device| && t.device[k] == s.device[k] {
      if t.device != s.device && k < |t.device| - 1 {
        assert t.device[..|t.device| - 1][k] == s.device[k];
      }
    }
  }

  lemma StepKeeps(c: Config, s: State, e: Event)
    requires Inv(c, s)
    ensures Inv(c, Step(c, s, e))
  {
    var t := Step(c, s, e);
    hide AfterBatches, NextSnapshot;
    if e.CashInReturns? && !s.crashed && Has(s, e.i, AcceptWork(true)) {
      FinishCashInKeeps(c, s, e.i, e.report, e.lands);
    } else if e.CommitBegins? && !s.crashed {
      CommitKeeps(c, s, e.given, e.lands);
    } else if e.EndDispatched? && !s.crashed && e.i in s.work && s.work[e.i].CommitWork? {
      DispatchEndKeeps(c, s, e.i);
    } else {
      StepIsPlain(c, s, e);
      PlainKeeps(c, s, t);
    }
  }

  lemma StepIsPlain(c: Config, s: State, e: Event)
    requires WorkOk(c, s) && (s.crashed ==> s.work == map[])
    requires !(e.CashInReturns? && !s.crashed && Has(s, e.i, AcceptWork(true)))
    requires !(e.CommitBegins? && !s.crashed)
    requires !(e.EndDispatched? && !s.crashed && e.i in s.work && s.work[e.i].CommitWork?)
    ensures Plain(s, Step(c, s, e))
  {
    hide WorkOk, Plain, Exact, SettleOffer, BeginAccept, BeginAuthorize, BeginAbort;
    LogIsPlain(c, s);
    if !s.crashed {
      match e
      case AcceptBegins(lands) => BeginsArePlain(c, s, lands);
      case AuthorizeBegins(lands) => BeginsArePlain(c, s, lands);
      case AbortBegins(lands) => BeginsArePlain(c, s, lands);
      case RefusalBegins => SendIsPlain(c, s, s.calls, RefusalWork);
      case CashInDispatched(i) => if i in s.work { SendIsPlain(c, s, i, AcceptWork(true)); }
      case RollbackDispatched(i) => if i in s.work { SendIsPlain(c, s, i, AbortWork(true)); }
      case RetractDispatched(i) =>
        if i in s.work {
          SendIsPlain(c, s, i, RetractWork(true));
          SendIsPlain(c, s, i, RefusalRetractWork(true));
        }
      case CashOffered(i, taking, lands) => if i in s.work { OfferIsPlain(c, s, i, taking, lands, RetractWork(false)); }
      case RefusalOffered(i, taking, lands) =>
        EndIsPlain(c, s, i, s.record, lands);
        if i in s.work { OfferIsPlain(c, s, i, taking, lands, RefusalRetractWork(false)); }
      case AuthorizerAnswers(i, _, lands) => EndIsPlain(c, s, i, s.record.(phase := Escrowed), lands);
      case EndReturns(i, lands) => EndIsPlain(c, s, i, s.record.(phase := Completed), lands);
      case CashRetracted(i, lands) => EndIsPlain(c, s, i, s.record.(phase := Failed), lands);
      case WorkFails(i) => EndIsPlain(c, s, i, s.record, false);
      case _ =>
    }
  }

  lemma LogIsPlain(c: Config, s: State)
    requires WorkOk(c, s) && (s.crashed ==> s.work == map[])
    ensures Plain(s, s) && Plain(s, s.(device := s.device + [CashInRollback]))
        && Plain(s, s.(crashed := true, work := map[]))
  {
    hide Approves;
  }

  lemma EndIsPlain(c: Config, s: State, i: nat, r: Record, lands: bool)
    requires WorkOk(c, s) && !s.crashed
    requires r == s.record.(phase := r.phase)
    ensures Plain(s, End(s, i)) && Plain(s, End(Update(s, r, lands), i))
  {
    hide Approves;
  }

  lemma SendIsPlain(c: Config, s: State, i: nat, w: Work)
    requires WorkOk(c, s) && !s.crashed && (i in s.work || i == s.calls) && !w.CommitWork? && !w.AuthorizeWork?
    ensures i == s.calls ==> Plain(s, Begin(s, w))
    ensures i in s.work ==>
              && Plain(s, s.(work := s.work[i := w]))
              && Plain(s, s.(work := s.work[i := w], device := s.device + [Retract]))
              && Plain(s, s.(work := s.work[i := w], device := s.device + [CashInRollback]))
  {
    hide Approves;
  }

  lemma BeginsArePlain(c: Config, s: State, lands: bool)
    requires WorkOk(c, s) && !s.crashed
    ensures Plain(s, BeginAccept(s, lands)) && Plain(s, BeginAuthorize(s, lands)) && Plain(s, BeginAbort(s, lands))
  {
    hide AfterBatches, Approves;
  }

  lemma OfferIsPlain(c: Config, s: State, i: nat, taking: Taking, lands: bool, retracting: Work)
    requires WorkOk(c, s) && !s.crashed && i in s.work && !retracting.CommitWork? && !retracting.AuthorizeWork?
    ensures Plain(s, SettleOffer(s, i, taking, lands, retracting))
  {
    hide AfterBatches, Approves;
  }

  lemma {:induction false} RunKeeps(c: Config, events: seq<Event>)
    ensures Inv(c, Run(c, events))
    decreases |events|
  {
    hide Step;
    if events != [] {
      RunKeeps(c, events[..|events| - 1]);
      StepKeeps(c, Run(c, events[..|events| - 1]), events[|events| - 1]);
    }
  }

  // ----- Commit excludes rollback -----

  /** acceptBatch and authorize set the phase back to `escrowed` when they finish, whatever happened meanwhile. */
  predicate Reescrows(w: Work) {
    w.AcceptWork? || w.AuthorizeWork?
  }

  predicate NoneReescrows(s: State) {
    forall i <- s.work :: !Reescrows(s.work[i])
  }

  /** An abort that passes its guards is called only when no acceptBatch and no authorize is in flight. */
  predicate AbortWaits(s: State, e: Event) {
    e.AbortBegins? && MayAbort(s) ==> NoneReescrows(s)
  }

  predicate AbortsWait(c: Config, events: seq<Event>) {
    events == []
    || (AbortsWait(c, events[..|events| - 1]) && AbortWaits(Run(c, events[..|events| - 1]), events[|events| - 1]))
  }

  predicate Aborts(w: Work) {
    w.AbortWork? || w.RetractWork?
  }

  /** Once an abort is under way or the device rolled back, nothing can lead to a commit. */
  predicate Excluded(s: State) {
    ((exists i <- s.work :: Aborts(s.work[i])) || HasRollback(s.device)) ==>
      && !HasEnd(s.device)
      && (!s.crashed ==>
            && !s.record.physicalCommitDispatched && NoneReescrows(s)
            && (s.record.phase.RollingBack? || s.record.phase.Retracting? || s.record.phase.Failed?))
  }

  lemma EndMeansFlag(c: Config, s: State)
    requires Inv(c, s)
    ensures HasEnd(s.device) ==> s.stored.physicalCommitDispatched && s.record.physicalCommitDispatched
    ensures (exists i <- s.work :: s.work[i].CommitWork?) ==> s.record.physicalCommitDispatched
  {
    hide AfterBatches, Approves;
  }

  lemma AppendRollback(device: seq<Command>, x: Command)
    ensures HasEnd(device + [x]) <==> HasEnd(device) || x.CashInEnd?
    ensures HasRollback(device + [x]) <==> HasRollback(device) || x.CashInRollback?
  {
    if HasEnd(device) {
      var k :| 0 <= k < |device| && device[k].CashInEnd?;
      assert (device + [x])[k].CashInEnd?;
    }
    if x.CashInEnd? {
      assert (device + [x])[|device|].CashInEnd?;
    }
    if HasEnd(device + [x]) {
      var k :| 0 <= k < |device + [x]| && (device + [x])[k].CashInEnd?;
      assert k < |device| ==> device[k].CashInEnd?;
    }
  }

  lemma StepExcludes(c: Config, s: State, e: Event)
    requires Inv(c, s) && Excluded(s) && AbortWaits(s, e)
    ensures Excluded(Step(c, s, e))
  {
    hide Inv, AfterBatches, NextSnapshot, HasEnd, HasRollback, Exact;
    EndMeansFlag(c, s);
    assert Inv(c, s) && s.crashed ==> s.work == map[] by { CrashedIsIdle(c, s); }
    AppendRollback(s.device, CashInRollback);
    AppendRollback(s.device, Retract);
    if e.EndDispatched? && e.i in s.work && s.work[e.i].CommitWork? {
      AppendRollback(s.device, CashInEnd(s.work[e.i].authorization, s.work[e.i].snapshot));
    }
  }

  lemma CrashedIsIdle(c: Config, s: State)
    requires Inv(c, s)
    ensures s.crashed ==> s.work == map[]
  {
  }

  lemma {:induction false} RunExcludes(c: Config, events: seq<Event>)
    requires AbortsWait(c, events)
    ensures Excluded(Run(c, events))
    decreases |events|
  {
    hide Step, AbortWaits, Excluded;
    if events == [] {
      InitiallyExcluded();
    } else {
      RunExcludes(c, events[..|events| - 1]);
      RunKeeps(c, events[..|events| - 1]);
      StepExcludes(c, Run(c, events[..|events| - 1]), events[|events| - 1]);
    }
  }

  lemma InitiallyExcluded()
    ensures Excluded(INITIAL)
  {
  }

  /**
   * The device never receives both cashInEnd and cashInRollback for one operation, crashes and recovery included,
   * as long as no abort passes its guards while an acceptBatch or an authorize is in flight.
   */
  lemma NeverBoth(c: Config, events: seq<Event>)
    requires AbortsWait(c, events)
    ensures !(HasEnd(Run(c, events).device) && HasRollback(Run(c, events).device))
  {
    hide Run, AbortsWait;
    RunExcludes(c, events);
  }

  /** The commit flag is in the store before cashInEnd is called, so recovery never rolls back a possible commit. */
  lemma FlagIsStoredFirst(c: Config, events: seq<Event>, deviceStatus: string)
    ensures
      var s := Run(c, events);
      HasEnd(s.device) ==> s.stored.physicalCommitDispatched && Decide(s.stored, deviceStatus).Observe?
  {
    hide Run;
    RunKeeps(c, events);
    EndMeansFlag(c, Run(c, events));
  }

  /** cashInEnd is called only with an approved authorization for the operation and for a snapshot it really took. */
  lemma CommitsAreAuthorized(c: Config, events: seq<Event>, k: nat)
    requires k < |Run(c, events).device| && Run(c, events).device[k].CashInEnd?
    ensures
      var s := Run(c, events);
      var end := s.device[k];
      && end.authorization.approved && end.authorization.operationId == c.operationId
      && end.authorization.revision == end.snapshot.revision && end.authorization.snapshotHash == end.snapshot.hash
      && 0 < end.snapshot.revision <= |s.batches|
      && AfterBatches(c.hash, s.batches[..end.snapshot.revision]) == Some(end.snapshot)
  {
    hide Run, AfterBatches;
    RunKeeps(c, events);
    assert Approves(c, Run(c, events).batches, Run(c, events).device[k].authorization,
        Run(c, events).device[k].snapshot);
  }

  /** Every finished cash-in raises the revision by one, so an authorization given before it is refused. */
  lemma EarlierAuthorizationIsStale(c: Config, events: seq<Event>, i: nat, report: Report, a: Authorization,
      lands: bool)
    requires
      var s := Run(c, events);
      && !s.crashed && Has(s, i, AcceptWork(true)) && s.snapshot.Some? && Exact(c.operationId, s.snapshot.value, a)
    ensures
      var t := Step(c, Run(c, events), CashInReturns(i, report, lands));
      t.record.revision == Run(c, events).record.revision + 1 && !MayCommit(c, t, a)
  {
    hide Run, AfterBatches;
    RunKeeps(c, events);
    SnapshotRevision(c.hash, Run(c, events).snapshot, report, Run(c, events).record.revision + 1);
  }

  // ----- One commit, of everything that was counted -----

  /** A commit that passes its guards is called only when no acceptBatch and no authorize is in flight. */
  predicate CommitWaits(c: Config, s: State, e: Event) {
    e.CommitBegins? && MayCommit(c, s, e.given) ==> NoneReescrows(s)
  }

  predicate CommitsWait(c: Config, events: seq<Event>) {
    events == []
    || (CommitsWait(c, events[..|events| - 1]) && CommitWaits(c, Run(c, events[..|events| - 1]), events[|events| - 1]))
  }

  /** Once the commit flag is set no batch, no authorization and no further commit can follow. */
  ghost predicate Sealed(s: State) {
    && (!s.crashed && s.record.physicalCommitDispatched ==>
          NoneReescrows(s) && SealedPhase(s.record.phase))
    && (forall i, j | i in s.work && j in s.work :: s.work[i].CommitWork? && s.work[j].CommitWork? ==> i == j)
    && (forall i <- s.work :: s.work[i].CommitWork? ==>
          s.work[i].snapshot.revision == |s.batches| && (!s.work[i].ended ==> !HasEnd(s.device)))
    && OneEnd(s.device, |s.batches|)
  }

  predicate OneEnd(device: seq<Command>, revision: nat) {
    && (forall k | 0 <= k < |device| :: device[k].CashInEnd? ==> device[k].snapshot.revision == revision)
    && (forall k, l | 0 <= k < l < |device| :: !(device[k].CashInEnd? && device[l].CashInEnd?))
  }

  lemma NoEndIsOneEnd(device: seq<Command>, revision: nat)
    requires !HasEnd(device)
    ensures OneEnd(device, revision)
  {
    if !OneEnd(device, revision) {
      var k :| 0 <= k < |device| && device[k].CashInEnd?;
      assert HasEnd(device);
    }
  }

  lemma OnlyEnd(device: seq<Command>, revision: nat, k: nat, l: nat)
    requires OneEnd(device, revision) && k < |device| && l < |device| && k != l && device[k].CashInEnd?
    ensures !device[l].CashInEnd?
  {
  }

  lemma OneEndAppend(device: seq<Command>, x: Command, revision: nat)
    requires OneEnd(device, revision) && (x.CashInEnd? ==> !HasEnd(device) && x.snapshot.revision == revision)
    ensures OneEnd(device + [x], revision)
  {
    var longer := device + [x];
    forall k, l | 0 <= k < l < |longer| ensures !(longer[k].CashInEnd? && longer[l].CashInEnd?) {
      if l == |device| && longer[k].CashInEnd? {
        assert device[k].CashInEnd?;
        assert HasEnd(device);
      }
    }
  }

  predicate SealedPhase(phase: Phase) {
    phase.Committing? || phase.Completed? || phase.Failed? || phase.Retracting?
  }

  /** Steps that count nothing, commit nothing and do not set the flag. */
  predicate Calm(s: State, t: State) {
    && t.batches == s.batches
    && (t.device == s.device || t.device == s.device + [CashInRollback] || t.device == s.device + [Retract])
    && (forall i <- t.work :: t.work[i].CommitWork? ==> i in s.work && t.work[i] == s.work[i])
    && (!t.crashed && t.record.physicalCommitDispatched ==>
          && !s.crashed && s.record.physicalCommitDispatched
          && (NoneReescrows(s) ==> NoneReescrows(t) && (SealedPhase(s.record.phase) ==> SealedPhase(t.record.phase))))
  }

  lemma CalmSeals(s: State, t: State)
    requires Sealed(s) && Calm(s, t)
    ensures Sealed(t)
  {
    hide OneEnd, HasEnd, HasRollback, NoneReescrows;
    OneEndAppend(s.device, CashInRollback, |s.batches|);
    OneEndAppend(s.device, Retract, |s.batches|);
    AppendRollback(s.device, CashInRollback);
    AppendRollback(s.device, Retract);
  }

  lemma StepIsCalm(c: Config, s: State, e: Event)
    requires Sealed(s) && (s.crashed ==> s.work == map[])
    requires !e.CommitBegins? && !e.EndDispatched?
    requires !(e.CashInReturns? && !s.crashed && Has(s, e.i, AcceptWork(true)))
    ensures Calm(s, Step(c, s, e))
  {
    hide AfterBatches, NextSnapshot, OneEnd, HasEnd, HasRollback, FinishCashIn, BeginCommit, DispatchEnd, SettleOffer,
      BeginAccept, BeginAuthorize, BeginAbort;
    if !s.crashed && (e.AcceptBegins? || e.AuthorizeBegins? || e.AbortBegins?) {
      BeginsAreCalm(s, e.lands);
    }
    if (e.CashOffered? || e.RefusalOffered?) && !s.crashed {
      OfferIsCalm(s, e.i, e.taking, e.lands, if e.CashOffered? then RetractWork(false) else RefusalRetractWork(false));
    }
  }

  lemma BeginsAreCalm(s: State, lands: bool)
    requires Sealed(s) && !s.crashed
    ensures Calm(s, BeginAccept(s, lands)) && Calm(s, BeginAuthorize(s, lands)) && Calm(s, BeginAbort(s, lands))
  {
    hide OneEnd, HasEnd, HasRollback;
  }

  lemma OfferIsCalm(s: State, i: nat, taking: Taking, lands: bool, retracting: Work)
    requires !s.crashed && !retracting.CommitWork? && !Reescrows(retracting)
    ensures Calm(s, SettleOffer(s, i, taking, lands, retracting))
  {
  }

  lemma CashInSeals(c: Config, s: State, i: nat, report: Report, lands: bool)
    requires Inv(c, s) && Sealed(s) && !s.crashed && Has(s, i, AcceptWork(true))
    ensures Sealed(FinishCashIn(c, s, i, report, lands))
  {
    EndMeansFlag(c, s);
    hide Inv, AfterBatches, NextSnapshot, HasEnd, HasRollback, OneEnd;
    assert !s.record.physicalCommitDispatched by { assert Reescrows(s.work[i]); }
    NoEndIsOneEnd(s.device, |s.batches| + 1);
  }

  lemma CommitSeals(c: Config, s: State, a: Authorization, lands: bool)
    requires Inv(c, s) && Sealed(s) && !s.crashed && NoneReescrows(s)
    ensures Sealed(BeginCommit(c, s, a, lands))
  {
    EndMeansFlag(c, s);
    FlagFollows(c, s);
    hide Inv, AfterBatches, HasEnd, HasRollback, OneEnd;
  }

  lemma RefusedCommit(c: Config, s: State, a: Authorization, lands: bool)
    requires !MayCommit(c, s, a)
    ensures BeginCommit(c, s, a, lands) == s
  {
  }

  lemma EndSeals(c: Config, s: State, i: nat)
    requires Inv(c, s) && Sealed(s) && !s.crashed && i in s.work && s.work[i].CommitWork? && !s.work[i].ended
    ensures Sealed(DispatchEnd(s, i, s.work[i].authorization, s.work[i].snapshot))
  {
    hide Inv, AfterBatches, HasEnd, HasRollback, OneEnd;
    OneEndAppend(s.device, CashInEnd(s.work[i].authorization, s.work[i].snapshot), |s.batches|);
  }

  lemma StepSeals(c: Config, s: State, e: Event)
    requires Inv(c, s) && Sealed(s) && CommitWaits(c, s, e)
    ensures Sealed(Step(c, s, e))
  {
    CrashedIsIdle(c, s);
    hide Inv, Sealed, AfterBatches, NextSnapshot, NoneReescrows, FinishCashIn, BeginCommit, DispatchEnd;
    if e.CashInReturns? && !s.crashed && Has(s, e.i, AcceptWork(true)) {
      CashInSeals(c, s, e.i, e.report, e.lands);
    } else if e.CommitBegins? {
      if !s.crashed {
        if MayCommit(c, s, e.given) {
          CommitSeals(c, s, e.given, e.lands);
        } else {
          RefusedCommit(c, s, e.given, e.lands);
        }
      }
    } else if e.EndDispatched? {
      if !s.crashed && e.i in s.work && s.work[e.i].CommitWork? && !s.work[e.i].ended { EndSeals(c, s, e.i); }
    } else {
      StepIsCalm(c, s, e);
      CalmSeals(s, Step(c, s, e));
    }
  }

  lemma FlagFollows(c: Config, s: State)
    requires Inv(c, s)
    ensures s.stored.physicalCommitDispatched ==> s.record.physicalCommitDispatched
    ensures s.snapshot.Some? ==> s.snapshot.value.revision == |s.batches|
    ensures forall i <- s.work :: i < s.calls
  {
  }

  lemma {:induction false} RunSeals(c: Config, events: seq<Event>)
    requires CommitsWait(c, events)
    ensures Sealed(Run(c, events))
    decreases |events|
  {
    hide Step, CommitWaits, Sealed;
    if events == [] {
      InitiallySealed();
    } else {
      RunSeals(c, events[..|events| - 1]);
      RunKeeps(c, events[..|events| - 1]);
      StepSeals(c, Run(c, events[..|events| - 1]), events[|events| - 1]);
    }
  }

  lemma InitiallySealed()
    ensures Sealed(INITIAL)
  {
  }

  /** The device receives cashInEnd at most once, and what it commits is every batch the operation ever counted. */
  lemma CommitsEverythingOnce(c: Config, events: seq<Event>, k: nat)
    requires CommitsWait(c, events)
    requires k < |Run(c, events).device| && Run(c, events).device[k].CashInEnd?
    ensures
      var s := Run(c, events);
      && AfterBatches(c.hash, s.batches) == Some(s.device[k].snapshot)
      && (forall l | 0 <= l < |s.device| && l != k :: !s.device[l].CashInEnd?)
  {
    hide Run, AfterBatches;
    var s := Run(c, events);
    RunSeals(c, events);
    CommitsAreAuthorized(c, events, k);
    assert s.batches[..|s.batches|] == s.batches;
    forall l | 0 <= l < |s.device| && l != k ensures !s.device[l].CashInEnd? {
      OnlyEnd(s.device, |s.batches|, k, l);
    }
  }

  // ----- What an abort during acceptBatch or authorize allows -----

  lemma RunAppend(c: Config, events: seq<Event>, e: Event)
    ensures Run(c, events + [e]) == Step(c, Run(c, events), e)
  {
    assert (events + [e])[..|events|] == events;
  }

  /** An approval of the escrowed snapshot. */
  function Approval(c: Config, s: State): (a: Authorization)
    requires s.record.phase.Escrowed? && s.snapshot.Some?
    ensures MayCommit(c, s, a)
  {
    Authorization(c.operationId, s.snapshot.value.revision, s.snapshot.value.hash, true)
  }

  /** With an authorization that admits a commit the session goes on to cashInEnd. */
  lemma CommitNow(c: Config, events: seq<Event>, a: Authorization) returns (more: seq<Event>, end: Command)
    requires !Run(c, events).crashed && MayCommit(c, Run(c, events), a)
    ensures end == CashInEnd(a, Run(c, events).snapshot.value)
    ensures Run(c, events + more).device == Run(c, events).device + [end]
    ensures
      var s, t := Run(c, events), Run(c, events + more);
      && !t.crashed && t.snapshot == s.snapshot
      && (forall i <- s.work :: i < s.calls ==> i in t.work && t.work[i] == s.work[i])
  {
    hide Run, AfterBatches;
    var s := Run(c, events);
    var begin, dispatch := CommitBegins(a, true), EndDispatched(s.calls);
    RunAppend(c, events, begin);
    RunAppend(c, events + [begin], dispatch);
    more := [begin, dispatch];
    end := CashInEnd(a, s.snapshot.value);
    assert events + [begin] + [dispatch] == events + more;
  }

  /** The call in flight finishes and sets the phase back to `escrowed`; the device hears nothing of that. */
  lemma CallFinishes(c: Config, events: seq<Event>, i: nat) returns (more: seq<Event>)
    requires
      var t := Run(c, events);
      && !t.crashed && i in t.work && Reescrows(t.work[i])
      && (t.work[i].AuthorizeWork? ==> t.snapshot.Some?)
    ensures
      var s, t := Run(c, events), Run(c, events + more);
      !t.crashed && t.record.phase.Escrowed? && t.snapshot.Some? && t.device == s.device
  {
    hide Run, AfterBatches, NextSnapshot;
    var t := Run(c, events);
    match t.work[i]
    case AuthorizeWork(shown) =>
      var answer := AuthorizerAnswers(i, Authorization(c.operationId, shown.revision, shown.hash, true), true);
      RunAppend(c, events, answer);
      more := [answer];
    case AcceptWork(dispatched) =>
      var started := if dispatched then [] else [CashInDispatched(i)];
      if dispatched {
        assert events + started == events;
      } else {
        RunAppend(c, events, CashInDispatched(i));
      }
      RunAppend(c, events + started, CashInReturns(i, Report([], 0), true));
      more := started + [CashInReturns(i, Report([], 0), true)];
      assert events + started + [CashInReturns(i, Report([], 0), true)] == events + more;
  }

  /**
   * The condition of NeverBoth cannot be dropped: when abort is admitted while an acceptBatch or an authorize is in
   * flight, the run can go on so that the device receives cashInRollback and then cashInEnd.
   */
  lemma OverlapAllowsBoth(c: Config, events: seq<Event>, i: nat) returns (more: seq<Event>)
    requires
      var s := Run(c, events);
      !s.crashed && MayAbort(s) && i in s.work && Reescrows(s.work[i])
    ensures HasEnd(Run(c, events + more).device) && HasRollback(Run(c, events + more).device)
  {
    hide Run, AfterBatches, NextSnapshot;
    var s := Run(c, events);
    RunKeeps(c, events);
    var first := events + [AbortBegins(true)];
    var second := first + [RollbackDispatched(s.calls)];
    RunAppend(c, events, AbortBegins(true));
    RunAppend(c, first, RollbackDispatched(s.calls));
    assert Run(c, second).device == s.device + [CashInRollback];
    hide HasEnd, HasRollback, Step;
    var finish := CallFinishes(c, second, i);
    var commit, end := CommitNow(c, second + finish, Approval(c, Run(c, second + finish)));
    AppendRollback(s.device, CashInRollback);
    AppendRollback(s.device + [CashInRollback], end);
    more := [AbortBegins(true), RollbackDispatched(s.calls)] + finish + commit;
    assert second + finish + commit == events + more;
  }

  /**
   * The condition of CommitsEverythingOnce cannot be dropped either: when commit is admitted while an acceptBatch or an
   * authorize is in flight, that call sets the phase back to `escrowed`, and a second commit is admitted.
   */
  lemma OverlapCommitsTwice(c: Config, events: seq<Event>, i: nat, a: Authorization)
    returns (more: seq<Event>, first: Command, second: Command)
    requires
      var s := Run(c, events);
      !s.crashed && MayCommit(c, s, a) && i in s.work && Reescrows(s.work[i])
    ensures first.CashInEnd? && second.CashInEnd?
    ensures Run(c, events + more).device == Run(c, events).device + [first, second]
  {
    hide Run, Step, MayCommit, Reescrows;
    var s := Run(c, events);
    assert i < s.calls by { InFlight(c, events, i); }
    var begin, finish, again;
    begin, first := CommitNow(c, events, a);
    var t := Run(c, events + begin);
    assert i in t.work && t.work[i] == s.work[i];
    assert t.snapshot.Some? by { assert MayCommit(c, s, a); Admitted(c, s, a); }
    finish := CallFinishes(c, events + begin, i);
    again, second := CommitNow(c, events + begin + finish, Approval(c, Run(c, events + begin + finish)));
    more := begin + finish + again;
    assert events + begin + finish + again == events + more;
    assert s.device + [first] + [second] == s.device + [first, second];
  }

  lemma InFlight(c: Config, events: seq<Event>, i: nat)
    requires i in Run(c, events).work
    ensures i < Run(c, events).calls
  {
    hide Run;
    RunKeeps(c, events);
  }

  lemma Admitted(c: Config, s: State, a: Authorization)
    requires MayCommit(c, s, a)
    ensures s.snapshot.Some?
  {
  }
}
