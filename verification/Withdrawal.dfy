/**
 * The withdrawal orchestrator of packages/withdrawal-orchestration/src/orchestrator.ts and the gate registry of
 * policy.ts.
 *
 * The course of an operation says what every port answers, exceptions included; it is arbitrary, and the outcome is
 * stated in terms of it. The log records the steps that matter for handing out cash, in the order in which they
 * succeeded or, for the presentation, were started.
 */
module Withdrawal {
  import opened Prelude

  datatype CardOrder = ReturnBeforeCashPresent | ReturnAfterCashTerminal | ManagedByParentSession

  datatype Policy = Policy(
    cardOrder: CardOrder, planningFirst: bool, hasCardCustodyPolicy: bool, prePresentGateIds: seq<string>)

  datatype Request = Request(contactCard: bool)

  datatype HostStatus = HostNotRequested | HostApproves | HostDeclines | HostUnavailable

  datatype Custody =
    | NotStarted | Pending | RecoveryTransferred
    | Taken | Retracted | NotDispensed | CustodyUnknown

  /** CashCustodyOutcome: how a cash session can end. */
  type Ending = c: Custody | c.Taken? || c.Retracted? || c.NotDispensed? || c.CustodyUnknown?
    witness Taken

  datatype Command = NotRequested | CommandCompleted | CommandFailed | ExecutionUnknown

  datatype Cash = Cash(
    custody: Custody, dispense: Command, dispensed: bool, present: Command, presented: bool,
    reconciliationRequired: bool, taken: bool, retracted: bool)

  datatype CardStatus =
    | NotApplicable | CardPending | SessionRetained
    | Inside | CardPresented | Returned | Retained | CardCancelled | CardIntervention

  datatype CardReason = TakeTimeout | OperationTimeout | UserCancelled | OtherReason

  datatype Card = Card(required: bool, status: CardStatus, reason: CardReason)

  datatype Status = Completed | Declined | Cancelled | TimedOut | Failed | Intervention

  datatype GateAnswer = GateApproves | GateCancelled | GateTimedOut | GateRejected | GateThrows

  datatype Entry =
    | HostApproved
    | Dispensed
    | GatePassed(id: string)
    | CardReturned
    | PresentationAuthorized
    | PresentCalled

  // ----- Outcome rules -----

  function InitialCash(): Cash {
    Cash(NotStarted, NotRequested, false, NotRequested, false, false, false, false)
  }

  function InitialCard(request: Request, policy: Policy): Card {
    Card(request.contactCard,
         if !request.contactCard then NotApplicable
         else if policy.cardOrder.ManagedByParentSession? then SessionRetained else CardPending,
         OtherReason)
  }

  function ApplyTerminal(cash: Cash, ending: Ending, reconciliationRequired: bool): Cash {
    cash.(custody := ending, reconciliationRequired := reconciliationRequired, taken := ending.Taken?,
        retracted := ending.Retracted?)
  }

  /** Where cash may be when nobody has to intervene. */
  predicate CashSettled(custody: Custody) {
    custody.NotStarted? || custody.Taken? || custody.Retracted? || custody.NotDispensed?
  }

  predicate CardSettled(card: Card) {
    !card.required || !(card.status.CardPending? || card.status.Inside? || card.status.CardPresented?
        || card.status.CardIntervention?)
  }

  /** safetyStatus; custody `pending` is not among the states it looks for. */
  function SafetyStatus(requested: Status, cash: Cash, card: Card): Status {
    if cash.custody.CustodyUnknown? || cash.custody.RecoveryTransferred? then Intervention
    else if !CardSettled(card) then Intervention
    else requested
  }

  function GateStatus(answer: GateAnswer): Status {
    match answer
    case GateCancelled => Cancelled
    case GateTimedOut => TimedOut
    case _ => Failed
  }

  function CardStatusRequested(card: Card): Status {
    match card.reason
    case TakeTimeout => TimedOut
    case OperationTimeout => TimedOut
    case UserCancelled => Cancelled
    case OtherReason => Intervention
  }

  function TerminalStatus(cash: Cash, card: Card): Status {
    if cash.custody.Retracted? then SafetyStatus(TimedOut, cash, card)
    else if !cash.custody.Taken? then SafetyStatus(Intervention, cash, card)
    else if card.required && !card.status.Returned? && !card.status.SessionRetained?
    then SafetyStatus(Intervention, cash, card)
    else SafetyStatus(Completed, cash, card)
  }

  // ----- Gates -----

  /** What evaluate returns, in the order of the ids: the first answer that is not an approval. */
  function Evaluate(gates: map<string, GateAnswer>, ids: seq<string>): GateAnswer {
    if ids == [] then GateApproves
    else if ids[0] !in gates then GateThrows
    else if gates[ids[0]].GateApproves? then Evaluate(gates, ids[1..])
    else gates[ids[0]]
  }

  lemma {:induction false} AllGatesApprove(gates: map<string, GateAnswer>, ids: seq<string>)
    ensures Evaluate(gates, ids).GateApproves? <==>
            forall i | 0 <= i < |ids| :: ids[i] in gates && gates[ids[i]].GateApproves?
  {
    if ids != [] {
      AllGatesApprove(gates, ids[1..]);
      assert forall i | 0 < i < |ids| :: ids[i] == ids[1..][i - 1];
    }
  }

  // ----- What may be presented -----

  /** The steps behind these log entries allow cash to be presented. */
  predicate MayPresent(request: Request, policy: Policy, before: seq<Entry>) {
    && HostApproved in before && Dispensed in before && PresentationAuthorized in before
    && (forall i | 0 <= i < |policy.prePresentGateIds| :: GatePassed(policy.prePresentGateIds[i]) in before)
    && (request.contactCard && policy.cardOrder.ReturnBeforeCashPresent? ==> CardReturned in before)
  }

  /** Cash is presented at most once, and only when that is allowed. */
  predicate PresentsSafely(request: Request, policy: Policy, log: seq<Entry>) {
    forall p | 0 <= p < |log| :: log[p].PresentCalled?
        ==> MayPresent(request, policy, log[..p]) && PresentCalled !in log[..p]
  }

  lemma AppendEntry(request: Request, policy: Policy, log: seq<Entry>, entry: Entry)
    requires PresentsSafely(request, policy, log)
    requires entry.PresentCalled? ==> MayPresent(request, policy, log) && PresentCalled !in log
    ensures PresentsSafely(request, policy, log + [entry])
  {
    var longer := log + [entry];
    forall p | 0 <= p < |longer| && longer[p].PresentCalled?
      ensures MayPresent(request, policy, longer[..p]) && PresentCalled !in longer[..p]
    {
      if p < |log| {
        assert longer[..p] == log[..p];
      } else {
        assert longer[..p] == log;
      }
    }
  }

  /** The cash session port: only whether it has reached its end is visible. */
  class WithdrawalSession {
    var isTerminal: bool

    constructor ()
      ensures !isTerminal
    {
      isTerminal := false;
    }

    /** abort and waitForTake: the way the session ended, or an exception. */
    method End(ending: Option<(Ending, bool)>)
      modifies this
      ensures isTerminal == (old(isTerminal) || ending.Some?)
    {
      isTerminal := isTerminal || ending.Some?;
    }
  }

  // ----- What an operation meets -----

  /** exit: an end, a transfer to recovery, or an exception. */
  datatype Exit = ExitTerminal(ending: Ending, reconciliationRequired: bool) | ExitTransferred | ExitThrows

  /** The card port: an exception, or one of the six custody states it reports. */
  datatype CardAnswer = CardThrows | CardIs(status: CardStatus, reason: CardReason)

  /** Each port's answer; the last two are those of the catch block. */
  datatype Course = Course(
    aborted: bool, timeout: bool,              // the request's signal, and whether that is a timeout
    starts: bool,
    host: Option<bool>,                        // whether it approves; None when it throws
    marked: bool,                              // markAuthorized and its audit entry
    dispenses: bool,
    authorized: bool,                          // the presentation
    presents: bool,
    take: Option<(Ending, bool)>,              // waitForTake; None when it throws
    abort: Option<(Ending, bool)>,
    exit: Exit,
    card: CardAnswer,
    exitAgain: Exit,
    cardAgain: CardAnswer)

  predicate SaysYes(c: Course) {
    c.host.Some? && c.host.value
  }

  predicate SaysNo(c: Course) {
    c.host.Some? && !c.host.value
  }

  /** The port's own states; anything else counts as inside. */
  function Reported(status: CardStatus): CardStatus {
    if status.NotApplicable? || status.CardPending? || status.SessionRetained? then Inside else status
  }

  predicate Known(ending: Ending) {
    !ending.CustodyUnknown?
  }

  /** An abort of the cash session tells where the cash is. */
  predicate AbortTells(c: Course) {
    c.abort.Some? && Known(c.abort.value.0)
  }

  class WithdrawalOrchestrator {
    const request: Request
    const policy: Policy
    const hasCardPort: bool
    const course: Course
    var host: HostStatus
    var cash: Cash
    var card: Card
    var session: Option<WithdrawalSession>
    var log: seq<Entry>

    constructor (request: Request, policy: Policy, hasCardPort: bool, course: Course)
      ensures this.request == request && this.policy == policy && this.hasCardPort == hasCardPort
      ensures this.course == course
      ensures Initial()
    {
      this.request, this.policy, this.hasCardPort, this.course := request, policy, hasCardPort, course;
      host, cash, card := HostNotRequested, InitialCash(), InitialCard(request, policy);
      session, log := None, [];
    }

    ghost predicate Initial()
      reads this
    {
      host.HostNotRequested? && cash == InitialCash() && card == InitialCard(request, policy) && session == None
          && log == []
    }

    ghost function Parts(): set<object>
      reads this
    {
      if session.Some? then {session.value} else {}
    }

    // ----- The card, by what its port answers -----

    /** This operation has a card to give back. */
    ghost predicate HasCard() {
      request.contactCard && !policy.cardOrder.ManagedByParentSession?
    }

    /** The card port is asked about the card. */
    ghost predicate CardIsAsked() {
      HasCard() && hasCardPort && policy.hasCardCustodyPolicy
    }

    ghost predicate CardPortThrows() {
      CardIsAsked() && course.card.CardThrows?
    }

    ghost predicate CardComesBack() {
      HasCard() ==> CardIsAsked() && course.card.CardIs? && course.card.status.Returned?
    }

    /** The card is returned, retained or its return cancelled. */
    ghost predicate CardIsSettled() {
      HasCard() ==>
        && CardIsAsked() && course.card.CardIs?
        && (course.card.status.Returned? || course.card.status.Retained? || course.card.status.CardCancelled?)
    }

    /** The card is as at the start, or it came back before the cash was to be shown. */
    ghost predicate CardOnTime()
      reads this`card
    {
      card == InitialCard(request, policy) || (HasCard() && card.status.Returned? && card.required && CardComesBack())
    }

    /** An operation that ends asking for this outcome: an exception if the card port throws, else what is safe. */
    ghost function Closed(requested: Status, known: bool): Option<Status> {
      if CardPortThrows() then None
      else Some(if known && CardIsSettled() then requested else Intervention)
    }

    // ----- What holds at every step -----

    /** The log, the host and the card agree. */
    ghost predicate LogOk()
      reads this`log, this`host, this`card
    {
      && PresentsSafely(request, policy, log)
      && (HostApproved in log ==> host.HostApproves?)
      && (Dispensed in log ==> HostApproved in log)
      && card.required == request.contactCard
      && (request.contactCard && policy.cardOrder.ReturnBeforeCashPresent? && card.status.Returned?
          ==> CardReturned in log)
      && (card.status.SessionRetained? ==> policy.cardOrder.ManagedByParentSession?)
    }

    /** Cash moves only in a session. */
    ghost predicate CashOk()
      reads this`cash, this`session
    {
      && (session.None? ==> cash == InitialCash())
      && (cash.custody.Taken? ==> cash.taken) && (cash.custody.Retracted? ==> cash.retracted)
    }

    ghost predicate Valid()
      reads this
    {
      LogOk() && CashOk()
    }

    /** Nothing was handed out yet. */
    ghost predicate Unpresented()
      reads this`log, this`cash
    {
      PresentCalled !in log && !cash.presented
    }

    method Note(entry: Entry)
      requires LogOk() && (entry.PresentCalled? ==> MayPresent(request, policy, log) && PresentCalled !in log)
      requires entry.HostApproved? ==> host.HostApproves?
      requires entry.Dispensed? ==> HostApproved in log
      modifies this`log
      ensures LogOk() && log == old(log) + [entry]
    {
      AppendEntry(request, policy, log, entry);
      log := log + [entry];
    }

    /** What is known of the dispense, by its answer, or by where the exit says the cash is. */
    ghost function DispenseFact(): Command {
      if course.dispenses then CommandCompleted
      else match course.exit
        case ExitTerminal(ending, _) =>
          if ending.NotDispensed? then CommandFailed else if Known(ending) then CommandCompleted else ExecutionUnknown
        case _ => ExecutionUnknown
    }

    /** What is known of the presentation, once it was authorized. */
    ghost function PresentFact(): Command {
      if !course.authorized then NotRequested else if course.presents then CommandCompleted else ExecutionUnknown
    }

    /** Cash that is still pending is left to the catch block, which transfers it. */
    ghost predicate CashIsPlaced(status: Option<Status>)
      reads this, Parts()
    {
      cash.custody.Pending? ==> status.None? && session.Some? && !session.value.isTerminal
    }

    // ----- The steps -----

    /** authorizeHost: an approval, a refusal or an exception. */
    method AuthorizeHost() returns (approved: bool)
      requires LogOk() && HostApproved !in log
      modifies this`host, this`log
      ensures LogOk() && (approved <==> host.HostApproves?)
          && (host.HostApproves? || host.HostDeclines? || host.HostUnavailable?)
      ensures log == if approved then old(log) + [HostApproved] else old(log)
      ensures (approved <==> SaysYes(course)) && (host.HostDeclines? <==> SaysNo(course))
    {
      host := if course.host.None? then HostUnavailable else if course.host.value then HostApproves else HostDeclines;
      approved := host.HostApproves?;
      if approved {
        Note(HostApproved);
      }
    }

    method StartCash() returns (started: bool)
      requires CashOk() && session.None?
      modifies this`session, this`cash
      ensures CashOk() && (started <==> session.Some?)
      ensures started ==>
                fresh(session.value) && !session.value.isTerminal && cash == InitialCash().(custody := Pending)
      ensures !started ==> cash == old(cash)
      ensures started <==> course.starts
    {
      if !course.starts {
        return false;
      }
      var s := new WithdrawalSession();
      session := Some(s);
      cash := cash.(custody := Pending);
      return true;
    }

    /** resolveCard: false when the card port throws. */
    method ResolveCard(answer: CardAnswer) returns (finished: bool, answered: bool)
      requires LogOk()
      modifies this`card, this`log
      ensures LogOk()
      ensures log == old(log) || log == old(log) + [CardReturned]
      ensures PresentCalled in log <==> PresentCalled in old(log)
      ensures answered <==> CardIsAsked() && old(card.status).CardPending? && answer.CardIs?
      ensures finished <==> !(CardIsAsked() && old(card.status).CardPending? && answer.CardThrows?)
      ensures !HasCard() || !old(card.status).CardPending? ==> card == old(card)
      ensures HasCard() && old(card.status).CardPending? ==>
                card == if !CardIsAsked() then Card(true, CardIntervention, OtherReason)
                        else if answer.CardThrows? then old(card)
                        else Card(true, Reported(answer.status), answer.reason)
    {
      if policy.cardOrder.ManagedByParentSession? || !request.contactCard || !card.status.CardPending? {
        return true, false;
      }
      if !hasCardPort || !policy.hasCardCustodyPolicy {
        card := Card(true, CardIntervention, OtherReason);
        return true, false;
      }
      if answer.CardThrows? {
        return false, false;
      }
      var status := Reported(answer.status);
      if status.Returned? {
        Note(CardReturned);
      }
      card := Card(true, status, answer.reason);
      return true, true;
    }

    method AbortCash()
      requires CashOk() && session.Some?
      modifies this`cash, session.value
      ensures CashOk() && !cash.custody.Pending? && !cash.custody.NotStarted? && !cash.custody.RecoveryTransferred?
      ensures !cash.custody.CustodyUnknown? <==> AbortTells(course)
      ensures cash.custody == (if course.abort.Some? then course.abort.value.0 else CustodyUnknown)
      ensures cash == old(cash).(custody := cash.custody, reconciliationRequired := cash.reconciliationRequired,
                                 taken := cash.taken, retracted := cash.retracted)
    {
      session.value.End(course.abort);
      if course.abort.Some? {
        cash := ApplyTerminal(cash, course.abort.value.0, course.abort.value.1);
      } else {
        cash := cash.(custody := CustodyUnknown, reconciliationRequired := true);
      }
    }

    method TransferCash(exit: Exit)
      requires CashOk() && session.Some?
      modifies this`cash, session.value
      ensures CashOk() && !cash.custody.Pending? && !cash.custody.NotStarted?
      ensures cash.custody.CustodyUnknown? || cash.custody.RecoveryTransferred? <==>
                !(exit.ExitTerminal? && Known(exit.ending))
      ensures cash.reconciliationRequired <==> (exit.ExitTerminal? ==> exit.reconciliationRequired)
      ensures cash.custody == (match exit
                               case ExitTerminal(ending, _) => ending
                               case ExitTransferred => RecoveryTransferred
                               case ExitThrows => CustodyUnknown)
      ensures cash == old(cash).(custody := cash.custody, reconciliationRequired := cash.reconciliationRequired,
                                 taken := cash.taken, retracted := cash.retracted)
    {
      match exit
      case ExitTerminal(ending, reconcile) =>
        session.value.isTerminal := true;
        cash := ApplyTerminal(cash, ending, reconcile);
      case ExitTransferred =>
        cash := cash.(custody := RecoveryTransferred, reconciliationRequired := true);
      case ExitThrows =>
        cash := cash.(custody := CustodyUnknown, reconciliationRequired := true);
    }

    // ----- The whole operation -----

    /** What holds of an outcome that is not an intervention, and of a completed one. */
    ghost predicate OutcomeOk(status: Status)
      reads this
    {
      && (!status.Intervention? ==> CashSettled(cash.custody) && CardSettled(card))
      && (status.Completed? ==>
            && host.HostApproves? && cash.custody.Taken? && cash.presented && cash.dispensed
            && (card.required ==> card.status.Returned? || card.status.SessionRetained?))
      && (status.Declined? ==> host.HostDeclines? && !cash.dispensed && !cash.presented)
      && (cash.presented ==> PresentCalled in log && (status.Completed? || status.TimedOut? || status.Intervention?))
    }

    /** Nobody has to look for the cash. */
    ghost predicate CashKnown()
      reads this`cash
    {
      !cash.custody.CustodyUnknown? && !cash.custody.RecoveryTransferred?
    }

    /** resolveCard, then the outcome: None when the card port throws. */
    method Close(requested: Status) returns (status: Option<Status>)
      requires Valid() && !requested.Completed? && !cash.custody.Pending? && !cash.presented
      requires requested.Declined? ==> host.HostDeclines? && !cash.dispensed
      requires CardOnTime()
      modifies this`card, this`log
      ensures Valid() && (status.Some? ==> OutcomeOk(status.value))
      ensures PresentCalled in log <==> PresentCalled in old(log)
      ensures status == Closed(requested, CashKnown())
    {
      var finished, _ := ResolveCard(course.card);
      return if finished then Some(SafetyStatus(requested, cash, card)) else None;
    }

    /** The steps up to a dispense succeed. */
    ghost predicate Prepared() {
      !course.aborted && course.starts && SaysYes(course) && course.marked
    }

    /** The outcome of an operation that ends before its dispense. */
    ghost function UnpreparedOutcome(): Option<Status> {
      var c := course;
      if c.aborted then Closed(if c.timeout then TimedOut else Cancelled, true)
      else if policy.planningFirst && !c.starts then Closed(Failed, true)
      else if !SaysYes(c) then Closed(if SaysNo(c) then Declined else Failed, policy.planningFirst ==> AbortTells(c))
      else if !c.marked then None
      else Closed(Failed, true)
    }

    /** Everything up to a dispense: None to go on, or the end of the operation (which may be an exception). */
    method Prepare() returns (ended: bool, status: Option<Status>)
      requires Valid() && Initial()
      modifies this
      ensures Valid() && (ended && status.Some? ==> OutcomeOk(status.value)) && Unpresented()
      ensures !ended ==>
                && session.Some? && cash.custody.Pending? && !cash.dispensed
                && HostApproved in log && Dispensed !in log && card == InitialCard(request, policy)
      ensures cash.dispense.NotRequested? && cash.present.NotRequested?
      ensures ended <==> !Prepared()
      ensures ended ==> CashIsPlaced(status)
      ensures !ended ==> !session.value.isTerminal
      ensures ended ==> status == UnpreparedOutcome()
      ensures fresh(Parts())
    {
      if course.aborted {
        status := Close(if course.timeout then TimedOut else Cancelled);
        return true, status;
      }
      if policy.planningFirst {
        var started := StartCash();
        if !started {
          status := Close(Failed);
          return true, status;
        }
      }
      var approved := AuthorizeHost();
      if !approved {
        if session.Some? {
          AbortCash();
        }
        status := Close(if host.HostDeclines? then Declined else Failed);
        return true, status;
      }
      if !course.marked {
        return true, None;
      }
      if session.None? {
        var started := StartCash();
        if !started {
          status := Close(Failed);
          return true, status;
        }
      }
      return false, None;
    }

    method Dispense() returns (ended: bool, status: Option<Status>)
      requires Valid() && Unpresented() && session.Some? && cash.custody.Pending? && HostApproved in log
          && !session.value.isTerminal && Dispensed !in log && card == InitialCard(request, policy)
      requires cash.present.NotRequested?
      modifies this`cash, this`card, this`log, session.value
      ensures Valid() && (ended && status.Some? ==> OutcomeOk(status.value)) && Unpresented()
      ensures !ended ==>
                && cash.custody.Pending? && cash.dispensed && Dispensed in log
                && card == old(card) && old(log) <= log
      ensures ended <==> !course.dispenses
      ensures cash.dispense == DispenseFact() && cash.present.NotRequested?
      ensures ended ==> CashIsPlaced(status)
      ensures !ended ==> session.value.isTerminal == old(session.value.isTerminal)
      ensures ended ==>
                var known := course.exit.ExitTerminal? && Known(course.exit.ending);
                status == Closed(Failed, known && !course.exit.reconciliationRequired)
    {
      if course.dispenses {
        cash := cash.(dispense := CommandCompleted, dispensed := true);
        Note(Dispensed);
        return false, None;
      }
      cash := cash.(dispense := ExecutionUnknown, reconciliationRequired := true);
      TransferCash(course.exit);
      ReconcileDispenseFailure();
      status := Close(if cash.reconciliationRequired then Intervention else Failed);
      return true, status;
    }

    method ReconcileDispenseFailure()
      requires Valid() && session.Some?
      modifies this`cash
      ensures Valid() && cash == old(cash).(dispense := cash.dispense, dispensed := cash.dispensed)
      ensures old(cash.custody).NotDispensed? ==> cash.dispense.CommandFailed? && !cash.dispensed
      ensures old(cash.custody).Retracted? || old(cash.custody).Taken? ==>
                cash.dispense.CommandCompleted? && cash.dispensed
      ensures !CashSettled(old(cash.custody)) ==> cash == old(cash)
    {
      if cash.custody.NotDispensed? {
        cash := cash.(dispense := CommandFailed, dispensed := false);
      } else if cash.custody.Retracted? || cash.custody.Taken? {
        cash := cash.(dispense := CommandCompleted, dispensed := true);
      }
    }

    /** The gates in policy order, each logged when it approves. */
    method EvaluateGates(gates: map<string, GateAnswer>) returns (answer: GateAnswer)
      requires Valid() && Unpresented()
      modifies this`log
      ensures Valid() && Unpresented() && old(log) <= log
      ensures answer == Evaluate(gates, policy.prePresentGateIds)
      ensures answer.GateApproves? ==>
                forall i | 0 <= i < |policy.prePresentGateIds| :: GatePassed(policy.prePresentGateIds[i]) in log
    {
      var ids := policy.prePresentGateIds;
      var i := 0;
      assert ids[0..] == ids;
      while i < |ids|
        invariant 0 <= i <= |ids| && Valid() && Unpresented() && old(log) <= log
        invariant Evaluate(gates, ids) == Evaluate(gates, ids[i..])
        invariant forall k | 0 <= k < i :: GatePassed(ids[k]) in log
      {
        if ids[i] !in gates {
          return GateThrows;
        }
        if !gates[ids[i]].GateApproves? {
          return gates[ids[i]];
        }
        assert ids[i..][1..] == ids[i + 1..];
        Note(GatePassed(ids[i]));
        i := i + 1;
      }
      return GateApproves;
    }

    /** The card is to be back before the cash is shown, and it is not. */
    ghost predicate CardHoldsUp() {
      policy.cardOrder.ReturnBeforeCashPresent? && !CardComesBack()
    }

    /** The outcome asked for when the card holds the cash up. */
    ghost function CardOutcome(): Status {
      if !CardIsAsked() || course.card.CardThrows? || course.card.reason.OtherReason? then Intervention
      else if course.card.reason.UserCancelled? then Cancelled else TimedOut
    }

    /** The outcome of an operation that a gate or the card ends. */
    ghost function UnverifiedOutcome(answer: GateAnswer): Option<Status> {
      match answer
      case GateThrows => None
      case GateApproves => Closed(CardOutcome(), AbortTells(course))
      case GateTimedOut => Closed(TimedOut, AbortTells(course))
      case GateCancelled => Closed(Cancelled, AbortTells(course))
      case GateRejected => Closed(Failed, AbortTells(course))
    }

    /** The gates, and the card when it is to be back before the cash is shown. */
    method Verify(gates: map<string, GateAnswer>) returns (ended: bool, status: Option<Status>)
      requires Valid() && Unpresented() && session.Some? && cash.custody.Pending? && cash.dispensed
      requires !session.value.isTerminal
      requires HostApproved in log && Dispensed in log && card == InitialCard(request, policy)
      modifies this`cash, this`card, this`log, session.value
      ensures Valid() && (ended && status.Some? ==> OutcomeOk(status.value)) && Unpresented()
      ensures !ended ==>
                && cash == old(cash) && HostApproved in log && Dispensed in log && CardOnTime()
                && (forall i | 0 <= i < |policy.prePresentGateIds| :: GatePassed(policy.prePresentGateIds[i]) in log)
                && (request.contactCard && policy.cardOrder.ReturnBeforeCashPresent? ==> CardReturned in log)
                && (!policy.cardOrder.ReturnBeforeCashPresent? ==> card == old(card))
                && (policy.cardOrder.ReturnBeforeCashPresent? && HasCard() ==> card.status.Returned?)
      ensures
        var answer := Evaluate(gates, policy.prePresentGateIds);
        && (ended <==> !answer.GateApproves? || CardHoldsUp())
        && (ended ==> status == UnverifiedOutcome(answer) && CashIsPlaced(status))
        && (!ended ==> session.value.isTerminal == old(session.value.isTerminal))
        && cash.dispense == old(cash.dispense) && cash.present == old(cash.present)
    {
      var answer := EvaluateGates(gates);
      if answer.GateThrows? {
        return true, None;
      }
      if !answer.GateApproves? {
        AbortCash();
        status := Close(GateStatus(answer));
        return true, status;
      }
      if policy.cardOrder.ReturnBeforeCashPresent? {
        var finished, answered := ResolveCard(course.card);
        if !finished {
          return true, None;
        }
        if card.required && !card.status.Returned? {
          AbortCash();
          return true, Some(SafetyStatus(if answered then CardStatusRequested(card) else Intervention, cash, card));
        }
      }
      return false, None;
    }

    /** The outcome once the cash may be shown: taken cash completes, retracted cash is a timeout. */
    ghost function PresentOutcome(): Option<Status> {
      var c := course;
      if !c.authorized then Closed(Failed, AbortTells(c))
      else if !c.presents then Closed(Intervention, false)
      else if c.take.None? || CardPortThrows() then None
      else if c.take.value.0.Taken? && CardComesBack() then Some(Completed)
      else if c.take.value.0.Retracted? && CardIsSettled() then Some(TimedOut)
      else Some(Intervention)
    }

    method Present() returns (status: Option<Status>)
      requires Valid() && Unpresented() && session.Some? && cash.custody.Pending? && cash.dispensed
      requires !session.value.isTerminal
      requires HostApproved in log && Dispensed in log && CardOnTime()
      requires forall i | 0 <= i < |policy.prePresentGateIds| :: GatePassed(policy.prePresentGateIds[i]) in log
      requires request.contactCard && policy.cardOrder.ReturnBeforeCashPresent? ==> CardReturned in log
      requires policy.cardOrder.ReturnBeforeCashPresent? ==> CardComesBack() && (HasCard() ==> card.status.Returned?)
      requires cash.present.NotRequested?
      modifies this`cash, this`card, this`log, session.value
      ensures Valid() && (status.Some? ==> OutcomeOk(status.value)) && (cash.presented ==> PresentCalled in log)
      ensures PresentCalled in log <==> course.authorized
      ensures cash.presented <==> course.authorized && course.presents
      ensures status == PresentOutcome() && CashIsPlaced(status)
      ensures cash.dispense == old(cash.dispense) && cash.present == PresentFact()
    {
      hide PresentsSafely;
      if !course.authorized {
        AbortCash();
        status := Close(Failed);
        return;
      }
      Note(PresentationAuthorized);
      Note(PresentCalled);
      if !course.presents {
        cash := cash.(present := ExecutionUnknown, reconciliationRequired := true);
        TransferCash(course.exit);
        status := Close(Intervention);
        return;
      }
      cash := cash.(present := CommandCompleted, presented := true);
      status := AwaitTake();
    }

    /** waitForTake and what follows a presentation. */
    method AwaitTake() returns (status: Option<Status>)
      requires Valid() && session.Some? && !session.value.isTerminal
      requires cash.presented && cash.dispensed && HostApproved in log
          && PresentCalled in log && CardOnTime()
      requires policy.cardOrder.ReturnBeforeCashPresent? ==> CardComesBack() && (HasCard() ==> card.status.Returned?)
      requires course.authorized && course.presents && cash.present.CommandCompleted?
      modifies this`cash, this`card, this`log, session.value
      ensures Valid() && (status.Some? ==> OutcomeOk(status.value)) && (cash.presented ==> PresentCalled in log)
      ensures PresentCalled in log && cash.presented
      ensures status == PresentOutcome() && CashIsPlaced(status)
      ensures cash.dispense == old(cash.dispense) && cash.present == PresentFact()
    {
      hide PresentsSafely;
      session.value.End(course.take);
      if course.take.None? {
        return None;
      }
      cash := ApplyTerminal(cash, course.take.value.0, course.take.value.1);
      if policy.cardOrder.ReturnAfterCashTerminal? {
        var finished, _ := ResolveCard(course.card);
        if !finished {
          return None;
        }
      }
      return Some(TerminalStatus(cash, card));
    }

    /** Everything that has to precede a presentation succeeds. */
    ghost predicate MayShow(gates: map<string, GateAnswer>) {
      && Prepared() && course.dispenses
      && (forall i | 0 <= i < |policy.prePresentGateIds| ::
            policy.prePresentGateIds[i] in gates && gates[policy.prePresentGateIds[i]].GateApproves?)
      && (policy.cardOrder.ReturnBeforeCashPresent? ==> CardComesBack())
    }

    /** The outcome of the try block, stage by stage; None when something in it throws. */
    ghost function Outcome(gates: map<string, GateAnswer>): Option<Status> {
      var c, answer := course, Evaluate(gates, policy.prePresentGateIds);
      if !Prepared() then UnpreparedOutcome()
      else if !c.dispenses then
        var known := c.exit.ExitTerminal? && Known(c.exit.ending);
        Closed(Failed, known && !c.exit.reconciliationRequired)
      else if !answer.GateApproves? || CardHoldsUp() then UnverifiedOutcome(answer)
      else PresentOutcome()
    }

    /** The try block: None when something in it throws. */
    method TryRun(gates: map<string, GateAnswer>) returns (status: Option<Status>)
      requires Valid() && Initial()
      modifies this
      ensures Valid() && (status.Some? ==> OutcomeOk(status.value)) && fresh(Parts())
      ensures CashIsPlaced(status)
      ensures cash.dispense == (if Prepared() then DispenseFact() else NotRequested)
      ensures cash.present == (if MayShow(gates) then PresentFact() else NotRequested)
      ensures cash.presented ==> PresentCalled in log
      ensures PresentCalled in log <==> MayShow(gates) && course.authorized
      ensures cash.presented <==> MayShow(gates) && course.authorized && course.presents
      ensures status == Outcome(gates)
    {
      AllGatesApprove(gates, policy.prePresentGateIds);
      hide PresentsSafely, Evaluate;
      var ended: bool;
      ended, status := Prepare();
      if ended {
        return;
      }
      ended, status := Dispense();
      if ended {
        return;
      }
      ended, status := Verify(gates);
      if ended {
        return;
      }
      status := Present();
    }

    /**
     * runAdmitted: cash is presented if and only if everything that has to precede that succeeds, once; the operation
     * is completed if and only if it is then taken and the card is back; every outcome other than intervention leaves
     * cash and card settled. None means that the card port threw twice and there is no outcome.
     */
    method RunAdmitted(gates: map<string, GateAnswer>) returns (status: Option<Status>)
      requires Initial()
      modifies this
      ensures PresentsSafely(request, policy, log)
      ensures status.Some? ==> OutcomeOk(status.value)
      ensures !cash.custody.Pending?
      ensures cash.dispense == (if Prepared() then DispenseFact() else NotRequested)
      ensures cash.present == (if MayShow(gates) then PresentFact() else NotRequested)
      ensures PresentCalled in log <==> MayShow(gates) && course.authorized
      ensures cash.presented <==> MayShow(gates) && course.authorized && course.presents
      ensures status == Some(Completed) <==>
                && MayShow(gates) && course.authorized && course.presents
                && course.take.Some? && course.take.value.0.Taken? && CardComesBack()
      ensures cash.presented ==>
                (status == Some(TimedOut) <==>
                   course.take.Some? && course.take.value.0.Retracted? && CardIsSettled())
      ensures status == Some(Declined) <==>
                && !course.aborted && (policy.planningFirst ==> course.starts && AbortTells(course))
                && SaysNo(course) && CardIsSettled()
      ensures Outcome(gates).Some? ==> status == Outcome(gates)
      ensures Outcome(gates).None? ==> status.None? || status == Some(Intervention)
    {
      InitiallyValid(request, policy);
      AllGatesApprove(gates, policy.prePresentGateIds);
      hide PresentsSafely, Evaluate;
      status := TryRun(gates);
      if status.Some? {
        return;
      }
      if session.Some? && !session.value.isTerminal {
        TransferCash(course.exitAgain);
      }
      var finished, _ := ResolveCard(course.cardAgain);
      return if finished then Some(SafetyStatus(Intervention, cash, card)) else None;
    }
  }

  lemma InitiallyValid(request: Request, policy: Policy)
    ensures PresentsSafely(request, policy, [])
    ensures InitialCard(request, policy).required == request.contactCard
  {
  }
}
