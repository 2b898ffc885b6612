/**
 The control flow of `proxyGeminiGenerate` (src/modules/ai/ai.service.ts), for any number of calls at once. Its
 transactions never ask whether a reservation is still open; that each is closed once is due to the order in
 which a call reserves, asks the model, commits and, in its handler, refunds.
 */
module ProxyCalls {
  import opened Common
  import opened Pricing
  import L = Ledger
  import LedgerTree

  datatype Phase =
    | Calling                          // reserved; the model is being asked
    | Committing(response: Response)   // it answered
    | Refunding                        // the model, or the commit, threw
    | Done(closed: bool)               // whether a commit or refund went through

  datatype Call = Call(request: L.Request, phase: Phase)

  datatype State = State(ledger: L.State, calls: map<nat, Call>)

  const EMPTY := State(L.EMPTY, map[])

  datatype Action =
    | Begin(account: L.AccountId, pricing: PricingRecord, estimate: Usage, search: bool)
    | Answer(call: nat, outcome: Option<Response>)
    // The call's next transaction; `throws`: it fails for a reason of its own.
    | Transact(call: nat, throws: bool)
    // Any operation of the ledger that is not a proxied call's.
    | Other(step: L.Action)

  function Enter(s: State, c: nat, phase: Phase): State
    requires c in s.calls
  {
    s.(calls := s.calls[c := s.calls[c].(phase := phase)])
  }

  function TransactStep(s: State, c: nat, throws: bool): State
    requires c in s.calls
  {
    var call := s.calls[c];
    match call.phase
    case Committing(response) =>
      var r := if throws then None else L.CommitWrites(s.ledger, call.request, response);
      if r.None? then Enter(s, c, Refunding) else Enter(s.(ledger := L.Close(r.value, c)), c, Done(true))
    case Refunding =>
      var r := if throws then None else L.RefundWrites(s.ledger, call.request);
      if r.None? then Enter(s, c, Done(false)) else Enter(s.(ledger := L.Close(r.value, c)), c, Done(true))
    case _ => s
  }

  predicate IsProxied(act: L.Action) { act.Reserve? || act.Commit? || act.Refund? }

  function Next(s: State, act: Action): State {
    match act
    case Begin(account, pricing, estimate, search) =>
      var r := L.ReserveTx(s.ledger, account, pricing, estimate, search);
      if r.None? then s
      else State(r.value, s.calls[s.ledger.nextRequest := Call(L.Request(account, pricing, estimate, search), Calling)])
    case Answer(c, outcome) =>
      if c !in s.calls || !s.calls[c].phase.Calling? then s
      else Enter(s, c, if outcome.Some? then Committing(outcome.value) else Refunding)
    case Transact(c, throws) => if c in s.calls then TransactStep(s, c, throws) else s
    case Other(step) => if IsProxied(step) then s else s.(ledger := L.Next(s.ledger, step))
  }

  function Run(s: State, acts: seq<Action>): State
    decreases |acts|
  {
    if acts == [] then s else Next(Run(s, acts[..|acts| - 1]), acts[|acts| - 1])
  }

  /** A call that is not done has its own request open, one that closed it has not; no other request is open. */
  ghost predicate Valid(s: State) {
    && LedgerTree.WellFormed(s.ledger)
    && (forall c :: c in s.calls ==> c < s.ledger.nextRequest)
    && (forall c :: c in s.ledger.open ==> c in s.calls)
    && (forall c :: c in s.calls ==> (c in s.ledger.open <==> s.calls[c].phase != Done(true)))
    && (forall c :: c in s.ledger.open && c in s.calls ==> s.ledger.open[c] == s.calls[c].request)
  }

  /** The step that the ledger takes, if any. */
  function Shadow(s: State, act: Action): Option<L.Action> {
    match act
    case Begin(account, pricing, estimate, search) => Some(L.Reserve(account, pricing, estimate, search))
    case Answer(_, _) => None
    case Transact(c, throws) =>
      if throws || c !in s.calls then None
      else if s.calls[c].phase.Committing? then Some(L.Commit(c, s.calls[c].phase.response))
      else if s.calls[c].phase.Refunding? then Some(L.Refund(c)) else None
    case Other(step) => if IsProxied(step) then None else Some(step)
  }

  lemma OtherKeepsOpen(l: L.State, step: L.Action)
    requires !IsProxied(step)
    ensures L.Next(l, step).open == l.open && L.Next(l, step).nextRequest == l.nextRequest
  {
  }

  /** A transaction that does not throw goes through: the request is open, and its account is there. */
  lemma TransactLedger(s: State, c: nat)
    requires Valid(s) && c in s.calls && (s.calls[c].phase.Committing? || s.calls[c].phase.Refunding?)
    ensures Shadow(s, Transact(c, false)).Some?
    ensures L.Step(s.ledger, Shadow(s, Transact(c, false)).value) == Some(Next(s, Transact(c, false)).ledger)
    ensures Next(s, Transact(c, false)) == State(Next(s, Transact(c, false)).ledger,
                                                 s.calls[c := s.calls[c].(phase := Done(true))])
    ensures Next(s, Transact(c, false)).ledger.open == s.ledger.open - {c}
    ensures Next(s, Transact(c, false)).ledger.nextRequest == s.ledger.nextRequest
  {
    assert c in s.ledger.open && s.ledger.open[c] == s.calls[c].request
        && s.calls[c].request.account in s.ledger.accounts;
  }

  lemma BeginLedger(s: State, act: Action)
    requires Valid(s) && act.Begin? && Next(s, act) != s
    ensures Shadow(s, act).Some? && L.Step(s.ledger, Shadow(s, act).value) == Some(Next(s, act).ledger)
    ensures var c, request := s.ledger.nextRequest, L.Request(act.account, act.pricing, act.estimate, act.search);
            && Next(s, act).calls == s.calls[c := Call(request, Calling)]
            && Next(s, act).ledger.open == s.ledger.open[c := request] && Next(s, act).ledger.nextRequest == c + 1
  {
  }

  /** The calls after a step that leaves the ledger alone. */
  lemma QuietStep(s: State, act: Action)
    requires Valid(s) && (act.Answer? || (act.Transact? && Shadow(s, act).None?))
    ensures Valid(Next(s, act)) && Next(s, act).ledger == s.ledger
  {
  }

  lemma ShadowKeepsWellFormed(s: State, act: Action)
    requires Valid(s) && Shadow(s, act).Some?
    ensures LedgerTree.WellFormed(L.Next(s.ledger, Shadow(s, act).value))
  {
    LedgerTree.WellFormedStep(s.ledger, Shadow(s, act).value);
  }

  /**
   Every step of the calls is a step of the ledger's state machine; the test for an open request, which that
   machine makes and the source does not, never refuses one of them.
   */
  lemma StepSimulates(s: State, act: Action)
    requires Valid(s)
    ensures Valid(Next(s, act))
    ensures Next(s, act).ledger == if Shadow(s, act).Some? then L.Next(s.ledger, Shadow(s, act).value) else s.ledger
    ensures act.Transact? && Shadow(s, act).Some? ==>
              L.Step(s.ledger, Shadow(s, act).value).Some? && Next(s, act).calls[act.call].phase == Done(true)
  {
    if Shadow(s, act).None? {
      if !act.Other? {
        QuietStep(s, act);
      }
    } else {
      ShadowKeepsWellFormed(s, act);
      if act.Transact? {
        TransactLedger(s, act.call);
      } else if act.Other? {
        OtherKeepsOpen(s.ledger, act.step);
      } else if Next(s, act) != s {
        BeginLedger(s, act);
      } else {
        assert L.ReserveTx(s.ledger, act.account, act.pricing, act.estimate, act.search).None?;
      }
    }
  }

  function Shadows(s: State, acts: seq<Action>): seq<L.Action>
    decreases |acts|
  {
    if acts == [] then []
    else
      var init, act := acts[..|acts| - 1], acts[|acts| - 1];
      var shadow := Shadow(Run(s, init), act);
      Shadows(s, init) + (if shadow.Some? then [shadow.value] else [])
  }

  lemma LedgerPush(l: L.State, acts: seq<L.Action>, act: L.Action)
    ensures L.Run(l, acts + [act]) == L.Next(L.Run(l, acts), act)
  {
    assert (acts + [act])[..|acts|] == acts;
  }

  /** So the ledger of any number of overlapping calls is always one that a run of the ledger's machine reaches. */
  lemma {:induction false} RunSimulates(acts: seq<Action>)
    ensures Valid(Run(EMPTY, acts))
    ensures Run(EMPTY, acts).ledger == L.Run(L.EMPTY, Shadows(EMPTY, acts))
    decreases |acts|
  {
    if acts == [] {
      LedgerTree.EmptyIsExact();
    } else {
      var init, act := acts[..|acts| - 1], acts[|acts| - 1];
      RunSimulates(init);
      var s := Run(EMPTY, init);
      StepSimulates(s, act);
      var shadow := Shadow(s, act);
      if shadow.Some? {
        LedgerPush(L.EMPTY, Shadows(EMPTY, init), shadow.value);
      } else {
        assert Shadows(EMPTY, acts) == Shadows(EMPTY, init);
      }
    }
  }

  /** This step commits or refunds the reservation of call `c`. */
  predicate Closes(s: State, act: Action, c: nat) {
    act.Transact? && act.call == c && c in s.calls && !s.calls[c].phase.Done? && Next(s, act).ledger != s.ledger
  }

  /** How many transactions of the run committed or refunded the reservation of call `c`. */
  function Closings(s: State, acts: seq<Action>, c: nat): nat
    decreases |acts|
  {
    if acts == [] then 0
    else
      var init, act := acts[..|acts| - 1], acts[|acts| - 1];
      Closings(s, init, c) + if Closes(Run(s, init), act, c) then 1 else 0
  }

  predicate IsClosed(s: State, c: nat) { c in s.calls && s.calls[c].phase == Done(true) }

  lemma ClosingStep(s: State, act: Action, c: nat)
    requires Valid(s)
    ensures IsClosed(Next(s, act), c) <==> IsClosed(s, c) || Closes(s, act, c)
    ensures Closes(s, act, c) ==> !IsClosed(s, c)
  {
    StepSimulates(s, act);
    if act.Transact? && act.call in s.calls && !s.calls[act.call].phase.Done? {
      assert Shadow(s, act).Some? ==> act.call in s.ledger.open && act.call !in Next(s, act).ledger.open;
    }
  }

  /**
   For any number of overlapping calls: a reservation is committed or refunded at most once, and exactly once
   when its call is done, unless the refund threw.
   */
  lemma {:induction false} ClosedByControlFlow(acts: seq<Action>, c: nat)
    ensures Closings(EMPTY, acts, c) == if IsClosed(Run(EMPTY, acts), c) then 1 else 0
    decreases |acts|
  {
    if acts != [] {
      var init, act := acts[..|acts| - 1], acts[|acts| - 1];
      ClosedByControlFlow(init, c);
      RunSimulates(init);
      ClosingStep(Run(EMPTY, init), act, c);
    }
  }
}
