/**
 The reserve / commit / refund protocol around a model call, under any interleaving: accounts stay
 solvent, reserved counters are the open reservations, and every reservation is closed once.
 */
module LedgerReservations {
  import opened Common
  import opened Sums
  import opened Pricing
  import opened Ledger
  import opened LedgerTree

  ghost function OpenShares(open: map<nat, Request>, id: AccountId): map<nat, int> {
    map r | r in open :: if open[r].account == id then open[r].Amount() else 0
  }

  /** How far one account's reserved counter is from the sum of its open reservations. */
  ghost function ReservedGap(s: State, id: AccountId): int
    requires id in s.accounts
  {
    s.accounts[id].reserved - Total(OpenShares(s.open, id))
  }

  ghost predicate ReservedExact(s: State) {
    forall id {:trigger ReservedGap(s, id)} :: id in s.accounts ==> ReservedGap(s, id) == 0
  }

  /** No account overdraws, unlimited ones excepted. */
  ghost predicate Solvent(s: State) {
    forall id :: id in s.accounts ==> s.accounts[id].unlimited || s.accounts[id].Available() >= 0
  }

  // ----- The reserved counters -----

  lemma OpenSharesPut(open: map<nat, Request>, r: nat, request: Request, id: AccountId)
    requires r !in open
    ensures Total(OpenShares(open[r := request], id))
         == Total(OpenShares(open, id)) + if request.account == id then request.Amount() else 0
  {
    var share := if request.account == id then request.Amount() else 0;
    assert OpenShares(open[r := request], id) == OpenShares(open, id)[r := share];
    TotalUpdate(OpenShares(open, id), r, share);
  }

  lemma OpenSharesRemove(open: map<nat, Request>, r: nat, id: AccountId)
    requires r in open
    ensures Total(OpenShares(open - {r}, id))
         == Total(OpenShares(open, id)) - if open[r].account == id then open[r].Amount() else 0
  {
    assert OpenShares(open - {r}, id) == OpenShares(open, id) - {r};
    TotalRemove(OpenShares(open, id), r);
  }

  lemma UnknownAccountHasNothingOpen(s: State, id: AccountId)
    requires WellFormed(s) && id !in s.accounts
    ensures Total(OpenShares(s.open, id)) == 0
  {
    TotalZero(OpenShares(s.open, id));
  }

  ghost predicate KeepsReserved(s: State, s': State) {
    && s'.open == s.open && s'.nextRequest == s.nextRequest
    && forall id :: id in s'.accounts ==>
         s'.accounts[id].reserved == if id in s.accounts then s.accounts[id].reserved else 0
  }

  lemma TransfersKeepReserved(s: State, act: Action, s': State)
    requires Step(s, act) == Some(s') && (act.Allocate? || act.SetAllocation?)
    ensures KeepsReserved(s, s')
  {
  }

  lemma RefileKeepsReserved(s: State, act: Action, s': State)
    requires Step(s, act) == Some(s') && act.Refile?
    ensures KeepsReserved(s, s')
  {
  }

  lemma OtherStepsKeepReserved(s: State, act: Action, s': State)
    requires WellFormed(s) && Step(s, act) == Some(s')
    requires !act.Reserve? && !act.Commit? && !act.Refund?
    ensures KeepsReserved(s, s')
  {
    if act.Allocate? || act.SetAllocation? {
      TransfersKeepReserved(s, act, s');
    } else if act.Refile? {
      RefileKeepsReserved(s, act, s');
    }
  }

  lemma OpeningStepsMoveReserved(s: State, act: Action, s': State, id: AccountId)
    requires WellFormed(s) && ReservedExact(s) && Step(s, act) == Some(s')
    requires act.Reserve? || act.Commit? || act.Refund?
    requires id in s'.accounts
    ensures ReservedGap(s', id) == 0
  {
    assert s'.accounts.Keys == s.accounts.Keys;
    assert ReservedGap(s, id) == 0;
    match act {
      case Reserve(_, pricing, estimate, search) =>
        OpenSharesPut(s.open, s.nextRequest, Request(act.account, pricing, estimate, search), id);
      case Commit(r, _) => OpenSharesRemove(s.open, r, id);
      case Refund(r) => OpenSharesRemove(s.open, r, id);
    }
  }

  /** Every step, accountable or not, keeps the reserved counters equal to the open reservations. */
  lemma ReservedStep(s: State, act: Action)
    requires WellFormed(s) && ReservedExact(s)
    ensures ReservedExact(Next(s, act))
  {
    if Step(s, act).Some? {
      var s' := Next(s, act);
      forall id | id in s'.accounts
        ensures ReservedGap(s', id) == 0
      {
        if act.Reserve? || act.Commit? || act.Refund? {
          OpeningStepsMoveReserved(s, act, s', id);
        } else {
          OtherStepsKeepReserved(s, act, s');
          if id in s.accounts {
            assert ReservedGap(s, id) == 0;
          } else {
            UnknownAccountHasNothingOpen(s, id);
          }
        }
      }
    }
  }

  // ----- Solvency -----

  /** When a step keeps every account solvent: only a refiling can overdraw, by charging its new home unchecked. */
  predicate Affordable(s: State, act: Action) {
    act.Refile? && act.organizationAccount in s.accounts ==>
      var home := s.accounts[act.organizationAccount];
      var released := if act.snapshotParent == Some(act.organizationAccount)
                      then Min(home.child, act.snapshotAllotted) else 0;
      home.unlimited || home.Available() + released >= act.snapshotAllotted
  }

  lemma RefileSolvent(s: State, act: Action, s': State)
    requires WellFormed(s) && Exact(s) && Solvent(s) && act.Refile? && Step(s, act) == Some(s')
    ensures Solvent(s') <==> Affordable(s, act)
  {
    var home, parent := act.organizationAccount, act.snapshotParent;
    if parent.Some? && parent.value in s.accounts {
      CountersNotNegative(s, parent.value);
    }
    var released := if parent == Some(home) then Min(s.accounts[home].child, act.snapshotAllotted) else 0;
    assert s'.accounts[home].Available() == s.accounts[home].Available() + released - act.snapshotAllotted;
    assert s'.accounts[home].unlimited == s.accounts[home].unlimited;
    forall id | id in s'.accounts && id != home
      ensures s'.accounts[id].unlimited == s.accounts[id].unlimited
      ensures s'.accounts[id].Available() >= s.accounts[id].Available()
    {
    }
  }

  lemma SetAllocationSolvent(s: State, act: Action, s': State)
    requires WellFormed(s) && Exact(s) && Solvent(s) && act.SetAllocation? && Step(s, act) == Some(s')
    ensures Solvent(s')
  {
    var to := s.accounts[act.target];
    if to.parent.Some? {
      ParentInAccounts(s, act.target);
      CountersNotNegative(s, to.parent.value);
    }
  }

  /** In a state with exact counters, a step keeps every account solvent if and only if it is affordable. */
  lemma SolventStep(s: State, act: Action, s': State)
    requires WellFormed(s) && Exact(s) && Solvent(s) && Step(s, act) == Some(s')
    ensures Solvent(s') <==> Affordable(s, act)
  {
    match act
    case SetAllocation(_, _, _) => SetAllocationSolvent(s, act, s');
    case Refile(_, _, _, _, _) => RefileSolvent(s, act, s');
    case _ =>
  }

  ghost predicate Sane(s: State) {
    WellFormed(s) && Exact(s) && Solvent(s) && ReservedExact(s)
  }

  /** Every step that takes effect is accountable and affordable in the state it meets. */
  ghost predicate PrudentRun(s: State, acts: seq<Action>)
    decreases |acts|
  {
    acts == []
    || (var before, act := Run(s, acts[..|acts| - 1]), acts[|acts| - 1];
        && PrudentRun(s, acts[..|acts| - 1])
        && (Step(before, act).Some? ==> Accountable(before, act) && Affordable(before, act)))
  }

  /** At the end of the run and at every point before it. */
  ghost predicate SaneThroughout(s: State, acts: seq<Action>)
    decreases |acts|
  {
    Sane(Run(s, acts)) && (acts != [] ==> SaneThroughout(s, acts[..|acts| - 1]))
  }

  /** From a sane state a step ends in a sane state if and only if it is rejected, or accountable and affordable. */
  lemma SaneStep(s: State, act: Action)
    requires Sane(s)
    ensures Sane(Next(s, act)) <==> (Step(s, act).Some? ==> Accountable(s, act) && Affordable(s, act))
  {
    WellFormedStep(s, act);
    ReservedStep(s, act);
    if Step(s, act).Some? {
      ExactStep(s, act, Step(s, act).value);
      SolventStep(s, act, Step(s, act).value);
    }
  }

  /**
   Under any interleaving: counters exact, no overdraft and reserved counters equal to the open
   reservations at every point of a run, if and only if every step that takes effect is prudent.
   */
  lemma {:induction false} PrudentExactly(s: State, acts: seq<Action>)
    requires Sane(s)
    ensures SaneThroughout(s, acts) <==> PrudentRun(s, acts)
    decreases |acts|
  {
    if acts != [] {
      var init := acts[..|acts| - 1];
      PrudentExactly(s, init);
      if SaneThroughout(s, init) {
        SaneStep(Run(s, init), acts[|acts| - 1]);
      }
    }
  }

  lemma EmptyIsSane()
    ensures Sane(EMPTY)
  {
    EmptyIsExact();
  }

  /** The same of every run from the empty ledger. */
  lemma PrudentRunsAreSane(acts: seq<Action>)
    ensures SaneThroughout(EMPTY, acts) <==> PrudentRun(EMPTY, acts)
  {
    EmptyIsSane();
    PrudentExactly(EMPTY, acts);
  }

  // ----- Charging -----

  /** A commit splits the actual cost into a charge and a shortfall, and a shortfall empties the account. */
  lemma ChargeSplit(a: Account, reserved: nat, actual: nat)
    ensures Chargeable(a, reserved, actual) + Unbilled(a, reserved, actual) == actual
    ensures Unbilled(a, reserved, actual) > 0 ==>
              !a.unlimited && a.Available() + reserved - Chargeable(a, reserved, actual) <= 0
  {
  }

  /** A solvent account pays in full for every request that stayed within its estimate. */
  lemma ChargedInFull(s: State, r: nat, response: Response)
    requires Sane(s) && r in s.open
    requires Within(ActualUsage(response, s.open[r].pricing, s.open[r].estimate, s.open[r].search), s.open[r].estimate)
    ensures var request := s.open[r];
            var actual := ActualCredits(request, response);
            && request.account in s.accounts
            && Unbilled(s.accounts[request.account], request.Amount(), actual) == 0
            && Step(s, Commit(r, response)).Some?
            && Next(s, Commit(r, response)).accounts[request.account].used == s.accounts[request.account].used + actual
            && Next(s, Commit(r, response)).accounts[request.account].Available()
               == s.accounts[request.account].Available() + request.Amount() - actual
               >= s.accounts[request.account].Available()
  {
    var request := s.open[r];
    ActualWithinEstimate(response, request.pricing, request.estimate, request.search);
  }

  // ----- Each reservation is closed once -----

  predicate Closes(act: Action, r: nat) {
    (act.Commit? || act.Refund?) && act.request == r
  }

  /** How many steps of the run committed or refunded request `r`. */
  ghost function Closings(s: State, acts: seq<Action>, r: nat): nat
    decreases |acts|
  {
    if acts == [] then 0
    else
      var init, act := acts[..|acts| - 1], acts[|acts| - 1];
      Closings(s, init, r) + if Closes(act, r) && Step(Run(s, init), act).Some? then 1 else 0
  }

  /** In every run a reservation is closed at most once, and exactly once when it is no longer open. */
  lemma {:induction false} ClosedOnce(acts: seq<Action>, r: nat)
    ensures var s := Run(EMPTY, acts);
            && (r in s.open ==> r < s.nextRequest)
            && Closings(EMPTY, acts, r) == if Closed(s, r) then 1 else 0
    decreases |acts|
  {
    if acts != [] {
      var init, act := acts[..|acts| - 1], acts[|acts| - 1];
      ClosedOnce(init, r);
      EmptyIsExact();
      WellFormedRun(EMPTY, init);
      if Step(Run(EMPTY, init), act).Some? {
        ClosingStep(Run(EMPTY, init), act, r, Next(Run(EMPTY, init), act));
      }
    }
  }

  predicate Closed(s: State, r: nat) { r < s.nextRequest && r !in s.open }

  lemma ClosingStep(s: State, act: Action, r: nat, s': State)
    requires WellFormed(s) && (r in s.open ==> r < s.nextRequest) && Step(s, act) == Some(s')
    ensures r in s'.open ==> r < s'.nextRequest
    ensures Closes(act, r) ==> !Closed(s, r)
    ensures Closed(s', r) <==> Closed(s, r) || Closes(act, r)
  {
    if !act.Reserve? && !act.Commit? && !act.Refund? {
      OtherStepsKeepReserved(s, act, s');
    }
  }
}
