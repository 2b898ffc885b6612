/**
 Runs from the empty ledger on which the credit ledger goes wrong: one for each way in which a step can leave
 the conditions of `LedgerTree`, `LedgerReservations` and `LedgerReplay`.
 */
module LedgerFailures {
  import opened Common
  import opened Ledger
  import opened LedgerTree
  import opened LedgerReservations
  import opened LedgerReplay

  const ORGANIZATION: AccountId := 1
  const USER: AccountId := 2

  function MasterRow(allotted: int, child: int): Account {
    Account(Scope.Master, None, None, None, allotted, 0, 0, child, false, Active)
  }

  function OrganizationRow(allotted: int): Account {
    Account(Scope.Organization, Some(MASTER), Some(0), None, allotted, 0, 0, 0, false, Active)
  }

  function UserRow(allotted: int): Account {
    Account(Scope.User, Some(MASTER), None, Some(7), allotted, 0, 0, 0, false, Active)
  }

  /** The root holds ten credits, and allots five to a user without an organization and four to an organization. */
  const FUNDING: seq<Action> :=
    [EnsureMaster] + [TopUp(MASTER, 10)] + [EnsureOrganization(0, MASTER)] + [EnsureUser(7, None, MASTER, None)]
    + [Allocate(MASTER, USER, 5)] + [Allocate(MASTER, ORGANIZATION, 4)]

  /** Everything that is right about a state. */
  ghost predicate Flawless(s: State) { Sane(s) && Replays(s) }

  lemma FlawlessStep(s: State, act: Action)
    requires Flawless(s) && Step(s, act).Some? && Next(s, act) != s
    requires Accountable(s, act) && Affordable(s, act) && Recorded(s, act)
    ensures Flawless(Next(s, act))
  {
    SaneStep(s, act);
    ReplayStep(s, act, Next(s, act));
  }

  lemma RunPush(s: State, acts: seq<Action>, act: Action)
    ensures Run(s, acts + [act]) == Next(Run(s, acts), act)
  {
    assert (acts + [act])[..|acts|] == acts;
  }

  lemma SixSteps(a: Action, b: Action, c: Action, d: Action, e: Action, f: Action)
    ensures Run(EMPTY, [a] + [b] + [c] + [d] + [e] + [f]) == Next(Next(Next(Next(Next(Next(EMPTY, a), b), c), d), e), f)
  {
    RunPush(EMPTY, [], a);
    assert [] + [a] == [a];
    RunPush(EMPTY, [a], b);
    RunPush(EMPTY, [a] + [b], c);
    RunPush(EMPTY, [a] + [b] + [c], d);
    RunPush(EMPTY, [a] + [b] + [c] + [d], e);
    RunPush(EMPTY, [a] + [b] + [c] + [d] + [e], f);
  }

  lemma MasterIsMade()
    ensures var s := Next(EMPTY, EnsureMaster);
            Flawless(s) && s.accounts == map[MASTER := MasterRow(0, 0)] && s.nextAccount == 1
  {
    EmptyIsSane();
    FlawlessStep(EMPTY, EnsureMaster);
  }

  lemma MasterIsFunded(s: State)
    requires Flawless(s) && s.accounts == map[MASTER := MasterRow(0, 0)] && s.nextAccount == 1
    ensures var s' := Next(s, TopUp(MASTER, 10));
            Flawless(s') && s'.accounts == map[MASTER := MasterRow(10, 0)] && s'.nextAccount == 1
  {
    FlawlessStep(s, TopUp(MASTER, 10));
  }

  lemma OrganizationJoins(s: State)
    requires Flawless(s) && s.accounts == map[MASTER := MasterRow(10, 0)] && s.nextAccount == 1
    ensures var s' := Next(s, EnsureOrganization(0, MASTER));
            && Flawless(s') && s'.nextAccount == 2
            && s'.accounts == map[MASTER := MasterRow(10, 0), ORGANIZATION := OrganizationRow(0)]
  {
    FlawlessStep(s, EnsureOrganization(0, MASTER));
  }

  lemma UserJoins(s: State)
    requires Flawless(s) && s.nextAccount == 2
    requires s.accounts == map[MASTER := MasterRow(10, 0), ORGANIZATION := OrganizationRow(0)]
    ensures var s' := Next(s, EnsureUser(7, None, MASTER, None));
            && Flawless(s')
            && s'.accounts == map[MASTER := MasterRow(10, 0), ORGANIZATION := OrganizationRow(0), USER := UserRow(0)]
  {
    assert !HasUserAccount(s, 7);
    FlawlessStep(s, EnsureUser(7, None, MASTER, None));
  }

  /** Both children are the root's own, so an allocation to one of them breaks nothing. */
  lemma RootAllots(s: State, target: AccountId, amount: nat, spent: int, organization: int, user: int)
    requires s.accounts
               == map[MASTER := MasterRow(10, spent), ORGANIZATION := OrganizationRow(organization),
                      USER := UserRow(user)]
    requires (target == ORGANIZATION || target == USER) && 0 < amount <= 10 - spent
    ensures var act := Allocate(MASTER, target, amount);
            && Step(s, act).Some? && Next(s, act) != s
            && Accountable(s, act) && Affordable(s, act) && Recorded(s, act)
            && Next(s, act).accounts
               == map[MASTER := MasterRow(10, spent + amount),
                      ORGANIZATION
                      := OrganizationRow(if target == ORGANIZATION then organization + amount else organization),
                      USER := UserRow(if target == USER then user + amount else user)]
  {
    var s' := Next(s, Allocate(MASTER, target, amount));
    assert s'.accounts[MASTER] != s.accounts[MASTER];
  }

  lemma UserIsFunded(s: State)
    requires Flawless(s)
    requires s.accounts == map[MASTER := MasterRow(10, 0), ORGANIZATION := OrganizationRow(0), USER := UserRow(0)]
    ensures var s' := Next(s, Allocate(MASTER, USER, 5));
            && Flawless(s')
            && s'.accounts == map[MASTER := MasterRow(10, 5), ORGANIZATION := OrganizationRow(0), USER := UserRow(5)]
  {
    RootAllots(s, USER, 5, 0, 0, 0);
    FlawlessStep(s, Allocate(MASTER, USER, 5));
  }

  lemma OrganizationIsFunded(s: State)
    requires Flawless(s)
    requires s.accounts == map[MASTER := MasterRow(10, 5), ORGANIZATION := OrganizationRow(0), USER := UserRow(5)]
    ensures var s' := Next(s, Allocate(MASTER, ORGANIZATION, 4));
            && Flawless(s')
            && s'.accounts == map[MASTER := MasterRow(10, 9), ORGANIZATION := OrganizationRow(4), USER := UserRow(5)]
  {
    RootAllots(s, ORGANIZATION, 4, 5, 0, 5);
    FlawlessStep(s, Allocate(MASTER, ORGANIZATION, 4));
  }

  /** After the funding nothing is wrong yet. */
  lemma Funded()
    ensures var s := Run(EMPTY, FUNDING);
            Flawless(s)
                && s.accounts == map[MASTER := MasterRow(10, 9), ORGANIZATION := OrganizationRow(4), USER := UserRow(5)]
  {
    SixSteps(EnsureMaster, TopUp(MASTER, 10), EnsureOrganization(0, MASTER), EnsureUser(7, None, MASTER, None),
             Allocate(MASTER, USER, 5), Allocate(MASTER, ORGANIZATION, 4));
    var s1 := Next(EMPTY, EnsureMaster);
    var s2 := Next(s1, TopUp(MASTER, 10));
    var s3 := Next(s2, EnsureOrganization(0, MASTER));
    var s4 := Next(s3, EnsureUser(7, None, MASTER, None));
    MasterIsMade();
    MasterIsFunded(s1);
    OrganizationJoins(s2);
    UserJoins(s3);
    UserIsFunded(s4);
    OrganizationIsFunded(Next(s4, Allocate(MASTER, USER, 5)));
  }

  lemma BecomesInexact(act: Action)
    requires Step(Run(EMPTY, FUNDING), act).Some? && !Accountable(Run(EMPTY, FUNDING), act)
    ensures !Exact(Run(EMPTY, FUNDING + [act]))
  {
    var s := Run(EMPTY, FUNDING);
    Funded();
    RunPush(EMPTY, FUNDING, act);
    ExactStep(s, act, Step(s, act).value);
  }

  lemma BecomesUnreplayable(act: Action)
    requires var s := Run(EMPTY, FUNDING); Step(s, act).Some? && Next(s, act) != s && !Recorded(s, act)
    ensures !Replays(Run(EMPTY, FUNDING + [act]))
  {
    var s := Run(EMPTY, FUNDING);
    Funded();
    RunPush(EMPTY, FUNDING, act);
    ReplayStep(s, act, Next(s, act));
  }

  /** A top-up below the root. */
  lemma TopUpBelowTheRoot()
    ensures !Exact(Run(EMPTY, FUNDING + [TopUp(ORGANIZATION, 5)]))
  {
    Funded();
    BecomesInexact(TopUp(ORGANIZATION, 5));
  }

  /** The user joins the organization, and the next lookup moves the funded account there. */
  lemma LookupMovesFundedAccount()
    ensures !Exact(Run(EMPTY, FUNDING + [EnsureUser(7, Some(0), ORGANIZATION, Some(USER))]))
  {
    Funded();
    BecomesInexact(EnsureUser(7, Some(0), ORGANIZATION, Some(USER)));
  }

  /** An allocation to a funded child of another parent. */
  lemma AllocationToAnothersChild()
    ensures !Exact(Run(EMPTY, FUNDING + [Allocate(ORGANIZATION, USER, 1)]))
  {
    Funded();
    BecomesInexact(Allocate(ORGANIZATION, USER, 1));
  }

  /** A refiling from the row as it was before the user was funded. */
  lemma StaleRefiling()
    ensures !Exact(Run(EMPTY, FUNDING + [Refile(USER, ORGANIZATION, 0, Some(MASTER), 0)]))
  {
    Funded();
    BecomesInexact(Refile(USER, ORGANIZATION, 0, Some(MASTER), 0));
  }

  /** A refiling from the current row, which keeps the counters exact, but overdraws the organization's account. */
  lemma OverdrawingRefiling()
    ensures var s := Run(EMPTY, FUNDING + [Refile(USER, ORGANIZATION, 0, Some(MASTER), 5)]); Exact(s) && !Solvent(s)
  {
    var s, act := Run(EMPTY, FUNDING), Refile(USER, ORGANIZATION, 0, Some(MASTER), 5);
    Funded();
    RunPush(EMPTY, FUNDING, act);
    ExactStep(s, act, Step(s, act).value);
    SolventStep(s, act, Step(s, act).value);
  }

  /** The same refiling writes no entry, although it moves the balances of both parents. */
  lemma UnrecordedRefiling()
    ensures !Replays(Run(EMPTY, FUNDING + [Refile(USER, ORGANIZATION, 0, Some(MASTER), 5)]))
  {
    Funded();
    var s, act := Run(EMPTY, FUNDING), Refile(USER, ORGANIZATION, 0, Some(MASTER), 5);
    assert Next(s, act).accounts[USER].parent == Some(ORGANIZATION);
    BecomesUnreplayable(act);
  }

  /** `setAllocation` on a child of another parent keeps the counters exact, but the old parent's gain has no entry. */
  lemma UnrecordedRelease()
    ensures var s := Run(EMPTY, FUNDING + [SetAllocation(ORGANIZATION, USER, 3)]); Exact(s) && !Replays(s)
  {
    Funded();
    var s, act := Run(EMPTY, FUNDING), SetAllocation(ORGANIZATION, USER, 3);
    RunPush(EMPTY, FUNDING, act);
    assert Next(s, act).accounts[USER].parent == Some(ORGANIZATION);
    ExactStep(s, act, Step(s, act).value);
    BecomesUnreplayable(act);
  }
}
