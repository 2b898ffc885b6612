/** No credit from nothing: what the accounts hold never exceeds what was ever topped up. */
module LedgerConservation {
  import opened Common
  import opened Sums
  import opened Ledger
  import opened LedgerTree

  /** What one account still has, has spent and has set aside. */
  ghost function Holding(a: Account): int {
    a.Available() + a.used + a.reserved
  }

  ghost function Holdings(accounts: map<AccountId, Account>): map<AccountId, int> {
    map k | k in accounts :: Holding(accounts[k])
  }

  ghost function Held(s: State): int {
    Total(Holdings(s.accounts))
  }

  ghost function EntryMint(e: Entry): int {
    if e.kind.MasterTopUp? || e.kind.ManualExtension? then e.amount else 0
  }

  /** The total ever topped up, read off the ledger. */
  ghost function Minted(entries: seq<Entry>): int
    decreases |entries|
  {
    if entries == [] then 0 else Minted(entries[..|entries| - 1]) + EntryMint(entries[|entries| - 1])
  }

  lemma HeldPut(accounts: map<AccountId, Account>, k: AccountId, a: Account)
    ensures Total(Holdings(accounts[k := a]))
         == Total(Holdings(accounts)) + Holding(a) - (if k in accounts then Holding(accounts[k]) else 0)
  {
    assert Holdings(accounts[k := a]) == Holdings(accounts)[k := Holding(a)];
    TotalUpdate(Holdings(accounts), k, Holding(a));
  }

  lemma MintedLog(entries: seq<Entry>, e: Entry)
    ensures Minted(entries + [e]) == Minted(entries) + EntryMint(e)
  {
    assert (entries + [e])[..|entries|] == entries;
  }

  /** How much of `amount` the old parent fails to give back: all of it when there is none, some when it saturates. */
  function Unreleased(s: State, parent: Option<AccountId>, amount: int): int {
    if parent.None? || parent.value !in s.accounts then amount
    else amount - Min(s.accounts[parent.value].child, amount)
  }

  /** The credit a step destroys: only a re-parenting can, and only by what the old parent fails to release. */
  function Leak(s: State, act: Action): int {
    if Step(s, act).None? || Step(s, act).value == s then 0
    else match act
      case SetAllocation(source, target, _) =>
        var to := s.accounts[target];
        if to.parent == Some(source) then 0 else Unreleased(s, to.parent, to.allotted)
      case Refile(_, _, _, parent, amount) => Unreleased(s, parent, amount)
      case _ => 0
  }

  lemma ReleaseHeld(s: State, parent: Option<AccountId>, amount: int)
    ensures var r := ReleaseFromParent(s, parent, amount);
            && r.accounts.Keys == s.accounts.Keys
            && r.entries == s.entries
            && Held(r) == Held(s) + amount - Unreleased(s, parent, amount)
  {
    if parent.Some? && parent.value in s.accounts {
      var p := s.accounts[parent.value];
      HeldPut(s.accounts, parent.value, p.(child := SubtractChild(p, amount)));
    }
  }

  lemma OneRow(s: State, act: Action, s': State, id: AccountId)
    requires Step(s, act) == Some(s') && id in s'.accounts
    requires s'.accounts == s.accounts[id := s'.accounts[id]]
    ensures Held(s') == Held(s) + Holding(s'.accounts[id]) - (if id in s.accounts then Holding(s.accounts[id]) else 0)
    ensures |s'.entries| > 0 && s'.entries[..|s'.entries| - 1] == s.entries ==>
      Minted(s'.entries) == Minted(s.entries) + EntryMint(s'.entries[|s'.entries| - 1])
  {
    HeldPut(s.accounts, id, s'.accounts[id]);
  }

  lemma TwoEntries(entries: seq<Entry>, e: Entry, f: Entry)
    requires e.kind.Allocation? && f.kind.Allocation?
    ensures Minted(entries + [e] + [f]) == Minted(entries)
  {
    MintedLog(entries, e);
    MintedLog(entries + [e], f);
  }

  lemma AllocateConserves(s: State, source: AccountId, target: AccountId, amount: int, s': State)
    requires AllocateTx(s, source, target, amount) == Some(s')
    ensures Held(s') == Held(s) && Minted(s'.entries) == Minted(s.entries)
  {
    HeldPut(s.accounts, source, s'.accounts[source]);
    HeldPut(s.accounts[source := s'.accounts[source]], target, s'.accounts[target]);
    var n := |s.entries|;
    assert s'.entries == s.entries + [s'.entries[n]] + [s'.entries[n + 1]];
    TwoEntries(s.entries, s'.entries[n], s'.entries[n + 1]);
  }

  /** The rows that `setAllocation` rewrites after the old parent's release. */
  lemma SetAllocationRows(s: State, source: AccountId, target: AccountId, amount: int, s': State)
    requires SetAllocationTx(s, source, target, amount) == Some(s') && s' != s
    ensures source in s.accounts && target in s.accounts && source in s'.accounts && target in s'.accounts
    ensures var to := s.accounts[target];
            var moved := to.parent != Some(source);
            var released := (if moved then ReleaseFromParent(s, to.parent, to.allotted) else s).accounts;
            && source in released && target in released && source != target
            && s'.accounts == released[source := s'.accounts[source]][target := s'.accounts[target]]
            && Holding(s'.accounts[source])
                == Holding(released[source]) - Clamp(amount) + (if moved then 0 else to.allotted)
            && Holding(s'.accounts[target]) == Holding(released[target]) + Clamp(amount) - to.allotted
  {
  }

  lemma SetAllocationEntries(s: State, source: AccountId, target: AccountId, amount: int, s': State)
    requires SetAllocationTx(s, source, target, amount) == Some(s') && s' != s
    ensures Minted(s'.entries) == Minted(s.entries)
  {
    var n := |s.entries|;
    assert s'.entries == s.entries + [s'.entries[n]] + [s'.entries[n + 1]];
    TwoEntries(s.entries, s'.entries[n], s'.entries[n + 1]);
  }

  lemma TwoRowsHeld(accounts: map<AccountId, Account>, a: AccountId, x: Account, b: AccountId, y: Account)
    requires a in accounts && b in accounts && a != b
    ensures Total(Holdings(accounts[a := x][b := y]))
         == Total(Holdings(accounts)) + Holding(x) - Holding(accounts[a]) + Holding(y) - Holding(accounts[b])
  {
    HeldPut(accounts, a, x);
    HeldPut(accounts[a := x], b, y);
  }

  lemma SetAllocationConserves(s: State, source: AccountId, target: AccountId, amount: int, s': State)
    requires SetAllocationTx(s, source, target, amount) == Some(s') && s' != s
    ensures source in s.accounts && target in s.accounts
    ensures Held(s') == Held(s)
              - (if s.accounts[target].parent == Some(source) then 0
                 else Unreleased(s, s.accounts[target].parent, s.accounts[target].allotted))
    ensures Minted(s'.entries) == Minted(s.entries)
  {
    SetAllocationRows(s, source, target, amount, s');
    SetAllocationEntries(s, source, target, amount, s');
    var to := s.accounts[target];
    var released := if to.parent != Some(source) then ReleaseFromParent(s, to.parent, to.allotted) else s;
    ReleaseHeld(s, to.parent, to.allotted);
    TwoRowsHeld(released.accounts, source, s'.accounts[source], target, s'.accounts[target]);
  }

  lemma RefiledHeld(s: State, s': State, user: AccountId, home: AccountId, parent: Option<AccountId>, amount: nat)
    requires Refiled(s, s', user, home, parent, amount)
    ensures Held(s') == Held(s) - Unreleased(s, parent, amount)
  {
    var released := ReleaseFromParent(s, parent, amount);
    ReleaseHeld(s, parent, amount);
    TwoRowsHeld(released.accounts, home, s'.accounts[home], user, s'.accounts[user]);
  }

  lemma RefileConserves(s: State, act: Action, s': State)
    requires act.Refile? && Step(s, act) == Some(s')
    ensures Held(s') == Held(s) - Unreleased(s, act.snapshotParent, act.snapshotAllotted)
    ensures s'.entries == s.entries
  {
    RefileShape(s, act, s');
    RefiledHeld(s, s', act.account, act.organizationAccount, act.snapshotParent, act.snapshotAllotted);
  }

  /** The exact conservation law of one step. */
  lemma StepConserves(s: State, act: Action)
    requires WellFormed(s)
    ensures Minted(Next(s, act).entries) - Held(Next(s, act)) == Minted(s.entries) - Held(s) + Leak(s, act)
  {
    var s' := Next(s, act);
    if s' != s {
      match act
      case EnsureMaster => OneRow(s, act, s', MASTER);
      case EnsureOrganization(_, _) => OneRow(s, act, s', s.nextAccount);
      case EnsureUser(_, _, _, found) => OneRow(s, act, s', if found.Some? then found.value else s.nextAccount);
      case TopUp(id, _) => OneRow(s, act, s', id);
      case Allocate(source, target, amount) => AllocateConserves(s, source, target, amount, s');
      case SetAllocation(source, target, amount) => SetAllocationConserves(s, source, target, amount, s');
      case Reserve(id, _, _, _) => OneRow(s, act, s', id);
      case Commit(r, _) => OneRow(s, act, s', s.open[r].account);
      case Refund(r) => OneRow(s, act, s', s.open[r].account);
      case Refile(_, _, _, _, _) => RefileConserves(s, act, s');
      case Reconcile(id) => OneRow(s, act, s', id);
    }
  }

  lemma LeakNotNegative(s: State, act: Action)
    requires WellFormed(s)
    ensures Leak(s, act) >= 0
  {
  }

  /** With exact counters, the only re-parenting that destroys credit is that of an account without a parent. */
  lemma LeakWhenExact(s: State, act: Action)
    requires WellFormed(s) && Exact(s) && act.SetAllocation?
    ensures Leak(s, act) > 0 ==> s.accounts[act.target].parent.None?
  {
    if act.target in s.accounts && s.accounts[act.target].parent.Some? {
      CounterCoversChild(s, act.target);
    }
  }

  ghost function Leaked(s: State, acts: seq<Action>): int
    decreases |acts|
  {
    if acts == [] then 0
    else Leaked(s, acts[..|acts| - 1]) + Leak(Run(s, acts[..|acts| - 1]), acts[|acts| - 1])
  }

  /** Over every run of all the operations: held plus leaked is exactly what was topped up. */
  lemma {:induction false} RunConserves(s: State, acts: seq<Action>)
    requires WellFormed(s)
    ensures Minted(Run(s, acts).entries) - Held(Run(s, acts)) == Minted(s.entries) - Held(s) + Leaked(s, acts)
    ensures Leaked(s, acts) >= 0
    decreases |acts|
  {
    if acts != [] {
      var init := acts[..|acts| - 1];
      RunConserves(s, init);
      WellFormedRun(s, init);
      StepConserves(Run(s, init), acts[|acts| - 1]);
      LeakNotNegative(Run(s, init), acts[|acts| - 1]);
    }
  }

  /** No run from the empty ledger ever holds more credit than was topped up; none is lost unless a step leaks. */
  lemma NoCreditFromNothing(acts: seq<Action>)
    ensures Held(Run(EMPTY, acts)) <= Minted(Run(EMPTY, acts).entries)
    ensures Held(Run(EMPTY, acts)) == Minted(Run(EMPTY, acts).entries) <==> Leaked(EMPTY, acts) == 0
  {
    EmptyIsExact();
    RunConserves(EMPTY, acts);
    TotalZero(Holdings(EMPTY.accounts));
  }
}
