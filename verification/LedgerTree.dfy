/**
 Parent/child exactness of the credit ledger: every account's child counter is the sum of the
 allocations of the accounts filed under it, and exactly which steps keep it so.
 */
module LedgerTree {
  import opened Common
  import opened Sums
  import opened Ledger

  ghost predicate ParentKnown(accounts: map<AccountId, Account>, a: Account) {
    a.parent.Some? ==> a.parent.value in accounts
  }

  ghost predicate Sound(accounts: map<AccountId, Account>, nextAccount: nat) {
    && MASTER < nextAccount
    && (forall id :: id in accounts ==> id < nextAccount)
    && (forall id :: id in accounts ==> accounts[id].allotted >= 0)
    && (forall id {:trigger ParentKnown(accounts, accounts[id])} ::
          id in accounts ==> ParentKnown(accounts, accounts[id]))
  }

  /** Foreign keys hold, generated ids are fresh, and no allocation is negative. */
  ghost predicate WellFormed(s: State) {
    && Sound(s.accounts, s.nextAccount)
    && (forall r :: r in s.open ==> r < s.nextRequest && s.open[r].account in s.accounts)
  }

  lemma SoundPut(accounts: map<AccountId, Account>, next: nat, id: AccountId, a: Account, next': nat)
    requires Sound(accounts, next)
    requires id < next' && next <= next' && a.allotted >= 0
    requires ParentKnown(accounts, a) || (id in accounts && a.parent == accounts[id].parent)
    ensures Sound(accounts[id := a], next')
  {
    var after := accounts[id := a];
    forall k | k in after
      ensures ParentKnown(after, after[k])
    {
      assert k in accounts ==> ParentKnown(accounts, accounts[k]);
    }
  }

  lemma SoundRelease(s: State, parent: Option<AccountId>, amount: int)
    requires WellFormed(s)
    ensures var r := ReleaseFromParent(s, parent, amount);
            && r.accounts.Keys == s.accounts.Keys && r.nextAccount == s.nextAccount
            && Sound(r.accounts, r.nextAccount)
            && forall id :: id in s.accounts ==> r.accounts[id].(child := 0) == s.accounts[id].(child := 0)
  {
    if parent.Some? && parent.value in s.accounts {
      var p := s.accounts[parent.value];
      SoundPut(s.accounts, s.nextAccount, parent.value, p.(child := SubtractChild(p, amount)), s.nextAccount);
    }
  }

  lemma SoundTwo(s: State, s': State, first: map<AccountId, Account>, a: AccountId, b: AccountId)
    requires Sound(first, s.nextAccount) && a in first && b in first && a != b
    requires s'.nextAccount == s.nextAccount && a in s'.accounts && b in s'.accounts
    requires s'.accounts == first[a := s'.accounts[a]][b := s'.accounts[b]]
    requires s'.accounts[a].allotted >= 0 && s'.accounts[b].allotted >= 0
    requires s'.accounts[a].parent == first[a].parent && s'.accounts[b].parent == Some(a)
    ensures Sound(s'.accounts, s'.nextAccount)
  {
    SoundPut(first, s.nextAccount, a, s'.accounts[a], s.nextAccount);
    SoundPut(first[a := s'.accounts[a]], s.nextAccount, b, s'.accounts[b], s.nextAccount);
  }

  lemma SetAllocationSound(s: State, act: Action, s': State)
    requires WellFormed(s) && act.SetAllocation? && Step(s, act) == Some(s')
    ensures Sound(s'.accounts, s'.nextAccount)
  {
    if s' != s {
      var to := s.accounts[act.target];
      SoundRelease(s, to.parent, to.allotted);
      var released := if to.parent != Some(act.source) then ReleaseFromParent(s, to.parent, to.allotted) else s;
      SoundTwo(s, s', released.accounts, act.source, act.target);
    }
  }

  lemma RefileSound(s: State, act: Action, s': State)
    requires WellFormed(s) && act.Refile? && Step(s, act) == Some(s')
    ensures Sound(s'.accounts, s'.nextAccount)
  {
    SoundRelease(s, act.snapshotParent, act.snapshotAllotted);
    SoundTwo(s, s', ReleaseFromParent(s, act.snapshotParent, act.snapshotAllotted).accounts, act.organizationAccount,
             act.account);
  }

  lemma WellFormedStep(s: State, act: Action)
    requires WellFormed(s)
    ensures WellFormed(Next(s, act))
    ensures s.accounts.Keys <= Next(s, act).accounts.Keys
  {
    var s' := Next(s, act);
    if s' != s {
      match act
      case EnsureMaster => SoundPut(s.accounts, s.nextAccount, MASTER, s'.accounts[MASTER], s'.nextAccount);
      case EnsureOrganization(_, _) =>
          SoundPut(s.accounts, s.nextAccount, s.nextAccount, s'.accounts[s.nextAccount], s'.nextAccount);
      case EnsureUser(_, _, _, found) =>
        var id := if found.Some? then found.value else s.nextAccount;
        SoundPut(s.accounts, s.nextAccount, id, s'.accounts[id], s'.nextAccount);
      case TopUp(id, _) => SoundPut(s.accounts, s.nextAccount, id, s'.accounts[id], s'.nextAccount);
      case Allocate(a, b, _) => SoundTwo(s, s', s.accounts, a, b);
      case SetAllocation(_, _, _) => SetAllocationSound(s, act, s');
      case Reserve(id, _, _, _) => SoundPut(s.accounts, s.nextAccount, id, s'.accounts[id], s'.nextAccount);
      case Commit(r, _) =>
          SoundPut(s.accounts, s.nextAccount, s.open[r].account, s'.accounts[s.open[r].account], s'.nextAccount);
      case Refund(r) =>
          SoundPut(s.accounts, s.nextAccount, s.open[r].account, s'.accounts[s.open[r].account], s'.nextAccount);
      case Refile(_, _, _, _, _) => RefileSound(s, act, s');
      case Reconcile(id) => SoundPut(s.accounts, s.nextAccount, id, s'.accounts[id], s'.nextAccount);
    }
  }

  ghost function Share(a: Account, p: AccountId): int {
    if a.parent == Some(p) then a.allotted else 0
  }

  ghost function Shares(accounts: map<AccountId, Account>, p: AccountId): map<AccountId, int> {
    map k | k in accounts :: Share(accounts[k], p)
  }

  ghost function ChildTotal(accounts: map<AccountId, Account>, p: AccountId): int {
    Total(Shares(accounts, p))
  }

  /** How far one account's counter is from the sum it stands for. */
  ghost function Gap(accounts: map<AccountId, Account>, p: AccountId): int
    requires p in accounts
  {
    accounts[p].child - ChildTotal(accounts, p)
  }

  /** Every counter equals the sum it stands for. */
  ghost predicate Exact(s: State) {
    forall p {:trigger Gap(s.accounts, p)} :: p in s.accounts ==> Gap(s.accounts, p) == 0
  }

  lemma GapPut(accounts: map<AccountId, Account>, k: AccountId, a: Account, p: AccountId)
    requires k in accounts && p in accounts
    ensures Gap(accounts[k := a], p)
         == Gap(accounts, p) + (if p == k then a.child - accounts[k].child else 0)
            - Share(a, p) + Share(accounts[k], p)
  {
    assert Shares(accounts[k := a], p) == Shares(accounts, p)[k := Share(a, p)];
    TotalUpdate(Shares(accounts, p), k, Share(a, p));
  }

  lemma ParentInAccounts(s: State, c: AccountId)
    requires WellFormed(s) && c in s.accounts && s.accounts[c].parent.Some?
    ensures s.accounts[c].parent.value in s.accounts
  {
    assert ParentKnown(s.accounts, s.accounts[c]);
  }

  lemma SumCoversChild(accounts: map<AccountId, Account>, c: AccountId, p: AccountId)
    requires forall id :: id in accounts ==> accounts[id].allotted >= 0
    requires c in accounts && accounts[c].parent == Some(p)
    ensures accounts[c].allotted <= ChildTotal(accounts, p)
  {
    TotalBoundsRow(Shares(accounts, p), c);
    assert Shares(accounts, p)[c] == accounts[c].allotted;
  }

  /** A child's allocation is never more than its parent's exact counter. */
  lemma CounterCoversChild(s: State, c: AccountId)
    requires WellFormed(s) && Exact(s)
    requires c in s.accounts && s.accounts[c].parent.Some?
    ensures s.accounts[c].parent.value in s.accounts
    ensures s.accounts[c].allotted <= s.accounts[s.accounts[c].parent.value].child
  {
    ParentInAccounts(s, c);
    SumCoversChild(s.accounts, c, s.accounts[c].parent.value);
    assert Gap(s.accounts, s.accounts[c].parent.value) == 0;
  }

  lemma CountersNotNegative(s: State, p: AccountId)
    requires WellFormed(s) && Exact(s) && p in s.accounts
    ensures s.accounts[p].child >= 0
  {
    assert Gap(s.accounts, p) == 0;
    TotalNonNegative(Shares(s.accounts, p));
  }

  /**
   When a step keeps the counters exact. A caller can decide it from the rows the step reads:
   only a funded account that changes parent without its old parent being told, a top-up below the
   root, and a refiling on a stale row break exactness.
   */
  predicate Accountable(s: State, act: Action) {
    match act
    case EnsureUser(_, _, parent, found) =>
      found.Some? && found.value in s.accounts ==>
        s.accounts[found.value].parent == Some(parent) || s.accounts[found.value].allotted == 0
    case TopUp(id, amount) =>
      id in s.accounts ==> s.accounts[id].parent.None? || Clamp(amount) == 0
    case Allocate(source, target, _) =>
      target in s.accounts ==> s.accounts[target].parent == Some(source) || s.accounts[target].allotted == 0
    case Refile(user, home, _, snapshotParent, snapshotAllotted) =>
      user in s.accounts && home in s.accounts ==>
        FreshRow(s, s.accounts[user], home, snapshotParent, snapshotAllotted)
    case _ => true
  }

  /** The row a refiling works from is current, or stale in a way that moves the same amounts. */
  predicate FreshRow(s: State, u: Account, home: AccountId, snapshotParent: Option<AccountId>, amount: nat)
    requires home in s.accounts
  {
    var arriving := if u.parent == Some(home) then 0 else u.allotted;
    var unfiled := u.parent.None? || u.parent == Some(home) || u.allotted == 0;
    if snapshotParent == Some(home) then
      amount - Min(s.accounts[home].child, amount) == arriving && unfiled
    else
      && amount == arriving
      && (snapshotParent == u.parent
          || (unfiled && (amount == 0 || snapshotParent.None? || snapshotParent.value !in s.accounts
                          || s.accounts[snapshotParent.value].child == 0)))
  }

  /** The rows that `reconcileUserAccountParents` reads within one step are always fresh. */
  lemma CurrentRowIsFresh(s: State, user: AccountId, home: AccountId)
    requires WellFormed(s) && Exact(s) && user in s.accounts && home in s.accounts
    ensures FreshRow(s, s.accounts[user], home, s.accounts[user].parent, s.accounts[user].allotted)
  {
    if s.accounts[user].parent.Some? {
      CounterCoversChild(s, user);
    }
  }

  // ----- One lemma a step -----

  lemma NewAccountGap(s: State, id: AccountId, a: Account)
    requires WellFormed(s) && Exact(s)
    requires id !in s.accounts && a.child == 0 && a.allotted == 0
    requires a.parent.Some? ==> a.parent.value in s.accounts
    ensures Exact(Put(s, id, a))
  {
    var after := s.accounts[id := a];
    forall p | p in after
      ensures Gap(after, p) == 0
    {
      assert p != id ==> Gap(s.accounts, p) == 0;
      assert Shares(after, p) == Shares(s.accounts, p)[id := 0];
      TotalUpdate(Shares(s.accounts, p), id, 0);
      if p == id {
        forall k | k in s.accounts
          ensures Share(s.accounts[k], id) == 0
        {
          assert ParentKnown(s.accounts, s.accounts[k]);
        }
        TotalZero(Shares(s.accounts, id));
      }
    }
  }

  /** A row update that moves neither the allocation, the parent nor the counter. */
  lemma CountersOnly(s: State, s': State, id: AccountId, a: Account)
    requires id in s.accounts && s'.accounts == s.accounts[id := a]
    requires a.child == s.accounts[id].child && a.allotted == s.accounts[id].allotted
    requires a.parent == s.accounts[id].parent
    ensures Exact(s) ==> Exact(s')
  {
    forall p | p in s.accounts
      ensures Gap(s'.accounts, p) == Gap(s.accounts, p)
    {
      GapPut(s.accounts, id, a, p);
    }
  }

  lemma EnsureUserExact(s: State, act: Action, s': State)
    requires WellFormed(s) && Exact(s) && act.EnsureUser? && Step(s, act) == Some(s')
    ensures Exact(s') <==> Accountable(s, act)
  {
    if act.found.None? {
      NewAccountGap(s, s.nextAccount, NewAccount(Scope.User, Some(act.parent), act.home, Some(act.user)));
    } else if s' != s {
      var id := act.found.value;
      var a, a' := s.accounts[id], s'.accounts[id];
      forall p | p in s.accounts
        ensures Gap(s'.accounts, p) == Share(a, p) - Share(a', p)
      {
        GapPut(s.accounts, id, a', p);
      }
      assert Gap(s'.accounts, act.parent) == Share(a, act.parent) - a.allotted;
    }
  }

  lemma TopUpExact(s: State, act: Action, s': State)
    requires WellFormed(s) && Exact(s) && act.TopUp? && Step(s, act) == Some(s')
    ensures Exact(s') <==> Accountable(s, act)
  {
    var a, a' := s.accounts[act.account], s'.accounts[act.account];
    forall p | p in s.accounts
      ensures Gap(s'.accounts, p) == Share(a, p) - Share(a', p)
    {
      GapPut(s.accounts, act.account, a', p);
    }
    if a.parent.Some? {
      ParentInAccounts(s, act.account);
      assert Gap(s'.accounts, a.parent.value) == a.allotted - a'.allotted;
    }
  }

  lemma AllocateExact(s: State, act: Action, s': State)
    requires WellFormed(s) && Exact(s) && act.Allocate? && Step(s, act) == Some(s')
    ensures Exact(s') <==> Accountable(s, act)
  {
    var source, target := act.source, act.target;
    var mid := s.accounts[source := s'.accounts[source]];
    var to := s.accounts[target];
    forall p | p in s.accounts
      ensures Gap(s'.accounts, p) == Share(to, p) - (if p == source then to.allotted else 0)
    {
      GapPut(s.accounts, source, s'.accounts[source], p);
      GapPut(mid, target, s'.accounts[target], p);
    }
    assert Gap(s'.accounts, source) == Share(to, source) - to.allotted;
  }

  lemma ReleaseGap(s: State, parent: Option<AccountId>, amount: nat, p: AccountId)
    requires WellFormed(s) && Exact(s) && p in s.accounts
    ensures var r := ReleaseFromParent(s, parent, amount);
            && r.accounts.Keys == s.accounts.Keys
            && Gap(r.accounts, p) == if parent == Some(p) then -Min(s.accounts[p].child, amount) else 0
  {
    if parent.Some? && parent.value in s.accounts {
      CountersNotNegative(s, parent.value);
      GapPut(s.accounts, parent.value, ReleaseFromParent(s, parent, amount).accounts[parent.value], p);
    }
  }

  /** Re-parenting through `setAllocation` always keeps the counters exact: its release never saturates. */
  lemma SetAllocationExact(s: State, act: Action, s': State)
    requires WellFormed(s) && Exact(s) && act.SetAllocation? && Step(s, act) == Some(s')
    ensures Exact(s')
  {
    var source, target := act.source, act.target;
    var to := s.accounts[target];
    var moved := to.parent != Some(source);
    if s' != s {
      var released := if moved then ReleaseFromParent(s, to.parent, to.allotted) else s;
      if to.parent.Some? {
        CounterCoversChild(s, target);
      }
      var charged := Put(released, source, s'.accounts[source]);
      forall p | p in s'.accounts
        ensures Gap(s'.accounts, p) == 0
      {
        ReleaseGap(s, to.parent, to.allotted, p);
        GapPut(released.accounts, source, s'.accounts[source], p);
        GapPut(charged.accounts, target, s'.accounts[target], p);
      }
    }
  }

  /** What a refiling adds to one account's gap: a release, a charge and a moved allocation. */
  ghost function RefileGap(s: State, act: Action, p: AccountId): int
    requires act.Refile? && act.account in s.accounts && p in s.accounts
  {
    (if act.snapshotParent == Some(p) then -Min(s.accounts[p].child, act.snapshotAllotted) else 0)
    + (if p == act.organizationAccount then act.snapshotAllotted - s.accounts[act.account].allotted else 0)
    + Share(s.accounts[act.account], p)
  }

  /** What a refiling does to the rows: a release, a charge to the new home, and the moved user row. */
  ghost predicate Refiled(s: State, s': State, user: AccountId, home: AccountId, parent: Option<AccountId>,
                          amount: nat) {
    var released := ReleaseFromParent(s, parent, amount).accounts;
    && user != home && user in s.accounts && home in s.accounts
    && user in released && home in released && user in s'.accounts && home in s'.accounts
    && s'.accounts == released[home := s'.accounts[home]][user := s'.accounts[user]]
    && s'.accounts[home] == released[home].(child := released[home].child + amount)
    && s'.accounts[user] == released[user].(parent := Some(home), organization := s'.accounts[user].organization)
    && s'.entries == s.entries
  }

  lemma RefileShape(s: State, act: Action, s': State)
    requires act.Refile? && Step(s, act) == Some(s')
    ensures Refiled(s, s', act.account, act.organizationAccount, act.snapshotParent, act.snapshotAllotted)
    ensures s'.accounts.Keys == s.accounts.Keys
  {
  }

  lemma RefileGaps(s: State, s': State, act: Action, p: AccountId)
    requires WellFormed(s) && Exact(s) && act.Refile? && p in s.accounts
    requires Refiled(s, s', act.account, act.organizationAccount, act.snapshotParent, act.snapshotAllotted)
    requires p in s'.accounts
    ensures Gap(s'.accounts, p) == RefileGap(s, act, p)
  {
    var home := act.organizationAccount;
    var released := ReleaseFromParent(s, act.snapshotParent, act.snapshotAllotted).accounts;
    ReleaseGap(s, act.snapshotParent, act.snapshotAllotted, p);
    GapPut(released, home, s'.accounts[home], p);
    GapPut(released[home := s'.accounts[home]], act.account, s'.accounts[act.account], p);
  }

  lemma RefileExact(s: State, act: Action, s': State)
    requires WellFormed(s) && Exact(s) && act.Refile? && Step(s, act) == Some(s')
    ensures Exact(s') <==> Accountable(s, act)
  {
    RefileShape(s, act, s');
    forall p | p in s.accounts
      ensures Gap(s'.accounts, p) == RefileGap(s, act, p)
    {
      RefileGaps(s, s', act, p);
    }
    RefileWitnesses(s, s', act);
  }

  /** The accounts whose gaps decide a refiling: the new home, the old parent and the snapshot's parent. */
  lemma RefileWitnesses(s: State, s': State, act: Action)
    requires WellFormed(s) && Exact(s) && act.Refile?
    requires act.account in s.accounts && act.organizationAccount in s.accounts
    requires s'.accounts.Keys == s.accounts.Keys
    requires forall p {:trigger Gap(s'.accounts, p)} :: p in s.accounts ==> Gap(s'.accounts, p) == RefileGap(s, act, p)
    ensures Exact(s') <==> Accountable(s, act)
  {
    var u := s.accounts[act.account];
    var home := act.organizationAccount;
    assert Gap(s'.accounts, home) == RefileGap(s, act, home);
    if u.parent.Some? {
      CounterCoversChild(s, act.account);
      assert Gap(s'.accounts, u.parent.value) == RefileGap(s, act, u.parent.value);
    }
    if act.snapshotParent.Some? && act.snapshotParent.value in s.accounts {
      CountersNotNegative(s, act.snapshotParent.value);
      assert Gap(s'.accounts, act.snapshotParent.value) == RefileGap(s, act, act.snapshotParent.value);
    }
    if Accountable(s, act) {
      forall p | p in s'.accounts
        ensures Gap(s'.accounts, p) == 0
      {
      }
    }
  }

  /** A step keeps the counters exact if and only if it is accountable. */
  lemma ExactStep(s: State, act: Action, s': State)
    requires WellFormed(s) && Exact(s) && Step(s, act) == Some(s')
    ensures Exact(s') <==> Accountable(s, act)
  {
    match act
    case EnsureMaster =>
      if s' != s {
        NewAccountGap(s, MASTER, NewAccount(Scope.Master, None, None, None));
      }
    case EnsureOrganization(organization, parent) =>
      if s' != s {
        NewAccountGap(s, s.nextAccount, NewAccount(Scope.Organization, Some(parent), Some(organization), None));
      }
    case EnsureUser(_, _, _, _) => EnsureUserExact(s, act, s');
    case TopUp(_, _) => TopUpExact(s, act, s');
    case Allocate(_, _, _) => AllocateExact(s, act, s');
    case SetAllocation(_, _, _) => SetAllocationExact(s, act, s');
    case Reserve(id, _, _, _) => CountersOnly(s, s', id, s'.accounts[id]);
    case Commit(r, _) => CountersOnly(s, s', s.open[r].account, s'.accounts[s.open[r].account]);
    case Refund(r) => CountersOnly(s, s', s.open[r].account, s'.accounts[s.open[r].account]);
    case Refile(_, _, _, _, _) => RefileExact(s, act, s');
    case Reconcile(id) => CountersOnly(s, s', id, s'.accounts[id]);
  }

  // ----- Whole calls on a user account -----

  /** A transfer to a child already filed under the source moves no gap, exact or not. */
  lemma TransferKeepsGaps(s: State, act: Action, s': State, p: AccountId)
    requires act.SetAllocation? || act.Allocate?
    requires Step(s, act) == Some(s') && p in s.accounts
    requires s.accounts[act.target].parent == Some(act.source)
    ensures s'.accounts.Keys == s.accounts.Keys && Gap(s'.accounts, p) == Gap(s.accounts, p)
  {
    if s' != s {
      GapPut(s.accounts, act.source, s'.accounts[act.source], p);
      GapPut(s.accounts[act.source := s'.accounts[act.source]], act.target, s'.accounts[act.target], p);
      assert s'.accounts == s.accounts[act.source := s'.accounts[act.source]][act.target := s'.accounts[act.target]];
    }
  }

  /**
   `allocate` and `setAllocation` for a user look the user's account up first, and the lookup itself
   refiles it under the source. So the whole call keeps the counters exact if and only if the account
   was unfunded or already filed there: the re-parenting branch of `setAllocation` comes too late.
   */
  lemma UserCallExact(s: State, lookup: Action, transfer: Action)
    requires WellFormed(s) && Exact(s)
    requires lookup.EnsureUser? && lookup.found.Some? && Step(s, lookup).Some?
    requires transfer.SetAllocation? || transfer.Allocate?
    requires transfer.source == lookup.parent && transfer.target == lookup.found.value
    ensures Exact(Next(Next(s, lookup), transfer)) <==> Accountable(s, lookup)
  {
    var s1 := Next(s, lookup);
    ExactStep(s, lookup, s1);
    if Step(s1, transfer).Some? {
      var s2 := Next(s1, transfer);
      forall p | p in s1.accounts
        ensures s2.accounts.Keys == s1.accounts.Keys && Gap(s2.accounts, p) == Gap(s1.accounts, p)
      {
        TransferKeepsGaps(s1, transfer, s2, p);
      }
    }
  }

  // ----- Runs -----

  /** Every step of the run either was rejected or was accountable in the state it met. */
  ghost predicate AccountableRun(s: State, acts: seq<Action>)
    decreases |acts|
  {
    acts == []
    || (var before, act := Run(s, acts[..|acts| - 1]), acts[|acts| - 1];
        AccountableRun(s, acts[..|acts| - 1]) && (Step(before, act).Some? ==> Accountable(before, act)))
  }

  ghost predicate ExactThroughout(s: State, acts: seq<Action>) {
    forall n :: 0 <= n <= |acts| ==> Exact(Run(s, acts[..n]))
  }

  lemma {:induction false} WellFormedRun(s: State, acts: seq<Action>)
    requires WellFormed(s)
    ensures WellFormed(Run(s, acts))
    decreases |acts|
  {
    if acts != [] {
      WellFormedRun(s, acts[..|acts| - 1]);
      WellFormedStep(Run(s, acts[..|acts| - 1]), acts[|acts| - 1]);
    }
  }

  /** Over any run, the counters are exact at every point if and only if every step is accountable. */
  lemma {:induction false} ExactRuns(s: State, acts: seq<Action>)
    requires WellFormed(s) && Exact(s)
    ensures ExactThroughout(s, acts) <==> AccountableRun(s, acts)
    decreases |acts|
  {
    assert acts[..|acts|] == acts;
    if acts != [] {
      var init, act := acts[..|acts| - 1], acts[|acts| - 1];
      ExactRuns(s, init);
      WellFormedRun(s, init);
      assert forall n :: 0 <= n <= |init| ==> acts[..n] == init[..n];
      assert init[..|init|] == init;
      var before := Run(s, init);
      if Exact(before) && Step(before, act).Some? {
        ExactStep(before, act, Step(before, act).value);
      }
    }
  }

  lemma EmptyIsExact()
    ensures WellFormed(EMPTY) && Exact(EMPTY)
  {
  }

  /** On an accountable run from the empty ledger, a re-parenting always releases the full allocation. */
  lemma ReleaseNeverTruncates(acts: seq<Action>, c: AccountId)
    requires AccountableRun(EMPTY, acts)
    requires c in Run(EMPTY, acts).accounts && Run(EMPTY, acts).accounts[c].parent.Some?
    ensures var s := Run(EMPTY, acts);
            var child := s.accounts[c];
            && child.parent.value in s.accounts
            && SubtractChild(s.accounts[child.parent.value], child.allotted)
               == s.accounts[child.parent.value].child - child.allotted
  {
    ExactRuns(EMPTY, acts);
    WellFormedRun(EMPTY, acts);
    assert acts[..|acts|] == acts;
    CounterCoversChild(Run(EMPTY, acts), c);
  }
}
