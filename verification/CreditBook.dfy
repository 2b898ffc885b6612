/**
 The credit service as an object that updates its tables in place. Every method is proved against
 the state machine of `Ledger`: single transactions against one step, whole calls against a run.
 */
module CreditBook {
  import opened Common
  import opened Pricing
  import opened Ledger
  import opened LedgerTree
  import opened LedgerReservations

  /** `take: 1000` in the query of `reconcileOverdrawnUsageAccounts`. */
  const RECONCILE_LIMIT := 1000

  class Book {
    var accounts: map<AccountId, Account>
    var entries: seq<Entry>
    var open: map<nat, Request>
    var nextAccount: nat
    var nextRequest: nat

    ghost function Now(): State
      reads this
    {
      State(accounts, entries, open, nextAccount, nextRequest)
    }

    constructor ()
      ensures Now() == EMPTY
    {
      accounts, entries, open, nextAccount, nextRequest := map[], [], map[], 1, 0;
    }

    method EnsureMaster()
      modifies this
      ensures Now() == Next(old(Now()), Action.EnsureMaster)
      ensures accounts
           == if MASTER in old(accounts) then old(accounts)
              else old(accounts)[MASTER := Account(Scope.Master, None, None, None, 0, 0, 0, 0, false, Active)]
    {
      if MASTER !in accounts {
        accounts := accounts[MASTER := NewAccount(Scope.Master, None, None, None)];
      }
    }

    /** `ensureOrganizationAccount`: the organization's account, created under `parent` when there is none. */
    method EnsureOrganization(organization: nat, parent: AccountId) returns (id: Option<AccountId>)
      requires nextAccount !in accounts
      modifies this
      ensures Now() == Next(old(Now()), Action.EnsureOrganization(organization, parent))
      ensures id.None? ==> parent !in accounts && Now() == old(Now())
      ensures id.Some? ==> id.value in accounts && accounts[id.value].scope.Organization?
                           && accounts[id.value].organization == Some(organization)
      ensures old(accounts).Keys <= accounts.Keys && forall k :: k in old(accounts) ==> accounts[k] == old(accounts[k])
      ensures id.Some? && id.value in old(accounts) ==> accounts == old(accounts)
      ensures id.Some? && id.value !in old(accounts) ==>
                accounts
                == old(accounts)[id.value := Account(Scope.Organization, Some(parent), Some(organization), None,
                                                     0, 0, 0, 0, false, Active)]
      ensures (exists k :: k in old(accounts) && IsOrganizationAccount(old(accounts)[k], organization)) ==>
                id.Some? && id.value in old(accounts)
    {
      if exists k :: k in accounts && IsOrganizationAccount(accounts[k], organization) {
        var k :| k in accounts && IsOrganizationAccount(accounts[k], organization);
        return Some(k);
      }
      if parent !in accounts {
        return None;
      }
      id := Some(nextAccount);
      accounts := accounts[nextAccount := NewAccount(Scope.Organization, Some(parent), Some(organization), None)];
      nextAccount := nextAccount + 1;
    }

    /** `ensureUserAccount`: an account that the lookup finds is refiled under `parent` on the spot. */
    method EnsureUser(user: nat, home: Option<nat>, parent: AccountId)
        returns (id: Option<AccountId>, ghost lookup: Action)
      requires WellFormed(Now())
      modifies this
      ensures lookup.EnsureUser? && lookup.user == user && lookup.home == home && lookup.parent == parent
      ensures lookup.found.Some? <==> HasUserAccount(old(Now()), user)
      ensures WellFormed(Now()) && Now() == Next(old(Now()), lookup)
      ensures id.Some? <==> Step(old(Now()), lookup).Some?
      ensures id.Some? ==> id.value in accounts && IsUserAccount(accounts[id.value], user)
                           && accounts[id.value].parent == Some(parent) && accounts[id.value].organization == home
      ensures id.Some? && lookup.found.Some? ==> id == lookup.found
      ensures id.Some? && id.value in old(accounts) ==>
                accounts
                == old(accounts)[id.value := old(accounts)[id.value].(organization := home, parent := Some(parent))]
      ensures id.Some? && id.value !in old(accounts) ==>
                accounts == old(accounts)[id.value := Account(Scope.User, Some(parent), home, Some(user),
                                                              0, 0, 0, 0, false, Active)]
      ensures id.None? ==> parent !in old(accounts) && Now() == old(Now())
    {
      if k :| k in accounts && IsUserAccount(accounts[k], user) {
        lookup := Action.EnsureUser(user, home, parent, Some(k));
        WellFormedStep(Now(), lookup);
        if accounts[k].organization != home || accounts[k].parent != Some(parent) {
          if parent !in accounts {
            return None, lookup;
          }
          accounts := accounts[k := accounts[k].(organization := home, parent := Some(parent))];
        }
        return Some(k), lookup;
      }
      lookup := Action.EnsureUser(user, home, parent, None);
      WellFormedStep(Now(), lookup);
      if parent !in accounts {
        return None, lookup;
      }
      id := Some(nextAccount);
      accounts := accounts[nextAccount := NewAccount(Scope.User, Some(parent), home, Some(user))];
      nextAccount := nextAccount + 1;
    }

    /**
     `setAllocation` on a user, run alone: the lookup, then the transfer. From exact counters it ends in
     exact counters if and only if the user's account was unfunded or already filed under the source.
     */
    method SetUserAllocation(source: AccountId, user: nat, home: Option<nat>, amount: int)
      returns (ok: bool, ghost lookup: Action)
      requires WellFormed(Now())
      modifies this
      ensures lookup.EnsureUser? && (lookup.found.Some? <==> HasUserAccount(old(Now()), user))
      ensures ok ==> exists id :: id in accounts && IsUserAccount(accounts[id], user)
                                  && accounts[id].allotted == Clamp(amount) && accounts[id].parent == Some(source)
      ensures old(Exact(Now())) ==>
                (Exact(Now()) <==> Step(old(Now()), lookup).None? || Accountable(old(Now()), lookup))
    {
      ghost var s := Now();
      var id;
      id, lookup := EnsureUser(user, home, source);
      if id.None? {
        return false, lookup;
      }
      ghost var transfer := Action.SetAllocation(source, id.value, amount);
      ghost var s1 := Now();
      ok := SetAllocation(source, id.value, amount);
      assert Now() == Next(s1, transfer);
      if Exact(s) {
        if lookup.found.Some? {
          UserCallExact(s, lookup, transfer);
        } else {
          StepKeepsExact(s, lookup);
          StepKeepsExact(s1, transfer);
        }
      }
      assert ok ==> id.value in accounts && IsUserAccount(accounts[id.value], user);
    }

    method TopUp(id: AccountId, amount: int) returns (ok: bool)
      modifies this
      ensures Now() == Next(old(Now()), Action.TopUp(id, amount))
      ensures ok <==> id in old(accounts)
      ensures !ok ==> Now() == old(Now())
      ensures ok ==>
                var a, granted := old(accounts)[id], Max(amount, 0);
                && accounts == old(accounts)[id := a.(allotted := a.allotted + granted, status := Active)]
                && entries == old(entries) + [Entry(id, if id == MASTER then MasterTopUp else ManualExtension, granted,
                                                    a.Available(), a.Available() + granted, 0)]
    {
      if id !in accounts {
        return false;
      }
      var account := accounts[id];
      var granted := Clamp(amount);
      accounts := accounts[id := account.(allotted := account.allotted + granted, status := Active)];
      var kind := if id == MASTER then MasterTopUp else ManualExtension;
      entries := entries + [Entry(id, kind, granted, account.Available(), accounts[id].Available(), 0)];
      return true;
    }

    method Allocate(source: AccountId, target: AccountId, amount: int) returns (ok: bool)
      modifies this
      ensures Now() == Next(old(Now()), Action.Allocate(source, target, amount))
      ensures ok <==> source != target && source in old(accounts) && target in old(accounts)
                      && Max(amount, 0) <= old(accounts)[source].Available()
      ensures !ok ==> Now() == old(Now())
      ensures ok ==>
                var from, to: Account := old(accounts)[source], old(accounts)[target];
                var granted: int := Max(amount, 0);
                && accounts == old(accounts)[source := from.(child := from.child + granted)]
                                            [target := to.(allotted := to.allotted + granted, parent := Some(source),
                                                           status := Active)]
                && entries == old(entries)
                     + [Entry(source, Allocation, -granted, from.Available(), from.Available() - granted, 0)]
                     + [Entry(target, Allocation, granted, to.Available(), to.Available() + granted, 0)]
    {
      if source == target || source !in accounts || target !in accounts {
        return false;
      }
      var granted: int := Clamp(amount);
      var from, to := accounts[source], accounts[target];
      if from.Available() < granted {
        return false;
      }
      accounts := accounts[source := from.(child := from.child + granted)];
      accounts := accounts[target := to.(allotted := to.allotted + granted, parent := Some(source), status := Active)];
      entries := entries + [Entry(source, Allocation, -granted, from.Available(), accounts[source].Available(), 0)];
      entries := entries + [Entry(target, Allocation, granted, to.Available(), accounts[target].Available(), 0)];
      return true;
    }

    /** The old parent's counter is rewritten in place, saturating at zero. */
    method Release(parent: Option<AccountId>, amount: int)
      modifies this`accounts
      ensures Now() == ReleaseFromParent(old(Now()), parent, amount)
    {
      if parent.Some? && parent.value in accounts {
        var p := accounts[parent.value];
        accounts := accounts[parent.value := p.(child := SubtractChild(p, amount))];
      }
    }

    method SetAllocation(source: AccountId, target: AccountId, amount: int) returns (ok: bool)
      modifies this
      ensures ok <==> SetAllocationTx(old(Now()), source, target, amount).Some?
      ensures Now() == if ok then SetAllocationTx(old(Now()), source, target, amount).value else old(Now())
      ensures ok <==> source != target && source in old(accounts) && target in old(accounts)
                      && Settable(old(accounts)[source], old(accounts)[target], source, Max(amount, 0))
      ensures ok ==> IsSet(old(Now()), source, target, Max(amount, 0), Now())
    {
      SetAllocationEffect(Now(), source, target, amount);
      ok := CheckAndTransfer(source, target, amount);
    }

    /** The checks of `setAllocation`, then its writes. */
    method CheckAndTransfer(source: AccountId, target: AccountId, amount: int) returns (ok: bool)
      modifies this
      ensures ok <==> SetAllocationTx(old(Now()), source, target, amount).Some?
      ensures Now() == if ok then SetAllocationTx(old(Now()), source, target, amount).value else old(Now())
    {
      if source == target || source !in accounts || target !in accounts {
        return false;
      }
      var wanted := Clamp(amount);
      var from, to := accounts[source], accounts[target];
      if wanted < to.Spent() {
        return false;
      }
      var moved := to.parent != Some(source);
      var delta := wanted - to.allotted;
      if delta == 0 && !moved {
        return true;
      }
      var required := if moved then wanted else delta;
      if required > 0 && from.Available() < required {
        return false;
      }
      Transfer(source, target, wanted, moved, required);
      return true;
    }

    /** The writes of `setAllocation`, once its checks have passed. */
    method Transfer(source: AccountId, target: AccountId, wanted: nat, moved: bool, required: int)
      requires source != target && source in accounts && target in accounts
      requires moved == (accounts[target].parent != Some(source))
      requires required == if moved then wanted else wanted - accounts[target].allotted
      requires SetAllocationTx(Now(), source, target, wanted).Some? && (moved || required != 0)
      modifies this
      ensures Now() == SetAllocationTx(old(Now()), source, target, wanted).value
    {
      var from, to := accounts[source], accounts[target];
      var delta := wanted - to.allotted;
      if moved {
        Release(to.parent, to.allotted);
      }
      accounts := accounts[source := from.(child := from.child + required)];
      accounts := accounts[target := accounts[target].(
        allotted := wanted, parent := Some(source), status := if wanted > 0 then Active else to.status)];
      entries := entries + [Entry(source, Allocation, -delta, from.Available(), accounts[source].Available(), 0)];
      entries := entries + [Entry(target, Allocation, delta, to.Available(), accounts[target].Available(), 0)];
    }

    method Reserve(id: AccountId, pricing: PricingRecord, estimate: Usage, search: bool) returns (request: Option<nat>)
      modifies this
      ensures Now() == Next(old(Now()), Action.Reserve(id, pricing, estimate, search))
      ensures request == if Step(old(Now()), Action.Reserve(id, pricing, estimate, search)).Some?
                         then Some(old(nextRequest)) else None
      ensures request.Some? <==>
                id in old(accounts) && !old(accounts)[id].status.Disabled?
                && (old(accounts)[id].unlimited || Credits(pricing, estimate) <= old(accounts)[id].Available())
      ensures request.None? ==> Now() == old(Now())
      ensures request.Some? ==>
                var a, held: int := old(accounts)[id], Credits(pricing, estimate);
                && accounts == old(accounts)[id := a.(reserved := a.reserved + held)]
                && entries == old(entries) + [Entry(id, Reservation, held, a.Available(), a.Available() - held, 0)]
    {
      if id !in accounts || accounts[id].status.Disabled? {
        return None;
      }
      var account, amount := accounts[id], Credits(pricing, estimate);
      if !account.unlimited && account.Available() < amount {
        return None;
      }
      accounts := accounts[id := account.(reserved := account.reserved + amount)];
      entries := entries + [Entry(id, Reservation, amount, account.Available(), accounts[id].Available(), 0)];
      request := Some(nextRequest);
      open := open[nextRequest := Request(id, pricing, estimate, search)];
      nextRequest := nextRequest + 1;
    }

    method Commit(request: nat, response: Response) returns (charged: nat, unbilled: nat)
      requires request in open && open[request].account in accounts
      modifies this
      ensures Now() == Next(old(Now()), Action.Commit(request, response))
      ensures charged + unbilled == ActualCredits(old(open[request]), response)
      ensures charged
                == Chargeable(old(accounts[open[request].account]), old(open[request]).Amount(), charged + unbilled)
      ensures unbilled
                == Unbilled(old(accounts[open[request].account]), old(open[request]).Amount(), charged + unbilled)
      ensures var id := old(open[request].account);
              var held := Credits(old(open[request].pricing), old(open[request].estimate));
              var a := old(accounts)[id];
              && charged == (if a.unlimited then charged + unbilled
                             else Min(charged + unbilled, Max(a.Available() + held, 0)))
              && accounts == old(accounts)[id := a.(reserved := a.reserved - held, used := a.used + charged)]
              && entries == old(entries) + [Entry(id, UsageCommit, charged, a.Available(),
                                                  a.Available() + held - charged, held)]
    {
      var r := open[request];
      var account, reserved := accounts[r.account], r.Amount();
      var actual := ActualCredits(r, response);
      var releasable := account.Available() + reserved;
      if account.unlimited || actual <= releasable {
        charged := actual;
      } else {
        charged := if releasable > 0 then releasable else 0;
      }
      unbilled := if actual > charged then actual - charged else 0;
      var settled := account.(reserved := account.reserved - reserved, used := account.used + charged);
      accounts := accounts[r.account := settled];
      entries := entries
        + [Entry(r.account, UsageCommit, charged, account.Available(), accounts[r.account].Available(), reserved)];
      open := open - {request};
    }

    method Refund(request: nat)
      requires request in open && open[request].account in accounts
      modifies this
      ensures Now() == Next(old(Now()), Action.Refund(request))
      ensures var id := old(open[request].account);
              var a, held: int := old(accounts)[id], Credits(old(open[request].pricing), old(open[request].estimate));
              && accounts == old(accounts)[id := a.(reserved := a.reserved - held)]
              && entries == old(entries) + [Entry(id, ReservationRefund, -held, a.Available(), a.Available() + held, 0)]
    {
      var r := open[request];
      var account := accounts[r.account];
      var reserved: int := r.Amount();
      accounts := accounts[r.account := account.(reserved := account.reserved - reserved)];
      entries := entries
        + [Entry(r.account, ReservationRefund, -reserved, account.Available(), accounts[r.account].Available(), 0)];
      open := open - {request};
    }

    /**
     `proxyGeminiGenerate` run alone: reserve, call the model, then commit its response or refund when
     it failed. A failed call leaves every account as it was; a successful one within its estimate is
     charged in full.
     */
    method ProxyGenerate(id: AccountId, pricing: PricingRecord, estimate: Usage, search: bool,
                         outcome: Option<Response>)
      returns (served: bool, charged: nat, unbilled: nat)
      requires Sane(Now())
      modifies this
      ensures Sane(Now()) && open == old(open)
      ensures served <==>
                outcome.Some? && id in old(accounts) && !old(accounts)[id].status.Disabled?
                && (old(accounts)[id].unlimited || Credits(pricing, estimate) <= old(accounts)[id].Available())
      ensures !served ==> accounts == old(accounts) && charged == 0 && unbilled == 0
      ensures served ==>
                var a := old(accounts)[id];
                && IsBill(outcome.value, pricing, estimate, search, charged + unbilled)
                && charged == (if a.unlimited then charged + unbilled else Min(charged + unbilled, a.Available()))
                && accounts == old(accounts)[id := a.(used := a.used + charged)]
      ensures served && Within(ActualUsage(outcome.value, pricing, estimate, search), estimate) ==> unbilled == 0
    {
      ghost var s0 := Now();
      var request := Reserve(id, pricing, estimate, search);
      if request.None? {
        return false, 0, 0;
      }
      served := outcome.Some?;
      charged, unbilled := Finish(s0, id, pricing, estimate, search, request.value, outcome);
    }

    /** The part of `proxyGeminiGenerate` after the reservation: commit the response, or refund. */
    method Finish(ghost s0: State, id: AccountId, pricing: PricingRecord, estimate: Usage, search: bool, request: nat,
                  outcome: Option<Response>)
      returns (charged: nat, unbilled: nat)
      requires Sane(s0) && ReserveTx(s0, id, pricing, estimate, search) == Some(Now()) && request == s0.nextRequest
      modifies this
      ensures Sane(Now()) && open == s0.open && id in s0.accounts
      ensures outcome.None? ==> accounts == s0.accounts && charged == 0 && unbilled == 0
      ensures outcome.Some? ==>
                && IsBill(outcome.value, pricing, estimate, search, charged + unbilled)
                && IsServed(s0, Now(), id, charged + unbilled, charged)
                && (Within(ActualUsage(outcome.value, pricing, estimate, search), estimate) ==> unbilled == 0)
    {
      if outcome.None? {
        FailedCall(s0, id, pricing, estimate, search);
        Refund(request);
        return 0, 0;
      }
      ghost var s1 := Now();
      RequestIsOpen(s0, id, pricing, estimate, search, s1);
      charged, unbilled := Commit(request, outcome.value);
      CallServed(s0, s1, Now(), id, pricing, estimate, search, outcome.value, charged, unbilled);
    }

    /** One transaction of `reconcileUserAccountParents`, from a row read earlier. */
    method Refile(user: AccountId, home: AccountId, organization: nat, parent: Option<AccountId>, amount: nat)
      requires user != home && user in accounts && home in accounts
      modifies this`accounts
      ensures Now() == Next(old(Now()), Action.Refile(user, home, organization, parent, amount))
      ensures accounts.Keys == old(accounts).Keys
      ensures forall k :: k in accounts ==>
                accounts[k] == RefiledRow(k, old(accounts)[k], user, home, organization, parent, amount)
    {
      ghost var before := Now();
      FileUnder(user, home, organization, parent, amount);
      RefileRows(before, user, home, organization, parent, amount, Now());
    }

    method FileUnder(user: AccountId, home: AccountId, organization: nat, parent: Option<AccountId>, amount: nat)
      requires user != home && user in accounts && home in accounts
      modifies this`accounts
      ensures RefileTx(old(Now()), user, home, organization, parent, amount) == Some(Now())
    {
      Release(parent, amount);
      accounts := accounts[home := accounts[home].(child := accounts[home].child + amount)];
      accounts := accounts[user := accounts[user].(parent := Some(home), organization := Some(organization))];
    }

    /** `reconcileOverdrawnUsageAccounts`: gives back usage until the listed accounts are no longer overdrawn. */
    method ReconcileOverdrawn(rows: seq<AccountId>) returns (ghost acts: seq<Action>)
      requires |rows| <= RECONCILE_LIMIT
      requires forall r :: r in rows ==> r in accounts && !accounts[r].unlimited
      modifies this
      ensures Now() == Run(old(Now()), acts) && forall act :: act in acts ==> act.Reconcile?
      ensures accounts.Keys == old(accounts.Keys)
      ensures forall id :: id in accounts ==>
                accounts[id] == if id in rows then Reconciled(old(accounts)[id]) else old(accounts)[id]
    {
      acts := [];
      var snapshot := accounts;
      ghost var start := Now();
      for i := 0 to |rows|
        invariant Now() == Run(start, acts) && forall act :: act in acts ==> act.Reconcile?
        invariant accounts.Keys == snapshot.Keys
        invariant forall id :: id in accounts ==>
                    accounts[id] == if id in rows[..i] then Reconciled(snapshot[id]) else snapshot[id]
      {
        var account := snapshot[rows[i]];
        if account.Deficit() > 0 && account.used > 0 {
          ReconcileOne(rows[i]);
          RunAppend(start, acts, Action.Reconcile(rows[i]));
          acts := acts + [Action.Reconcile(rows[i])];
        }
      }
    }

    /** One transaction of `reconcileOverdrawnUsageAccounts`, on the latest row. */
    method ReconcileOne(id: AccountId)
      requires id in accounts && !accounts[id].unlimited
      modifies this
      ensures Now() == Next(old(Now()), Action.Reconcile(id))
      ensures accounts == old(accounts)[id := Reconciled(old(accounts)[id])]
    {
      var latest := accounts[id];
      if latest.Deficit() > 0 && latest.used > 0 {
        var correction: int := Min(latest.Deficit(), latest.used);
        accounts := accounts[id := latest.(used := latest.used - correction)];
        entries := entries + [Entry(id, Adjustment, -correction, latest.Available(), accounts[id].Available(), 0)];
      }
    }

    /** One iteration of `reconcileUserAccountParents` on the row it read. */
    method FileOne(user: AccountId, organization: nat, parent: Option<AccountId>, amount: nat, home: Option<nat>)
      returns (ok: bool, ghost acts: seq<Action>)
      requires WellFormed(Now()) && user in accounts && accounts[user].scope.User?
      requires accounts[user].parent == parent && accounts[user].allotted == amount
      requires accounts[user].organization == home
      modifies this
      ensures Now() == Run(old(Now()), acts) && AreFilings(acts)
      ensures ok <== MASTER in old(accounts)
      ensures WellFormed(Now()) && (old(Exact(Now())) ==> Exact(Now()))
      ensures OnlyMoves(old(accounts), accounts, [user])
      ensures user in accounts && (ok ==> accounts[user].organization == Some(organization))
      ensures ok ==> accounts[user].parent.Some? && accounts[user].parent.value in accounts
                     && IsOrganizationAccount(accounts[accounts[user].parent.value], organization)
    {
      ghost var s0 := Now();
      ghost var lookup := Action.EnsureOrganization(organization, MASTER);
      var found := EnsureOrganization(organization, MASTER);
      StepKeepsExact(s0, lookup);
      acts := [lookup];
      NothingMoved(s0.accounts, accounts, [user]);
      assert Run(s0, acts) == Next(s0, lookup) by { RunAppend(s0, [], lookup); assert [] + [lookup] == acts; }
      if found.None? {
        return false, acts;
      }
      if parent != found || home != Some(organization) {
        ghost var s1 := Now();
        ghost var refile := Action.Refile(user, found.value, organization, parent, amount);
        RefileCurrentRow(s1, user, found.value, organization);
        Refile(user, found.value, organization, parent, amount);
        RefileMoves(s1.accounts, accounts, user, found.value, organization, parent, amount);
        MovesCompose(s0.accounts, s1.accounts, accounts, [user], [user]);
        RunAppend(s0, acts, refile);
        acts := acts + [refile];
      }
      ok := true;
    }

    /**
     `reconcileUserAccountParents` run alone: files every listed user account under the account of the
     user's organization, keeping the counters exact.
     */
    method ReconcileParents(rows: seq<AccountId>, homes: map<nat, nat>) returns (ok: bool, ghost acts: seq<Action>)
      requires WellFormed(Now())
      requires forall r :: r in rows ==>
                 r in accounts && accounts[r].scope.User? && accounts[r].user.Some? && accounts[r].user.value in homes
      requires forall i, j :: 0 <= i < j < |rows| ==> rows[i] != rows[j]
      modifies this
      ensures Now() == Run(old(Now()), acts) && AreFilings(acts)
      ensures ok <== MASTER in old(accounts)
      ensures ok ==> forall r :: r in rows ==> Filed(accounts, r, homes)
      ensures OnlyMoves(old(accounts), accounts, rows)
      ensures WellFormed(Now()) && (old(Exact(Now())) ==> Exact(Now()))
    {
      acts := [];
      var snapshot := accounts;
      ghost var start := Now();
      for i := 0 to |rows|
        invariant Now() == Run(start, acts) && AreFilings(acts)
        invariant WellFormed(Now()) && (Exact(start) ==> Exact(Now()))
        invariant OnlyMoves(snapshot, accounts, rows[..i])
        invariant forall j :: 0 <= j < i ==> Filed(accounts, rows[j], homes)
      {
        var account := snapshot[rows[i]];
        NotYetMoved(snapshot, accounts, rows, i);
        ghost var before := accounts;
        ghost var done;
        ok, done := FileOne(rows[i], homes[account.user.value], account.parent, account.allotted, account.organization);
        FiledNext(snapshot, before, accounts, rows, homes, i);
        RunConcat(start, acts, done);
        acts := acts + done;
        if !ok {
          MovesWiden(snapshot, accounts, rows, i + 1);
          return false, acts;
        }
      }
      assert rows[..|rows|] == rows;
      ok := true;
    }
  }

  type Accounts = map<AccountId, Account>

  ghost predicate Filed(accounts: Accounts, id: AccountId, homes: map<nat, nat>) {
    && id in accounts && accounts[id].user.Some? && accounts[id].user.value in homes
    && var organization := homes[accounts[id].user.value];
       && accounts[id].organization == Some(organization)
       && accounts[id].parent.Some? && accounts[id].parent.value in accounts
       && IsOrganizationAccount(accounts[accounts[id].parent.value], organization)
  }

  /** No account is lost; only the listed ones may change parent and organization, and otherwise only counters move. */
  ghost predicate OnlyMoves(before: Accounts, after: Accounts, rows: seq<AccountId>) {
    && before.Keys <= after.Keys
    && forall id :: id in before ==>
         SameOwner(after[id], before[id])
         && (id !in rows ==> after[id].parent == before[id].parent && after[id].organization == before[id].organization)
  }

  lemma NothingMoved(before: Accounts, after: Accounts, rows: seq<AccountId>)
    requires before.Keys <= after.Keys && forall id :: id in before ==> after[id] == before[id]
    ensures OnlyMoves(before, after, rows)
  {
  }

  lemma RefileMoves(before: Accounts, after: Accounts, user: AccountId, home: AccountId, organization: nat,
                    parent: Option<AccountId>, amount: nat)
    requires user in before && before[user].scope.User? && after.Keys == before.Keys
    requires forall k :: k in before ==>
               after[k] == RefiledRow(k, before[k], user, home, organization, parent, amount)
    ensures OnlyMoves(before, after, [user])
  {
  }

  lemma MovesCompose(a: Accounts, b: Accounts, c: Accounts, rows: seq<AccountId>, more: seq<AccountId>)
    requires OnlyMoves(a, b, rows) && OnlyMoves(b, c, more)
    ensures OnlyMoves(a, c, rows + more)
    ensures more == rows ==> OnlyMoves(a, c, rows)
  {
    forall id | id in a
      ensures SameOwner(c[id], a[id])
      ensures id !in rows && id !in more ==> c[id].parent == a[id].parent && c[id].organization == a[id].organization
    {
      assert SameOwner(b[id], a[id]) && SameOwner(c[id], b[id]);
    }
  }

  lemma MovesWiden(before: Accounts, after: Accounts, rows: seq<AccountId>, n: nat)
    requires n <= |rows| && OnlyMoves(before, after, rows[..n])
    ensures OnlyMoves(before, after, rows)
  {
  }

  /** Rows that come later in the list are still as they were read. */
  lemma NotYetMoved(before: Accounts, after: Accounts, rows: seq<AccountId>, i: nat)
    requires i < |rows| && rows[i] in before && OnlyMoves(before, after, rows[..i])
    requires forall j, k :: 0 <= j < k < |rows| ==> rows[j] != rows[k]
    ensures rows[i] in after && SameOwner(after[rows[i]], before[rows[i]])
    ensures after[rows[i]].parent == before[rows[i]].parent
    ensures after[rows[i]].organization == before[rows[i]].organization
  {
  }

  /** The steps of the reconciler: looking up organization accounts, and refiling. */
  ghost predicate AreFilings(acts: seq<Action>) {
    forall act :: act in acts ==> act.EnsureOrganization? || act.Refile?
  }

  lemma FiledNext(start: Accounts, before: Accounts, after: Accounts, rows: seq<AccountId>, homes: map<nat, nat>,
                  i: nat)
    requires i < |rows| && OnlyMoves(start, before, rows[..i]) && OnlyMoves(before, after, [rows[i]])
    requires forall j, k :: 0 <= j < k < |rows| ==> rows[j] != rows[k]
    requires forall j :: 0 <= j < i ==> Filed(before, rows[j], homes)
    ensures OnlyMoves(start, after, rows[..i + 1])
    ensures forall j :: 0 <= j < i ==> Filed(after, rows[j], homes)
  {
    StillFiled(before, after, rows, homes, i);
    MovesCompose(start, before, after, rows[..i], [rows[i]]);
    assert rows[..i] + [rows[i]] == rows[..i + 1];
  }

  /** Accounts filed before stay filed while another one is. */
  lemma StillFiled(before: Accounts, after: Accounts, rows: seq<AccountId>, homes: map<nat, nat>, i: nat)
    requires i < |rows| && OnlyMoves(before, after, [rows[i]])
    requires forall j, k :: 0 <= j < k < |rows| ==> rows[j] != rows[k]
    requires forall j :: 0 <= j < i ==> Filed(before, rows[j], homes)
    ensures forall j :: 0 <= j < i ==> Filed(after, rows[j], homes)
  {
    forall j | 0 <= j < i
      ensures Filed(after, rows[j], homes)
    {
      var id := rows[j];
      assert Filed(before, id, homes) && id !in [rows[i]];
      var parent := before[id].parent.value;
      assert SameOwner(after[id], before[id]) && SameOwner(after[parent], before[parent]);
    }
  }

  /** An overdrawn row gives back just as much usage as brings it to zero, or all that it has. */
  function Reconciled(a: Account): (b: Account)
    ensures b == a.(used := b.used)
    ensures a.Available() >= 0 || a.used <= 0 ==> b == a
    ensures a.Available() < 0 < a.used ==> b.Available() == Min(0, a.Available() + a.used) && 0 <= b.used < a.used
  {
    if a.Available() < 0 < a.used then a.(used := Max(a.used + a.Available(), 0)) else a
  }

  /** `setAllocation` asks that the target's spending is covered, and that the source can pay what it has to add. */
  ghost predicate Settable(from: Account, to: Account, source: AccountId, wanted: nat) {
    && to.used + to.reserved + to.child <= wanted
    && (to.parent == Some(source) && wanted > to.allotted ==> wanted - to.allotted <= from.Available())
    && (to.parent != Some(source) && wanted > 0 ==> wanted <= from.Available())
  }

  /** The source's and the target's rows after `setAllocation`. */
  ghost predicate EndsSet(s: State, source: AccountId, target: AccountId, wanted: nat, s': State)
    requires source in s.accounts && target in s.accounts
  {
    var from, to := s.accounts[source], s.accounts[target];
    var moved := to.parent != Some(source);
    && s'.accounts.Keys == s.accounts.Keys && s'.open == s.open && s'.nextAccount == s.nextAccount
    && s'.accounts[source] == from.(child := from.child + (if moved then wanted else wanted - to.allotted))
    && s'.accounts[target].(child := to.child)
       == to.(allotted := wanted, parent := Some(source), status := if wanted > 0 then Active else to.status)
  }

  /** The other rows: only the old parent's child counter moves, by what it had allotted, saturating at zero. */
  ghost predicate OthersSet(s: State, source: AccountId, target: AccountId, s': State)
    requires source in s.accounts && target in s.accounts && s'.accounts.Keys == s.accounts.Keys
  {
    var to := s.accounts[target];
    && (forall k :: k in s.accounts && k != source ==>
          s'.accounts[k].child
          == if to.parent == Some(k) then Max(s.accounts[k].child - to.allotted, 0) else s.accounts[k].child)
    && (forall k :: k in s.accounts && k != source && k != target ==>
          s'.accounts[k] == s.accounts[k].(child := s'.accounts[k].child))
  }

  /** The two entries that `setAllocation` logs. */
  ghost predicate EntriesSet(s: State, source: AccountId, target: AccountId, wanted: nat, s': State)
    requires source in s.accounts && target in s.accounts && source in s'.accounts && target in s'.accounts
  {
    var from, to := s.accounts[source], s.accounts[target];
    s'.entries
    == s.entries
       + [Entry(source, Allocation, to.allotted - wanted, from.Available(), s'.accounts[source].Available(), 0)]
       + [Entry(target, Allocation, wanted - to.allotted, to.Available(), s'.accounts[target].Available(), 0)]
  }

  ghost predicate IsSet(s: State, source: AccountId, target: AccountId, wanted: nat, s': State)
    requires source in s.accounts && target in s.accounts
  {
    if s.accounts[target].parent == Some(source) && s.accounts[target].allotted == wanted then s' == s
    else
      && EndsSet(s, source, target, wanted, s') && OthersSet(s, source, target, s')
      && EntriesSet(s, source, target, wanted, s')
  }

  lemma SetAllocationEnds(s: State, source: AccountId, target: AccountId, amount: int, s': State)
    requires SetAllocationTx(s, source, target, amount) == Some(s') && s' != s
    ensures source in s.accounts && target in s.accounts && EndsSet(s, source, target, Max(amount, 0), s')
  {
  }

  lemma SetAllocationOthers(s: State, source: AccountId, target: AccountId, amount: int, s': State)
    requires SetAllocationTx(s, source, target, amount) == Some(s') && s' != s
    ensures source in s.accounts && target in s.accounts && s'.accounts.Keys == s.accounts.Keys
    ensures OthersSet(s, source, target, s')
  {
  }

  lemma SetAllocationEntries(s: State, source: AccountId, target: AccountId, amount: int, s': State)
    requires SetAllocationTx(s, source, target, amount) == Some(s') && s' != s
    ensures source in s.accounts && target in s.accounts && source in s'.accounts && target in s'.accounts
    ensures EntriesSet(s, source, target, Max(amount, 0), s')
  {
  }

  lemma SetAllocationLogs(s: State, source: AccountId, target: AccountId, amount: int, s': State)
    requires SetAllocationTx(s, source, target, amount) == Some(s')
    ensures source in s.accounts && target in s.accounts
    ensures if s.accounts[target].parent == Some(source) && s.accounts[target].allotted == Max(amount, 0) then s' == s
            else |s'.entries| == |s.entries| + 2
  {
  }

  lemma SetAllocationAllowed(s: State, source: AccountId, target: AccountId, amount: int)
    ensures SetAllocationTx(s, source, target, amount).Some?
            <==> source != target && source in s.accounts && target in s.accounts
                 && Settable(s.accounts[source], s.accounts[target], source, Max(amount, 0))
  {
  }

  lemma SetAllocationEffect(s: State, source: AccountId, target: AccountId, amount: int)
    ensures SetAllocationTx(s, source, target, amount).Some?
            <==> source != target && source in s.accounts && target in s.accounts
                 && Settable(s.accounts[source], s.accounts[target], source, Max(amount, 0))
    ensures SetAllocationTx(s, source, target, amount).Some? ==>
              IsSet(s, source, target, Max(amount, 0), SetAllocationTx(s, source, target, amount).value)
  {
    SetAllocationAllowed(s, source, target, amount);
    var r := SetAllocationTx(s, source, target, amount);
    if r.Some? {
      SetAllocationLogs(s, source, target, amount, r.value);
      if r.value != s {
        SetAllocationEnds(s, source, target, amount, r.value);
        SetAllocationOthers(s, source, target, amount, r.value);
        SetAllocationEntries(s, source, target, amount, r.value);
      }
    }
  }

  /** What a refiling changes: the user's parent and organization, and child counters. */
  lemma RefileRows(s: State, user: AccountId, home: AccountId, organization: nat, parent: Option<AccountId>,
                   amount: nat, s': State)
    requires RefileTx(s, user, home, organization, parent, amount) == Some(s')
    ensures s'.accounts.Keys == s.accounts.Keys && user in s.accounts
    ensures forall k :: k in s.accounts ==>
              s'.accounts[k] == RefiledRow(k, s.accounts[k], user, home, organization, parent, amount)
  {
  }

  /**
   Account `k` after a refiling: the user moves, the old parent's counter falls by the amount, but not below
   zero, and the new parent's counter rises by it.
   */
  function RefiledRow(k: AccountId, a: Account, user: AccountId, home: AccountId, organization: nat,
                      parent: Option<AccountId>, amount: nat): (b: Account)
    ensures b == a.(parent := b.parent, organization := b.organization, child := b.child)
    ensures b.parent == (if k == user then Some(home) else a.parent)
    ensures b.organization == (if k == user then Some(organization) else a.organization)
    ensures k != home && parent != Some(k) ==> b.child == a.child
    ensures k == home && parent != Some(k) ==> b.child == a.child + amount
    ensures k != home && parent == Some(k) ==> b.child == if a.child > amount then a.child - amount else 0
    ensures k == home && parent == Some(k) ==> b.child == if a.child > amount then a.child else amount
  {
    var moved := if k == user then a.(parent := Some(home), organization := Some(organization)) else a;
    var left := if parent == Some(k) then Max(a.child - amount, 0) else a.child;
    moved.(child := left + if k == home then amount else 0)
  }

  /** A refund leaves every account as it was before the reservation. */
  lemma RefundUndoesReserve(s: State, id: AccountId, pricing: PricingRecord, estimate: Usage, search: bool)
    requires s.nextRequest !in s.open
    requires ReserveTx(s, id, pricing, estimate, search).Some?
    ensures var reserved := ReserveTx(s, id, pricing, estimate, search).value;
            && RefundTx(reserved, s.nextRequest).Some?
            && RefundTx(reserved, s.nextRequest).value.accounts == s.accounts
            && RefundTx(reserved, s.nextRequest).value.open == s.open
  {
    var reserved := ReserveTx(s, id, pricing, estimate, search).value;
    var refunded := RefundTx(reserved, s.nextRequest).value;
    assert refunded.accounts == s.accounts[id := refunded.accounts[id]];
  }

  function Charged(a: Account, charged: nat): Account { a.(used := a.used + charged) }

  /** A commit right after its reservation moves exactly the charge into the used counter. */
  lemma CommitAfterReserve(s: State, id: AccountId, pricing: PricingRecord, estimate: Usage, search: bool,
                           response: Response)
    requires Sane(s) && ReserveTx(s, id, pricing, estimate, search).Some?
    ensures var reserved := ReserveTx(s, id, pricing, estimate, search).value;
            var committed := CommitTx(reserved, s.nextRequest, response);
            var request := Request(id, pricing, estimate, search);
            var actual := ActualCredits(request, response);
            && committed.Some? && committed.value.open == s.open
            && id in s.accounts && id in reserved.accounts
            && committed.value.accounts
               == s.accounts[id := Charged(s.accounts[id], Chargeable(reserved.accounts[id], request.Amount(), actual))]
            && (Within(ActualUsage(response, pricing, estimate, search), estimate) ==>
                  Unbilled(reserved.accounts[id], request.Amount(), actual) == 0)
  {
    var reserved := ReserveTx(s, id, pricing, estimate, search).value;
    if Within(ActualUsage(response, pricing, estimate, search), estimate) {
      ActualWithinEstimate(response, pricing, estimate, search);
    }
  }

  lemma FailedCall(s: State, id: AccountId, pricing: PricingRecord, estimate: Usage, search: bool)
    requires Sane(s) && ReserveTx(s, id, pricing, estimate, search).Some?
    ensures var reserved := Next(s, Action.Reserve(id, pricing, estimate, search));
            var refunded := Next(reserved, Action.Refund(s.nextRequest));
            && s.nextRequest in reserved.open && reserved.open[s.nextRequest].account in reserved.accounts
            && Sane(refunded) && refunded.accounts == s.accounts && refunded.open == s.open
  {
    var reserve := Action.Reserve(id, pricing, estimate, search);
    StepKeepsSane(s, reserve);
    StepKeepsSane(Next(s, reserve), Action.Refund(s.nextRequest));
    RefundUndoesReserve(s, id, pricing, estimate, search);
  }

  /** What a served call leaves behind, where `actual` is its cost. */
  ghost predicate IsServed(s: State, s': State, id: AccountId, actual: nat, charged: nat) {
    && id in s.accounts && s'.open == s.open
    && charged == (if s.accounts[id].unlimited then actual else Min(actual, s.accounts[id].Available()))
    && s'.accounts == s.accounts[id := s.accounts[id].(used := s.accounts[id].used + charged)]
  }

  lemma ServedIsSane(s: State, id: AccountId, pricing: PricingRecord, estimate: Usage, search: bool, response: Response)
    requires Sane(s)
    ensures Sane(Next(Next(s, Action.Reserve(id, pricing, estimate, search)), Action.Commit(s.nextRequest, response)))
  {
    var reserve := Action.Reserve(id, pricing, estimate, search);
    StepKeepsSane(s, reserve);
    StepKeepsSane(Next(s, reserve), Action.Commit(s.nextRequest, response));
  }

  lemma ServedCall(s: State, id: AccountId, pricing: PricingRecord, estimate: Usage, search: bool, response: Response)
    requires Sane(s) && ReserveTx(s, id, pricing, estimate, search).Some?
    ensures var reserved := Next(s, Action.Reserve(id, pricing, estimate, search));
            var committed := Next(reserved, Action.Commit(s.nextRequest, response));
            var request := Request(id, pricing, estimate, search);
            var actual := ActualUsage(response, pricing, estimate, search);
            && id in s.accounts && id in reserved.accounts
            && s.nextRequest in reserved.open && reserved.open[s.nextRequest] == request
            && IsServed(s, committed, id, Credits(pricing, actual),
                        Chargeable(reserved.accounts[id], request.Amount(), Credits(pricing, actual)))
            && (Within(actual, estimate) ==>
                Unbilled(reserved.accounts[id], request.Amount(), Credits(pricing, actual)) == 0)
  {
    CommitAfterReserve(s, id, pricing, estimate, search, response);
  }

  lemma RequestIsOpen(s: State, id: AccountId, pricing: PricingRecord, estimate: Usage, search: bool, s1: State)
    requires ReserveTx(s, id, pricing, estimate, search) == Some(s1)
    ensures s.nextRequest in s1.open && s1.open[s.nextRequest] == Request(id, pricing, estimate, search)
    ensures id in s.accounts && id in s1.accounts
  {
  }

  /** A call that was served: what it was billed, and the state it leaves. */
  lemma CallServed(s: State, s1: State, s2: State, id: AccountId, pricing: PricingRecord, estimate: Usage,
                   search: bool, response: Response, charged: nat, unbilled: nat)
    requires Sane(s) && ReserveTx(s, id, pricing, estimate, search) == Some(s1)
    requires s2 == Next(s1, Action.Commit(s.nextRequest, response)) && id in s1.accounts
    requires var request := Request(id, pricing, estimate, search);
             && charged + unbilled == ActualCredits(request, response)
             && charged == Chargeable(s1.accounts[id], request.Amount(), charged + unbilled)
             && unbilled == Unbilled(s1.accounts[id], request.Amount(), charged + unbilled)
    ensures Sane(s2) && IsBill(response, pricing, estimate, search, charged + unbilled)
    ensures IsServed(s, s2, id, charged + unbilled, charged)
    ensures Within(ActualUsage(response, pricing, estimate, search), estimate) ==> unbilled == 0
  {
    ServedCall(s, id, pricing, estimate, search, response);
    ServedIsSane(s, id, pricing, estimate, search, response);
    BilledAsReported(response, pricing, estimate, search);
  }

  lemma RefileCurrentRow(s: State, user: AccountId, home: AccountId, organization: nat)
    requires WellFormed(s) && user in s.accounts && home in s.accounts
    ensures s.accounts[user].allotted >= 0
    ensures var refile := Action.Refile(user, home, organization, s.accounts[user].parent, s.accounts[user].allotted);
            WellFormed(Next(s, refile)) && (Exact(s) ==> Exact(Next(s, refile)))
  {
    if Exact(s) {
      CurrentRowIsFresh(s, user, home);
    }
    StepKeepsExact(s, Action.Refile(user, home, organization, s.accounts[user].parent, s.accounts[user].allotted));
  }

  /** What a refiling never changes in a row. */
  ghost predicate SameOwner(a: Account, b: Account) {
    && a == b.(parent := a.parent, organization := a.organization, child := a.child)
    && (!b.scope.User? ==> a.organization == b.organization && a.parent == b.parent)
  }

  lemma RunAppend(s: State, acts: seq<Action>, act: Action)
    ensures Run(s, acts + [act]) == Next(Run(s, acts), act)
  {
    assert (acts + [act])[..|acts|] == acts;
  }

  lemma {:induction false} RunConcat(s: State, first: seq<Action>, second: seq<Action>)
    ensures Run(s, first + second) == Run(Run(s, first), second)
    decreases |second|
  {
    if second == [] {
      assert first + second == first;
    } else {
      var init := second[..|second| - 1];
      RunConcat(s, first, init);
      assert (first + second)[..|first + second| - 1] == first + init;
    }
  }

  lemma StepKeepsExact(s: State, act: Action)
    requires WellFormed(s)
    ensures WellFormed(Next(s, act))
    ensures Exact(s) && Accountable(s, act) ==> Exact(Next(s, act))
  {
    WellFormedStep(s, act);
    if Exact(s) && Step(s, act).Some? {
      ExactStep(s, act, Next(s, act));
    }
  }

  lemma StepKeepsSane(s: State, act: Action)
    requires Sane(s) && Accountable(s, act) && Affordable(s, act)
    ensures Sane(Next(s, act))
  {
    WellFormedStep(s, act);
    ReservedStep(s, act);
    if Step(s, act).Some? {
      ExactStep(s, act, Next(s, act));
      SolventStep(s, act, Next(s, act));
    }
  }
}
