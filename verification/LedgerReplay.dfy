/**
 Replaying the ledger entries of an account reproduces its counters and, when nothing moves unrecorded, its
 balance.
 */
module LedgerReplay {
  import opened Common
  import opened Ledger
  import opened LedgerTree

  datatype Replayed = Replayed(balance: int, gapFree: bool, used: int, reserved: int)

  /** Reads one entry of the account on top of what was read before. */
  function Read(r: Replayed, e: Entry): Replayed {
    Replayed(
      e.newBalance,
      r.gapFree && e.oldBalance == r.balance,
      r.used + (if e.kind.UsageCommit? || e.kind.Adjustment? then e.amount else 0),
      r.reserved + (if e.kind.Reservation? || e.kind.ReservationRefund? then e.amount else 0) - e.released)
  }

  function Replay(entries: seq<Entry>, id: AccountId): Replayed
    decreases |entries|
  {
    if entries == [] then Replayed(0, true, 0, 0)
    else
      var before, e := Replay(entries[..|entries| - 1], id), entries[|entries| - 1];
      if e.account == id then Read(before, e) else before
  }

  lemma ReplayLog(entries: seq<Entry>, e: Entry, id: AccountId)
    ensures Replay(entries + [e], id) == if e.account == id then Read(Replay(entries, id), e) else Replay(entries, id)
  {
    assert (entries + [e])[..|entries|] == entries;
  }

  /** In a gap-free ledger, each entry of an account starts from the balance its previous entry left. */
  lemma {:induction false} GapFreeChains(entries: seq<Entry>, id: AccountId, i: nat, j: nat)
    requires Replay(entries, id).gapFree
    requires i < j < |entries| && entries[i].account == entries[j].account == id
    requires forall k :: i < k < j ==> entries[k].account != id
    ensures entries[j].oldBalance == entries[i].newBalance
    decreases |entries|
  {
    var init := entries[..|entries| - 1];
    if j < |init| {
      GapFreeChains(init, id, i, j);
    } else {
      LastOf(init, id, i);
    }
  }

  lemma {:induction false} LastOf(entries: seq<Entry>, id: AccountId, i: nat)
    requires i < |entries| && entries[i].account == id
    requires forall k :: i < k < |entries| ==> entries[k].account != id
    ensures Replay(entries, id).balance == entries[i].newBalance
    decreases |entries|
  {
    if i < |entries| - 1 {
      LastOf(entries[..|entries| - 1], id, i);
    }
  }

  // ----- What every step records -----

  ghost predicate Balanced(s: State, id: AccountId)
    requires id in s.accounts
  {
    var r := Replay(s.entries, id);
    r.gapFree && r.balance == s.accounts[id].Available()
  }

  ghost predicate Counted(s: State, id: AccountId)
    requires id in s.accounts
  {
    var r := Replay(s.entries, id);
    r.used == s.accounts[id].used && r.reserved == s.accounts[id].reserved
  }

  /** An account that does not exist yet has no entries. */
  ghost predicate NoForeignEntries(s: State) {
    forall id {:trigger Replay(s.entries, id)} :: id !in s.accounts ==> Replay(s.entries, id) == Replayed(0, true, 0, 0)
  }

  ghost predicate Replays(s: State) {
    NoForeignEntries(s) && forall id {:trigger Balanced(s, id)} :: id in s.accounts ==> Balanced(s, id)
  }

  ghost predicate CountersReplay(s: State) {
    NoForeignEntries(s) && forall id {:trigger Counted(s, id)} :: id in s.accounts ==> Counted(s, id)
  }

  /** Whether releasing a child leaves the old parent's counter where it was. */
  predicate SilentRelease(s: State, parent: Option<AccountId>, amount: int) {
    parent.Some? && parent.value in s.accounts ==>
      SubtractChild(s.accounts[parent.value], amount) == s.accounts[parent.value].child
  }

  /**
   When a step writes an entry for every balance it moves: unless it takes a funded account away
   from its old parent, or refiles one, which move the parents' balances without an entry.
   */
  predicate Recorded(s: State, act: Action) {
    match act
    case SetAllocation(source, target, _) =>
      target in s.accounts ==>
        var to := s.accounts[target];
        to.parent == Some(source) || to.parent == Some(target) || SilentRelease(s, to.parent, to.allotted)
    case Refile(_, home, _, parent, amount) =>
      home in s.accounts ==>
        if parent == Some(home) then SubtractChild(s.accounts[home], amount) + amount == s.accounts[home].child
        else amount == 0 && SilentRelease(s, parent, amount)
    case _ => true
  }

  /** The entry records how its account moved from row `a` to row `b`. */
  ghost predicate Describes(e: Entry, a: Account, b: Account) {
    && e.oldBalance == a.Available() && e.newBalance == b.Available()
    && b.used - a.used == (if e.kind.UsageCommit? || e.kind.Adjustment? then e.amount else 0)
    && b.reserved - a.reserved
        == (if e.kind.Reservation? || e.kind.ReservationRefund? then e.amount else 0) - e.released
  }

  /** A step that rewrites one row and logs exactly that move. */
  ghost predicate LogsOne(s: State, s': State, id: AccountId, e: Entry) {
    && id in s.accounts && id in s'.accounts
    && s'.accounts == s.accounts[id := s'.accounts[id]]
    && s'.entries == s.entries + [e]
    && e.account == id
    && Describes(e, s.accounts[id], s'.accounts[id])
  }

  lemma LogsOneReplays(s: State, s': State, id: AccountId, e: Entry)
    requires LogsOne(s, s', id, e)
    ensures Replays(s) ==> Replays(s')
    ensures CountersReplay(s) ==> CountersReplay(s')
  {
    forall k
      ensures Replay(s'.entries, k) == if e.account == k then Read(Replay(s.entries, k), e) else Replay(s.entries, k)
    {
      ReplayLog(s.entries, e, k);
    }
    if Replays(s) {
      forall k | k in s'.accounts
        ensures Balanced(s', k)
      {
        assert Balanced(s, k);
      }
    }
    if CountersReplay(s) {
      forall k | k in s'.accounts
        ensures Counted(s', k)
      {
        assert Counted(s, k);
      }
    }
  }

  /** A step that writes no entry: new rows start empty, and other rows keep their spending counters. */
  ghost predicate LogsNone(s: State, s': State) {
    && s'.entries == s.entries
    && s.accounts.Keys <= s'.accounts.Keys
    && forall k :: k in s'.accounts ==>
         if k in s.accounts
         then s'.accounts[k].used == s.accounts[k].used && s'.accounts[k].reserved == s.accounts[k].reserved
         else s'.accounts[k].Available() == s'.accounts[k].used == s'.accounts[k].reserved == 0
  }

  lemma LogsNoneReplays(s: State, s': State)
    requires LogsNone(s, s')
    ensures CountersReplay(s) ==> CountersReplay(s')
    ensures Replays(s) ==>
      (Replays(s') <==> forall k :: k in s.accounts ==> s'.accounts[k].Available() == s.accounts[k].Available())
  {
    if CountersReplay(s) {
      forall k | k in s'.accounts
        ensures Counted(s', k)
      {
        assert k in s.accounts ==> Counted(s, k);
      }
    }
    if Replays(s) {
      forall k | k in s'.accounts
        ensures Balanced(s', k) <==> k !in s.accounts || s'.accounts[k].Available() == s.accounts[k].Available()
      {
        assert k in s.accounts ==> Balanced(s, k);
      }
    }
  }

  // ----- One lemma for each kind of step -----

  lemma OneRowReplays(s: State, act: Action, s': State)
    requires Step(s, act) == Some(s')
    requires act.TopUp? || act.Reserve? || act.Commit? || act.Refund? || act.Reconcile?
    ensures Replays(s) ==> Replays(s')
    ensures CountersReplay(s) ==> CountersReplay(s')
  {
    var id := if act.Commit? || act.Refund? then s.open[act.request].account else act.account;
    LogsOneReplays(s, s', id, s'.entries[|s.entries|]);
  }

  /** `allocate` and `setAllocation` log the source, then the target, on top of an unlogged release. */
  lemma TwoRowsReplay(s: State, released: State, s': State, a: AccountId, b: AccountId, e: Entry, f: Entry)
    requires a != b && a in s.accounts && b in s.accounts && a in s'.accounts && b in s'.accounts
    requires LogsNone(s, released) && released.accounts.Keys == s.accounts.Keys
    requires released.accounts[a] == s.accounts[a] && released.accounts[b] == s.accounts[b]
    requires s'.accounts == released.accounts[a := s'.accounts[a]][b := s'.accounts[b]]
    requires s'.entries == s.entries + [e] + [f] && e.account == a && f.account == b
    requires Describes(e, s.accounts[a], s'.accounts[a]) && Describes(f, s.accounts[b], s'.accounts[b])
    ensures CountersReplay(s) ==> CountersReplay(s')
    ensures Replays(released) ==> Replays(s')
    ensures forall k :: k != a && k != b ==> Replay(s'.entries, k) == Replay(s.entries, k)
  {
    LogsNoneReplays(s, released);
    var mid := State(released.accounts[a := s'.accounts[a]], s.entries + [e], s.open, s.nextAccount, s.nextRequest);
    LogsOneReplays(released, mid, a, e);
    LogsOneReplays(mid, s', b, f);
    forall k | k != a && k != b
      ensures Replay(s'.entries, k) == Replay(s.entries, k)
    {
      ReplayLog(s.entries, e, k);
      ReplayLog(s.entries + [e], f, k);
    }
  }

  lemma AllocateReplays(s: State, act: Action, s': State)
    requires act.Allocate? && Step(s, act) == Some(s')
    ensures Replays(s) ==> Replays(s')
    ensures CountersReplay(s) ==> CountersReplay(s')
  {
    var n := |s.entries|;
    TwoRowsReplay(s, s, s', act.source, act.target, s'.entries[n], s'.entries[n + 1]);
  }

  /** The state after the release that `setAllocation` does not log; the target's own row is logged later. */
  function Released(s: State, source: AccountId, target: AccountId): State
    requires target in s.accounts
  {
    var to := s.accounts[target];
    if to.parent == Some(source) || to.parent == Some(target) then s
    else ReleaseFromParent(s, to.parent, to.allotted)
  }

  lemma SetAllocationShape(s: State, source: AccountId, target: AccountId, amount: int, s': State)
    requires SetAllocationTx(s, source, target, amount) == Some(s') && s' != s
    ensures source in s.accounts && target in s.accounts && source in s'.accounts && target in s'.accounts
    ensures s'.accounts
              == Released(s, source, target).accounts[source := s'.accounts[source]][target := s'.accounts[target]]
    ensures |s'.entries| == |s.entries| + 2
    ensures var e, f := s'.entries[|s.entries|], s'.entries[|s.entries| + 1];
            && s'.entries == s.entries + [e] + [f] && e.account == source && f.account == target
            && Describes(e, s.accounts[source], s'.accounts[source])
            && Describes(f, s.accounts[target], s'.accounts[target])
  {
  }

  lemma SetAllocationReplays(s: State, act: Action, s': State)
    requires act.SetAllocation? && Step(s, act) == Some(s') && s' != s
    ensures CountersReplay(s) ==> CountersReplay(s')
    ensures Replays(s) ==> (Replays(s') <==> Recorded(s, act))
  {
    SetAllocationShape(s, act.source, act.target, act.amount, s');
    var released := Released(s, act.source, act.target);
    var n := |s.entries|;
    TwoRowsReplay(s, released, s', act.source, act.target, s'.entries[n], s'.entries[n + 1]);
    LogsNoneReplays(s, released);
    if Replays(s) && !Recorded(s, act) {
      var p := s.accounts[act.target].parent.value;
      assert Balanced(s, p);
      assert !Balanced(s', p);
    }
  }

  lemma RefiledBalances(s: State, s': State, user: AccountId, home: AccountId, parent: Option<AccountId>, amount: nat)
    requires Refiled(s, s', user, home, parent, amount)
    ensures LogsNone(s, s')
    ensures (forall k :: k in s.accounts ==> s'.accounts[k].Available() == s.accounts[k].Available())
            <==> if parent == Some(home) then SubtractChild(s.accounts[home], amount) + amount == s.accounts[home].child
                 else amount == 0 && SilentRelease(s, parent, amount)
  {
    assert s'.accounts[home].Available() - s.accounts[home].Available()
        == s.accounts[home].child - amount
           - (if parent == Some(home) then SubtractChild(s.accounts[home], amount) else s.accounts[home].child);
    if parent.Some? && parent.value in s.accounts && parent.value != home {
      var p := s.accounts[parent.value];
      assert s'.accounts[parent.value].Available() - p.Available() == p.child - SubtractChild(p, amount);
    }
  }

  lemma RefileReplays(s: State, act: Action, s': State)
    requires act.Refile? && Step(s, act) == Some(s')
    ensures CountersReplay(s) ==> CountersReplay(s')
    ensures Replays(s) ==> (Replays(s') <==> Recorded(s, act))
  {
    RefileShape(s, act, s');
    RefiledBalances(s, s', act.account, act.organizationAccount, act.snapshotParent, act.snapshotAllotted);
    LogsNoneReplays(s, s');
  }

  /** The row that an `ensure...` lookup may create or refile. */
  function LookupRow(s: State, act: Action): AccountId {
    if act.EnsureMaster? then MASTER
    else if act.EnsureUser? && act.found.Some? then act.found.value else s.nextAccount
  }

  /** A row is created empty, or keeps every counter. */
  ghost predicate KeepsCounters(s: State, s': State, id: AccountId) {
    && id in s'.accounts && s'.accounts == s.accounts[id := s'.accounts[id]] && s'.entries == s.entries
    && var b := s'.accounts[id];
       if id in s.accounts then
         b.Available() == s.accounts[id].Available() && b.used == s.accounts[id].used
             && b.reserved == s.accounts[id].reserved
       else b.Available() == b.used == b.reserved == 0
  }

  lemma KeepsCountersReplays(s: State, s': State, id: AccountId)
    requires KeepsCounters(s, s', id)
    ensures Replays(s) ==> Replays(s')
    ensures CountersReplay(s) ==> CountersReplay(s')
  {
    forall k | k in s'.accounts
      ensures Counted(s', k) <== CountersReplay(s)
      ensures Balanced(s', k) <== Replays(s)
    {
      if k in s.accounts {
        assert Counted(s', k) == Counted(s, k);
        assert Balanced(s', k) == Balanced(s, k);
      }
    }
  }

  lemma LookupShape(s: State, act: Action, s': State)
    requires s.nextAccount !in s.accounts
    requires Step(s, act) == Some(s') && s' != s
    requires act.EnsureMaster? || act.EnsureOrganization? || act.EnsureUser?
    ensures KeepsCounters(s, s', LookupRow(s, act))
  {
  }

  lemma LookupsReplay(s: State, act: Action, s': State)
    requires s.nextAccount !in s.accounts
    requires Step(s, act) == Some(s') && s' != s
    requires act.EnsureMaster? || act.EnsureOrganization? || act.EnsureUser?
    ensures Replays(s) ==> Replays(s')
    ensures CountersReplay(s) ==> CountersReplay(s')
  {
    LookupShape(s, act, s');
    KeepsCountersReplays(s, s', LookupRow(s, act));
  }

  /** On every step the spending counters replay; the balances replay if and only if the step is recorded. */
  lemma ReplayStep(s: State, act: Action, s': State)
    requires WellFormed(s) && Step(s, act) == Some(s') && s' != s
    ensures CountersReplay(s) ==> CountersReplay(s')
    ensures Replays(s) ==> (Replays(s') <==> Recorded(s, act))
  {
    if act.EnsureMaster? || act.EnsureOrganization? || act.EnsureUser? {
      LookupsReplay(s, act, s');
    } else if act.Allocate? {
      AllocateReplays(s, act, s');
    } else if act.SetAllocation? {
      SetAllocationReplays(s, act, s');
    } else if act.Refile? {
      RefileReplays(s, act, s');
    } else {
      OneRowReplays(s, act, s');
    }
  }

  // ----- Runs -----

  ghost predicate RecordedRun(s: State, acts: seq<Action>)
    decreases |acts|
  {
    acts == []
    || (var before, act := Run(s, acts[..|acts| - 1]), acts[|acts| - 1];
        RecordedRun(s, acts[..|acts| - 1]) && (Next(before, act) != before ==> Recorded(before, act)))
  }

  /** At the end of the run and at every point before it. */
  ghost predicate ReplaysThroughout(s: State, acts: seq<Action>)
    decreases |acts|
  {
    Replays(Run(s, acts)) && (acts != [] ==> ReplaysThroughout(s, acts[..|acts| - 1]))
  }

  /**
   Every run keeps the spending counters equal to their replay; it keeps the balances so throughout if
   and only if every step that changes something is recorded.
   */
  lemma {:induction false} ReplayRuns(acts: seq<Action>)
    ensures CountersReplay(Run(EMPTY, acts))
    ensures ReplaysThroughout(EMPTY, acts) <==> RecordedRun(EMPTY, acts)
    decreases |acts|
  {
    if acts != [] {
      var init, act := acts[..|acts| - 1], acts[|acts| - 1];
      ReplayRuns(init);
      EmptyIsExact();
      WellFormedRun(EMPTY, init);
      var before := Run(EMPTY, init);
      if Next(before, act) != before {
        ReplayStep(before, act, Step(before, act).value);
      }
    }
  }
}
