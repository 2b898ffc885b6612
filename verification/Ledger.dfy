/**
 The credit ledger (src/modules/ai/ai.service.ts) as a state machine.

 The accounts, the ledger entries and the model requests in flight form the state. Every database
 transaction, and every single write made outside one, is an atomic step; a run is any sequence of
 steps, so whole calls may interleave at step boundaries. A step that the code rejects by throwing
 leaves the state as it was.
 */
module Ledger {
  import opened Common
  import opened Pricing

  type AccountId = nat

  const MASTER: AccountId := 0

  datatype Scope = Master | Organization | User

  datatype Status = Active | Exhausted | Disabled

  datatype Account = Account(
    scope: Scope,
    parent: Option<AccountId>,
    organization: Option<nat>,
    user: Option<nat>,
    allotted: int,
    used: int,
    reserved: int,
    child: int,
    unlimited: bool,
    status: Status)
  {
    function Available(): int { allotted - used - reserved - child }

    function Spent(): int { used + reserved + child }

    function Deficit(): nat { if Available() < 0 then -Available() else 0 }
  }

  datatype EntryKind =
    | MasterTopUp | ManualExtension | Allocation | Reservation | UsageCommit | ReservationRefund | Adjustment

  /** `released` is the reserved amount that a commit writes into its metadata; zero for other kinds. */
  datatype Entry = Entry(
    account: AccountId, kind: EntryKind, amount: int, oldBalance: int, newBalance: int, released: int)

  /** A proxied model request between its reservation and its commit or refund. */
  datatype Request = Request(account: AccountId, pricing: PricingRecord, estimate: Usage, search: bool)
  {
    function Amount(): nat { Credits(pricing, estimate) }
  }

  datatype State = State(
    accounts: map<AccountId, Account>,
    entries: seq<Entry>,
    open: map<nat, Request>,
    nextAccount: nat,
    nextRequest: nat)

  const EMPTY := State(map[], [], map[], 1, 0)

  datatype Action =
    | EnsureMaster
    | EnsureOrganization(organization: nat, parent: AccountId)
    | EnsureUser(user: nat, home: Option<nat>, parent: AccountId, found: Option<AccountId>)
    | TopUp(account: AccountId, amount: int)
    | Allocate(source: AccountId, target: AccountId, amount: int)
    | SetAllocation(source: AccountId, target: AccountId, amount: int)
    | Reserve(account: AccountId, pricing: PricingRecord, estimate: Usage, search: bool)
    | Commit(request: nat, response: Response)
    | Refund(request: nat)
    // The user row was read earlier, when its parent and allocation were the two snapshot values.
    | Refile(account: AccountId, organizationAccount: AccountId, organization: nat,
             snapshotParent: Option<AccountId>, snapshotAllotted: nat)
    | Reconcile(account: AccountId)

  /** `toBig`: amounts are clamped at zero. */
  function Clamp(amount: int): nat { Max(amount, 0) }

  function SubtractChild(a: Account, amount: int): int {
    if a.child > amount then a.child - amount else 0
  }

  predicate IsOrganizationAccount(a: Account, organization: nat) {
    a.scope.Organization? && a.organization == Some(organization)
  }

  predicate IsUserAccount(a: Account, user: nat) {
    a.scope.User? && a.user == Some(user)
  }

  function NewAccount(scope: Scope, parent: Option<AccountId>, organization: Option<nat>, user: Option<nat>): Account {
    Account(scope, parent, organization, user, 0, 0, 0, 0, false, Active)
  }

  function Put(s: State, id: AccountId, a: Account): State {
    s.(accounts := s.accounts[id := a])
  }

  function Log(s: State, e: Entry): State {
    s.(entries := s.entries + [e])
  }

  /** The entry that records how one account moved between two of its rows. */
  function EntryFor(id: AccountId, kind: EntryKind, amount: int, before: Account, after: Account,
                    released: int): Entry {
    Entry(id, kind, amount, before.Available(), after.Available(), released)
  }

  // ----- Steps; `None` is a thrown error, which rolls the transaction back -----

  function EnsureMasterTx(s: State): Option<State> {
    Some(if MASTER in s.accounts then s else Put(s, MASTER, NewAccount(Scope.Master, None, None, None)))
  }

  function CreateTx(s: State, a: Account): Option<State>
    requires a.parent.Some?
  {
    if a.parent.value !in s.accounts then None  // foreign key on the parent
    else Some(Put(s, s.nextAccount, a).(nextAccount := s.nextAccount + 1))
  }

  function EnsureOrganizationTx(s: State, organization: nat, parent: AccountId): Option<State> {
    if exists id :: id in s.accounts && IsOrganizationAccount(s.accounts[id], organization) then Some(s)
    else CreateTx(s, NewAccount(Scope.Organization, Some(parent), Some(organization), None))
  }

  predicate HasUserAccount(s: State, user: nat) {
    exists id :: id in s.accounts && IsUserAccount(s.accounts[id], user)
  }

  /** `ensureUserAccount`, where the lookup found this account of the user, or none. */
  function EnsureUserTx(s: State, user: nat, home: Option<nat>, parent: AccountId,
                        found: Option<AccountId>): Option<State> {
    if found.Some? then
      var id := found.value;
      if id !in s.accounts || !IsUserAccount(s.accounts[id], user) then None  // not what a lookup returns
      else
        var a := s.accounts[id];
        if a.organization == home && a.parent == Some(parent) then Some(s)
        else if parent !in s.accounts then None  // foreign key on the parent
        else Some(Put(s, id, a.(organization := home, parent := Some(parent))))
    else if HasUserAccount(s, user) then None  // not what a lookup returns
    else CreateTx(s, NewAccount(Scope.User, Some(parent), home, Some(user)))
  }

  function TopUpTx(s: State, id: AccountId, amount: int): Option<State> {
    if id !in s.accounts then None
    else
      var before := s.accounts[id];
      var after := before.(allotted := before.allotted + Clamp(amount), status := Active);
      var kind := if id == MASTER then MasterTopUp else ManualExtension;
      Some(Log(Put(s, id, after), EntryFor(id, kind, Clamp(amount), before, after, 0)))
  }

  function AllocateTx(s: State, source: AccountId, target: AccountId, amount: int): Option<State> {
    var amount: int := Clamp(amount);
    if source == target || source !in s.accounts || target !in s.accounts then None
    else
      var from, to := s.accounts[source], s.accounts[target];
      if from.Available() < amount then None
      else
        var from' := from.(child := from.child + amount);
        var to' := to.(allotted := to.allotted + amount, parent := Some(source), status := Active);
        Some(Log(Log(Put(Put(s, source, from'), target, to'),
                     EntryFor(source, Allocation, -amount, from, from', 0)),
                 EntryFor(target, Allocation, amount, to, to', 0)))
  }

  /** The old parent lets go of what it had allotted to a child that moves away. */
  function ReleaseFromParent(s: State, parent: Option<AccountId>, amount: int): State {
    if parent.None? || parent.value !in s.accounts then s
    else
      var p := s.accounts[parent.value];
      Put(s, parent.value, p.(child := SubtractChild(p, amount)))
  }

  function SetAllocationTx(s: State, source: AccountId, target: AccountId, amount: int): Option<State> {
    var wanted := Clamp(amount);
    if source == target || source !in s.accounts || target !in s.accounts then None
    else
      var from, to := s.accounts[source], s.accounts[target];
      var moved := to.parent != Some(source);
      var delta := wanted - to.allotted;
      var required := if moved then wanted else delta;
      if wanted < to.Spent() then None
      else if delta == 0 && !moved then Some(s)
      else if required > 0 && from.Available() < required then None
      else
        var released := if moved then ReleaseFromParent(s, to.parent, to.allotted) else s;
        var from' := from.(child := from.child + required);
        var charged := Put(released, source, from');
        var to' := charged.accounts[target].(
          allotted := wanted, parent := Some(source), status := if wanted > 0 then Active else to.status);
        Some(Log(Log(Put(charged, target, to'),
                     EntryFor(source, Allocation, -delta, from, from', 0)),
                 EntryFor(target, Allocation, delta, to, to', 0)))
  }

  function ReserveTx(s: State, id: AccountId, pricing: PricingRecord, estimate: Usage, search: bool): Option<State> {
    var request := Request(id, pricing, estimate, search);
    if id !in s.accounts || s.accounts[id].status.Disabled? then None
    else
      var before := s.accounts[id];
      if !before.unlimited && before.Available() < request.Amount() then None
      else
        var after := before.(reserved := before.reserved + request.Amount());
        Some(Log(Put(s, id, after), EntryFor(id, Reservation, request.Amount(), before, after, 0))
             .(open := s.open[s.nextRequest := request], nextRequest := s.nextRequest + 1))
  }

  /** What a commit charges: everything on an unlimited account, otherwise at most what can be released. */
  function Chargeable(a: Account, reserved: nat, actual: nat): nat {
    var releasable := a.Available() + reserved;
    if a.unlimited then actual else if actual > releasable then Max(releasable, 0) else actual
  }

  function Unbilled(a: Account, reserved: nat, actual: nat): nat {
    var charged := Chargeable(a, reserved, actual);
    if actual > charged then actual - charged else 0
  }

  function ActualCredits(r: Request, response: Response): nat {
    Credits(r.pricing, ActualUsage(response, r.pricing, r.estimate, r.search))
  }

  /** The transaction of `commitUsage`, which only asks for the account. */
  function CommitWrites(s: State, r: Request, response: Response): Option<State> {
    if r.account !in s.accounts then None
    else
      var before := s.accounts[r.account];
      var charged := Chargeable(before, r.Amount(), ActualCredits(r, response));
      var after := before.(reserved := before.reserved - r.Amount(), used := before.used + charged);
      Some(Log(Put(s, r.account, after), EntryFor(r.account, UsageCommit, charged, before, after, r.Amount())))
  }

  /** The transaction of `refundReservation`. */
  function RefundWrites(s: State, r: Request): Option<State> {
    if r.account !in s.accounts then None
    else
      var held: int := r.Amount();
      var before := s.accounts[r.account];
      var after := before.(reserved := before.reserved - held);
      Some(Log(Put(s, r.account, after), EntryFor(r.account, ReservationRefund, -held, before, after, 0)))
  }

  function Close(s: State, request: nat): State { s.(open := s.open - {request}) }

  /** A commit of a request in flight; that no other request is committed is the matter of `ProxyCalls`. */
  function CommitTx(s: State, request: nat, response: Response): Option<State> {
    if request !in s.open then None
    else
      var r := CommitWrites(s, s.open[request], response);
      if r.None? then None else Some(Close(r.value, request))
  }

  function RefundTx(s: State, request: nat): Option<State> {
    if request !in s.open then None
    else
      var r := RefundWrites(s, s.open[request]);
      if r.None? then None else Some(Close(r.value, request))
  }

  /** One transaction of `reconcileUserAccountParents`. */
  function RefileTx(s: State, user: AccountId, home: AccountId, organization: nat,
                    snapshotParent: Option<AccountId>, snapshotAllotted: nat): Option<State> {
    if user == home || user !in s.accounts || home !in s.accounts then None
    else
      var released := ReleaseFromParent(s, snapshotParent, snapshotAllotted);
      var h := released.accounts[home];
      var charged := Put(released, home, h.(child := h.child + snapshotAllotted));
      var u := charged.accounts[user];
      Some(Put(charged, user, u.(parent := Some(home), organization := Some(organization))))
  }

  /** One transaction of `reconcileOverdrawnUsageAccounts`. */
  function ReconcileTx(s: State, id: AccountId): Option<State> {
    if id !in s.accounts || s.accounts[id].unlimited then None
    else
      var before := s.accounts[id];
      if before.Deficit() == 0 || before.used <= 0 then None
      else
        var correction := Min(before.Deficit(), before.used);
        var after := before.(used := before.used - correction);
        Some(Log(Put(s, id, after), EntryFor(id, Adjustment, -correction, before, after, 0)))
  }

  function Step(s: State, act: Action): Option<State> {
    match act
    case EnsureMaster => EnsureMasterTx(s)
    case EnsureOrganization(organization, parent) => EnsureOrganizationTx(s, organization, parent)
    case EnsureUser(user, home, parent, found) => EnsureUserTx(s, user, home, parent, found)
    case TopUp(account, amount) => TopUpTx(s, account, amount)
    case Allocate(source, target, amount) => AllocateTx(s, source, target, amount)
    case SetAllocation(source, target, amount) => SetAllocationTx(s, source, target, amount)
    case Reserve(account, pricing, estimate, search) => ReserveTx(s, account, pricing, estimate, search)
    case Commit(request, response) => CommitTx(s, request, response)
    case Refund(request) => RefundTx(s, request)
    case Refile(user, home, organization, parent, allotted) => RefileTx(s, user, home, organization, parent, allotted)
    case Reconcile(account) => ReconcileTx(s, account)
  }

  function Next(s: State, act: Action): State {
    var r := Step(s, act);
    if r.Some? then r.value else s
  }

  function Run(s: State, acts: seq<Action>): State
    decreases |acts|
  {
    if acts == [] then s else Next(Run(s, acts[..|acts| - 1]), acts[|acts| - 1])
  }
}
