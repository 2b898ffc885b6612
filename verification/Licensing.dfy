/**
 Hardware activation keys (src/modules/licensing/licensing.service.ts): binding devices, verifying, resetting,
 revoking, replacing, renewing and sweeping, in any order. A revoked key never works again.
 */
module Licensing {
  import opened Common

  datatype KeyStatus = Available | Bound | Disabled | Expired

  datatype ActivationStatus = Active | ResetRequested | Reset | Disabled

  datatype SubscriptionStatus = Active | Expired | Canceled | Trial | PendingApproval

  datatype Key = Key(
    organization: nat,
    subscription: Option<nat>,
    status: KeyStatus,
    bound: Option<nat>,
    expiresAt: Option<int>,
    maxDevices: int)

  datatype Activation = Activation(key: nat, organization: nat, device: nat, status: ActivationStatus)

  datatype Subscription = Subscription(
    organization: Option<nat>, status: SubscriptionStatus, endDate: Option<int>, deleted: bool, seatLimit: int)

  datatype State = State(
    keys: map<nat, Key>,
    activations: map<nat, Activation>,
    subscriptions: map<nat, Subscription>,
    activeOrganizations: set<nat>,
    nextKey: nat,
    nextActivation: nat,
    marking: multiset<nat>,     // a running verify has found this key expired, and will mark it so
    resetting: multiset<nat>)   // a running reset has changed this activation, and will free its keys

  datatype Action =
    | Create(organization: nat, subscription: nat, expiresAt: Option<int>)
    // `claim` is the organization of the user who is named in the request, if one is named.
    | Bind(key: nat, device: nat, claim: Option<Option<nat>>, now: int)
    | Verify(key: nat, device: nat, claim: Option<Option<nat>>, now: int)
    | MarkExpired(key: nat)
    | ResetActivation(activation: nat)
    | FreeKeys(activation: nat)
    | Revoke(key: nat)
    | Replace(key: nat)
    | Renew(subscription: nat, newEndDate: int, extendKeys: bool, now: int)
    | Sweep(now: int)
    | DisableOrganization(organization: nat)
    | ExtendExpiry(key: nat, expiresAt: Option<int>)
    // Subscriptions and organizations also change elsewhere.
    | Configure(subscriptions: map<nat, Subscription>, activeOrganizations: set<nat>)

  datatype Verdict =
    | InvalidKey | OrganizationMismatch | KeyDisabled | KeyExpired | BoundToOtherDevice | NotBound
    | InactiveActivation | OrganizationInactive | SubscriptionInactive | Valid

  predicate IsActive(status: SubscriptionStatus) { status.Active? || status.Trial? }

  predicate Usable(status: KeyStatus) { status.Available? || status.Bound? }

  predicate Lapsed(expiresAt: Option<int>, now: int) { expiresAt.Some? && expiresAt.value <= now }

  predicate OfDevice(activations: map<nat, Activation>, id: nat, key: nat, device: nat) {
    id in activations && activations[id].key == key && activations[id].device == device
  }

  /** The activation of this device for this key; there is at most one, see `Coherent`. */
  ghost function FindActivation(activations: map<nat, Activation>, key: nat, device: nat): (r: Option<nat>)
    ensures r.Some? ==> OfDevice(activations, r.value, key, device)
    ensures r.None? ==> forall id :: !OfDevice(activations, id, key, device)
  {
    if exists id :: OfDevice(activations, id, key, device) then
      var id :| OfDevice(activations, id, key, device);
      Some(id)
    else None
  }

  function ActiveDevices(activations: map<nat, Activation>, key: nat): set<nat> {
    set id | id in activations && activations[id].key == key && activations[id].status.Active?
  }

  function Mine(bound: Option<nat>, id: nat): Option<nat> { if bound.Some? then bound else Some(id) }

  predicate MayBind(s: State, k: Key, claim: Option<Option<nat>>, now: int) {
    && !k.status.Disabled?
    && k.organization in s.activeOrganizations
    && k.subscription.Some? && k.subscription.value in s.subscriptions
    && !s.subscriptions[k.subscription.value].deleted && IsActive(s.subscriptions[k.subscription.value].status)
    && !Lapsed(k.expiresAt, now)  // the transaction that would mark the key expired is rolled back by its own error
    && (claim.Some? ==> claim.value == Some(k.organization))
  }

  ghost function BindStep(s: State, key: nat, device: nat, claim: Option<Option<nat>>, now: int): Option<State> {
    if key !in s.keys || !MayBind(s, s.keys[key], claim, now) then None
    else
      var k := s.keys[key];
      var existing := FindActivation(s.activations, key, device);
      if existing.Some? then
        var id := existing.value;
        Some(s.(activations := s.activations[id := s.activations[id].(status := ActivationStatus.Active)],
                keys := s.keys[key := k.(status := Bound, bound := Mine(k.bound, id))]))
      else if |ActiveDevices(s.activations, key)| >= Max(1, k.maxDevices) then None
      else
        var id := s.nextActivation;
        Some(s.(activations := s.activations[id := Activation(key, k.organization, device, ActivationStatus.Active)],
                keys := s.keys[key := k.(status := Bound, bound := Mine(k.bound, id))],
                nextActivation := s.nextActivation + 1))
  }

  /** What `verifyHardwareActivation` answers. */
  ghost function Answer(s: State, key: nat, device: nat, claim: Option<Option<nat>>, now: int): Verdict {
    if key !in s.keys then InvalidKey
    else
      var k := s.keys[key];
      var existing := FindActivation(s.activations, key, device);
      if claim.Some? && claim.value != Some(k.organization) then OrganizationMismatch
      else if k.status.Disabled? then KeyDisabled
      else if Lapsed(k.expiresAt, now) then KeyExpired
      else if existing.None? then (if k.bound.Some? then BoundToOtherDevice else NotBound)
      else if !s.activations[existing.value].status.Active? then InactiveActivation
      else if k.organization !in s.activeOrganizations then OrganizationInactive
      else if k.subscription.Some? && k.subscription.value in s.subscriptions
              && !IsActive(s.subscriptions[k.subscription.value].status) then SubscriptionInactive
      else Valid
  }

  /** Verifying reads; marking an expired key is a write of its own, outside any transaction. */
  ghost function VerifyStep(s: State, key: nat, device: nat, claim: Option<Option<nat>>, now: int): State {
    if Answer(s, key, device, claim, now).KeyExpired? then s.(marking := s.marking + multiset{key}) else s
  }

  function MarkExpiredStep(s: State, key: nat): State {
    if key !in s.marking || key !in s.keys then s
    else s.(keys := s.keys[key := s.keys[key].(status := KeyStatus.Expired)], marking := s.marking - multiset{key})
  }

  /** So is a reset: the activation first, then the keys that point to it. */
  function ResetStep(s: State, id: nat): State {
    if id !in s.activations then s
    else
      s.(activations := s.activations[id := s.activations[id].(status := ActivationStatus.Reset)],
         resetting := s.resetting + multiset{id})
  }

  function FreeKeysStep(s: State, id: nat): State {
    if id !in s.resetting then s
    else s.(keys := map k | k in s.keys :: FreeKey(s.keys[k], id), resetting := s.resetting - multiset{id})
  }

  function FreeKey(k: Key, id: nat): Key {
    if k.bound == Some(id) then k.(bound := None, status := Available) else k
  }

  function RevokeStep(s: State, key: nat): State {
    if key !in s.keys then s
    else
      s.(activations := map id | id in s.activations ::
           if s.activations[id].key == key && s.activations[id].status.Active?
           then s.activations[id].(status := ActivationStatus.Disabled) else s.activations[id],
         keys := s.keys[key := s.keys[key].(status := KeyStatus.Disabled, bound := None)])
  }

  function UsableKeys(keys: map<nat, Key>, subscription: nat): set<nat> {
    set k | k in keys && keys[k].subscription == Some(subscription) && Usable(keys[k].status)
  }

  predicate HasCapacity(
    keys: map<nat, Key>, subscriptions: map<nat, Subscription>, subscription: nat, excluded: set<nat>)
  {
    subscription in subscriptions
    && |UsableKeys(keys, subscription) - excluded| + 1 <= subscriptions[subscription].seatLimit
  }

  function CreateStep(s: State, organization: nat, subscription: nat, expiresAt: Option<int>): State {
    if organization !in s.activeOrganizations || subscription !in s.subscriptions then s
    else
      var sub := s.subscriptions[subscription];
      if sub.organization != Some(organization) || sub.deleted || !IsActive(sub.status)
          || !HasCapacity(s.keys, s.subscriptions, subscription, {}) then s
      else
        s.(keys := s.keys[s.nextKey := Key(organization, Some(subscription), Available, None,
                                          if expiresAt.Some? then expiresAt else sub.endDate, 1)],
           nextKey := s.nextKey + 1)
  }

  /** Revokes the key, then creates its successor, which may still be refused. */
  function ReplaceStep(s: State, key: nat): State {
    if key !in s.keys || s.keys[key].subscription.None? then s
    else
      var k := s.keys[key];
      if !HasCapacity(s.keys, s.subscriptions, k.subscription.value, {key}) then s
      else CreateStep(RevokeStep(s, key), k.organization, k.subscription.value, k.expiresAt)
  }

  function RenewKey(k: Key, organization: nat, newEndDate: int, now: int): Key {
    if k.organization != organization || k.status.Disabled? then k
    else
      var extended := k.(expiresAt := Some(newEndDate));
      if k.status.Expired? && newEndDate > now then extended.(status := Available) else extended
  }

  function RenewStep(s: State, subscription: nat, newEndDate: int, extendKeys: bool, now: int): State {
    if subscription !in s.subscriptions then s
    else
      var sub := s.subscriptions[subscription];
      var renewed := s.(subscriptions := s.subscriptions[subscription :=
        sub.(status := SubscriptionStatus.Active, endDate := Some(newEndDate))]);
      if extendKeys && sub.organization.Some? then
        renewed.(keys := map k | k in s.keys :: RenewKey(s.keys[k], sub.organization.value, newEndDate, now))
      else renewed
  }

  function ExpireSubscription(sub: Subscription, now: int): Subscription {
    if sub.status.Active? && sub.endDate.Some? && sub.endDate.value < now
    then sub.(status := SubscriptionStatus.Expired) else sub
  }

  function ExpireSubscriptions(subscriptions: map<nat, Subscription>, now: int): map<nat, Subscription> {
    map i | i in subscriptions :: ExpireSubscription(subscriptions[i], now)
  }

  predicate InvalidSubscription(activeOrganizations: set<nat>, sub: Subscription) {
    sub.status.Expired? || sub.status.Canceled? || sub.deleted
    || (sub.organization.Some? && sub.organization.value !in activeOrganizations)
  }

  function Invalid(subscriptions: map<nat, Subscription>, activeOrganizations: set<nat>): set<nat> {
    set i | i in subscriptions && InvalidSubscription(activeOrganizations, subscriptions[i])
  }

  function Owners(subscriptions: map<nat, Subscription>, invalid: set<nat>): set<nat> {
    set i | i in invalid && i in subscriptions
        && subscriptions[i].organization.Some? :: subscriptions[i].organization.value
  }

  predicate Sweepable(k: Key, invalid: set<nat>, organizations: set<nat>) {
    Usable(k.status) && (OfInvalid(k, invalid) || k.organization in organizations)
  }

  predicate Stoppable(a: Activation, keys: map<nat, Key>, invalid: set<nat>, organizations: set<nat>) {
    a.status.Active? && ((a.key in keys && OfInvalid(keys[a.key], invalid)) || a.organization in organizations)
  }

  function SweepKeys(keys: map<nat, Key>, invalid: set<nat>, organizations: set<nat>): map<nat, Key> {
    map k | k in keys ::
      if Sweepable(keys[k], invalid, organizations)
      then keys[k].(status := KeyStatus.Expired, bound := None) else keys[k]
  }

  function StopActivations(
    activations: map<nat, Activation>, keys: map<nat, Key>, invalid: set<nat>, organizations: set<nat>)
    : map<nat, Activation>
  {
    map id | id in activations ::
      if Stoppable(activations[id], keys, invalid, organizations)
      then activations[id].(status := ActivationStatus.Disabled) else activations[id]
  }

  function SweepStep(s: State, now: int): State {
    var subs := ExpireSubscriptions(s.subscriptions, now);
    var invalid := Invalid(subs, s.activeOrganizations);
    var organizations := Owners(subs, invalid);
    s.(subscriptions := subs,
       keys := SweepKeys(s.keys, invalid, organizations),
       activations := StopActivations(s.activations, s.keys, invalid, organizations))
  }

  predicate OfInvalid(k: Key, invalid: set<nat>) { k.subscription.Some? && k.subscription.value in invalid }

  /** Deleting an organization disables its keys and activations, but leaves the bound pointers. */
  function DisableOrganizationStep(s: State, organization: nat): State {
    s.(keys := map k | k in s.keys ::
         if s.keys[k].organization == organization then s.keys[k].(status := KeyStatus.Disabled) else s.keys[k],
       activations := map id | id in s.activations ::
         if s.activations[id].organization == organization
         then s.activations[id].(status := ActivationStatus.Disabled) else s.activations[id],
       activeOrganizations := s.activeOrganizations - {organization})
  }

  function ExtendStep(s: State, key: nat, expiresAt: Option<int>): State {
    if key in s.keys then s.(keys := s.keys[key := s.keys[key].(expiresAt := expiresAt)]) else s
  }

  ghost function Next(s: State, act: Action): State {
    match act
    case Create(organization, subscription, expiresAt) => CreateStep(s, organization, subscription, expiresAt)
    case Bind(key, device, claim, now) =>
      var r := BindStep(s, key, device, claim, now);
      if r.Some? then r.value else s
    case Verify(key, device, claim, now) => VerifyStep(s, key, device, claim, now)
    case MarkExpired(key) => MarkExpiredStep(s, key)
    case ResetActivation(id) => ResetStep(s, id)
    case FreeKeys(id) => FreeKeysStep(s, id)
    case Revoke(key) => RevokeStep(s, key)
    case Replace(key) => ReplaceStep(s, key)
    case Renew(subscription, newEndDate, extendKeys, now) => RenewStep(s, subscription, newEndDate, extendKeys, now)
    case Sweep(now) => SweepStep(s, now)
    case DisableOrganization(organization) => DisableOrganizationStep(s, organization)
    case ExtendExpiry(key, expiresAt) => ExtendStep(s, key, expiresAt)
    case Configure(subscriptions, activeOrganizations) =>
      s.(subscriptions := subscriptions, activeOrganizations := activeOrganizations)
  }

  ghost function Run(s: State, acts: seq<Action>): State
    decreases |acts|
  {
    if acts == [] then s else Next(Run(s, acts[..|acts| - 1]), acts[|acts| - 1])
  }

  // ----- Coherence -----

  ghost predicate PointerOk(activations: map<nat, Activation>, key: nat, k: Key) {
    && (k.bound.Some? ==> k.bound.value in activations && activations[k.bound.value].key == key)
    && (k.status.Bound? ==> k.bound.Some?)
  }

  /** Ids are fresh, a device has one activation a key, a bound key points to an activation of its own. */
  ghost predicate Coherent(s: State) {
    && (forall k :: k in s.keys ==> k < s.nextKey)
    && (forall id :: id in s.activations ==> id < s.nextActivation && s.activations[id].key in s.keys)
    && (forall i, j, key, device ::
          OfDevice(s.activations, i, key, device) && OfDevice(s.activations, j, key, device) ==> i == j)
    && (forall k {:trigger PointerOk(s.activations, k, s.keys[k])} :: k in s.keys ==>
        PointerOk(s.activations, k, s.keys[k]))
  }

  lemma BindKeepsCoherent(s: State, act: Action)
    requires Coherent(s) && act.Bind?
    ensures Coherent(Next(s, act))
  {
    var s' := Next(s, act);
    if s' != s {
      assert forall i, key, device :: i in s.activations && OfDevice(s'.activations, i, key, device) ==>
          OfDevice(s.activations, i, key, device);
      forall k | k in s'.keys
        ensures PointerOk(s'.activations, k, s'.keys[k])
      {
        assert PointerOk(s.activations, k, s.keys[k]);
      }
    }
  }

  /** A step that keeps which key and device an activation belongs to, and no pointer but to where it was. */
  lemma SameActivationsKeepCoherent(s: State, s': State)
    requires Coherent(s) && s'.activations.Keys == s.activations.Keys && s.keys.Keys <= s'.keys.Keys
    requires s'.nextActivation == s.nextActivation && forall k :: k in s'.keys ==> k < s'.nextKey
    requires forall id :: id in s.activations ==>
               s'.activations[id].key == s.activations[id].key && s'.activations[id].device == s.activations[id].device
    requires forall k :: k in s'.keys ==>
               (s'.keys[k].bound.Some? ==> k in s.keys && s'.keys[k].bound == s.keys[k].bound)
    requires forall k :: k in s'.keys && s'.keys[k].status.Bound? ==>
               k in s.keys && s.keys[k].status.Bound? && s'.keys[k].bound == s.keys[k].bound
    ensures Coherent(s')
  {
    assert forall i, key, device :: OfDevice(s'.activations, i, key, device) ==>
        OfDevice(s.activations, i, key, device);
    forall k | k in s'.keys
      ensures PointerOk(s'.activations, k, s'.keys[k])
    {
      assert k in s.keys ==> PointerOk(s.activations, k, s.keys[k]);
    }
  }

  lemma RevokeKeepsCoherent(s: State, key: nat)
    requires Coherent(s)
    ensures Coherent(RevokeStep(s, key))
  {
    if key in s.keys {
      SameActivationsKeepCoherent(s, RevokeStep(s, key));
    }
  }

  lemma CreateKeepsCoherent(s: State, organization: nat, subscription: nat, expiresAt: Option<int>)
    requires Coherent(s)
    ensures Coherent(CreateStep(s, organization, subscription, expiresAt))
  {
    SameActivationsKeepCoherent(s, CreateStep(s, organization, subscription, expiresAt));
  }

  lemma SweepKeepsCoherent(s: State, now: int)
    requires Coherent(s)
    ensures Coherent(SweepStep(s, now))
  {
    SameActivationsKeepCoherent(s, SweepStep(s, now));
  }

  lemma RenewKeepsCoherent(s: State, subscription: nat, newEndDate: int, extendKeys: bool, now: int)
    requires Coherent(s)
    ensures Coherent(RenewStep(s, subscription, newEndDate, extendKeys, now))
  {
    SameActivationsKeepCoherent(s, RenewStep(s, subscription, newEndDate, extendKeys, now));
  }

  lemma MarkExpiredKeepsCoherent(s: State, key: nat)
    requires Coherent(s)
    ensures Coherent(MarkExpiredStep(s, key))
  {
    SameActivationsKeepCoherent(s, MarkExpiredStep(s, key));
  }

  lemma ResetKeepsCoherent(s: State, id: nat)
    requires Coherent(s)
    ensures Coherent(ResetStep(s, id))
  {
    SameActivationsKeepCoherent(s, ResetStep(s, id));
  }

  lemma FreeKeysKeepsCoherent(s: State, id: nat)
    requires Coherent(s)
    ensures Coherent(FreeKeysStep(s, id))
  {
    SameActivationsKeepCoherent(s, FreeKeysStep(s, id));
  }

  lemma DisableOrganizationKeepsCoherent(s: State, organization: nat)
    requires Coherent(s)
    ensures Coherent(DisableOrganizationStep(s, organization))
  {
    SameActivationsKeepCoherent(s, DisableOrganizationStep(s, organization));
  }

  lemma ExtendKeepsCoherent(s: State, key: nat, expiresAt: Option<int>)
    requires Coherent(s)
    ensures Coherent(ExtendStep(s, key, expiresAt))
  {
    SameActivationsKeepCoherent(s, ExtendStep(s, key, expiresAt));
  }

  lemma NextKeepsCoherent(s: State, act: Action)
    requires Coherent(s)
    ensures Coherent(Next(s, act))
  {
    match act
    case Bind(_, _, _, _) => BindKeepsCoherent(s, act);
    case Create(organization, subscription, expiresAt) => CreateKeepsCoherent(s, organization, subscription, expiresAt);
    case Revoke(key) => RevokeKeepsCoherent(s, key);
    case Replace(key) =>
      RevokeKeepsCoherent(s, key);
      if key in s.keys && s.keys[key].subscription.Some? {
        CreateKeepsCoherent(RevokeStep(s, key), s.keys[key].organization, s.keys[key].subscription.value,
                            s.keys[key].expiresAt);
      }
    case Sweep(now) => SweepKeepsCoherent(s, now);
    case Renew(subscription, newEndDate, extendKeys, now) =>
        RenewKeepsCoherent(s, subscription, newEndDate, extendKeys, now);
    case MarkExpired(key) => MarkExpiredKeepsCoherent(s, key);
    case ResetActivation(id) => ResetKeepsCoherent(s, id);
    case FreeKeys(id) => FreeKeysKeepsCoherent(s, id);
    case DisableOrganization(organization) => DisableOrganizationKeepsCoherent(s, organization);
    case ExtendExpiry(key, expiresAt) => ExtendKeepsCoherent(s, key, expiresAt);
    case Verify(_, _, _, _) =>
    case Configure(_, _) =>
  }

  const EMPTY := State(map[], map[], map[], {}, 0, 0, multiset{}, multiset{})

  /** So does every run from the empty tables. */
  lemma {:induction false} RunsAreCoherent(acts: seq<Action>)
    ensures Coherent(Run(EMPTY, acts))
    decreases |acts|
  {
    if acts != [] {
      RunsAreCoherent(acts[..|acts| - 1]);
      NextKeepsCoherent(Run(EMPTY, acts[..|acts| - 1]), acts[|acts| - 1]);
    }
  }

  // ----- Sweeping -----

  /** A subscription that is expired, canceled, deleted, or of an organization that is not active. */
  predicate HasInvalid(s: State, subscription: nat) {
    subscription in s.subscriptions
    && var sub := s.subscriptions[subscription];
       sub.status.Expired? || sub.status.Canceled? || sub.deleted
       || (sub.organization.Some? && sub.organization.value !in s.activeOrganizations)
  }

  ghost predicate OwnsInvalid(s: State, organization: nat) {
    exists i :: HasInvalid(s, i) && s.subscriptions[i].organization == Some(organization)
  }

  /** Whether a sweep that ends in `s` concerns the key. */
  ghost predicate Concerned(s: State, k: Key) {
    (k.subscription.Some? && HasInvalid(s, k.subscription.value)) || OwnsInvalid(s, k.organization)
  }

  lemma OwnersOwn(s: State, organization: nat)
    ensures organization in Owners(s.subscriptions, Invalid(s.subscriptions, s.activeOrganizations)) <==>
              OwnsInvalid(s, organization)
  {
    var invalid := Invalid(s.subscriptions, s.activeOrganizations);
    forall i
      ensures i in invalid <==> HasInvalid(s, i)
    {
    }
  }

  /** A subscription that runs past its end expires; no other one changes. */
  ghost predicate IsSweptSubscription(before: Subscription, after: Subscription, now: int) {
    after == if before.status.Active? && before.endDate.Some? && before.endDate.value < now
             then before.(status := SubscriptionStatus.Expired) else before
  }

  /** A usable key of an invalid subscription, or of an owner of one, expires and lets go of its device. */
  ghost predicate IsSweptKey(s': State, before: Key, after: Key) {
    after == if Concerned(s', before) && (before.status.Available? || before.status.Bound?)
             then before.(status := KeyStatus.Expired, bound := None) else before
  }

  /** An active activation of such a key's subscription, or of such an organization, is disabled. */
  ghost predicate IsSweptActivation(s': State, k: Key, before: Activation, after: Activation) {
    after == if before.status.Active?
                && ((k.subscription.Some? && HasInvalid(s', k.subscription.value))
                    || OwnsInvalid(s', before.organization))
             then before.(status := ActivationStatus.Disabled) else before
  }

  /** What a sweep achieves, row by row. */
  ghost predicate IsSwept(s: State, s': State, now: int) {
    && s'.subscriptions.Keys == s.subscriptions.Keys && s'.keys.Keys == s.keys.Keys
    && s'.activations.Keys == s.activations.Keys && s'.activeOrganizations == s.activeOrganizations
    && (forall i :: i in s.subscriptions ==> IsSweptSubscription(s.subscriptions[i], s'.subscriptions[i], now))
    && (forall k :: k in s.keys ==> IsSweptKey(s', s.keys[k], s'.keys[k]))
    && (forall id :: id in s.activations && s.activations[id].key in s.keys ==>
          IsSweptActivation(s', s.keys[s.activations[id].key], s.activations[id], s'.activations[id]))
  }

  lemma SweepClears(s: State, now: int, key: nat)
    requires key in s.keys
    ensures var s' := Next(s, Sweep(now)); key in s'.keys && IsSweptKey(s', s.keys[key], s'.keys[key])
  {
    OwnersOwn(Next(s, Sweep(now)), s.keys[key].organization);
  }

  lemma SweepStops(s: State, now: int, id: nat)
    requires id in s.activations && s.activations[id].key in s.keys
    ensures var s', a := Next(s, Sweep(now)), s.activations[id];
            id in s'.activations && IsSweptActivation(s', s.keys[a.key], a, s'.activations[id])
  {
    OwnersOwn(Next(s, Sweep(now)), s.activations[id].organization);
  }

  /**
   After a sweep no subscription runs past its end, no key of an invalid subscription or of its owner is usable,
   none of their activations is active, and everything else is as before.
   */
  lemma SweepIsSwept(s: State, now: int)
    ensures IsSwept(s, Next(s, Sweep(now)), now)
    ensures forall k :: k in Next(s, Sweep(now)).keys && Concerned(Next(s, Sweep(now)), Next(s, Sweep(now)).keys[k]) ==>
              Next(s, Sweep(now)).keys[k].status.Expired? || Next(s, Sweep(now)).keys[k].status.Disabled?
  {
    var s' := Next(s, Sweep(now));
    forall k | k in s.keys
      ensures IsSweptKey(s', s.keys[k], s'.keys[k])
    {
      SweepClears(s, now, k);
    }
    forall id | id in s.activations && s.activations[id].key in s.keys
      ensures IsSweptActivation(s', s.keys[s.activations[id].key], s.activations[id], s'.activations[id])
    {
      SweepStops(s, now, id);
    }
  }

  // ----- Revocation -----

  /** Disabled, unbound, and on no device. */
  ghost predicate Dead(s: State, key: nat) {
    && key in s.keys && s.keys[key].status.Disabled? && s.keys[key].bound == None
    && (forall id :: id in s.activations && s.activations[id].key == key ==> !s.activations[id].status.Active?)
  }

  /** Deleting an organization: its keys and activations are disabled, and no device verifies with one of them. */
  lemma DisableOrganizationKills(s: State, organization: nat)
    ensures var s' := Next(s, DisableOrganization(organization));
            && s'.keys.Keys == s.keys.Keys && s'.activations.Keys == s.activations.Keys
            && s'.subscriptions == s.subscriptions && organization !in s'.activeOrganizations
            && (forall k :: k in s.keys ==>
                  s'.keys[k] == if s.keys[k].organization == organization
                                then s.keys[k].(status := KeyStatus.Disabled) else s.keys[k])
            && (forall id :: id in s.activations ==>
                  s'.activations[id] == if s.activations[id].organization == organization
                                        then s.activations[id].(status := ActivationStatus.Disabled)
                                        else s.activations[id])
            && (forall key, device, claim, now ::
                  key in s.keys && s.keys[key].organization == organization ==>
                    !Answer(s', key, device, claim, now).Valid?)
  {
  }

  /** Dead, and no verify that read the key before its revocation is about to overwrite the status. */
  ghost predicate DeadForGood(s: State, key: nat) {
    Dead(s, key) && key !in s.marking
  }

  lemma RevokeKills(s: State, key: nat)
    requires key in s.keys
    ensures Dead(Next(s, Revoke(key)), key)
  {
  }

  ghost predicate IsDisabled(s: State, key: nat) { key in s.keys && s.keys[key].status.Disabled? }

  /** The two steps that can make a disabled key anything else. */
  predicate Reenables(s: State, act: Action, key: nat)
    requires key in s.keys
  {
    || (act == MarkExpired(key) && key in s.marking)
    || (act.FreeKeys? && act.activation in s.resetting && s.keys[key].bound == Some(act.activation))
  }

  /** From `s` to `s'`, the key stays disabled and gains no pointer, no active device and no mark. */
  ghost predicate StillDisabled(s: State, s': State, key: nat)
    requires key in s.keys
  {
    && IsDisabled(s', key) && (s.keys[key].bound == None ==> s'.keys[key].bound == None)
    && (forall id :: id in s'.activations && s'.activations[id].key == key && s'.activations[id].status.Active? ==>
          id in s.activations && s.activations[id].key == key && s.activations[id].status.Active?)
    && (key in s'.marking ==> key in s.marking)
  }

  lemma BindKeepsDisabled(s: State, bound: nat, device: nat, claim: Option<Option<nat>>, now: int, key: nat)
    requires Coherent(s) && IsDisabled(s, key) && BindStep(s, bound, device, claim, now).Some?
    ensures StillDisabled(s, BindStep(s, bound, device, claim, now).value, key)
  {
  }

  lemma RevokeKeepsDisabled(s: State, revoked: nat, key: nat)
    requires IsDisabled(s, key)
    ensures StillDisabled(s, RevokeStep(s, revoked), key)
  {
  }

  lemma CreateKeepsDisabled(s: State, organization: nat, subscription: nat, expiresAt: Option<int>, key: nat)
    requires Coherent(s) && IsDisabled(s, key)
    ensures StillDisabled(s, CreateStep(s, organization, subscription, expiresAt), key)
  {
  }

  lemma ReplaceKeepsDisabled(s: State, replaced: nat, key: nat)
    requires Coherent(s) && IsDisabled(s, key)
    ensures StillDisabled(s, ReplaceStep(s, replaced), key)
  {
    if replaced in s.keys && s.keys[replaced].subscription.Some? {
      var k := s.keys[replaced];
      RevokeKeepsDisabled(s, replaced, key);
      RevokeKeepsCoherent(s, replaced);
      CreateKeepsDisabled(RevokeStep(s, replaced), k.organization, k.subscription.value, k.expiresAt, key);
    }
  }

  lemma ExpiryKeepsDisabled(s: State, changed: nat, expiresAt: Option<int>, key: nat)
    requires IsDisabled(s, key)
    ensures StillDisabled(s, ExtendStep(s, changed, expiresAt), key)
    ensures changed != key || key !in s.marking ==> StillDisabled(s, MarkExpiredStep(s, changed), key)
  {
  }

  lemma VerifyKeepsDisabled(s: State, verified: nat, device: nat, claim: Option<Option<nat>>, now: int, key: nat)
    requires IsDisabled(s, key)
    ensures StillDisabled(s, VerifyStep(s, verified, device, claim, now), key)
  {
  }

  lemma SubscriptionsKeepDisabled(s: State, subscription: nat, newEndDate: int, extendKeys: bool, now: int, key: nat)
    requires IsDisabled(s, key)
    ensures StillDisabled(s, RenewStep(s, subscription, newEndDate, extendKeys, now), key)
    ensures StillDisabled(s, SweepStep(s, now), key)
  {
  }

  lemma OrganizationKeepsDisabled(s: State, organization: nat, key: nat)
    requires IsDisabled(s, key)
    ensures StillDisabled(s, DisableOrganizationStep(s, organization), key)
  {
  }

  lemma ResetKeepsDisabled(s: State, id: nat, key: nat)
    requires IsDisabled(s, key)
    ensures StillDisabled(s, ResetStep(s, id), key)
    ensures !(id in s.resetting && s.keys[key].bound == Some(id)) ==> StillDisabled(s, FreeKeysStep(s, id), key)
  {
  }

  lemma StepKeepsDisabled(s: State, act: Action, key: nat)
    requires Coherent(s) && IsDisabled(s, key) && !Reenables(s, act, key)
    ensures StillDisabled(s, Next(s, act), key)
  {
    match act
    case Create(organization, subscription, expiresAt) =>
        CreateKeepsDisabled(s, organization, subscription, expiresAt, key);
    case Revoke(revoked) => RevokeKeepsDisabled(s, revoked, key);
    case Replace(replaced) => ReplaceKeepsDisabled(s, replaced, key);
    case Bind(bound, device, claim, now) =>
      if BindStep(s, bound, device, claim, now).Some? {
        BindKeepsDisabled(s, bound, device, claim, now, key);
      }
    case Renew(subscription, newEndDate, extendKeys, now) =>
      SubscriptionsKeepDisabled(s, subscription, newEndDate, extendKeys, now, key);
    case Sweep(now) => SubscriptionsKeepDisabled(s, 0, 0, false, now, key);
    case DisableOrganization(organization) => OrganizationKeepsDisabled(s, organization, key);
    case ResetActivation(id) => ResetKeepsDisabled(s, id, key);
    case FreeKeys(id) => ResetKeepsDisabled(s, id, key);
    case Verify(verified, device, claim, now) => VerifyKeepsDisabled(s, verified, device, claim, now, key);
    case MarkExpired(marked) => ExpiryKeepsDisabled(s, marked, None, key);
    case ExtendExpiry(changed, expiresAt) => ExpiryKeepsDisabled(s, changed, expiresAt, key);
    case Configure(_, _) =>
  }

  /**
   A key that is merely disabled, as deleting its organization leaves it, can come back in two ways: by a
   verify that is still to mark it, and by a reset of the activation it still points to.
   */
  lemma DisabledStaysDisabled(s: State, act: Action, key: nat)
    requires Coherent(s) && IsDisabled(s, key)
    ensures IsDisabled(Next(s, act), key) <==> !Reenables(s, act, key)
  {
    if !Reenables(s, act, key) {
      StepKeepsDisabled(s, act, key);
    }
  }

  lemma DeadStaysDead(s: State, act: Action, key: nat)
    requires Coherent(s) && DeadForGood(s, key)
    ensures DeadForGood(Next(s, act), key)
  {
    StepKeepsDisabled(s, act, key);
  }

  lemma DeadNeverVerifies(s: State, key: nat, device: nat, claim: Option<Option<nat>>, now: int)
    requires Dead(s, key)
    ensures !Answer(s, key, device, claim, now).Valid?
    ensures BindStep(s, key, device, claim, now).None?
  {
  }

  lemma {:induction false} DeadForGoodRuns(s: State, key: nat, acts: seq<Action>)
    requires Coherent(s) && DeadForGood(s, key)
    ensures Coherent(Run(s, acts)) && DeadForGood(Run(s, acts), key)
    decreases |acts|
  {
    if acts != [] {
      var before := acts[..|acts| - 1];
      DeadForGoodRuns(s, key, before);
      NextKeepsCoherent(Run(s, before), acts[|acts| - 1]);
      DeadStaysDead(Run(s, before), acts[|acts| - 1], key);
    }
  }

  /** After `s`, the key stays disabled and unbound on every run, no device binds it, and it never verifies. */
  ghost predicate NeverWorksAgain(s: State, key: nat) {
    forall acts: seq<Action> :: Silent(Run(s, acts), key)
  }

  ghost predicate Silent(s: State, key: nat) {
    && Dead(s, key)
    && forall device, claim, now ::
         !Answer(s, key, device, claim, now).Valid? && BindStep(s, key, device, claim, now).None?
  }

  /**
   Revocation is permanent, over every later run, exactly when no verify is still to mark the key: such a
   verify would overwrite DISABLED with EXPIRED, which a renewal turns into AVAILABLE.
   */
  lemma RevocationIsPermanent(s: State, key: nat)
    requires Coherent(s) && key in s.keys
    ensures NeverWorksAgain(Next(s, Revoke(key)), key) <==> key !in s.marking
  {
    var revoked := Next(s, Revoke(key));
    NextKeepsCoherent(s, Revoke(key));
    RevokeKills(s, key);
    if key !in s.marking {
      forall acts: seq<Action>
        ensures Silent(Run(revoked, acts), key)
      {
        DeadForGoodRuns(revoked, key, acts);
        forall device, claim, now
          ensures !Answer(Run(revoked, acts), key, device, claim, now).Valid?
          ensures BindStep(Run(revoked, acts), key, device, claim, now).None?
        {
          DeadNeverVerifies(Run(revoked, acts), key, device, claim, now);
        }
      }
    } else {
      var late := [MarkExpired(key)];
      assert late[..0] == [] && Run(revoked, late) == Next(Run(revoked, []), MarkExpired(key));
      assert !Silent(Run(revoked, late), key);
    }
  }

  // ----- Bound devices -----

  /** Binding and verifying fit together: a device that was just bound verifies, with the same facts and clock. */
  lemma BoundDeviceVerifies(s: State, key: nat, device: nat, claim: Option<Option<nat>>, now: int)
    requires Coherent(s) && BindStep(s, key, device, claim, now).Some?
    ensures var bound := BindStep(s, key, device, claim, now).value;
            && Answer(bound, key, device, claim, now).Valid?
            && bound.keys[key].status.Bound?
  {
    var bound := BindStep(s, key, device, claim, now).value;
    NextKeepsCoherent(s, Bind(key, device, claim, now));
    var existing := FindActivation(s.activations, key, device);
    var id := if existing.Some? then existing.value else s.nextActivation;
    assert OfDevice(bound.activations, id, key, device);
  }

  /** What the late mark does to a key that was revoked in between. */
  lemma MarkedRevives(s: State, key: nat, newEndDate: int, device: nat, now: int)
    requires Coherent(s) && key in s.keys && key in s.marking && s.keys[key].organization in s.activeOrganizations
    requires s.keys[key].subscription.Some? && s.keys[key].subscription.value in s.subscriptions
    requires s.subscriptions[s.keys[key].subscription.value].organization == Some(s.keys[key].organization)
    requires !s.subscriptions[s.keys[key].subscription.value].deleted && now < newEndDate
    ensures var marked := Next(Next(s, Revoke(key)), MarkExpired(key));
            var renewed := Next(marked, Renew(s.keys[key].subscription.value, newEndDate, true, now));
            Answer(Next(renewed, Bind(key, device, None, now)), key, device, None, now).Valid?
  {
    var revoked := Next(s, Revoke(key));
    var marked := Next(revoked, MarkExpired(key));
    var renewed := Next(marked, Renew(s.keys[key].subscription.value, newEndDate, true, now));
    NextKeepsCoherent(s, Revoke(key));
    NextKeepsCoherent(revoked, MarkExpired(key));
    NextKeepsCoherent(marked, Renew(s.keys[key].subscription.value, newEndDate, true, now));
    assert ActiveDevices(renewed.activations, key) == {};
    BoundDeviceVerifies(renewed, key, device, None, now);
  }

  /**
   How any lapsed key survives its revocation: a verify finds it expired, the revocation commits, the verify
   marks the key, a renewal makes it available, and any device binds it.
   */
  lemma LateMarkRevives(s: State, key: nat, newEndDate: int, device: nat, now: int)
    requires Coherent(s) && key in s.keys && !s.keys[key].status.Disabled? && Lapsed(s.keys[key].expiresAt, now)
    requires s.keys[key].organization in s.activeOrganizations
    requires s.keys[key].subscription.Some? && s.keys[key].subscription.value in s.subscriptions
    requires s.subscriptions[s.keys[key].subscription.value].organization == Some(s.keys[key].organization)
    requires !s.subscriptions[s.keys[key].subscription.value].deleted && now < newEndDate
    ensures var found := Next(s, Verify(key, device, None, now));
            var marked := Next(Next(found, Revoke(key)), MarkExpired(key));
            var renewed := Next(marked, Renew(s.keys[key].subscription.value, newEndDate, true, now));
            Answer(Next(renewed, Bind(key, device, None, now)), key, device, None, now).Valid?
  {
    NextKeepsCoherent(s, Verify(key, device, None, now));
    MarkedRevives(Next(s, Verify(key, device, None, now)), key, newEndDate, device, now);
  }

  // ----- What a verification answers -----

  /** The device has this key: one of its activations is active. */
  ghost predicate HasDevice(s: State, key: nat, device: nat) {
    exists id :: id in s.activations && s.activations[id].key == key && s.activations[id].device == device
                 && s.activations[id].status.Active?
  }

  /** The key may be used, whoever asks: it fits the claim, and is neither disabled nor lapsed. */
  predicate InForce(k: Key, claim: Option<Option<nat>>, now: int) {
    && (claim.Some? ==> claim.value == Some(k.organization))
    && !k.status.Disabled? && (k.expiresAt.Some? ==> now < k.expiresAt.value)
  }

  /** The verdict, read off the tables: what makes each of the ten answers the right one. */
  ghost predicate IsVerdict(s: State, key: nat, device: nat, claim: Option<Option<nat>>, now: int, verdict: Verdict) {
    if key !in s.keys then verdict.InvalidKey?
    else
      var k := s.keys[key];
      var known :=
        exists id :: id in s.activations && s.activations[id].key == key && s.activations[id].device == device;
      var holder := HasDevice(s, key, device);
      var home := k.organization in s.activeOrganizations;
      var paid := k.subscription.Some? && k.subscription.value in s.subscriptions ==>
                    s.subscriptions[k.subscription.value].status.Active?
                    || s.subscriptions[k.subscription.value].status.Trial?;
      && !verdict.InvalidKey?
      && (verdict.OrganizationMismatch? <==> claim.Some? && claim.value != Some(k.organization))
      && (verdict.KeyDisabled? <==> (claim.Some? ==> claim.value == Some(k.organization)) && k.status.Disabled?)
      && (verdict.KeyExpired? <==> InForce(k.(expiresAt := None), claim, now) && !InForce(k, claim, now))
      && (verdict.BoundToOtherDevice? <==> InForce(k, claim, now) && !known && k.bound.Some?)
      && (verdict.NotBound? <==> InForce(k, claim, now) && !known && k.bound.None?)
      && (verdict.InactiveActivation? <==> InForce(k, claim, now) && known && !holder)
      && (verdict.OrganizationInactive? <==> InForce(k, claim, now) && holder && !home)
      && (verdict.SubscriptionInactive? <==> InForce(k, claim, now) && holder && home && !paid)
      && (verdict.Valid? <==> InForce(k, claim, now) && holder && home && paid)
  }

  lemma AnswerIsVerdict(s: State, key: nat, device: nat, claim: Option<Option<nat>>, now: int)
    requires Coherent(s)
    ensures IsVerdict(s, key, device, claim, now, Answer(s, key, device, claim, now))
  {
    var existing := FindActivation(s.activations, key, device);
    if existing.Some? {
      assert OfDevice(s.activations, existing.value, key, device);
    }
    forall id | id in s.activations && s.activations[id].key == key && s.activations[id].device == device
      ensures existing == Some(id)
    {
      assert OfDevice(s.activations, id, key, device);
    }
  }

  // ----- A device that lost its key -----

  /** The subscription exists, is not deleted, and is active or on trial. */
  predicate HasPaid(subscriptions: map<nat, Subscription>, subscription: Option<nat>) {
    && subscription.Some? && subscription.value in subscriptions && !subscriptions[subscription.value].deleted
    && (subscriptions[subscription.value].status.Active? || subscriptions[subscription.value].status.Trial?)
  }

  predicate Knows(activations: map<nat, Activation>, key: nat, device: nat) {
    exists id :: id in activations && activations[id].key == key && activations[id].device == device
  }

  function HeldBy(activations: map<nat, Activation>, key: nat): set<nat> {
    set id | id in activations && activations[id].key == key && activations[id].status.Active?
  }

  function SeatsTaken(keys: map<nat, Key>, subscription: nat, excluded: set<nat>): set<nat> {
    set k | k in keys && k !in excluded && keys[k].subscription == Some(subscription)
            && (keys[k].status.Available? || keys[k].status.Bound?)
  }

  lemma KnowsIsFound(activations: map<nat, Activation>, key: nat, device: nat)
    ensures Knows(activations, key, device) <==> FindActivation(activations, key, device).Some?
  {
    if id :| id in activations && activations[id].key == key && activations[id].device == device {
      assert OfDevice(activations, id, key, device);
    }
  }

  /** A seat of the subscription is left beside the excluded keys. */
  predicate SeatToSpare(s: State, subscription: Option<nat>, excluded: set<nat>) {
    subscription.Some? && subscription.value in s.subscriptions
    && |SeatsTaken(s.keys, subscription.value, excluded)| < s.subscriptions[subscription.value].seatLimit
  }

  lemma SpareSeatIsCapacity(s: State, key: nat)
    requires key in s.keys
    ensures SeatToSpare(s, s.keys[key].subscription, {key})
            <==> s.keys[key].subscription.Some?
                 && HasCapacity(s.keys, s.subscriptions, s.keys[key].subscription.value, {key})
  {
    if s.keys[key].subscription.Some? {
      var i := s.keys[key].subscription.value;
      assert SeatsTaken(s.keys, i, {key}) == UsableKeys(s.keys, i) - {key};
    }
  }

  /** A revoked key leaves its seat. */
  lemma SeatAfterRevocation(s: State, key: nat, organization: nat, subscription: nat)
    requires key in s.keys
    ensures MayCreate(Next(s, Revoke(key)), organization, subscription, {})
            <==> MayCreate(s, organization, subscription, {key})
  {
    var s' := Next(s, Revoke(key));
    assert SeatsTaken(s'.keys, subscription, {}) == SeatsTaken(s.keys, subscription, {key});
  }

  lemma SeatsAreCounted(s: State, organization: nat, subscription: nat)
    ensures MayCreate(s, organization, subscription, {})
            <==> organization in s.activeOrganizations && subscription in s.subscriptions
                 && s.subscriptions[subscription].organization == Some(organization)
                 && !s.subscriptions[subscription].deleted && IsActive(s.subscriptions[subscription].status)
                 && HasCapacity(s.keys, s.subscriptions, subscription, {})
  {
    assert SeatsTaken(s.keys, subscription, {}) == UsableKeys(s.keys, subscription) - {};
  }

  /** A key may be created: organization and subscription are in order, and a seat is left beside the excluded keys. */
  predicate MayCreate(s: State, organization: nat, subscription: nat, excluded: set<nat>) {
    && organization in s.activeOrganizations && HasPaid(s.subscriptions, Some(subscription))
    && s.subscriptions[subscription].organization == Some(organization)
    && |SeatsTaken(s.keys, subscription, excluded)| < s.subscriptions[subscription].seatLimit
  }

  /** A renewal moves the expiry of the organization's keys that are not disabled, and frees those that had expired. */
  predicate IsRenewed(before: Key, after: Key, organization: Option<nat>, newEndDate: int, extendKeys: bool, now: int) {
    if !extendKeys || organization != Some(before.organization) || before.status.Disabled? then after == before
    else
      && after.(status := before.status) == before.(expiresAt := Some(newEndDate))
      && after.status == if before.status.Expired? && now < newEndDate then Available else before.status
  }

  predicate Binds(act: Action, key: nat, device: nat) { act.Bind? && act.key == key && act.device == device }

  lemma StoppedByBind(s: State, act: Action, key: nat, device: nat)
    requires Coherent(s) && act.Bind? && !HasDevice(s, key, device) && !Binds(act, key, device)
    ensures !HasDevice(Next(s, act), key, device)
  {
  }

  /** From `s` to `s'` activations keep what they are of, and none becomes active. */
  ghost predicate OnlyStops(s: State, s': State) {
    && s'.activations.Keys == s.activations.Keys
    && forall id :: id in s.activations ==>
         s'.activations[id].key == s.activations[id].key && s'.activations[id].device == s.activations[id].device
         && (s'.activations[id].status.Active? ==> s.activations[id].status.Active?)
  }

  lemma SweepOnlyStops(s: State, now: int)
    ensures OnlyStops(s, SweepStep(s, now))
  {
  }

  lemma RevokeOnlyStops(s: State, key: nat)
    ensures OnlyStops(s, RevokeStep(s, key))
  {
  }

  lemma ReplaceOnlyStops(s: State, key: nat)
    ensures OnlyStops(s, ReplaceStep(s, key))
  {
    RevokeOnlyStops(s, key);
  }

  lemma ResetOnlyStops(s: State, id: nat)
    ensures OnlyStops(s, ResetStep(s, id)) && OnlyStops(s, FreeKeysStep(s, id))
  {
  }

  lemma OrganizationOnlyStops(s: State, organization: nat)
    ensures OnlyStops(s, DisableOrganizationStep(s, organization))
  {
  }

  lemma KeysOnly(s: State, act: Action)
    requires act.Create? || act.Renew? || act.Verify? || act.MarkExpired? || act.ExtendExpiry? || act.Configure?
    ensures Next(s, act).activations == s.activations
  {
  }

  /** Nothing but a binding of this device gives it the key. */
  lemma StoppedStep(s: State, act: Action, key: nat, device: nat)
    requires Coherent(s) && !HasDevice(s, key, device) && !Binds(act, key, device)
    ensures !HasDevice(Next(s, act), key, device)
  {
    match act
    case Bind(_, _, _, _) => StoppedByBind(s, act, key, device);
    case Sweep(now) => SweepOnlyStops(s, now);
    case Revoke(k) => RevokeOnlyStops(s, k);
    case Replace(k) => ReplaceOnlyStops(s, k);
    case ResetActivation(id) => ResetOnlyStops(s, id);
    case FreeKeys(id) => ResetOnlyStops(s, id);
    case DisableOrganization(organization) => OrganizationOnlyStops(s, organization);
    case _ => KeysOnly(s, act);
  }

  lemma {:induction false} StoppedRuns(s: State, acts: seq<Action>, key: nat, device: nat)
    requires Coherent(s) && !HasDevice(s, key, device)
    requires forall i :: 0 <= i < |acts| ==> !Binds(acts[i], key, device)
    ensures Coherent(Run(s, acts)) && !HasDevice(Run(s, acts), key, device)
    decreases |acts|
  {
    if acts != [] {
      var init, act := acts[..|acts| - 1], acts[|acts| - 1];
      StoppedRuns(s, init, key, device);
      assert !Binds(act, key, device);
      NextKeepsCoherent(Run(s, init), act);
      StoppedStep(Run(s, init), act, key, device);
    }
  }

  /** Resetting a device's activation takes the key from it. */
  lemma ResetStops(s: State, id: nat)
    requires Coherent(s) && id in s.activations
    ensures !HasDevice(Next(s, ResetActivation(id)), s.activations[id].key, s.activations[id].device)
  {
    var a, s' := s.activations[id], Next(s, ResetActivation(id));
    forall i | i in s'.activations && s'.activations[i].key == a.key && s'.activations[i].device == a.device
      ensures i == id
    {
      assert OfDevice(s.activations, i, a.key, a.device) && OfDevice(s.activations, id, a.key, a.device);
    }
  }

  /** A device without an active activation never verifies, until a step binds it. */
  lemma StoppedUntilBound(s: State, acts: seq<Action>, key: nat, device: nat, claim: Option<Option<nat>>, now: int)
    requires Coherent(s) && !HasDevice(s, key, device)
    requires forall i :: 0 <= i < |acts| ==> !Binds(acts[i], key, device)
    ensures !Answer(Run(s, acts), key, device, claim, now).Valid?
  {
    StoppedRuns(s, acts, key, device);
    AnswerIsVerdict(Run(s, acts), key, device, claim, now);
  }

  // ----- The service -----

  class Registry {
    var keys: map<nat, Key>
    var activations: map<nat, Activation>
    var subscriptions: map<nat, Subscription>
    var activeOrganizations: set<nat>
    var nextKey: nat
    var nextActivation: nat
    ghost var marking: multiset<nat>
    ghost var resetting: multiset<nat>

    ghost function Now(): State
      reads this
    {
      State(keys, activations, subscriptions, activeOrganizations, nextKey, nextActivation, marking, resetting)
    }

    method FindUnique(key: nat, device: nat) returns (existing: Option<nat>)
      requires Coherent(Now())
      ensures existing == FindActivation(activations, key, device)
    {
      if id :| id in activations && activations[id].key == key && activations[id].device == device {
        assert OfDevice(activations, id, key, device);
        existing := Some(id);
      } else {
        existing := None;
        var found := FindActivation(activations, key, device);
        assert found.Some? ==> OfDevice(activations, found.value, key, device);
      }
    }

    method BindHardwareActivation(key: nat, device: nat, claim: Option<Option<nat>>, now: int)
        returns (activation: Option<nat>)
      requires Coherent(Now())
      modifies this
      ensures Coherent(Now()) && Now() == old(Next(Now(), Bind(key, device, claim, now)))
      ensures activation.Some? <==>
                && key in old(keys) && InForce(old(keys)[key], claim, now)
                && old(keys)[key].organization in old(activeOrganizations)
                && HasPaid(old(subscriptions), old(keys)[key].subscription)
                && (Knows(old(activations), key, device)
                    || |HeldBy(old(activations), key)| < Max(1, old(keys)[key].maxDevices))
      ensures activation.None? ==> Now() == old(Now())
      ensures activation.Some? ==>
                var id, k := activation.value, old(keys)[key];
                && keys == old(keys)[key := k.(status := Bound, bound := if k.bound.Some? then k.bound else Some(id))]
                && activations == old(activations)[id := Activation(
                     key, if id in old(activations) then old(activations)[id].organization else k.organization,
                     device, ActivationStatus.Active)]
                && (id in old(activations) <==> Knows(old(activations), key, device))
                && (id in old(activations) ==> old(activations)[id].key == key && old(activations)[id].device == device)
    {
      NextKeepsCoherent(Now(), Bind(key, device, claim, now));
      KnowsIsFound(activations, key, device);
      assert HeldBy(activations, key) == ActiveDevices(activations, key);
      if key !in keys || keys[key].status.Disabled? || keys[key].organization !in activeOrganizations {
        return None;
      }
      var k := keys[key];
      if k.subscription.None? || k.subscription.value !in subscriptions || subscriptions[k.subscription.value].deleted
         || !IsActive(subscriptions[k.subscription.value].status) || Lapsed(k.expiresAt, now)
         || (claim.Some? && claim.value != Some(k.organization)) {
        return None;
      }
      var existing := FindUnique(key, device);
      if existing.Some? {
        activations := activations[existing.value := activations[existing.value].(status := ActivationStatus.Active)];
        keys := keys[key := k.(status := Bound, bound := Mine(k.bound, existing.value))];
        return existing;
      }
      if |ActiveDevices(activations, key)| >= Max(1, k.maxDevices) {
        return None;
      }
      activation := Some(nextActivation);
      nextActivation := nextActivation + 1;
      activations := activations[activation.value := Activation(key, k.organization, device, ActivationStatus.Active)];
      keys := keys[key := k.(status := Bound, bound := Mine(k.bound, activation.value))];
    }

    /** One call that nothing interrupts. */
    method VerifyHardwareActivation(key: nat, device: nat, claim: Option<Option<nat>>, now: int)
        returns (verdict: Verdict)
      requires Coherent(Now())
      modifies this
      ensures verdict == old(Answer(Now(), key, device, claim, now))
      ensures IsVerdict(old(Now()), key, device, claim, now, verdict)
      ensures keys == if verdict.KeyExpired? then old(keys)[key := old(keys)[key].(status := KeyStatus.Expired)]
                      else old(keys)
      ensures activations == old(activations)
      ensures Coherent(Now())
      ensures Now() == if verdict.KeyExpired?
                       then old(Next(Next(Now(), Verify(key, device, claim, now)), MarkExpired(key)))
                       else old(Now())
    {
      AnswerIsVerdict(Now(), key, device, claim, now);
      if key !in keys {
        return InvalidKey;
      }
      var k := keys[key];
      if claim.Some? && claim.value != Some(k.organization) {
        return OrganizationMismatch;
      }
      if k.status.Disabled? {
        return KeyDisabled;
      }
      if Lapsed(k.expiresAt, now) {
        VerifyThenMark(Now(), key, device, claim, now);
        keys := keys[key := k.(status := KeyStatus.Expired)];
        return KeyExpired;
      }
      var existing := FindUnique(key, device);
      if existing.None? {
        return if k.bound.Some? then BoundToOtherDevice else NotBound;
      }
      if !activations[existing.value].status.Active? {
        return InactiveActivation;
      }
      if k.organization !in activeOrganizations {
        return OrganizationInactive;
      }
      if k.subscription.Some? && k.subscription.value in subscriptions
          && !IsActive(subscriptions[k.subscription.value].status) {
        return SubscriptionInactive;
      }
      return Valid;
    }

    /** One call that nothing interrupts. */
    method ResetHardwareActivation(activation: nat) returns (found: bool)
      requires Coherent(Now())
      modifies this
      ensures found <==> activation in old(activations)
      ensures found ==>
                && activations
                   == old(activations)[activation := old(activations)[activation].(status := ActivationStatus.Reset)]
                && keys.Keys == old(keys).Keys
                && forall k :: k in keys ==>
                     keys[k] == if old(keys)[k].bound == Some(activation)
                                then old(keys)[k].(bound := None, status := Available) else old(keys)[k]
      ensures !found ==> Now() == old(Now())
      ensures Coherent(Now())
      ensures Now() == if found then old(Next(Next(Now(), ResetActivation(activation)), FreeKeys(activation)))
                else old(Now())
    {
      if activation !in activations {
        return false;
      }
      ResetThenFree(Now(), activation);
      activations := activations[activation := activations[activation].(status := ActivationStatus.Reset)];
      keys := map k | k in keys :: FreeKey(keys[k], activation);
      return true;
    }

    method RevokeHardwareActivationKey(key: nat) returns (disabledActivations: Option<nat>)
      requires Coherent(Now())
      modifies this
      ensures Coherent(Now()) && Now() == old(Next(Now(), Revoke(key)))
      ensures disabledActivations == if key in old(keys) then Some(old(|ActiveDevices(activations, key)|)) else None
      ensures key in old(keys) ==> Dead(Now(), key)
      ensures key in old(keys) ==>
                && keys == old(keys)[key := old(keys)[key].(status := KeyStatus.Disabled, bound := None)]
                && activations.Keys == old(activations).Keys
                && forall id :: id in activations ==>
                     activations[id] == if old(activations)[id].key == key && old(activations)[id].status.Active?
                                        then old(activations)[id].(status := ActivationStatus.Disabled)
                                        else old(activations)[id]
    {
      NextKeepsCoherent(Now(), Revoke(key));
      if key !in keys {
        return None;
      }
      disabledActivations := Some(|ActiveDevices(activations, key)|);
      activations := map id | id in activations ::
        if activations[id].key == key && activations[id].status.Active?
        then activations[id].(status := ActivationStatus.Disabled) else activations[id];
      keys := keys[key := keys[key].(status := KeyStatus.Disabled, bound := None)];
    }

    method CreateHardwareActivationKey(organization: nat, subscription: nat, expiresAt: Option<int>)
        returns (key: Option<nat>)
      requires Coherent(Now())
      modifies this
      ensures Coherent(Now()) && Now() == old(Next(Now(), Create(organization, subscription, expiresAt)))
      ensures key.Some? <==> MayCreate(old(Now()), organization, subscription, {})
      ensures key.Some? ==>
                key.value !in old(keys)
                && keys == old(keys)[key.value := Key(organization, Some(subscription), Available, None,
                                                      if expiresAt.Some? then expiresAt
                                                      else old(subscriptions)[subscription].endDate, 1)]
      ensures key.None? ==> Now() == old(Now())
    {
      NextKeepsCoherent(Now(), Create(organization, subscription, expiresAt));
      SeatsAreCounted(Now(), organization, subscription);
      if organization !in activeOrganizations || subscription !in subscriptions {
        return None;
      }
      var sub := subscriptions[subscription];
      if sub.organization != Some(organization) || sub.deleted || !IsActive(sub.status)
         || !HasCapacity(keys, subscriptions, subscription, {}) {
        return None;
      }
      key := Some(nextKey);
      keys := keys[nextKey := Key(organization, Some(subscription), Available, None,
                                  if expiresAt.Some? then expiresAt else sub.endDate, 1)];
      nextKey := nextKey + 1;
    }

    method ReplaceHardwareActivationKey(key: nat) returns (replacement: Option<nat>)
      requires Coherent(Now())
      modifies this
      ensures Coherent(Now()) && Now() == old(Next(Now(), Replace(key)))
      ensures replacement.Some? ==> replacement.value !in old(keys) && replacement.value in keys && Dead(Now(), key)
      ensures !(key in old(keys) && SeatToSpare(old(Now()), old(keys)[key].subscription, {key})) ==> Now() == old(Now())
      ensures key in old(keys) && SeatToSpare(old(Now()), old(keys)[key].subscription, {key}) ==> Dead(Now(), key)
      ensures replacement.Some? <==>
                key in old(keys) && old(keys)[key].subscription.Some?
                && MayCreate(old(Now()), old(keys)[key].organization, old(keys)[key].subscription.value, {key})
      ensures replacement.Some? ==>
                keys == old(keys)[key := old(keys)[key].(status := KeyStatus.Disabled, bound := None)]
                                 [replacement.value := Key(
                  old(keys)[key].organization, old(keys)[key].subscription, Available, None,
                  if old(keys)[key].expiresAt.Some? then old(keys)[key].expiresAt
                  else old(subscriptions)[old(keys)[key].subscription.value].endDate, 1)]
    {
      if key in keys {
        SpareSeatIsCapacity(Now(), key);
      }
      if key !in keys || keys[key].subscription.None?
          || !HasCapacity(keys, subscriptions, keys[key].subscription.value, {key}) {
        return None;
      }
      ReplaceIsRevokeThenCreate(Now(), key);
      replacement := RevokeThenCreate(key, keys[key].organization, keys[key].subscription.value, keys[key].expiresAt);
    }

    method RevokeThenCreate(key: nat, organization: nat, subscription: nat, expiresAt: Option<int>)
        returns (replacement: Option<nat>)
      requires Coherent(Now()) && key in keys
      modifies this
      ensures Coherent(Now())
      ensures Now() == Next(old(Next(Now(), Revoke(key))), Create(organization, subscription, expiresAt))
      ensures Dead(Now(), key)
      ensures replacement.Some? ==> replacement.value !in old(keys) && replacement.value in keys
      ensures replacement.Some? <==> MayCreate(old(Now()), organization, subscription, {key})
      ensures replacement.Some? ==>
                keys == old(keys)[key := old(keys)[key].(status := KeyStatus.Disabled, bound := None)]
                                 [replacement.value := Key(organization, Some(subscription), Available, None,
                                                           if expiresAt.Some? then expiresAt
                                                           else old(subscriptions)[subscription].endDate, 1)]
    {
      SeatAfterRevocation(Now(), key, organization, subscription);
      var _ := RevokeHardwareActivationKey(key);
      CreateKeepsDead(Now(), organization, subscription, expiresAt, key);
      replacement := CreateHardwareActivationKey(organization, subscription, expiresAt);
    }

    method RenewSubscription(subscription: nat, newEndDate: int, extendKeys: bool, now: int) returns (found: bool)
      requires Coherent(Now())
      modifies this
      ensures Coherent(Now()) && Now() == old(Next(Now(), Renew(subscription, newEndDate, extendKeys, now)))
      ensures found <==> subscription in old(subscriptions)
      ensures !found ==> Now() == old(Now())
      ensures found ==>
                var sub := old(subscriptions)[subscription];
                && subscriptions == old(subscriptions)[subscription :=
                     sub.(status := SubscriptionStatus.Active, endDate := Some(newEndDate))]
                && keys.Keys == old(keys).Keys
                && forall k :: k in keys ==>
                     IsRenewed(old(keys)[k], keys[k], sub.organization, newEndDate, extendKeys, now)
    {
      NextKeepsCoherent(Now(), Renew(subscription, newEndDate, extendKeys, now));
      if subscription !in subscriptions {
        return false;
      }
      var sub := subscriptions[subscription];
      subscriptions :=
          subscriptions[subscription := sub.(status := SubscriptionStatus.Active, endDate := Some(newEndDate))];
      if extendKeys && sub.organization.Some? {
        ExtendKeys(sub.organization.value, newEndDate, now);
      }
      return true;
    }

    /** Moves the expiry of the organization's keys, then revives those that had expired. */
    method ExtendKeys(organization: nat, newEndDate: int, now: int)
      modifies this`keys
      ensures keys == map k | k in old(keys) :: RenewKey(old(keys)[k], organization, newEndDate, now)
    {
      keys := map k | k in keys ::
        if keys[k].organization == organization && !keys[k].status.Disabled?
        then keys[k].(expiresAt := Some(newEndDate)) else keys[k];
      keys := map k | k in keys ::
        if keys[k].organization == organization && keys[k].status.Expired? && keys[k].expiresAt.Some?
            && keys[k].expiresAt.value > now
        then keys[k].(status := Available) else keys[k];
    }

    method SweepSubscriptions(now: int) returns (keysExpired: nat, activationsDisabled: nat)
      requires Coherent(Now())
      modifies this
      ensures Coherent(Now()) && Now() == old(Next(Now(), Sweep(now))) && IsSwept(old(Now()), Now(), now)
      ensures keysExpired == |Changed(old(keys), keys)|
      ensures activationsDisabled == |Changed(old(activations), activations)|
    {
      SweepIsSwept(Now(), now);
      keysExpired, activationsDisabled := SweepTables(now);
    }

    method SweepTables(now: int) returns (keysExpired: nat, activationsDisabled: nat)
      requires Coherent(Now())
      modifies this
      ensures Coherent(Now()) && Now() == old(Next(Now(), Sweep(now)))
      ensures keysExpired == |Changed(old(keys), keys)|
      ensures activationsDisabled == |Changed(old(activations), activations)|
    {
      NextKeepsCoherent(Now(), Sweep(now));
      subscriptions := ExpireSubscriptions(subscriptions, now);
      var invalid := Invalid(subscriptions, activeOrganizations);
      var organizations := Owners(subscriptions, invalid);
      var swept := set k | k in keys && Sweepable(keys[k], invalid, organizations);
      var stopped := set id | id in activations && Stoppable(activations[id], keys, invalid, organizations);
      SweepCounts(activations, keys, invalid, organizations);
      activations := StopActivations(activations, keys, invalid, organizations);
      keys := SweepKeys(keys, invalid, organizations);
      keysExpired, activationsDisabled := |swept|, |stopped|;
    }
  }

  function Changed<V(==)>(before: map<nat, V>, after: map<nat, V>): set<nat> {
    set i | i in before && i in after && after[i] != before[i]
  }

  lemma SweepCounts(activations: map<nat, Activation>, keys: map<nat, Key>, invalid: set<nat>, organizations: set<nat>)
    ensures (set k | k in keys && Sweepable(keys[k], invalid, organizations))
            == Changed(keys, SweepKeys(keys, invalid, organizations))
    ensures (set id | id in activations && Stoppable(activations[id], keys, invalid, organizations))
            == Changed(activations, StopActivations(activations, keys, invalid, organizations))
  {
  }

  lemma ReplaceIsRevokeThenCreate(s: State, key: nat)
    requires key in s.keys && s.keys[key].subscription.Some?
    requires HasCapacity(s.keys, s.subscriptions, s.keys[key].subscription.value, {key})
    ensures var k := s.keys[key];
            Next(s, Replace(key))
                == Next(Next(s, Revoke(key)), Create(k.organization, k.subscription.value, k.expiresAt))
  {
  }

  lemma CreateKeepsDead(s: State, organization: nat, subscription: nat, expiresAt: Option<int>, key: nat)
    requires Coherent(s) && Dead(s, key)
    ensures Dead(Next(s, Create(organization, subscription, expiresAt)), key)
  {
  }

  lemma VerifyThenMark(s: State, key: nat, device: nat, claim: Option<Option<nat>>, now: int)
    requires Coherent(s) && Answer(s, key, device, claim, now).KeyExpired?
    ensures var marked := Next(Next(s, Verify(key, device, claim, now)), MarkExpired(key));
            Coherent(marked) && marked == s.(keys := s.keys[key := s.keys[key].(status := KeyStatus.Expired)])
  {
    NextKeepsCoherent(s, Verify(key, device, claim, now));
    NextKeepsCoherent(Next(s, Verify(key, device, claim, now)), MarkExpired(key));
    assert s.marking + multiset{key} - multiset{key} == s.marking;
  }

  lemma ResetThenFree(s: State, id: nat)
    requires Coherent(s) && id in s.activations
    ensures var freed := Next(Next(s, ResetActivation(id)), FreeKeys(id));
            && Coherent(freed)
            && freed == s.(activations := s.activations[id := s.activations[id].(status := ActivationStatus.Reset)],
                           keys := map k | k in s.keys :: FreeKey(s.keys[k], id))
  {
    NextKeepsCoherent(s, ResetActivation(id));
    NextKeepsCoherent(Next(s, ResetActivation(id)), FreeKeys(id));
    assert s.resetting + multiset{id} - multiset{id} == s.resetting;
  }
}
