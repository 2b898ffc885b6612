/**
 The limit of three AI images in 24 hours (src/modules/ai/ai.service.ts). A reservation is one transaction;
 committing or failing an attempt reads the row and writes it later, so other calls may come between.
 */
module FeatureAttempts {
  import opened Common
  import opened SlidingWindow

  const LIMIT := 3
  const WINDOW_MS := 24 * 60 * 60 * 1000

  datatype Status = Reserved | Committed | Failed

  datatype Attempt = Attempt(user: nat, status: Status, createdAt: int)

  /** A call that found its attempt still reserved and has yet to write the new status. */
  datatype Pending = Pending(attempt: nat, status: Status)

  datatype State = State(attempts: map<nat, Attempt>, nextId: nat, pending: map<nat, Pending>, nextCall: nat)

  const EMPTY := State(map[], 0, map[], 0)

  datatype Action =
    // `now` is read before the transaction; the row's creation time is set inside it.
    | Reserve(user: nat, now: int, createdAt: int)
    | Find(user: nat, attempt: nat, status: Status)
    | Write(call: nat)

  /** Creation times of a user's attempts that count against the limit. */
  function Live(attempts: map<nat, Attempt>, user: nat): map<nat, int> {
    map id | id in attempts && attempts[id].user == user && !attempts[id].status.Failed? :: attempts[id].createdAt
  }

  function Next(s: State, act: Action): State {
    match act
    case Reserve(user, now, createdAt) =>
      if createdAt < now || |Since(Live(s.attempts, user), now - WINDOW_MS)| >= LIMIT then s
      else s.(attempts := s.attempts[s.nextId := Attempt(user, Reserved, createdAt)], nextId := s.nextId + 1)
    case Find(user, id, status) =>
      if id !in s.attempts || s.attempts[id].user != user || !s.attempts[id].status.Reserved? || status.Reserved? then s
      else s.(pending := s.pending[s.nextCall := Pending(id, status)], nextCall := s.nextCall + 1)
    case Write(call) =>
      if call !in s.pending || s.pending[call].attempt !in s.attempts then s
      else
        var p := s.pending[call];
        s.(attempts := s.attempts[p.attempt := s.attempts[p.attempt].(status := p.status)],
           pending := s.pending - {call})
  }

  ghost predicate Valid(s: State) {
    && (forall id :: id in s.attempts ==> id < s.nextId)
    && (forall c :: c in s.pending ==> s.pending[c].attempt in s.attempts && !s.pending[c].status.Reserved?)
  }

  /** Every closed 24-hour window holds at most three live attempts of each user. */
  ghost predicate WithinLimit(s: State) {
    forall user :: Bounded(Live(s.attempts, user), WINDOW_MS, LIMIT)
  }

  /** The limit in the table's own terms: reserved and committed attempts count, for a day of milliseconds. */
  lemma WithinLimitMeans(s: State)
    ensures WithinLimit(s) <==> forall user, t :: |DayOf(s.attempts, user, t)| <= 3
  {
    forall user, t
      ensures Window(Live(s.attempts, user), t, WINDOW_MS) == DayOf(s.attempts, user, t)
    {
    }
    if WithinLimit(s) {
      forall user, t
        ensures |DayOf(s.attempts, user, t)| <= 3
      {
        assert Bounded(Live(s.attempts, user), WINDOW_MS, LIMIT);
        assert |Window(Live(s.attempts, user), t, WINDOW_MS)| <= LIMIT;
      }
    } else {
      var user :| !Bounded(Live(s.attempts, user), WINDOW_MS, LIMIT);
      var t :| |Window(Live(s.attempts, user), t, WINDOW_MS)| > LIMIT;
      assert |DayOf(s.attempts, user, t)| > 3;
    }
  }

  /** The user's attempts of the 24 hours from `t` on that are reserved or committed. */
  function DayOf(attempts: map<nat, Attempt>, user: nat, t: int): set<nat> {
    set id | id in RecentAttempts(attempts, user, t) && attempts[id].createdAt <= t + 86_400_000
  }

  /** The user's reserved and committed attempts from this time on. */
  function RecentAttempts(attempts: map<nat, Attempt>, user: nat, from: int): set<nat> {
    set id | id in attempts && attempts[id].user == user && attempts[id].status in {Reserved, Committed}
             && attempts[id].createdAt >= from
  }

  /** Finding an attempt and writing it at once: a reserved attempt of the user gets the status. */
  lemma UpdateAlone(s: State, user: nat, id: nat, status: Status)
    requires Valid(s) && s.nextCall !in s.pending && !status.Reserved?
    ensures Next(Next(s, Find(user, id, status)), Write(s.nextCall)).attempts
         == if id in s.attempts && s.attempts[id].user == user && s.attempts[id].status.Reserved?
            then s.attempts[id := Attempt(user, status, s.attempts[id].createdAt)] else s.attempts
  {
  }

  /** A write that turns a failed attempt into a committed one: two calls found the attempt reserved. */
  predicate Revives(s: State, act: Action) {
    act.Write? && act.call in s.pending && s.pending[act.call].attempt in s.attempts
    && s.pending[act.call].status.Committed? && s.attempts[s.pending[act.call].attempt].status.Failed?
  }

  lemma StepWithinLimit(s: State, act: Action)
    requires Valid(s) && WithinLimit(s) && !Revives(s, act)
    ensures WithinLimit(Next(s, act))
  {
    var s' := Next(s, act);
    forall user
      ensures Bounded(Live(s'.attempts, user), WINDOW_MS, LIMIT)
    {
      var before, after := Live(s.attempts, user), Live(s'.attempts, user);
      assert Bounded(before, WINDOW_MS, LIMIT);
      if act.Reserve? && s' != s && act.user == user {
        assert after == before[s.nextId := act.createdAt];
        AdmitKeepsBounded(before, WINDOW_MS, LIMIT, act.now - WINDOW_MS, s.nextId, act.createdAt);
      } else {
        assert forall id :: id in after ==> id in before && after[id] == before[id];
        FewerKeepsBounded(before, after, WINDOW_MS, LIMIT);
      }
    }
  }

  // ----- When the limit holds -----

  predicate Around(t: int, at: int) { t <= at <= t + WINDOW_MS }

  /** A write that revives an attempt although some window around it is full already. */
  ghost predicate Crowds(s: State, act: Action) {
    Revives(s, act)
    && var a := s.attempts[s.pending[act.call].attempt];
       exists t :: Around(t, a.createdAt) && |Window(Live(s.attempts, a.user), t, WINDOW_MS)| >= LIMIT
  }

  /** What reviving does to the windows: those around the attempt hold one more, the others what they held. */
  lemma RevivedWindow(live: map<nat, int>, id: nat, at: int, t: int)
    requires id !in live
    ensures |Window(live[id := at], t, WINDOW_MS)| == |Window(live, t, WINDOW_MS)| + if Around(t, at) then 1 else 0
  {
    assert Window(live[id := at], t, WINDOW_MS) == Window(live, t, WINDOW_MS) + if Around(t, at) then {id} else {};
  }

  lemma RevivedLive(s: State, act: Action, user: nat)
    requires Valid(s) && Revives(s, act)
    ensures var id := s.pending[act.call].attempt;
            id !in Live(s.attempts, user)
            && Live(Next(s, act).attempts, user)
               == if s.attempts[id].user == user then Live(s.attempts, user)[id := s.attempts[id].createdAt]
                  else Live(s.attempts, user)
  {
  }

  lemma RevivingWithinLimit(s: State, act: Action)
    requires Valid(s) && WithinLimit(s) && Revives(s, act)
    ensures WithinLimit(Next(s, act)) <==> !Crowds(s, act)
  {
    var s', id := Next(s, act), s.pending[act.call].attempt;
    var a := s.attempts[id];
    RevivedLive(s, act, a.user);
    forall t
      ensures |Window(Live(s'.attempts, a.user), t, WINDOW_MS)|
           == |Window(Live(s.attempts, a.user), t, WINDOW_MS)| + if Around(t, a.createdAt) then 1 else 0
    {
      RevivedWindow(Live(s.attempts, a.user), id, a.createdAt, t);
    }
    assert Bounded(Live(s.attempts, a.user), WINDOW_MS, LIMIT);
    if Crowds(s, act) {
      assert !Bounded(Live(s'.attempts, a.user), WINDOW_MS, LIMIT);
    } else {
      forall user
        ensures Bounded(Live(s'.attempts, user), WINDOW_MS, LIMIT)
      {
        RevivedLive(s, act, user);
        assert Bounded(Live(s.attempts, user), WINDOW_MS, LIMIT);
      }
    }
  }

  /** A step keeps the limit if and only if it does not revive an attempt into a full window. */
  lemma StepLimitExact(s: State, act: Action)
    requires Valid(s) && WithinLimit(s)
    ensures Valid(Next(s, act))
    ensures WithinLimit(Next(s, act)) <==> !Crowds(s, act)
  {
    if Revives(s, act) {
      RevivingWithinLimit(s, act);
    } else {
      StepWithinLimit(s, act);
    }
  }

  ghost function Run(s: State, acts: seq<Action>): State
    decreases |acts|
  {
    if acts == [] then s else Next(Run(s, acts[..|acts| - 1]), acts[|acts| - 1])
  }

  /** No step of the run revives an attempt into a full window. */
  ghost predicate NothingCrowds(s: State, acts: seq<Action>)
    decreases |acts|
  {
    acts == [] || (NothingCrowds(s, acts[..|acts| - 1]) && !Crowds(Run(s, acts[..|acts| - 1]), acts[|acts| - 1]))
  }

  /** At the end of the run and at every point before it. */
  ghost predicate WithinLimitThroughout(s: State, acts: seq<Action>)
    decreases |acts|
  {
    WithinLimit(Run(s, acts)) && (acts != [] ==> WithinLimitThroughout(s, acts[..|acts| - 1]))
  }

  lemma EmptyWithinLimit()
    ensures Valid(EMPTY) && WithinLimit(EMPTY)
  {
    forall user
      ensures Bounded(Live(EMPTY.attempts, user), WINDOW_MS, LIMIT)
    {
      assert Live(EMPTY.attempts, user) == map[];
      assert forall t :: Window(map[], t, WINDOW_MS) == {};
    }
  }

  lemma {:induction false} RunsAreValid(acts: seq<Action>)
    ensures Valid(Run(EMPTY, acts))
    decreases |acts|
  {
    if acts != [] {
      RunsAreValid(acts[..|acts| - 1]);
    }
  }

  /** A run keeps the limit throughout, for every user and window, if and only if none of its steps crowds a window. */
  lemma {:induction false} LimitHolds(acts: seq<Action>)
    ensures WithinLimitThroughout(EMPTY, acts) <==> NothingCrowds(EMPTY, acts)
    decreases |acts|
  {
    EmptyWithinLimit();
    if acts != [] {
      var init := acts[..|acts| - 1];
      LimitHolds(init);
      RunsAreValid(init);
      if WithinLimitThroughout(EMPTY, init) {
        StepLimitExact(Run(EMPTY, init), acts[|acts| - 1]);
      }
    }
  }

  /** A step of a call that is not interrupted: the write follows its read at once. */
  lemma UninterruptedNeverRevives(s: State, user: nat, id: nat, status: Status)
    requires Valid(s) && s.nextCall !in s.pending
    ensures var found := Next(s, Find(user, id, status));
            !Revives(s, Find(user, id, status)) && !Revives(found, Write(s.nextCall))
  {
  }

  /** Interrupted calls can pass the limit: an attempt fails, its place is taken, and a late commit revives it. */
  lemma RacePassesLimit()
    ensures var acts := [Reserve(0, 0, 0), Find(0, 0, Failed), Find(0, 0, Committed), Write(0),
                         Reserve(0, 0, 0), Reserve(0, 0, 0), Reserve(0, 0, 0), Write(1)];
            !WithinLimit(Run(EMPTY, acts))
  {
    var a0, a1, a2, a3 := Reserve(0, 0, 0), Find(0, 0, Failed), Find(0, 0, Committed), Write(0);
    var a4, a7 := Reserve(0, 0, 0), Write(1);
    var r := Attempt(0, Reserved, 0);
    var p0, p1 := Pending(0, Failed), Pending(0, Committed);
    var s1 := State(map[0 := r], 1, map[], 0);
    var s2 := State(map[0 := r], 1, map[0 := p0], 1);
    var s3 := State(map[0 := r], 1, map[0 := p0, 1 := p1], 2);
    var failed := r.(status := Failed);
    var s4 := State(map[0 := failed], 1, map[1 := p1], 2);
    var s5 := State(map[0 := failed, 1 := r], 2, map[1 := p1], 2);
    var s6 := State(map[0 := failed, 1 := r, 2 := r], 3, map[1 := p1], 2);
    var s7 := State(map[0 := failed, 1 := r, 2 := r, 3 := r], 4, map[1 := p1], 2);
    var s8 := State(map[0 := r.(status := Committed), 1 := r, 2 := r, 3 := r], 4, map[], 2);
    assert Since(Live(EMPTY.attempts, 0), -WINDOW_MS) == {};
    assert Next(EMPTY, a0) == s1;
    assert Next(s1, a1) == s2;
    assert Next(s2, a2) == s3;
    assert Next(s3, a3).pending == s4.pending;
    assert Next(s3, a3) == s4;
    assert Since(Live(s4.attempts, 0), -WINDOW_MS) == {};
    assert Next(s4, a4) == s5;
    assert Since(Live(s5.attempts, 0), -WINDOW_MS) == {1};
    assert Next(s5, a4) == s6;
    assert Since(Live(s6.attempts, 0), -WINDOW_MS) == {1, 2};
    assert Next(s6, a4) == s7;
    assert Next(s7, a7).pending == s8.pending;
    assert Next(s7, a7) == s8;
    assert Window(Live(s8.attempts, 0), 0, WINDOW_MS) == {0, 1, 2, 3};
    assert !Bounded(Live(s8.attempts, 0), WINDOW_MS, LIMIT);
    EightSteps(a0, a1, a2, a3, a4, a4, a4, a7);
  }

  lemma EightSteps(a0: Action, a1: Action, a2: Action, a3: Action, a4: Action, a5: Action, a6: Action, a7: Action)
    ensures Run(EMPTY, [a0, a1, a2, a3, a4, a5, a6, a7])
         == Next(Next(Next(Next(Next(Next(Next(Next(EMPTY, a0), a1), a2), a3), a4), a5), a6), a7)
  {
    RunPush([], a0);
    RunPush([a0], a1);
    RunPush([a0, a1], a2);
    RunPush([a0, a1, a2], a3);
    RunPush([a0, a1, a2, a3], a4);
    RunPush([a0, a1, a2, a3, a4], a5);
    RunPush([a0, a1, a2, a3, a4, a5], a6);
    RunPush([a0, a1, a2, a3, a4, a5, a6], a7);
    assert [] + [a0] == [a0] && [a0] + [a1] == [a0, a1] && [a0, a1] + [a2] == [a0, a1, a2];
    assert [a0, a1, a2] + [a3] == [a0, a1, a2, a3] && [a0, a1, a2, a3] + [a4] == [a0, a1, a2, a3, a4];
    assert [a0, a1, a2, a3, a4] + [a5] == [a0, a1, a2, a3, a4, a5];
    assert [a0, a1, a2, a3, a4, a5] + [a6] == [a0, a1, a2, a3, a4, a5, a6];
    assert [a0, a1, a2, a3, a4, a5, a6] + [a7] == [a0, a1, a2, a3, a4, a5, a6, a7];
  }

  lemma RunPush(acts: seq<Action>, act: Action)
    ensures Run(EMPTY, acts + [act]) == Next(Run(EMPTY, acts), act)
  {
    assert (acts + [act])[..|acts|] == acts;
  }

  // ----- The table -----

  class Table {
    var attempts: map<nat, Attempt>
    var nextId: nat

    ghost function Now(): State
      reads this
    {
      State(attempts, nextId, map[], 0)
    }

    constructor ()
      ensures Now() == EMPTY
    {
      attempts, nextId := map[], 0;
    }

    /** `reserveFeatureAttempt`: refused when three attempts of the last 24 hours count. */
    method ReserveFeatureAttempt(user: nat, now: int, createdAt: int) returns (id: Option<nat>)
      requires now <= createdAt && Valid(Now())
      modifies this
      ensures Now() == Next(old(Now()), Reserve(user, now, createdAt)) && Valid(Now())
      ensures id.Some? <==> |RecentAttempts(old(attempts), user, now - 86_400_000)| < 3
      ensures id.Some? ==> id.value !in old(attempts)
      ensures id.Some? ==> attempts == old(attempts)[id.value := Attempt(user, Reserved, createdAt)]
      ensures id.None? ==> attempts == old(attempts)
      ensures old(WithinLimit(Now())) ==> WithinLimit(Now())
    {
      StepWithinLimitIf(Now(), Reserve(user, now, createdAt));
      assert Since(Live(attempts, user), now - WINDOW_MS) == RecentAttempts(attempts, user, now - 86_400_000);
      var used := |Since(Live(attempts, user), now - WINDOW_MS)|;
      if used >= LIMIT {
        return None;
      }
      attempts := attempts[nextId := Attempt(user, Reserved, createdAt)];
      id := Some(nextId);
      nextId := nextId + 1;
    }

    /** `updateOwnFeatureAttempt`, run without interruption. */
    method UpdateOwnFeatureAttempt(user: nat, id: nat, status: Status) returns (found: bool)
      requires Valid(Now()) && !status.Reserved?
      modifies this`attempts
      ensures found <==> id in old(attempts) && old(attempts)[id].user == user
      ensures attempts == if found && old(attempts)[id].status.Reserved?
                          then old(attempts)[id := old(attempts)[id].(status := status)] else old(attempts)
      ensures Valid(Now()) && (old(WithinLimit(Now())) ==> WithinLimit(Now()))
    {
      if id !in attempts || attempts[id].user != user {
        return false;
      }
      if !attempts[id].status.Reserved? {
        return true;
      }
      ghost var before := attempts;
      attempts := attempts[id := attempts[id].(status := status)];
      if WithinLimit(State(before, nextId, map[], 0)) {
        FewerLive(before, attempts);
      }
      return true;
    }
  }

  lemma StepWithinLimitIf(s: State, act: Action)
    requires Valid(s) && !Revives(s, act)
    ensures WithinLimit(s) ==> WithinLimit(Next(s, act))
  {
    if WithinLimit(s) {
      StepWithinLimit(s, act);
    }
  }

  lemma FewerLive(before: map<nat, Attempt>, after: map<nat, Attempt>)
    requires forall user :: Bounded(Live(before, user), WINDOW_MS, LIMIT)
    requires forall id :: id in after && !after[id].status.Failed? ==>
               id in before && !before[id].status.Failed? && after[id].user == before[id].user
                   && after[id].createdAt == before[id].createdAt
    ensures forall user :: Bounded(Live(after, user), WINDOW_MS, LIMIT)
  {
    forall user
      ensures Bounded(Live(after, user), WINDOW_MS, LIMIT)
    {
      FewerKeepsBounded(Live(before, user), Live(after, user), WINDOW_MS, LIMIT);
    }
  }
}
