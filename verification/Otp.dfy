/**
 One-time login codes (`sendOtp` and `verifyOtp`, src/modules/auth/auth.service.ts), with limits not relaxed
 and each call running to completion on a clock that never goes back.
 */
module Otp {
  import opened Common
  import opened SlidingWindow

  const EXPIRY_MS := 10 * 60 * 1000
  const HOUR_MS := 60 * 60 * 1000
  const MAX_ATTEMPTS := 3
  const MAX_SENDS := 3

  /** An EMAIL_LOGIN code. */
  datatype Code = Code(user: nat, used: bool, attempts: nat, createdAt: int, expiresAt: int)

  /** The n-th comparison of a wrong code against code `code`. */
  datatype Guess = Guess(code: nat, n: nat)

  /** `guesses` records when each wrong code was compared. */
  datatype State = State(codes: map<nat, Code>, nextId: nat, clock: int, guesses: map<Guess, int>)

  datatype Action =
    // `now` is read when the call starts; the row is created at `createdAt`.
    | Send(user: nat, now: int, createdAt: int)
    // `matches`: the code fits the stored hash or the fixed code; `completes`: nothing throws after the match.
    | Verify(user: nat, at: int, matches: bool, completes: bool)

  function Empty(clock: int): State { State(map[], 0, clock, map[]) }

  predicate Unused(codes: map<nat, Code>, id: nat, user: nat) {
    id in codes && codes[id].user == user && !codes[id].used
  }

  function Sent(codes: map<nat, Code>, user: nat): map<nat, int> {
    map id | id in codes && codes[id].user == user :: codes[id].createdAt
  }

  /** `invalidateUserOtps`. */
  function Invalidate(codes: map<nat, Code>, user: nat): map<nat, Code> {
    map id | id in codes :: if codes[id].user == user then codes[id].(used := true) else codes[id]
  }

  predicate CanSend(s: State, user: nat, now: int) {
    |Since(Sent(s.codes, user), now - HOUR_MS)| < MAX_SENDS
  }

  ghost predicate IsLatest(codes: map<nat, Code>, id: nat, user: nat) {
    Unused(codes, id, user)
    && forall j {:trigger Unused(codes, j, user)} :: Unused(codes, j, user) ==>
        codes[j].createdAt <= codes[id].createdAt
  }

  /** `findLatestOtp`: the newest unused code of the user. */
  ghost function Latest(codes: map<nat, Code>, user: nat): (r: Option<nat>)
    ensures r.Some? ==> IsLatest(codes, r.value, user)
    ensures r.None? ==> forall id :: !Unused(codes, id, user)
  {
    if exists id :: Unused(codes, id, user) then
      var any :| Unused(codes, any, user);
      LatestExists(codes, user, codes.Keys, any);
      var id :| IsLatest(codes, id, user);
      Some(id)
    else None
  }

  /** Looking through the keys one by one finds a newest code. */
  lemma {:induction false} LatestExists(codes: map<nat, Code>, user: nat, keys: set<nat>, best: nat)
    requires Unused(codes, best, user)
    requires forall j {:trigger Unused(codes, j, user)} ::
               Unused(codes, j, user) && j !in keys ==> codes[j].createdAt <= codes[best].createdAt
    ensures exists newest :: IsLatest(codes, newest, user)
    decreases keys
  {
    if keys == {} {
      assert IsLatest(codes, best, user);
    } else {
      var k :| k in keys;
      LatestExists(codes, user, keys - {k},
                   if Unused(codes, k, user) && codes[k].createdAt > codes[best].createdAt then k else best);
    }
  }

  ghost function Next(s: State, act: Action): State {
    match act
    case Send(user, now, createdAt) =>
      if now < s.clock || createdAt < now then s  // the clock does not go back
      else if !CanSend(s, user, now) then s.(clock := createdAt)
      else
        s.(codes := Invalidate(s.codes, user)[s.nextId := Code(user, false, 0, createdAt, createdAt + EXPIRY_MS)],
           nextId := s.nextId + 1, clock := createdAt)
    case Verify(user, at, matches, completes) =>
      if at < s.clock then s  // the clock does not go back
      else
        var latest := Latest(s.codes, user);
        if latest.None? then s.(clock := at)
        else
          var id := latest.value;
          var code := s.codes[id];
          if at > code.expiresAt || code.attempts >= MAX_ATTEMPTS then s.(clock := at)
          else if !matches then
            s.(codes := s.codes[id := code.(attempts := code.attempts + 1)], clock := at,
               guesses := s.guesses[Guess(id, code.attempts) := at])
          else if completes then s.(codes := s.codes[id := code.(used := true)], clock := at)
          else s.(clock := at)
  }

  // ----- What every step keeps -----

  ghost predicate OneUnused(s: State) {
    forall i, j, user :: Unused(s.codes, i, user) && Unused(s.codes, j, user) ==> i == j
  }

  ghost predicate SendsBounded(s: State) {
    forall user :: Bounded(Sent(s.codes, user), HOUR_MS, MAX_SENDS)
  }

  /** Every guess is one of the first three against a code that exists. */
  ghost predicate GuessesCounted(s: State) {
    && (forall g :: g in s.guesses ==> g.code in s.codes && g.n < s.codes[g.code].attempts && s.guesses[g] <= s.clock)
    && (forall id :: id in s.codes ==> s.codes[id].attempts <= MAX_ATTEMPTS)
  }

  predicate Newer(codes: map<nat, Code>, j: nat, i: nat)
    requires i in codes && j in codes
  {
    i < j && codes[i].user == codes[j].user
  }

  /** Once a newer code of the user exists, an older one is used up, and was not guessed at any more. */
  ghost predicate GuessesEndAtNewerCode(s: State) {
    forall g, j :: g in s.guesses && g.code in s.codes && j in s.codes && Newer(s.codes, j, g.code) ==>
      s.guesses[g] <= s.codes[j].createdAt
  }

  ghost predicate OlderAreUsed(s: State) {
    forall i, j :: i in s.codes && j in s.codes && i < j && s.codes[i].user == s.codes[j].user ==> s.codes[i].used
  }

  ghost predicate Valid(s: State) {
    && (forall id :: id in s.codes ==> id < s.nextId && s.codes[id].createdAt <= s.clock)
    && OneUnused(s) && SendsBounded(s) && GuessesCounted(s) && GuessesEndAtNewerCode(s) && OlderAreUsed(s)
  }

  /** The table after a code was sent. */
  function WithNew(codes: map<nat, Code>, id: nat, user: nat, createdAt: int): map<nat, Code> {
    Invalidate(codes, user)[id := Code(user, false, 0, createdAt, createdAt + EXPIRY_MS)]
  }

  lemma OnlyNewUnused(s: State, user: nat, createdAt: int)
    requires Valid(s)
    ensures forall id :: Unused(WithNew(s.codes, s.nextId, user, createdAt), id, user) <==> id == s.nextId
  {
  }

  lemma SentAfterSend(codes: map<nat, Code>, id: nat, user: nat, createdAt: int, u: nat)
    requires id !in codes
    ensures Sent(WithNew(codes, id, user, createdAt), u)
         == if u == user then Sent(codes, u)[id := createdAt] else Sent(codes, u)
  {
    var after := Sent(WithNew(codes, id, user, createdAt), u);
    assert after == if u == user then Sent(codes, u)[id := createdAt] else Sent(codes, u);
  }

  lemma SendKeepsBounded(s: State, user: nat, now: int, createdAt: int)
    requires SendsBounded(s) && s.nextId !in s.codes && CanSend(s, user, now) && now <= createdAt
    ensures forall u :: Bounded(Sent(WithNew(s.codes, s.nextId, user, createdAt), u), HOUR_MS, MAX_SENDS)
  {
    forall u
      ensures Bounded(Sent(WithNew(s.codes, s.nextId, user, createdAt), u), HOUR_MS, MAX_SENDS)
    {
      assert Bounded(Sent(s.codes, u), HOUR_MS, MAX_SENDS);
      SentAfterSend(s.codes, s.nextId, user, createdAt, u);
      if u == user {
        AdmitKeepsBounded(Sent(s.codes, u), HOUR_MS, MAX_SENDS, now - HOUR_MS, s.nextId, createdAt);
      }
    }
  }

  lemma SendKeepsUnused(s: State, user: nat, createdAt: int)
    requires Valid(s)
    ensures var codes := WithNew(s.codes, s.nextId, user, createdAt);
            && (forall i, j, u :: Unused(codes, i, u) && Unused(codes, j, u) ==> i == j)
            && (forall i, j :: i in codes && j in codes && i < j && codes[i].user == codes[j].user ==> codes[i].used)
  {
    var codes := WithNew(s.codes, s.nextId, user, createdAt);
    forall i, u | Unused(codes, i, u)
      ensures if u == user then i == s.nextId else Unused(s.codes, i, u)
    {
    }
  }

  lemma SendKeepsGuesses(s: State, user: nat, createdAt: int)
    requires Valid(s) && s.clock <= createdAt
    ensures var s' :=
              s.(codes := WithNew(s.codes, s.nextId, user, createdAt), nextId := s.nextId + 1, clock := createdAt);
            GuessesCounted(s') && GuessesEndAtNewerCode(s')
  {
  }

  lemma NewCodeIsValid(s: State, user: nat, now: int, createdAt: int)
    requires Valid(s) && CanSend(s, user, now) && s.clock <= now <= createdAt
    ensures Valid(s.(codes := WithNew(s.codes, s.nextId, user, createdAt), nextId := s.nextId + 1, clock := createdAt))
  {
    SendKeepsBounded(s, user, now, createdAt);
    SendKeepsUnused(s, user, createdAt);
    SendKeepsGuesses(s, user, createdAt);
  }

  lemma LaterIsValid(s: State, clock: int)
    requires Valid(s) && s.clock <= clock
    ensures Valid(s.(clock := clock))
  {
    assert SendsBounded(s.(clock := clock));
  }

  lemma SendShape(s: State, user: nat, now: int, createdAt: int)
    ensures Next(s, Send(user, now, createdAt))
         == if !(s.clock <= now <= createdAt) then s
            else if CanSend(s, user, now)
            then s.(codes := WithNew(s.codes, s.nextId, user, createdAt), nextId := s.nextId + 1, clock := createdAt)
            else s.(clock := createdAt)
  {
  }

  lemma SendKeepsValid(s: State, act: Action)
    requires Valid(s) && act.Send?
    ensures Valid(Next(s, act))
  {
    SendShape(s, act.user, act.now, act.createdAt);
    if s.clock <= act.now <= act.createdAt {
      if CanSend(s, act.user, act.now) {
        NewCodeIsValid(s, act.user, act.now, act.createdAt);
      } else {
        LaterIsValid(s, act.createdAt);
      }
    }
  }

  /** A verification changes no code's owner or age. */
  lemma SentAfterVerify(s: State, act: Action, u: nat)
    requires act.Verify?
    ensures Sent(Next(s, act).codes, u) == Sent(s.codes, u)
  {
    var after := Next(s, act).codes;
    assert after.Keys == s.codes.Keys;
    assert forall id :: id in after ==>
        after[id].user == s.codes[id].user && after[id].createdAt == s.codes[id].createdAt;
  }

  lemma VerifyKeepsSends(s: State, act: Action)
    requires act.Verify? && SendsBounded(s)
    ensures SendsBounded(Next(s, act))
  {
    forall u
      ensures Bounded(Sent(Next(s, act).codes, u), HOUR_MS, MAX_SENDS)
    {
      assert Bounded(Sent(s.codes, u), HOUR_MS, MAX_SENDS);
      SentAfterVerify(s, act, u);
    }
  }

  /** What a verification can change: it counts a guess against the latest code, or uses that code up. */
  lemma VerifyShape(s: State, act: Action)
    requires act.Verify?
    ensures var s' := Next(s, act);
            && s'.nextId == s.nextId && s'.codes.Keys == s.codes.Keys && s'.clock >= s.clock
            && (forall id :: id in s.codes ==>
                  && s'.codes[id].user == s.codes[id].user && s'.codes[id].createdAt == s.codes[id].createdAt
                  && (s.codes[id].used ==> s'.codes[id].used) && s'.codes[id].attempts >= s.codes[id].attempts)
            && (forall id :: id in s.codes ==> s'.codes[id].attempts <= Max(s.codes[id].attempts, MAX_ATTEMPTS))
            && (forall g :: g in s.guesses ==> g in s'.guesses)
            && (forall g :: g in s'.guesses ==>
                  (g in s.guesses && s'.guesses[g] == s.guesses[g])
                  || (Unused(s.codes, g.code, act.user) && g.n < s'.codes[g.code].attempts
                      && s'.guesses[g] == s'.clock == act.at))
  {
  }

  lemma VerifyKeepsValid(s: State, act: Action)
    requires Valid(s) && act.Verify?
    ensures Valid(Next(s, act))
  {
    var s' := Next(s, act);
    VerifyKeepsSends(s, act);
    VerifyShape(s, act);
    assert forall id, u :: Unused(s'.codes, id, u) ==> Unused(s.codes, id, u);
    assert OneUnused(s') && OlderAreUsed(s') && GuessesCounted(s');
    forall g, j | g in s'.guesses && g.code in s'.codes && j in s'.codes && Newer(s'.codes, j, g.code)
      ensures s'.guesses[g] <= s'.codes[j].createdAt
    {
      assert s.codes[g.code].used;
    }
  }

  ghost function Run(s: State, acts: seq<Action>): State
    decreases |acts|
  {
    if acts == [] then s else Next(Run(s, acts[..|acts| - 1]), acts[|acts| - 1])
  }

  lemma {:induction false} RunsAreValid(clock: int, acts: seq<Action>)
    ensures Valid(Run(Empty(clock), acts))
    decreases |acts|
  {
    if acts == [] {
      forall user
        ensures Bounded(Sent(Empty(clock).codes, user), HOUR_MS, MAX_SENDS)
      {
        assert Sent(Empty(clock).codes, user) == map[];
        assert forall t :: Window(map[], t, HOUR_MS) == {};
      }
    } else {
      var init, act := acts[..|acts| - 1], acts[|acts| - 1];
      RunsAreValid(clock, init);
      if act.Send? {
        SendKeepsValid(Run(Empty(clock), init), act);
      } else {
        VerifyKeepsValid(Run(Empty(clock), init), act);
      }
    }
  }

  // ----- The bound on guesses -----

  /** The wrong codes compared for a user in the closed hour that starts at `t`. */
  ghost function WrongIn(s: State, user: nat, t: int): set<Guess> {
    set g | g in s.guesses && g.code in s.codes && s.codes[g.code].user == user && t <= s.guesses[g] <= t + HOUR_MS
  }

  function Targets(guesses: set<Guess>): set<nat> { set g | g in guesses :: g.code }

  lemma {:induction false} ThreeEach(ids: set<nat>, guesses: set<Guess>)
    requires forall g :: g in guesses ==> g.code in ids && g.n < MAX_ATTEMPTS
    ensures |guesses| <= MAX_ATTEMPTS * |ids|
    decreases |ids|
  {
    if ids == {} {
      assert guesses == {};
    } else {
      var id :| id in ids;
      var three := {Guess(id, 0), Guess(id, 1), Guess(id, 2)};
      var others := set g | g in guesses && g.code != id;
      ThreeEach(ids - {id}, others);
      assert guesses <= others + three;
      SubsetSize(guesses, others + three);
    }
  }

  /** Of the codes guessed at in a window, at most one is older than the window. */
  lemma OneOldTarget(s: State, user: nat, t: int, i: nat, j: nat)
    requires Valid(s)
    requires i in Targets(WrongIn(s, user, t)) && j in Targets(WrongIn(s, user, t))
    requires i in s.codes && j in s.codes && s.codes[i].createdAt < t && s.codes[j].createdAt < t
    ensures i == j
  {
    var g :| g in WrongIn(s, user, t) && g.code == i;
    var h :| h in WrongIn(s, user, t) && h.code == j;
    if i < j {
      assert false;
    }
    if j < i {
      assert false;
    }
  }

  lemma AtMostOne<T>(ids: set<T>)
    requires forall i, j :: i in ids && j in ids ==> i == j
    ensures |ids| <= 1
  {
    if ids != {} {
      var i :| i in ids;
      assert ids == {i};
    }
  }

  /** At any point of any run, at most twelve wrong codes were compared for a user within any one hour. */
  lemma TwelveGuessesAnHour(clock: int, acts: seq<Action>, user: nat, t: int)
    ensures |WrongIn(Run(Empty(clock), acts), user, t)| <= 12
  {
    RunsAreValid(clock, acts);
    var s := Run(Empty(clock), acts);
    var wrong := WrongIn(s, user, t);
    var ids := Targets(wrong);
    var older := set id | id in ids && id in s.codes && s.codes[id].createdAt < t;
    var recent := Window(Sent(s.codes, user), t, HOUR_MS);
    forall i, j | i in older && j in older
      ensures i == j
    {
      OneOldTarget(s, user, t, i, j);
    }
    AtMostOne(older);
    assert Bounded(Sent(s.codes, user), HOUR_MS, MAX_SENDS);
    forall id | id in ids
      ensures id in older + recent
    {
      var g :| g in wrong && g.code == id;
      GuessAfterCode(clock, acts, g);
    }
    SubsetSize(ids, older + recent);
    ThreeEach(ids, wrong);
  }

  ghost predicate AfterCode(s: State, g: Guess) {
    g in s.guesses ==> g.code in s.codes && s.codes[g.code].createdAt <= s.guesses[g]
  }

  lemma SendKeepsAfterCode(s: State, act: Action, g: Guess)
    requires Valid(s) && AfterCode(s, g) && act.Send?
    ensures AfterCode(Next(s, act), g)
  {
  }

  lemma VerifyKeepsAfterCode(s: State, act: Action, g: Guess)
    requires Valid(s) && AfterCode(s, g) && act.Verify?
    ensures AfterCode(Next(s, act), g)
  {
    VerifyShape(s, act);
  }

  /** A code is guessed at only after it was created. */
  lemma {:induction false} GuessAfterCode(clock: int, acts: seq<Action>, g: Guess)
    ensures AfterCode(Run(Empty(clock), acts), g)
    decreases |acts|
  {
    if acts != [] {
      var init, act := acts[..|acts| - 1], acts[|acts| - 1];
      GuessAfterCode(clock, init, g);
      RunsAreValid(clock, init);
      if act.Send? {
        SendKeepsAfterCode(Run(Empty(clock), init), act, g);
      } else {
        VerifyKeepsAfterCode(Run(Empty(clock), init), act, g);
      }
    }
  }

  /** At any point of any run, a user has at most one unused code, and at most three were sent in any one hour. */
  lemma OneCodeThreeSends(clock: int, acts: seq<Action>, user: nat, t: int, i: nat, j: nat)
    ensures var s := Run(Empty(clock), acts);
            && (Unused(s.codes, i, user) && Unused(s.codes, j, user) ==> i == j)
            && |Window(Sent(s.codes, user), t, HOUR_MS)| <= 3
  {
    RunsAreValid(clock, acts);
    assert Bounded(Sent(Run(Empty(clock), acts).codes, user), HOUR_MS, MAX_SENDS);
  }

  // ----- A correct code is accepted -----

  lemma WithNewRows(codes: map<nat, Code>, id: nat, user: nat, createdAt: int)
    requires id !in codes
    ensures var after := WithNew(codes, id, user, createdAt);
            && after.Keys == codes.Keys + {id} && after[id] == Code(user, false, 0, createdAt, createdAt + 600_000)
            && forall i :: i in codes ==>
                 after[i] == if codes[i].user == user then codes[i].(used := true) else codes[i]
  {
  }

  lemma RecentAreCounted(codes: map<nat, Code>, user: nat, now: int)
    ensures Since(Sent(codes, user), now - HOUR_MS)
            == set id | id in codes && codes[id].user == user && now - 3_600_000 <= codes[id].createdAt
  {
  }

  /** What a verification does to the user's one unused code, from the row and the call's facts. */
  lemma VerifyExactly(s: State, user: nat, at: int, matches: bool, completes: bool, id: nat)
    requires Valid(s) && s.clock <= at && id in s.codes && s.codes[id].user == user && !s.codes[id].used
    ensures var code, codes := s.codes[id], Next(s, Verify(user, at, matches, completes)).codes;
            codes == if code.expiresAt < at || code.attempts >= 3 then s.codes
                     else if !matches then s.codes[id := code.(attempts := code.attempts + 1)]
                     else if completes then s.codes[id := code.(used := true)]
                     else s.codes
  {
    assert Unused(s.codes, id, user);
    assert Latest(s.codes, user) == Some(id);
  }

  lemma NothingToVerify(s: State, user: nat, at: int, matches: bool, completes: bool)
    requires forall id :: id in s.codes && s.codes[id].user == user ==> s.codes[id].used
    ensures Next(s, Verify(user, at, matches, completes)).codes == s.codes
    ensures Next(s, Verify(user, at, matches, completes)).guesses == s.guesses
  {
  }

  /** Between a code's arrival and its use, the user's steps may only be wrong guesses and aborted matches. */
  predicate LeavesCode(act: Action, user: nat) {
    act.user == user ==> act.Verify? && !(act.matches && act.completes)
  }

  function WrongGuesses(acts: seq<Action>, user: nat): nat
    decreases |acts|
  {
    if acts == [] then 0
    else
      var act := acts[|acts| - 1];
      WrongGuesses(acts[..|acts| - 1], user) + if act.Verify? && act.user == user && !act.matches then 1 else 0
  }

  /** Code `id` waits, with no more than `n` wrong guesses. */
  ghost predicate Waits(s: State, id: nat, user: nat, createdAt: int, n: nat) {
    && Valid(s) && id in s.codes
    && s.codes[id] == Code(user, false, s.codes[id].attempts, createdAt, createdAt + 600_000)
    && s.codes[id].attempts <= n
  }

  lemma WaitsStep(s: State, act: Action, id: nat, user: nat, createdAt: int, n: nat)
    requires Waits(s, id, user, createdAt, n) && LeavesCode(act, user)
    ensures Waits(Next(s, act), id, user, createdAt,
                  n + if act.Verify? && act.user == user && !act.matches then 1 else 0)
  {
    if act.Send? {
      SendKeepsValid(s, act);
      SendShape(s, act.user, act.now, act.createdAt);
    } else {
      VerifyKeepsValid(s, act);
      if act.user == user && s.clock <= act.at {
        VerifyExactly(s, user, act.at, act.matches, act.completes, id);
      } else {
        VerifyShape(s, act);
        VerifyOthers(s, act, id);
      }
    }
  }

  lemma VerifyOthers(s: State, act: Action, id: nat)
    requires act.Verify? && id in s.codes && (s.codes[id].user != act.user || act.at < s.clock)
    ensures id in Next(s, act).codes && Next(s, act).codes[id] == s.codes[id]
  {
  }

  lemma {:induction false} WaitsRun(s: State, acts: seq<Action>, id: nat, user: nat, createdAt: int)
    requires Waits(s, id, user, createdAt, 0) && forall i :: 0 <= i < |acts| ==> LeavesCode(acts[i], user)
    ensures Waits(Run(s, acts), id, user, createdAt, WrongGuesses(acts, user))
    decreases |acts|
  {
    if acts != [] {
      var init, act := acts[..|acts| - 1], acts[|acts| - 1];
      WaitsRun(s, init, id, user, createdAt);
      assert LeavesCode(act, user);
      WaitsStep(Run(s, init), act, id, user, createdAt, WrongGuesses(init, user));
    }
  }

  /**
   From sending to login: a code that was sent is accepted, once, at any time within ten minutes, whatever other
   users do, as long as the user asks for no other one and guesses wrong at most twice.
   */
  lemma SentCodeIsAccepted(s: State, user: nat, now: int, createdAt: int, acts: seq<Action>, at: int)
    requires Valid(s) && s.clock <= now <= createdAt && CanSend(s, user, now)
    requires (forall i :: 0 <= i < |acts| ==> LeavesCode(acts[i], user)) && WrongGuesses(acts, user) <= 2
    requires var later := Run(Next(s, Send(user, now, createdAt)), acts); later.clock <= at <= createdAt + 600_000
    ensures var later := Run(Next(s, Send(user, now, createdAt)), acts);
            var accepted := Next(later, Verify(user, at, true, true)).codes;
            && s.nextId in later.codes && !later.codes[s.nextId].used
            && accepted == later.codes[s.nextId := later.codes[s.nextId].(used := true)]
  {
    SendKeepsValid(s, Send(user, now, createdAt));
    SendShape(s, user, now, createdAt);
    var sent := Next(s, Send(user, now, createdAt));
    WaitsRun(sent, acts, s.nextId, user, createdAt);
    VerifyExactly(Run(sent, acts), user, at, true, true, s.nextId);
  }

  // ----- The table -----

  class Table {
    var codes: map<nat, Code>
    var nextId: nat
    var clock: int
    ghost var guesses: map<Guess, int>

    ghost function Now(): State
      reads this
    {
      State(codes, nextId, clock, guesses)
    }

    constructor (clock: int)
      ensures Now() == Empty(clock)
    {
      codes, nextId, this.clock, guesses := map[], 0, clock, map[];
    }

    /** `sendOtp`: refused after three codes within the hour; otherwise replaces every earlier code. */
    method SendOtp(user: nat, now: int, createdAt: int) returns (sent: bool)
      requires Valid(Now()) && clock <= now <= createdAt
      modifies this
      ensures Valid(Now()) && Now() == Next(old(Now()), Send(user, now, createdAt))
      ensures sent <==> |set id | id in old(codes) && old(codes)[id].user == user
                                  && now - 3_600_000 <= old(codes)[id].createdAt| < 3
      ensures !sent ==> codes == old(codes)
      ensures sent ==>
                && codes.Keys == old(codes).Keys + {old(nextId)} && old(nextId) !in old(codes)
                && codes[old(nextId)] == Code(user, false, 0, createdAt, createdAt + 600_000)
                && forall id :: id in old(codes) ==>
                     codes[id] == if old(codes)[id].user == user then old(codes)[id].(used := true) else old(codes)[id]
      ensures sent ==> forall id :: Unused(codes, id, user) <==> id == old(nextId)
    {
      ghost var before := Now();
      SendKeepsValid(before, Send(user, now, createdAt));
      RecentAreCounted(codes, user, now);
      WithNewRows(codes, nextId, user, createdAt);
      SendShape(before, user, now, createdAt);
      OnlyNewUnused(before, user, createdAt);
      clock := createdAt;
      if |Since(Sent(codes, user), now - HOUR_MS)| >= MAX_SENDS {
        return false;
      }
      codes := Invalidate(codes, user);
      codes := codes[nextId := Code(user, false, 0, createdAt, createdAt + EXPIRY_MS)];
      assert codes == WithNew(before.codes, nextId, user, createdAt);
      nextId := nextId + 1;
      sent := true;
    }

    method FindLatestOtp(user: nat) returns (id: Option<nat>)
      requires Valid(Now())
      ensures id == Latest(codes, user)
    {
      if !exists i :: i in codes && codes[i].user == user && !codes[i].used {
        assert forall i :: !Unused(codes, i, user);
        return None;
      }
      var i :| i in codes && codes[i].user == user && !codes[i].used;
      assert Unused(codes, i, user);
      return Some(i);
    }

    /** `verifyOtp`: compares with the latest unused code, which must be fresh and not worn out. */
    method VerifyOtp(user: nat, at: int, matches: bool, completes: bool) returns (accepted: bool)
      requires Valid(Now()) && clock <= at
      modifies this
      ensures Now() == Next(old(Now()), Verify(user, at, matches, completes))
      ensures accepted <==>
                && matches && completes
                && exists id :: id in old(codes) && old(codes)[id].user == user && !old(codes)[id].used
                                && at <= old(codes)[id].expiresAt && old(codes)[id].attempts < 3
      ensures forall id :: id in old(codes) && old(codes)[id].user == user && !old(codes)[id].used ==>
                codes == if old(codes)[id].expiresAt < at || old(codes)[id].attempts >= 3 then old(codes)
                         else if accepted then old(codes)[id := old(codes)[id].(used := true)]
                         else if !matches then
                           old(codes)[id := old(codes)[id].(attempts := old(codes)[id].attempts + 1)]
                         else old(codes)
      ensures (forall id :: id in old(codes) && old(codes)[id].user == user ==> old(codes)[id].used) ==>
                codes == old(codes)
    {
      var latest := FindLatestOtp(user);
      clock := at;
      assert forall id :: id in codes && codes[id].user == user && !codes[id].used ==> Unused(codes, id, user);
      if latest.None? {
        return false;
      }
      var id := latest.value;
      var code := codes[id];
      if at > code.expiresAt || code.attempts >= MAX_ATTEMPTS {
        return false;
      }
      if !matches {
        codes := codes[id := code.(attempts := code.attempts + 1)];
        guesses := guesses[Guess(id, code.attempts) := at];
        return false;
      }
      if !completes {
        return false;
      }
      codes := codes[id := code.(used := true)];
      return true;
    }
  }
}
