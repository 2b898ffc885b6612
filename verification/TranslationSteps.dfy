/**
 The calls of `TranslationCache`, taken apart where the source awaits (src/modules/i18n/i18n.service.ts): the
 lookup, the provider and every single cache write. The steps of any number of calls may interleave, and the
 writes of one call may happen in any order.
 */
module TranslationSteps {
  import opened Common
  import opened TranslationCache

  /** A call after its lookup; `seen` is the table as the lookup found it, `pending` the writes still to come. */
  datatype Running =
    | Asking(call: Call, seen: map<Key, Row>)
    | Storing(call: Call, seen: map<Key, Row>, pending: set<nat>)
    | Returned(call: Call, seen: map<Key, Row>, pending: set<nat>, answers: seq<Translation>)

  datatype State = State(rows: map<Key, Row>, calls: map<nat, Running>, nextCall: nat)

  datatype Action =
    | Begin(call: Call)
    | Ask(c: nat)
    | Persist(c: nat, i: nat)
    | Return(c: nat)

  /** A call that needs the provider. */
  predicate Asks(services: Services, rows: map<Key, Row>, call: Call) {
    call.source != call.target && MissingOf(services, rows, call) != []
  }

  function Indexes(n: nat): (r: set<nat>)
    ensures forall i: nat :: i in r <==> i < n
  {
    if n == 0 then {} else Indexes(n - 1) + {n - 1}
  }

  function BeginStep(services: Services, s: State, call: Call): State {
    var begun := if Asks(services, s.rows, call) then Asking(call, s.rows)
                 else Returned(call, s.rows, {}, Answers(services, s.rows, call));
    s.(calls := s.calls[s.nextCall := begun], nextCall := s.nextCall + 1)
  }

  function AskStep(services: Services, s: State, c: nat): State {
    if c !in s.calls || !s.calls[c].Asking? then s
    else
      var call, seen := s.calls[c].call, s.calls[c].seen;
      s.(calls := s.calls[c :=
        if call.providerFails then Returned(call, seen, {}, Answers(services, seen, call))
        else Storing(call, seen, Indexes(|MissingOf(services, seen, call)|))])
  }

  /** One of the call's writes; it may still come after the call has returned, when another one failed first. */
  function PersistStep(services: Services, s: State, c: nat, i: nat): State {
    if c !in s.calls || s.calls[c].Asking? || i !in s.calls[c].pending then s
    else
      var running := s.calls[c];
      var call, missing := running.call, MissingOf(services, running.seen, running.call);
      var waiting := s.(calls := s.calls[c := running.(pending := running.pending - {i})]);
      if i >= |missing| || !call.persisted(i) then waiting
      else
        waiting.(rows := UpsertRow(s.rows, Key(call.source, call.target, services.hash(missing[i])),
                                   FreshRow(services, call.source, call.target, missing[i], true)))
  }

  /** The call has waited for its writes, or for the first one that failed. */
  predicate MayReturn(services: Services, running: Running) {
    running.Storing?
    && (running.pending == {}
        || exists i :: 0 <= i < |MissingOf(services, running.seen, running.call)|
                       && i !in running.pending && !running.call.persisted(i))
  }

  function Next(services: Services, s: State, act: Action): State {
    match act
    case Begin(call) => BeginStep(services, s, call)
    case Ask(c) => AskStep(services, s, c)
    case Persist(c, i) => PersistStep(services, s, c, i)
    case Return(c) =>
      if c !in s.calls || !MayReturn(services, s.calls[c]) then s
      else
        var r := s.calls[c];
        s.(calls := s.calls[c := Returned(r.call, r.seen, r.pending, Answers(services, r.seen, r.call))])
  }

  function Run(services: Services, s: State, acts: seq<Action>): State
    decreases |acts|
  {
    if acts == [] then s else Next(services, Run(services, s, acts[..|acts| - 1]), acts[|acts| - 1])
  }

  function Start(rows: map<Key, Row>): State { State(rows, map[], 0) }

  // ----- Coherence -----

  ghost predicate SoundCall(services: Services, running: Running) {
    Coherent(services, running.seen)
    && (running.Returned? ==> running.answers == Answers(services, running.seen, running.call))
  }

  ghost predicate Sound(services: Services, s: State) {
    Coherent(services, s.rows) && forall c :: c in s.calls ==> SoundCall(services, s.calls[c])
  }

  lemma UpsertIsCoherent(services: Services, rows: map<Key, Row>, source: Language, target: Language, text: string)
    requires Injective(services.hash) && Coherent(services, rows)
    ensures Coherent(services, UpsertRow(rows, Key(source, target, services.hash(text)),
                                         FreshRow(services, source, target, text, true)))
  {
    var key := Key(source, target, services.hash(text));
    if key in rows {
      assert CoherentRow(services, key, rows[key]);
      assert rows[key].sourceText == text;
    }
  }

  /** Every single step, of whichever call, keeps the table coherent, and what each call has seen of it. */
  lemma StepIsSound(services: Services, s: State, act: Action)
    requires Injective(services.hash) && Sound(services, s)
    ensures Sound(services, Next(services, s, act))
  {
    match act
    case Persist(c, i) =>
      if c in s.calls && !s.calls[c].Asking? && i in s.calls[c].pending {
        var call, missing := s.calls[c].call, MissingOf(services, s.calls[c].seen, s.calls[c].call);
        if i < |missing| {
          UpsertIsCoherent(services, s.rows, call.source, call.target, missing[i]);
        }
      }
    case _ =>
  }

  lemma {:induction false} RunsAreSound(services: Services, rows: map<Key, Row>, acts: seq<Action>)
    requires Injective(services.hash) && Coherent(services, rows)
    ensures Sound(services, Run(services, Start(rows), acts))
    decreases |acts|
  {
    if acts != [] {
      RunsAreSound(services, rows, acts[..|acts| - 1]);
      StepIsSound(services, Run(services, Start(rows), acts[..|acts| - 1]), acts[|acts| - 1]);
    }
  }

  /**
   In every interleaving from a coherent table, whatever lookups and writes fail in it, a returned call whose
   provider works has answered what the provider alone would, for every requested text, in order.
   */
  lemma OverlapIsInvisible(services: Services, rows: map<Key, Row>, acts: seq<Action>, c: nat)
    requires Injective(services.hash) && Coherent(services, rows)
    requires var s := Run(services, Start(rows), acts);
             c in s.calls && s.calls[c].Returned? && !s.calls[c].call.providerFails
             && s.calls[c].call.source != s.calls[c].call.target
    ensures var running := Run(services, Start(rows), acts).calls[c];
            var call, requested := running.call, Requested(running.call.texts);
            && |running.answers| == |requested|
            && forall i :: 0 <= i < |requested| ==>
                 var translated := services.translate(call.source, call.target, requested[i]);
                 running.answers[i].sourceText == requested[i]
                 && running.answers[i].translatedText == if translated == "" then requested[i] else translated
  {
    RunsAreSound(services, rows, acts);
    var running := Run(services, Start(rows), acts).calls[c];
    assert SoundCall(services, running);
    var call, requested := running.call, Requested(running.call.texts);
    forall i | 0 <= i < |requested|
      ensures running.answers[i].sourceText == requested[i]
      ensures running.answers[i].translatedText == Uncached(services, call.source, call.target, requested[i])
    {
      AnswerIsUncached(services, running.seen, call.source, call.target, call.lookupFails, true, requested[i]);
    }
  }

  // ----- A call alone -----

  /** Call `c` makes its first `n` writes in order, with nothing in between. */
  function Drive(services: Services, s: State, c: nat, n: nat): State {
    if n == 0 then s else Next(services, Drive(services, s, c, n - 1), Persist(c, n - 1))
  }

  lemma PersistNext(services: Services, s: State, c: nat, call: Call, seen: map<Key, Row>, missing: seq<string>, i: nat)
    requires missing == MissingOf(services, seen, call) && i < |missing|
    requires c in s.calls && s.calls[c] == Storing(call, seen, Indexes(|missing|) - Indexes(i))
    ensures var s' := Next(services, s, Persist(c, i));
            && s'.rows == (if !call.persisted(i) then s.rows
                           else UpsertRow(s.rows, Key(call.source, call.target, services.hash(missing[i])),
                                          FreshRow(services, call.source, call.target, missing[i], true)))
            && c in s'.calls && s'.calls[c] == Storing(call, seen, Indexes(|missing|) - Indexes(i + 1))
  {
    assert Indexes(|missing|) - Indexes(i) - {i} == Indexes(|missing|) - Indexes(i + 1);
  }

  /** After its first `n` writes in order, the call has stored the first `n` texts, and the rest is pending. */
  ghost predicate StoredSoFar(services: Services, rows: map<Key, Row>, c: nat, call: Call, seen: map<Key, Row>,
                              missing: seq<string>,
                              done: State, n: nat)
    requires n <= |missing|
  {
    && done.rows == Stored(services, rows, call.source, call.target, missing, call.persisted, n)
    && c in done.calls && done.calls[c] == Storing(call, seen, Indexes(|missing|) - Indexes(n))
  }

  lemma {:induction false} DriveStores(services: Services, s: State, c: nat, call: Call, seen: map<Key, Row>,
                                       missing: seq<string>, n: nat)
    requires missing == MissingOf(services, seen, call) && n <= |missing|
    requires StoredSoFar(services, s.rows, c, call, seen, missing, s, 0)
    ensures StoredSoFar(services, s.rows, c, call, seen, missing, Drive(services, s, c, n), n)
  {
    if n > 0 {
      DriveStores(services, s, c, call, seen, missing, n - 1);
      OneMoreDriven(services, s, c, call, seen, missing, n - 1);
    }
  }

  lemma OneMoreDriven(services: Services, s: State, c: nat, call: Call, seen: map<Key, Row>, missing: seq<string>,
                      n: nat)
    requires missing == MissingOf(services, seen, call) && n < |missing|
    requires StoredSoFar(services, s.rows, c, call, seen, missing, Drive(services, s, c, n), n)
    ensures StoredSoFar(services, s.rows, c, call, seen, missing, Drive(services, s, c, n + 1), n + 1)
  {
    DrivePush(services, s, c, n);
    OneMoreStored(services, s.rows, c, call, seen, missing, Drive(services, s, c, n), n);
  }

  lemma OneMoreStored(services: Services, rows: map<Key, Row>, c: nat, call: Call, seen: map<Key, Row>,
                      missing: seq<string>, before: State, n: nat)
    requires missing == MissingOf(services, seen, call) && n < |missing|
    requires StoredSoFar(services, rows, c, call, seen, missing, before, n)
    ensures StoredSoFar(services, rows, c, call, seen, missing, Next(services, before, Persist(c, n)), n + 1)
  {
    PersistNext(services, before, c, call, seen, missing, n);
    StoredPush(services, rows, call, missing, n);
  }

  lemma StoredPush(services: Services, rows: map<Key, Row>, call: Call, missing: seq<string>, n: nat)
    requires n < |missing|
    ensures var before := Stored(services, rows, call.source, call.target, missing, call.persisted, n);
            Stored(services, rows, call.source, call.target, missing, call.persisted, n + 1)
            == if !call.persisted(n) then before
               else UpsertRow(before, Key(call.source, call.target, services.hash(missing[n])),
                              FreshRow(services, call.source, call.target, missing[n], true))
  {
  }

  lemma DrivePush(services: Services, s: State, c: nat, n: nat)
    ensures Drive(services, s, c, n + 1) == Next(services, Drive(services, s, c, n), Persist(c, n))
  {
  }

  /** With nothing in between, lookup, provider and writes are the call of `TranslationCache` as one step. */
  lemma CallAlone(services: Services, s: State, call: Call)
    requires Asks(services, s.rows, call) && !call.providerFails
    ensures var missing := MissingOf(services, s.rows, call);
            var asked := Next(services, Next(services, s, Begin(call)), Ask(s.nextCall));
            var done := Next(services, Drive(services, asked, s.nextCall, |missing|), Return(s.nextCall));
            && done.rows == After(services, s.rows, call)
            && s.nextCall in done.calls && done.calls[s.nextCall].Returned?
            && done.calls[s.nextCall].answers == Answers(services, s.rows, call)
  {
    var missing := MissingOf(services, s.rows, call);
    var asked := Next(services, Next(services, s, Begin(call)), Ask(s.nextCall));
    assert Indexes(|missing|) - Indexes(0) == Indexes(|missing|);
    DriveStores(services, asked, s.nextCall, call, s.rows, missing, |missing|);
    assert Indexes(|missing|) - Indexes(|missing|) == {};
  }

  /** So is a call that needs no provider, or whose provider fails: it writes nothing. */
  lemma CallAloneWithoutProvider(services: Services, s: State, call: Call)
    requires !Asks(services, s.rows, call) || call.providerFails
    ensures var begun := Next(services, s, Begin(call));
            var done := if Asks(services, s.rows, call) then Next(services, begun, Ask(s.nextCall)) else begun;
            && done.rows == s.rows && After(services, s.rows, call) == s.rows
            && done.calls == s.calls[s.nextCall := Returned(call, s.rows, {}, Answers(services, s.rows, call))]
  {
  }
}
