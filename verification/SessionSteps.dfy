/**
 The session calls of `Sessions`, one database statement a step. The source runs none of them in a transaction
 (src/modules/auth/auth.service.ts), so the statements of any calls may interleave. Which interleavings let a
 refresh token be exchanged twice?
 */
module SessionSteps {
  import opened Common
  import S = Sessions

  type Token = S.Token

  type Rows = map<nat, S.Session>

  /** The arguments of one `touchOwnSession`; a refresh is the touch that has a next token. */
  datatype Touching = Touching(user: nat, token: Option<Token>, next: Option<Token>, client: Option<nat>,
                               expiresAt: int)

  /** A call between two of its statements. */
  datatype Call =
    | Starting(touch: Touching)                                         // before the touch's token lookup
    | Looking(touch: Touching, byToken: Option<nat>, revoked: bool)     // before its client lookup
    | Merging(touch: Touching, victim: nat, survivor: nat)              // before it deletes the other session
    | Writing(touch: Touching, target: Option<nat>)                     // before it updates or creates the row
    | Revoking(id: nat)                                                 // before the write that revokes a row

  /** `spent` is every token that was exchanged for a new one. */
  datatype State = State(rows: Rows, nextId: nat, spent: set<Token>, calls: map<nat, Call>, nextCall: nat)

  const EMPTY := State(map[], 0, {}, map[], 0)

  datatype Action =
    // A login with its new token, a heartbeat, or the touch that a listing begins with.
    | BeginTouch(user: nat, token: Option<Token>, client: Option<nat>, expiresAt: int)
    | BeginRefresh(presented: Token, claimant: Option<nat>, client: Option<nat>, issued: Token, now: int,
                   expiresAt: int)
    | BeginRevoke(user: nat, id: nat, currentToken: Option<Token>, currentClient: Option<nat>)
    // The call's next statement; `proceeds`: the checks before a touch did not throw.
    | Continue(call: nat, proceeds: bool)
    // These are one statement each.
    | Logout(ended: Token)
    | RevokeAll(user: nat)
    | RevokeOthers(user: nat, keep: Token)

  // ----- Steps -----

  function Start(s: State, call: Call): State {
    s.(calls := s.calls[s.nextCall := call], nextCall := s.nextCall + 1)
  }

  function Move(s: State, c: nat, call: Call): State { s.(calls := s.calls[c := call]) }

  function End(s: State, c: nat): State { s.(calls := s.calls - {c}) }

  /** `refreshToken` up to its lookup. */
  ghost function BeginRefreshStep(s: State, token: Token, claimant: Option<nat>, client: Option<nat>, issued: Token,
                                  now: int, expiresAt: int): State
  {
    var found := S.FindByToken(s.rows, Some(token));
    if found.None? || issued == token then s  // a generated token is new
    else
      var session := s.rows[found.value];
      if session.revoked || now > session.expiresAt then Start(s, Revoking(found.value))
      else
        Start(s, Starting(Touching(S.OrElse(claimant, Some(session.user)).value, Some(token), Some(issued),
                                   S.OrElse(client, session.client), expiresAt)))
  }

  function BeginRevokeStep(s: State, user: nat, id: nat, currentToken: Option<Token>,
                           currentClient: Option<nat>): State {
    if id !in s.rows || s.rows[id].user != user || s.rows[id].revoked then s
    else if (currentToken.Some? && s.rows[id].token == currentToken)
         || (currentClient.Some? && s.rows[id].client == currentClient) then s
    else Start(s, Revoking(id))
  }

  /** The touch's token lookup. */
  ghost function LookupToken(s: State, c: nat, touch: Touching): State {
    var byToken := S.FindByToken(s.rows, touch.token);
    Move(s, c, Looking(touch, byToken, byToken.Some? && s.rows[byToken.value].revoked))
  }

  /** Its client lookup, and what it decides from the two. */
  ghost function LookupClient(s: State, c: nat, touch: Touching, byToken: Option<nat>, revoked: bool): State
    requires byToken.Some? ==> byToken.value in s.rows
  {
    var byClient := S.FindByClient(s.rows, touch.user, touch.client);
    if byToken.Some? && s.rows[byToken.value].user != touch.user then End(s, c)
    else if byToken.Some? && (if byClient.Some? then s.rows[byClient.value].revoked else revoked) then End(s, c)
    else if byToken.Some? && byClient.Some? && byToken != byClient
        then Move(s, c, Merging(touch, byToken.value, byClient.value))
    else Move(s, c, Writing(touch, S.OrElse(byClient, byToken)))
  }

  /** The unique constraints, for row `id` among the others. */
  ghost predicate Fits(rows: Rows, id: nat, row: S.Session) {
    && (row.token.Some? ==> forall j :: j != id ==> !S.HasToken(rows, j, row.token.value))
    && (row.client.Some? ==> forall j :: j != id ==> !S.HasClient(rows, j, row.user, row.client.value))
  }

  function WrittenId(s: State, target: Option<nat>): nat { if target.Some? then target.value else s.nextId }

  function WrittenRow(s: State, touch: Touching, target: Option<nat>): S.Session
    requires target.Some? ==> target.value in s.rows
  {
    if target.Some? then S.Touched(s.rows[target.value], touch.token, touch.next, touch.client, touch.expiresAt)
    else S.Session(touch.user, S.OrElse(touch.next, touch.token), touch.client, false, touch.expiresAt)
  }

  /** The token that a call will have exchanged when it succeeds. */
  function Exchanges(touch: Touching): Option<Token> { if touch.next.Some? then touch.token else None }

  /** The touch's write; a violated constraint makes it throw. */
  ghost function Write(s: State, c: nat, touch: Touching, target: Option<nat>): State
    requires target.Some? ==> target.value in s.rows
  {
    var id, row := WrittenId(s, target), WrittenRow(s, touch, target);
    if !Fits(s.rows, id, row) then End(s, c)
    else
      End(s, c).(rows := s.rows[id := row],
                 nextId := if target.Some? then s.nextId else s.nextId + 1,
                 spent := if Exchanges(touch).Some? then s.spent + {Exchanges(touch).value} else s.spent)
  }

  predicate CallOk(rows: Rows, call: Call) {
    match call
    case Starting(touch) => TouchOk(touch)
    case Looking(touch, byToken, _) => TouchOk(touch) && (byToken.Some? ==> byToken.value in rows)
    case Merging(touch, victim, target) => TouchOk(touch) && victim in rows && target in rows
    case Writing(touch, target) => TouchOk(touch) && (target.Some? ==> target.value in rows)
    case Revoking(id) => id in rows
  }

  predicate TouchOk(touch: Touching) { touch.next.Some? ==> touch.token.Some? && touch.token != touch.next }

  ghost function ContinueStep(s: State, c: nat, proceeds: bool): State {
    if c !in s.calls || !CallOk(s.rows, s.calls[c]) then s
    else
      match s.calls[c]
      case Starting(touch) => if proceeds then LookupToken(s, c, touch) else End(s, c)
      case Looking(touch, byToken, revoked) => LookupClient(s, c, touch, byToken, revoked)
      case Merging(touch, victim, target) =>
        Move(s, c, Writing(touch, Some(target))).(rows := s.rows[victim := S.Revoked(s.rows[victim])])
      case Writing(touch, target) => Write(s, c, touch, target)
      case Revoking(id) => End(s, c).(rows := s.rows[id := S.Revoked(s.rows[id])])
  }

  ghost function Next(s: State, act: Action): State {
    match act
    case BeginTouch(user, token, client, expiresAt) =>
      if token.None? && client.None? then s else Start(s, Starting(Touching(user, token, None, client, expiresAt)))
    case BeginRefresh(token, claimant, client, issued, now, expiresAt) =>
      BeginRefreshStep(s, token, claimant, client, issued, now, expiresAt)
    case BeginRevoke(user, id, currentToken, currentClient) => BeginRevokeStep(s, user, id, currentToken, currentClient)
    case Continue(c, proceeds) => ContinueStep(s, c, proceeds)
    case Logout(token) => s.(rows := S.RevokeWhere(s.rows, (r: S.Session) => r.token == Some(token)))
    case RevokeAll(user) => s.(rows := S.RevokeWhere(s.rows, (r: S.Session) => r.user == user && !r.revoked))
    case RevokeOthers(user, keep) =>
      s.(rows := S.RevokeWhere(s.rows, (r: S.Session) => r.user == user && !r.revoked && r.token != Some(keep)))
  }

  ghost function Run(s: State, acts: seq<Action>): State
    decreases |acts|
  {
    if acts == [] then s else Next(Run(s, acts[..|acts| - 1]), acts[|acts| - 1])
  }

  // ----- The table's invariant -----

  ghost predicate TableOk(rows: Rows, nextId: nat) {
    && (forall id :: id in rows ==> id < nextId)
    && (forall i: nat, j: nat, t: Token :: S.HasToken(rows, i, t) && S.HasToken(rows, j, t) ==> i == j)
    && (forall i, j, u, c :: S.HasClient(rows, i, u, c) && S.HasClient(rows, j, u, c) ==> i == j)
    && (forall id :: id in rows && rows[id].revoked ==> rows[id].token == None)
  }

  ghost predicate Valid(s: State) {
    && TableOk(s.rows, s.nextId)
    && (forall c :: c in s.calls ==> c < s.nextCall && CallOk(s.rows, s.calls[c]))
  }

  /** Writing a row that fits keeps the table. */
  lemma PutKeepsTable(rows: Rows, nextId: nat, id: nat, row: S.Session, nextId': nat)
    requires TableOk(rows, nextId) && Fits(rows, id, row) && id < nextId' && nextId <= nextId'
    requires row.revoked ==> row.token == None
    ensures TableOk(rows[id := row], nextId')
  {
    var after := rows[id := row];
    forall i: nat, t: Token | i != id && S.HasToken(after, i, t)
      ensures S.HasToken(rows, i, t) && !S.HasToken(after, id, t)
    {
      assert S.HasToken(rows, i, t);
    }
    forall i, u, c | i != id && S.HasClient(after, i, u, c)
      ensures S.HasClient(rows, i, u, c) && !S.HasClient(after, id, u, c)
    {
      assert S.HasClient(rows, i, u, c);
    }
  }

  /** Revoking rows does, too. */
  lemma RevokedKeepsTable(rows: Rows, nextId: nat, after: Rows)
    requires TableOk(rows, nextId) && after.Keys == rows.Keys
    requires forall id :: id in rows ==> after[id] == rows[id] || after[id] == S.Revoked(rows[id])
    ensures TableOk(after, nextId)
  {
    assert forall i: nat, t: Token :: S.HasToken(after, i, t) ==> S.HasToken(rows, i, t);
    assert forall i, u, c :: S.HasClient(after, i, u, c) ==> S.HasClient(rows, i, u, c);
  }

  lemma WriteKeepsValid(s: State, c: nat)
    requires Valid(s) && c in s.calls && s.calls[c].Writing?
    ensures Valid(Next(s, Continue(c, true)))
  {
    var touch, target := s.calls[c].touch, s.calls[c].target;
    var id, row := WrittenId(s, target), WrittenRow(s, touch, target);
    if Fits(s.rows, id, row) {
      PutKeepsTable(s.rows, s.nextId, id, row, if target.Some? then s.nextId else s.nextId + 1);
    }
  }

  lemma ContinueKeepsValid(s: State, c: nat, proceeds: bool)
    requires Valid(s)
    ensures Valid(Next(s, Continue(c, proceeds)))
  {
    if c in s.calls {
      match s.calls[c]
      case Writing(_, _) => WriteKeepsValid(s, c);
      case Merging(_, victim, _) => RevokedKeepsTable(s.rows, s.nextId, s.rows[victim := S.Revoked(s.rows[victim])]);
      case Revoking(id) => RevokedKeepsTable(s.rows, s.nextId, s.rows[id := S.Revoked(s.rows[id])]);
      case _ =>
    }
  }

  /** Every statement of every call keeps the two unique constraints, and revoked rows without token. */
  lemma NextKeepsValid(s: State, act: Action)
    requires Valid(s)
    ensures Valid(Next(s, act))
  {
    match act
    case Continue(c, proceeds) => ContinueKeepsValid(s, c, proceeds);
    case Logout(_) => RevokedKeepsTable(s.rows, s.nextId, Next(s, act).rows);
    case RevokeAll(_) => RevokedKeepsTable(s.rows, s.nextId, Next(s, act).rows);
    case RevokeOthers(_, _) => RevokedKeepsTable(s.rows, s.nextId, Next(s, act).rows);
    case BeginTouch(_, _, _, _) =>
    case BeginRefresh(_, _, _, _, _, _) =>
    case BeginRevoke(_, _, _, _) =>
  }

  /** So does every interleaving. */
  lemma {:induction false} RunsAreValid(acts: seq<Action>)
    ensures Valid(Run(EMPTY, acts))
    decreases |acts|
  {
    if acts != [] {
      RunsAreValid(acts[..|acts| - 1]);
      NextKeepsValid(Run(EMPTY, acts[..|acts| - 1]), acts[|acts| - 1]);
    }
  }

  // ----- A token is exchanged at most once -----

  /** The token of a refresh that is past its lookup. */
  function Pending(call: Call): Option<Token> {
    if call.Revoking? then None else Exchanges(call.touch)
  }

  /** No exchanged token is on a row, or in the hands of a refresh that is past its lookup. */
  ghost predicate Clean(s: State) {
    && (forall id: nat, t: Token :: S.HasToken(s.rows, id, t) ==> t !in s.spent)
    && (forall c :: c in s.calls && Pending(s.calls[c]).Some? ==> Pending(s.calls[c]).value !in s.spent)
  }

  /** The call's write will succeed. */
  ghost predicate Succeeds(s: State, c: nat) {
    && c in s.calls && s.calls[c].Writing? && CallOk(s.rows, s.calls[c])
    && Fits(s.rows, WrittenId(s, s.calls[c].target), WrittenRow(s, s.calls[c].touch, s.calls[c].target))
  }

  /** This step exchanges token `t`. */
  ghost predicate ExchangesNow(s: State, act: Action, t: Token) {
    act.Continue? && Succeeds(s, act.call) && Exchanges(s.calls[act.call].touch) == Some(t)
  }

  ghost predicate OnAnotherRow(rows: Rows, id: nat, t: Token) {
    exists j :: j != id && S.HasToken(rows, j, t)
  }

  /**
   The writes that spoil it: one of a token that was exchanged, as a stale heartbeat's is; and one that
   completes an exchange while another refresh is past its lookup of the same token, or the token has been
   written to another row.
   */
  ghost predicate Spoils(s: State, act: Action) {
    act.Continue? && Succeeds(s, act.call)
    && var touch := s.calls[act.call].touch;
       || (S.OrElse(touch.next, touch.token).Some? && S.OrElse(touch.next, touch.token).value in s.spent)
       || (Exchanges(touch).Some?
           && ((exists c :: c != act.call && c in s.calls && Pending(s.calls[c]) == Exchanges(touch))
               || OnAnotherRow(s.rows, WrittenId(s, s.calls[act.call].target), Exchanges(touch).value)))
  }

  lemma WriteClean(s: State, c: nat)
    requires Valid(s) && Clean(s) && Succeeds(s, c)
    ensures Clean(Next(s, Continue(c, true))) <==> !Spoils(s, Continue(c, true))
  {
    var touch, target := s.calls[c].touch, s.calls[c].target;
    var id, row := WrittenId(s, target), WrittenRow(s, touch, target);
    var s' := Next(s, Continue(c, true));
    forall i: nat, t: Token
      ensures S.HasToken(s'.rows, i, t) <==> if i == id then row.token == Some(t) else S.HasToken(s.rows, i, t)
    {
    }
    assert target.Some? && s.rows[id].token.Some? ==> S.HasToken(s.rows, id, s.rows[id].token.value);
    if Spoils(s, Continue(c, true)) {
      var written := S.OrElse(touch.next, touch.token);
      if written.Some? && written.value in s.spent {
        assert S.HasToken(s'.rows, id, written.value);
      } else if other :| other != c && other in s.calls && Pending(s.calls[other]) == Exchanges(touch) {
        assert other in s'.calls && s'.calls[other] == s.calls[other];
      } else {
        var i :| i != id && S.HasToken(s.rows, i, Exchanges(touch).value);
        assert S.HasToken(s'.rows, i, Exchanges(touch).value);
      }
    }
  }

  lemma OtherContinueClean(s: State, c: nat, proceeds: bool)
    requires Valid(s) && Clean(s) && !Succeeds(s, c)
    ensures Clean(Next(s, Continue(c, proceeds)))
  {
    var s' := Next(s, Continue(c, proceeds));
    assert forall i: nat, t: Token :: S.HasToken(s'.rows, i, t) ==> S.HasToken(s.rows, i, t);
    forall d | d in s'.calls
      ensures d in s.calls && Pending(s'.calls[d]) == Pending(s.calls[d])
    {
    }
  }

  lemma BeginClean(s: State, act: Action)
    requires Valid(s) && Clean(s) && !act.Continue?
    ensures Clean(Next(s, act))
  {
    var s' := Next(s, act);
    assert forall i: nat, t: Token :: S.HasToken(s'.rows, i, t) ==> S.HasToken(s.rows, i, t);
    if act.BeginRefresh? && s' != s {
      assert S.HasToken(s.rows, S.FindByToken(s.rows, Some(act.presented)).value, act.presented);
    }
  }

  /**
   A statement keeps exchanged tokens off the rows and out of other refreshes if and only if it does not
   spoil that.
   */
  lemma CleanStep(s: State, act: Action)
    requires Valid(s) && Clean(s)
    ensures Clean(Next(s, act)) <==> !Spoils(s, act)
  {
    if act.Continue? && Succeeds(s, act.call) {
      WriteClean(s, act.call);
    } else if act.Continue? {
      OtherContinueClean(s, act.call, act.proceeds);
    } else {
      BeginClean(s, act);
    }
  }

  ghost predicate CleanThroughout(s: State, acts: seq<Action>)
    decreases |acts|
  {
    Clean(Run(s, acts)) && (acts != [] ==> CleanThroughout(s, acts[..|acts| - 1]))
  }

  ghost predicate NothingSpoils(s: State, acts: seq<Action>)
    decreases |acts|
  {
    acts == [] || (NothingSpoils(s, acts[..|acts| - 1]) && !Spoils(Run(s, acts[..|acts| - 1]), acts[|acts| - 1]))
  }

  /** An interleaving is clean throughout if and only if none of its statements spoils it. */
  lemma {:induction false} CleanExactly(acts: seq<Action>)
    ensures CleanThroughout(EMPTY, acts) <==> NothingSpoils(EMPTY, acts)
    decreases |acts|
  {
    if acts != [] {
      var init := acts[..|acts| - 1];
      CleanExactly(init);
      RunsAreValid(init);
      if CleanThroughout(EMPTY, init) {
        CleanStep(Run(EMPTY, init), acts[|acts| - 1]);
      }
    }
  }

  /** How often the run exchanged token `t`. */
  ghost function Count(s: State, acts: seq<Action>, t: Token): nat
    decreases |acts|
  {
    if acts == [] then 0
    else
      var init, act := acts[..|acts| - 1], acts[|acts| - 1];
      Count(s, init, t) + if ExchangesNow(Run(s, init), act, t) then 1 else 0
  }

  lemma SpentGrows(s: State, act: Action, t: Token)
    ensures s.spent <= Next(s, act).spent
    ensures ExchangesNow(s, act, t) ==> t in Next(s, act).spent
  {
  }

  /** In an interleaving that nothing spoils, no token is exchanged twice. */
  lemma {:induction false} ExchangedOnce(acts: seq<Action>, t: Token)
    requires NothingSpoils(EMPTY, acts)
    ensures Count(EMPTY, acts, t) <= 1
    ensures Count(EMPTY, acts, t) == 1 ==> t in Run(EMPTY, acts).spent
    decreases |acts|
  {
    if acts != [] {
      var init, act := acts[..|acts| - 1], acts[|acts| - 1];
      ExchangedOnce(init, t);
      CleanExactly(init);
      SpentGrows(Run(EMPTY, init), act, t);
    }
  }

  /** `spent` holds exactly the tokens that were exchanged. */
  lemma {:induction false} SpentIsCounted(acts: seq<Action>, t: Token)
    ensures t in Run(EMPTY, acts).spent <==> Count(EMPTY, acts, t) >= 1
    decreases |acts|
  {
    if acts != [] {
      var init, act := acts[..|acts| - 1], acts[|acts| - 1];
      SpentIsCounted(init, t);
      SpentGrows(Run(EMPTY, init), act, t);
      SpentOnlyByExchange(Run(EMPTY, init), act, t);
    }
  }

  lemma SpentOnlyByExchange(s: State, act: Action, t: Token)
    ensures t in Next(s, act).spent ==> t in s.spent || ExchangesNow(s, act, t)
  {
  }

  /** Where no row holds an exchanged token, no lookup finds one. */
  lemma FreshAtLookup(s: State, act: Action)
    requires Valid(s) && act.BeginRefresh? && Next(s, act) != s
    requires forall id: nat, t: Token :: S.HasToken(s.rows, id, t) ==> t !in s.spent
    ensures act.presented !in s.spent
  {
    assert S.HasToken(s.rows, S.FindByToken(s.rows, Some(act.presented)).value, act.presented);
  }

  /** An exchange that nothing spoils leaves the old token on no row, and the new one on exactly one. */
  lemma ExchangeRotates(s: State, act: Action, t: Token)
    requires Valid(s) && Clean(s) && ExchangesNow(s, act, t) && !Spoils(s, act)
    ensures var rows, issued := Next(s, act).rows, s.calls[act.call].touch.next.value;
            && (forall id :: !S.HasToken(rows, id, t))
            && (exists id :: S.HasToken(rows, id, issued) && !rows[id].revoked && !OnAnotherRow(rows, id, issued))
  {
    CleanStep(s, act);
    SpentGrows(s, act, t);
    NextKeepsValid(s, act);
    var id := WrittenId(s, s.calls[act.call].target);
    assert S.HasToken(Next(s, act).rows, id, s.calls[act.call].touch.next.value);
  }

  // ----- What goes wrong otherwise -----

  /** Call `c` takes its next `n` statements with nothing in between. */
  ghost function Drive(s: State, c: nat, proceeds: bool, n: nat): State {
    if n == 0 then s else Next(Drive(s, c, proceeds, n - 1), Continue(c, proceeds))
  }

  lemma DriveStep(s: State, c: nat, n: nat)
    ensures Drive(s, c, true, n + 1) == ContinueStep(Drive(s, c, true, n), c, true)
  {
  }

  predicate IsNew(rows: Rows, t: Token) { forall id :: id in rows ==> rows[id].token != Some(t) }

  lemma DecidesToWrite(s: State, c: nat, touch: Touching, byToken: Option<nat>, byClient: Option<nat>)
    requires c in s.calls && s.calls[c] == Looking(touch, byToken, false) && CallOk(s.rows, s.calls[c])
    requires byClient == S.FindByClient(s.rows, touch.user, touch.client)
    requires byToken.Some? ==> s.rows[byToken.value].user == touch.user && (byClient.Some? ==> byClient == byToken)
    requires byToken.Some? ==> !s.rows[byToken.value].revoked
    ensures ContinueStep(s, c, true) == Move(s, c, Writing(touch, S.OrElse(byClient, byToken)))
  {
  }

  lemma LooksThenWrites(s: State, c: nat, touch: Touching, byToken: Option<nat>, byClient: Option<nat>)
    requires c in s.calls && s.calls[c] == Starting(touch) && TouchOk(touch)
    requires byToken == S.FindByToken(s.rows, touch.token)
               && byClient == S.FindByClient(s.rows, touch.user, touch.client)
    requires byToken.Some? ==> byToken.value in s.rows && !s.rows[byToken.value].revoked
    requires byToken.Some? ==> s.rows[byToken.value].user == touch.user && (byClient.Some? ==> byClient == byToken)
    ensures Drive(s, c, true, 1) == Move(s, c, Looking(touch, byToken, false))
    ensures Drive(s, c, true, 2) == Move(s, c, Writing(touch, S.OrElse(byClient, byToken)))
  {
    DriveStep(s, c, 0);
    DriveStep(s, c, 1);
    DecidesToWrite(Drive(s, c, true, 1), c, touch, byToken, byClient);
  }

  /** A touch that looks its rows up and writes, with no merge: what its three statements do. */
  lemma ThreeStatements(s: State, c: nat, touch: Touching, byToken: Option<nat>, byClient: Option<nat>)
    requires Valid(s) && c in s.calls && s.calls[c] == Starting(touch)
    requires byToken == S.FindByToken(s.rows, touch.token)
               && byClient == S.FindByClient(s.rows, touch.user, touch.client)
    requires byToken.Some? ==> s.rows[byToken.value].user == touch.user && (byClient.Some? ==> byClient == byToken)
    ensures var target := S.OrElse(byClient, byToken);
            var looked := Drive(s, c, true, 2);
            && looked == Move(s, c, Writing(touch, target)) && CallOk(s.rows, Writing(touch, target))
            && Drive(s, c, true, 3) == Write(looked, c, touch, target)
  {
    assert byToken.Some? ==> S.HasToken(s.rows, byToken.value, touch.token.value);
    assert byClient.Some? ==> S.HasClient(s.rows, byClient.value, touch.user, touch.client.value);
    LooksThenWrites(s, c, touch, byToken, byClient);
    DriveStep(s, c, 2);
  }

  /** A refresh that meets its token on the user's row exchanges it. */
  lemma HeldTokenIsExchanged(s: State, c: nat, touch: Touching, id: nat)
    requires Valid(s) && c in s.calls && s.calls[c] == Starting(touch) && touch.next.Some? && touch.token.Some?
    requires S.HasToken(s.rows, id, touch.token.value) && s.rows[id].user == touch.user
               && touch.client == s.rows[id].client
    requires IsNew(s.rows, touch.next.value)
    ensures ExchangesNow(Drive(s, c, true, 2), Continue(c, true), touch.token.value)
    ensures var done := Drive(s, c, true, 3);
            && done.calls == s.calls - {c} && done.nextCall == s.nextCall
            && done.rows == s.rows[id := S.Touched(s.rows[id], touch.token, touch.next, touch.client, touch.expiresAt)]
  {
    var byToken, byClient := S.FindByToken(s.rows, touch.token), S.FindByClient(s.rows, touch.user, touch.client);
    assert S.HasToken(s.rows, byToken.value, touch.token.value);
    if touch.client.Some? {
      assert S.HasClient(s.rows, id, touch.user, touch.client.value);
      assert byClient == Some(id);
    }
    ThreeStatements(s, c, touch, byToken, byClient);
    var row := S.Touched(s.rows[id], touch.token, touch.next, touch.client, touch.expiresAt);
    if row.client.Some? {
      assert S.HasClient(s.rows, id, touch.user, row.client.value);
    }
    assert Fits(s.rows, id, row);
  }

  /** A refresh whose token is gone by now exchanges it all the same. */
  lemma LateRefreshSucceeds(s: State, c: nat, touch: Touching)
    requires Valid(s) && c in s.calls && s.calls[c] == Starting(touch) && touch.next.Some? && touch.token.Some?
    requires IsNew(s.rows, touch.token.value) && IsNew(s.rows, touch.next.value)
    ensures ExchangesNow(Drive(s, c, true, 2), Continue(c, true), touch.token.value)
  {
    var byToken, byClient := S.FindByToken(s.rows, touch.token), S.FindByClient(s.rows, touch.user, touch.client);
    assert byToken.Some? ==> S.HasToken(s.rows, byToken.value, touch.token.value);
    ThreeStatements(s, c, touch, byToken, byClient);
    var looked := Drive(s, c, true, 2);
    var id, row := WrittenId(looked, byClient), WrittenRow(looked, touch, byClient);
    if byClient.Some? {
      assert S.HasClient(s.rows, id, touch.user, touch.client.value);
    }
    assert Fits(s.rows, id, row);
  }

  /** Two refreshes of one token, both begun before either goes on. */
  ghost function TwoBegun(s: State, presented: Token, first: Token, second: Token, now: int, expiresAt: int): State {
    Next(Next(s, BeginRefresh(presented, None, None, first, now, expiresAt)),
         BeginRefresh(presented, None, None, second, now, expiresAt))
  }

  /**
   In every state, whoever holds an unexpired token can exchange it twice: two refreshes that both get past
   their lookup both succeed, one after the other.
   */
  lemma OverlapExchangesTwice(s: State, presented: Token, id: nat, first: Token, second: Token, now: int,
                              expiresAt: int)
    requires Valid(s) && S.HasToken(s.rows, id, presented) && now <= s.rows[id].expiresAt
    requires first != second && IsNew(s.rows, first) && IsNew(s.rows, second)
    ensures var a, b := s.nextCall, s.nextCall + 1;
            var begun := TwoBegun(s, presented, first, second, now, expiresAt);
            var oneDone := Drive(begun, a, true, 3);
            && ExchangesNow(Drive(begun, a, true, 2), Continue(a, true), presented)
            && ExchangesNow(Drive(oneDone, b, true, 2), Continue(b, true), presented)
  {
    var a, b := s.nextCall, s.nextCall + 1;
    var begun := TwoBegun(s, presented, first, second, now, expiresAt);
    var one := Touching(s.rows[id].user, Some(presented), Some(first), s.rows[id].client, expiresAt);
    var two := one.(next := Some(second));
    BothBegin(s, presented, id, first, second, now, expiresAt);
    NextKeepsValid(s, BeginRefresh(presented, None, None, first, now, expiresAt));
    NextKeepsValid(Next(s, BeginRefresh(presented, None, None, first, now, expiresAt)),
                   BeginRefresh(presented, None, None, second, now, expiresAt));
    HeldTokenIsExchanged(begun, a, one, id);
    var oneDone := Drive(begun, a, true, 3);
    DriveKeepsValid(begun, a, true, 3);
    forall i | i in oneDone.rows
      ensures oneDone.rows[i].token != Some(presented) && oneDone.rows[i].token != Some(second)
    {
      assert i != id && s.rows[i].token == Some(presented) ==> S.HasToken(s.rows, i, presented);
    }
    LateRefreshSucceeds(oneDone, b, two);
  }

  lemma BothBegin(s: State, presented: Token, id: nat, first: Token, second: Token, now: int, expiresAt: int)
    requires Valid(s) && S.HasToken(s.rows, id, presented) && now <= s.rows[id].expiresAt
    requires IsNew(s.rows, first) && IsNew(s.rows, second)
    ensures var one := Touching(s.rows[id].user, Some(presented), Some(first), s.rows[id].client, expiresAt);
            TwoBegun(s, presented, first, second, now, expiresAt)
            == Start(Start(s, Starting(one)), Starting(one.(next := Some(second))))
  {
    assert S.FindByToken(s.rows, Some(presented)) == Some(id) by {
      assert S.HasToken(s.rows, S.FindByToken(s.rows, Some(presented)).value, presented);
    }
  }

  lemma {:induction false} DriveKeepsValid(s: State, c: nat, proceeds: bool, n: nat)
    requires Valid(s)
    ensures Valid(Drive(s, c, proceeds, n))
  {
    if n > 0 {
      DriveKeepsValid(s, c, proceeds, n - 1);
      NextKeepsValid(Drive(s, c, proceeds, n - 1), Continue(c, proceeds));
    }
  }

  /** An exchanged token that is on a row again, as after a stale heartbeat, is exchanged again by one refresh alone. */
  lemma WrittenBackIsExchangedAgain(s: State, presented: Token, id: nat, issued: Token, now: int, expiresAt: int)
    requires Valid(s) && S.HasToken(s.rows, id, presented) && presented in s.spent && now <= s.rows[id].expiresAt
    requires IsNew(s.rows, issued)
    ensures var begun := Next(s, BeginRefresh(presented, None, None, issued, now, expiresAt));
            ExchangesNow(Drive(begun, s.nextCall, true, 2), Continue(s.nextCall, true), presented)
  {
    assert S.FindByToken(s.rows, Some(presented)) == Some(id) by {
      assert S.HasToken(s.rows, S.FindByToken(s.rows, Some(presented)).value, presented);
    }
    var begun := Next(s, BeginRefresh(presented, None, None, issued, now, expiresAt));
    NextKeepsValid(s, BeginRefresh(presented, None, None, issued, now, expiresAt));
    HeldTokenIsExchanged(begun, s.nextCall,
                         Touching(s.rows[id].user, Some(presented), Some(issued), s.rows[id].client, expiresAt), id);
  }

  /** A revocation that commits between a touch's lookups and its write is undone by the write. */
  lemma LateTouchReopens(s: State, c: nat, touch: Touching, id: nat, r: nat)
    requires Valid(s) && c in s.calls && s.calls[c] == Writing(touch, Some(id)) && Succeeds(s, c)
    requires r in s.calls && s.calls[r] == Revoking(id)
    ensures var revoked := Next(s, Continue(r, true));
            var reopened := Next(revoked, Continue(c, true)).rows;
            && id in revoked.rows && revoked.rows[id].revoked && id in reopened && !reopened[id].revoked
            && reopened[id].token == S.OrElse(touch.next, touch.token)
  {
    var revoked := Next(s, Continue(r, true));
    var row := WrittenRow(revoked, touch, Some(id));
    forall j, t: Token | j != id && S.HasToken(revoked.rows, j, t)
      ensures S.HasToken(s.rows, j, t)
    {
    }
    forall j: nat, u: nat, k: nat | j != id && S.HasClient(revoked.rows, j, u, k)
      ensures S.HasClient(s.rows, j, u, k)
    {
    }
    assert Fits(revoked.rows, id, row);
  }

  // ----- Such a run -----

  function Statements(c: nat, n: nat): seq<Action> { if n == 0 then [] else Statements(c, n - 1) + [Continue(c, true)] }

  lemma RunPush(s: State, acts: seq<Action>, act: Action, t: Token)
    ensures Run(s, acts + [act]) == Next(Run(s, acts), act)
    ensures Count(s, acts + [act], t) == Count(s, acts, t) + if ExchangesNow(Run(s, acts), act, t) then 1 else 0
  {
    assert (acts + [act])[..|acts|] == acts;
  }

  lemma OneMore(acts: seq<Action>, c: nat, n: nat)
    ensures acts + Statements(c, n + 1) == (acts + Statements(c, n)) + [Continue(c, true)]
  {
  }

  lemma {:induction false} RunDrives(s: State, acts: seq<Action>, c: nat, n: nat, t: Token)
    ensures Run(s, acts + Statements(c, n)) == Drive(Run(s, acts), c, true, n)
    ensures Count(s, acts + Statements(c, n), t) >= Count(s, acts, t)
    ensures n > 0 && ExchangesNow(Drive(Run(s, acts), c, true, n - 1), Continue(c, true), t) ==>
              Count(s, acts + Statements(c, n), t) > Count(s, acts, t)
  {
    if n == 0 {
      assert acts + Statements(c, 0) == acts;
    } else {
      RunDrives(s, acts, c, n - 1, t);
      OneMore(acts, c, n - 1);
      RunPush(s, acts + Statements(c, n - 1), Continue(c, true), t);
    }
  }

  /** A login, then two overlapping refreshes of its token: exchanged twice, with no heartbeat at all. */
  lemma TwoRefreshesOfOneLogin()
    ensures var acts := [BeginTouch(7, Some(1), None, 100)] + Statements(0, 3)
                        + [BeginRefresh(1, None, None, 2, 0, 100)] + [BeginRefresh(1, None, None, 3, 0, 100)]
                        + Statements(1, 3) + Statements(2, 3);
            Count(EMPTY, acts, 1) >= 2
  {
    var login := [BeginTouch(7, Some(1), None, 100)];
    var a0 := login + Statements(0, 3);
    var a1 := a0 + [BeginRefresh(1, None, None, 2, 0, 100)];
    var a2 := a1 + [BeginRefresh(1, None, None, 3, 0, 100)];
    LoginAlone();
    var s := Run(EMPTY, a0);
    RunsAreValid(a0);
    assert S.HasToken(s.rows, 0, 1);
    OverlapExchangesTwice(s, 1, 0, 2, 3, 0, 100);
    RunPush(EMPTY, a0, BeginRefresh(1, None, None, 2, 0, 100), 1);
    RunPush(EMPTY, a1, BeginRefresh(1, None, None, 3, 0, 100), 1);
    RunDrives(EMPTY, a2, 1, 3, 1);
    RunDrives(EMPTY, a2 + Statements(1, 3), 2, 3, 1);
  }

  lemma LoginAlone()
    ensures var s := Run(EMPTY, [BeginTouch(7, Some(1), None, 100)] + Statements(0, 3));
            s.rows == map[0 := S.Session(7, Some(1), None, false, 100)] && s.nextCall == 1
  {
    var login := [BeginTouch(7, Some(1), None, 100)];
    var touch := Touching(7, Some(1), None, None, 100);
    RunPush(EMPTY, [], login[0], 1);
    assert [] + login == login;
    RunDrives(EMPTY, login, 0, 3, 1);
    NextKeepsValid(EMPTY, login[0]);
    var s := Run(EMPTY, login);
    ThreeStatements(s, 0, touch, None, None);
    assert Fits(s.rows, 0, S.Session(7, Some(1), None, false, 100));
  }

  // ----- A call alone -----

  /** The state of `Sessions` with the same table; `seen` is any set of tokens that holds the known ones. */
  function Whole(s: State, seen: set<Token>): S.State { S.State(s.rows, s.nextId, seen, s.spent) }

  lemma WholeTouchFits(w: S.State, touch: Touching, touched: S.State, id: nat, before: Rows)
    requires S.Valid(w) && (touch.next.Some? ==> touch.next.value !in w.seen)
    requires S.Touch(w, touch.user, touch.token, touch.next, touch.client, touch.expiresAt) == Some(touched)
    requires id in touched.rows && touched.rows == before[id := touched.rows[id]]
    ensures Fits(before, id, touched.rows[id])
  {
    S.TouchKeepsValid(w, touch.user, touch.token, touch.next, touch.client, touch.expiresAt);
    var row := touched.rows[id];
    forall j, t: Token | j != id && S.HasToken(before, j, t)
      ensures row.token != Some(t)
    {
      assert S.HasToken(touched.rows, j, t);
      assert row.token == Some(t) ==> S.HasToken(touched.rows, id, t);
    }
    forall j: nat, u: nat, c: nat | j != id && S.HasClient(before, j, u, c)
      ensures !(row.user == u && row.client == Some(c))
    {
      assert S.HasClient(touched.rows, j, u, c);
      assert row.user == u && row.client == Some(c) ==> S.HasClient(touched.rows, id, u, c);
    }
  }

  /** A touch whose two lookups find different rows merges them: what its four statements do. */
  lemma FourStatements(s: State, c: nat, touch: Touching, byToken: nat, byClient: nat)
    requires Valid(s) && c in s.calls && s.calls[c] == Starting(touch)
    requires Some(byToken) == S.FindByToken(s.rows, touch.token)
    requires Some(byClient) == S.FindByClient(s.rows, touch.user, touch.client)
    requires byToken != byClient && s.rows[byToken].user == touch.user && !s.rows[byClient].revoked
    ensures var merged :=
              Move(s, c, Writing(touch, Some(byClient))).(rows := s.rows[byToken := S.Revoked(s.rows[byToken])]);
            && CallOk(merged.rows, merged.calls[c])
            && Drive(s, c, true, 4) == Write(merged, c, touch, Some(byClient))
  {
    assert S.HasToken(s.rows, byToken, touch.token.value);
    assert S.HasClient(s.rows, byClient, touch.user, touch.client.value);
    DriveStep(s, c, 0);
    assert Drive(s, c, true, 1) == Move(s, c, Looking(touch, Some(byToken), s.rows[byToken].revoked));
    DriveStep(s, c, 1);
    assert Drive(s, c, true, 2) == Move(s, c, Merging(touch, byToken, byClient));
    DriveStep(s, c, 2);
    var merged := Move(s, c, Writing(touch, Some(byClient))).(rows := s.rows[byToken := S.Revoked(s.rows[byToken])]);
    assert Drive(s, c, true, 3) == merged;
    DriveStep(s, c, 3);
  }

  /** A touch that is refused ends after its lookups. */
  lemma RefusedStatements(s: State, c: nat, touch: Touching, byToken: nat, byClient: Option<nat>)
    requires Valid(s) && c in s.calls && s.calls[c] == Starting(touch)
    requires Some(byToken) == S.FindByToken(s.rows, touch.token)
    requires byClient == S.FindByClient(s.rows, touch.user, touch.client)
    requires byToken in s.rows && (byClient.Some? ==> byClient.value in s.rows)
    requires s.rows[byToken].user != touch.user || s.rows[S.OrElse(byClient, Some(byToken)).value].revoked
    ensures Drive(s, c, true, 2) == End(s, c) && Drive(s, c, true, 4) == End(s, c)
  {
    DriveStep(s, c, 0);
    assert Drive(s, c, true, 1) == Move(s, c, Looking(touch, Some(byToken), s.rows[byToken].revoked));
    DriveStep(s, c, 1);
    assert Drive(s, c, true, 2) == End(s, c);
    DriveStep(s, c, 2);
    DriveStep(s, c, 3);
  }

  lemma PlainTouchAlone(s: State, c: nat, touch: Touching, byToken: Option<nat>, byClient: Option<nat>)
    requires Valid(s) && c in s.calls && s.calls[c] == Starting(touch)
    requires byToken == S.FindByToken(s.rows, touch.token)
               && byClient == S.FindByClient(s.rows, touch.user, touch.client)
    requires byToken.Some? ==> s.rows[byToken.value].user == touch.user && (byClient.Some? ==> byClient == byToken)
    requires var target := S.OrElse(byClient, byToken);
             (target.Some? ==> target.value in s.rows)
                 && Fits(s.rows, WrittenId(s, target), WrittenRow(s, touch, target))
    ensures var target := S.OrElse(byClient, byToken);
            Drive(s, c, true, 4) == Write(s, c, touch, target)
  {
    ThreeStatements(s, c, touch, byToken, byClient);
    DriveStep(s, c, 3);
    var target := S.OrElse(byClient, byToken);
    assert Drive(s, c, true, 3) == Write(s, c, touch, target);
  }

  /** What the whole touch leaves behind, as this module's state. */
  ghost function WholeTouch(s: State, c: nat, touch: Touching, seen: set<Token>): State {
    var touched := S.Touch(Whole(s, seen), touch.user, touch.token, touch.next, touch.client, touch.expiresAt);
    if touched.None? then End(s, c)
    else
      End(s, c).(rows := touched.value.rows, nextId := touched.value.nextId,
                 spent := if Exchanges(touch).Some? then s.spent + {Exchanges(touch).value} else s.spent)
  }

  /** The statements of a touch, with nothing in between, are the touch of `Sessions` as one step. */
  lemma TouchAlone(s: State, c: nat, touch: Touching, seen: set<Token>)
    requires Valid(s) && c in s.calls && s.calls[c] == Starting(touch)
    requires S.Valid(Whole(s, seen)) && (touch.next.Some? ==> touch.next.value !in seen)
    requires touch.token.Some? || touch.client.Some?
    ensures Drive(s, c, true, 4) == WholeTouch(s, c, touch, seen)
  {
    var w := Whole(s, seen);
    var byToken, byClient := S.FindByToken(s.rows, touch.token), S.FindByClient(s.rows, touch.user, touch.client);
    var touched := S.Touch(w, touch.user, touch.token, touch.next, touch.client, touch.expiresAt);
    if touched.None? {
      RefusedStatements(s, c, touch, byToken.value, byClient);
    } else if byToken.Some? && byClient.Some? && byToken != byClient {
      FourStatements(s, c, touch, byToken.value, byClient.value);
      WholeTouchFits(w, touch, touched.value, byClient.value,
                     s.rows[byToken.value := S.Revoked(s.rows[byToken.value])]);
    } else {
      var target := S.OrElse(byClient, byToken);
      WholeTouchFits(w, touch, touched.value, WrittenId(s, target), s.rows);
      PlainTouchAlone(s, c, touch, byToken, byClient);
    }
  }

  /** So a refresh that nothing interrupts is the refresh of `Sessions`. */
  lemma RefreshAlone(s: State, presented: Token, claimant: Option<nat>, client: Option<nat>, issued: Token, now: int,
                     expiresAt: int, seen: set<Token>)
    requires Valid(s) && S.Valid(Whole(s, seen)) && issued !in seen && issued != presented
    ensures var begun := Next(s, BeginRefresh(presented, claimant, client, issued, now, expiresAt));
            var done := Drive(begun, s.nextCall, true, 4);
            Whole(done, seen)
                == S.RefreshStep(Whole(s, seen), presented, claimant, true, client, issued, now, expiresAt).0
  {
    var begun := Next(s, BeginRefresh(presented, claimant, client, issued, now, expiresAt));
    var c, found := s.nextCall, S.FindByToken(s.rows, Some(presented));
    NextKeepsValid(s, BeginRefresh(presented, claimant, client, issued, now, expiresAt));
    if found.None? {
      NothingToDrive(s, c, 4);
    } else {
      var session := s.rows[found.value];
      if session.revoked || now > session.expiresAt {
        DriveStep(begun, c, 0);
        NothingToDrive(Drive(begun, c, true, 1), c, 3);
        DriveSplit(begun, c, 1, 3);
      } else {
        var touch := Touching(S.OrElse(claimant, Some(session.user)).value, Some(presented), Some(issued),
                              S.OrElse(client, session.client), expiresAt);
        assert Whole(begun, seen) == Whole(s, seen);
        TouchAlone(begun, c, touch, seen);
      }
    }
  }

  /** And a revocation is that of `Sessions`: the check, then the write. */
  lemma RevokeAlone(s: State, user: nat, id: nat, currentToken: Option<Token>, currentClient: Option<nat>,
                    seen: set<Token>)
    requires Valid(s)
    ensures var begun := Next(s, BeginRevoke(user, id, currentToken, currentClient));
            Whole(Drive(begun, s.nextCall, true, 1), seen)
                == S.Next(Whole(s, seen), S.Revoke(user, id, currentToken, currentClient))
  {
    var begun := Next(s, BeginRevoke(user, id, currentToken, currentClient));
    DriveStep(begun, s.nextCall, 0);
  }

  /** The calls of one statement write the rows that `Sessions` says. */
  lemma SingleStatements(s: State, user: nat, token: Token, seen: set<Token>)
    ensures Next(s, Logout(token)).rows == S.Next(Whole(s, seen), S.Logout(token)).rows
    ensures Next(s, RevokeAll(user)).rows == S.Next(Whole(s, seen), S.RevokeAll(user)).rows
    ensures Next(s, RevokeOthers(user, token)).rows == S.Next(Whole(s, seen), S.RevokeOthers(user, token)).rows
  {
    assert Whole(s, seen).rows == s.rows;
  }

  lemma {:induction false} NothingToDrive(s: State, c: nat, n: nat)
    requires c !in s.calls
    ensures Drive(s, c, true, n) == s
  {
    if n > 0 {
      NothingToDrive(s, c, n - 1);
    }
  }

  lemma {:induction false} DriveSplit(s: State, c: nat, m: nat, n: nat)
    ensures Drive(s, c, true, m + n) == Drive(Drive(s, c, true, m), c, true, n)
  {
    if n > 0 {
      DriveSplit(s, c, m, n - 1);
    }
  }
}
