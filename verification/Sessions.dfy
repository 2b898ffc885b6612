/**
 Login sessions (src/modules/auth/auth.service.ts over src/modules/auth/auth.repository.ts): rows that carry
 a refresh token and a client id, merged and rotated by `touchOwnSession`. Here a call is one step, as when
 nothing interrupts it; `SessionSteps` takes the calls apart into their database statements.
 */
module Sessions {
  import opened Common

  type Token = nat

  datatype Session = Session(user: nat, token: Option<Token>, client: Option<nat>, revoked: bool, expiresAt: int)

  /**
   `seen` is every token ever generated or presented, so that generated ones can be required to be
   fresh; `spent` is every token that was exchanged for a new one.
   */
  datatype State = State(rows: map<nat, Session>, nextId: nat, seen: set<Token>, spent: set<Token>)

  const EMPTY := State(map[], 0, {}, {})

  datatype Action =
    | Login(user: nat, client: Option<nat>, issued: Token, expiresAt: int)
    | Refresh(token: Token, claimant: Option<nat>, active: bool, client: Option<nat>, issued: Token, now: int,
              expiresAt: int)
    // A heartbeat, or the touch that listing one's sessions begins with.
    | Heartbeat(user: nat, carried: Option<Token>, client: Option<nat>, expiresAt: int)
    | Revoke(user: nat, id: nat, currentToken: Option<Token>, currentClient: Option<nat>)
    | Logout(token: Token)
    | RevokeAll(user: nat)
    | RevokeOthers(user: nat, keep: Token)

  predicate HasToken(rows: map<nat, Session>, id: nat, t: Token) {
    id in rows && rows[id].token == Some(t)
  }

  predicate HasClient(rows: map<nat, Session>, id: nat, user: nat, client: nat) {
    id in rows && rows[id].user == user && rows[id].client == Some(client)
  }

  ghost function FindByToken(rows: map<nat, Session>, t: Option<Token>): (r: Option<nat>)
    ensures r.Some? ==> t.Some? && HasToken(rows, r.value, t.value)
    ensures r.None? && t.Some? ==> forall id :: !HasToken(rows, id, t.value)
  {
    if t.Some? && exists id :: HasToken(rows, id, t.value) then
      var id :| HasToken(rows, id, t.value);
      Some(id)
    else None
  }

  ghost function FindByClient(rows: map<nat, Session>, user: nat, client: Option<nat>): (r: Option<nat>)
    ensures r.Some? ==> client.Some? && HasClient(rows, r.value, user, client.value)
    ensures r.None? && client.Some? ==> forall id :: !HasClient(rows, id, user, client.value)
  {
    if client.Some? && exists id :: HasClient(rows, id, user, client.value) then
      var id :| HasClient(rows, id, user, client.value);
      Some(id)
    else None
  }

  /** `deleteSession`: the row stays, revoked and without its token. */
  function Revoked(r: Session): Session { r.(token := None, revoked := true) }

  function RevokeWhere(rows: map<nat, Session>, which: Session -> bool): map<nat, Session> {
    map id | id in rows :: if which(rows[id]) then Revoked(rows[id]) else rows[id]
  }

  function OrElse(a: Option<nat>, b: Option<nat>): Option<nat> { if a.Some? then a else b }

  /** Why `touchOwnSession` refuses: nothing to go by, someone else's token, or a revoked row. */
  predicate TouchRefused(rows: map<nat, Session>, user: nat, byToken: Option<nat>, byClient: Option<nat>)
    requires byToken.Some? ==> byToken.value in rows
    requires byClient.Some? ==> byClient.value in rows
  {
    byToken.Some? &&
    (rows[byToken.value].user != user || rows[OrElse(byClient, byToken).value].revoked)
  }

  /** The row that `touchOwnSession` writes. */
  function Touched(row: Session, token: Option<Token>, next: Option<Token>, client: Option<nat>,
                   expiresAt: int): Session {
    row.(token := OrElse(OrElse(next, token), row.token), client := OrElse(client, row.client),
         revoked := false, expiresAt := expiresAt)
  }

  /** `touchOwnSession`, given what the two lookups found. */
  function TouchRows(s: State, user: nat, token: Option<Token>, next: Option<Token>, client: Option<nat>,
                     expiresAt: int, byToken: Option<nat>, byClient: Option<nat>): State
    requires byToken.Some? ==> byToken.value in s.rows
    requires byClient.Some? ==> byClient.value in s.rows
  {
    var merged := if byToken.Some? && byClient.Some? && byToken != byClient
                  then s.rows[byToken.value := Revoked(s.rows[byToken.value])] else s.rows;
    var target := OrElse(byClient, byToken);
    if target.Some? then
      s.(rows := merged[target.value := Touched(merged[target.value], token, next, client, expiresAt)])
    else
      s.(rows := merged[s.nextId := Session(user, OrElse(next, token), client, false, expiresAt)],
         nextId := s.nextId + 1)
  }

  ghost function Touch(s: State, user: nat, token: Option<Token>, next: Option<Token>, client: Option<nat>,
                       expiresAt: int): Option<State> {
    var byToken, byClient := FindByToken(s.rows, token), FindByClient(s.rows, user, client);
    if token.None? && client.None? && next.None? then None
    else if TouchRefused(s.rows, user, byToken, byClient) then None
    else Some(TouchRows(s, user, token, next, client, expiresAt, byToken, byClient))
  }

  function See(s: State, t: Option<Token>): State {
    if t.Some? then s.(seen := s.seen + {t.value}) else s
  }

  /** `refreshToken`: what it leaves behind, and whether it handed out the fresh token. */
  ghost function RefreshStep(s: State, token: Token, claimant: Option<nat>, active: bool, client: Option<nat>,
                             issued: Token, now: int, expiresAt: int): (State, bool)
  {
    var found := FindByToken(s.rows, Some(token));
    if found.None? then (s, false)
    else
      var session := s.rows[found.value];
      if session.revoked || now > session.expiresAt then
        (s.(rows := s.rows[found.value := Revoked(session)]), false)
      else if !active then (s, false)
      else
        var user := OrElse(claimant, Some(session.user)).value;
        var touched := Touch(s, user, Some(token), Some(issued), OrElse(client, session.client), expiresAt);
        if touched.None? then (s, false) else (touched.value.(spent := s.spent + {token}), true)
  }

  ghost function Next(s: State, act: Action): State {
    match act
    case Login(user, client, issued, expiresAt) =>
      if issued in s.seen then s  // not a fresh token
      else
        var touched := Touch(s, user, Some(issued), None, client, expiresAt);
        See(if touched.Some? then touched.value else s, Some(issued))
    case Refresh(token, claimant, active, client, issued, now, expiresAt) =>
      if issued in s.seen || issued == token then s  // not a fresh token
      else See(See(RefreshStep(s, token, claimant, active, client, issued, now, expiresAt).0, Some(token)),
               Some(issued))
    case Heartbeat(user, token, client, expiresAt) =>
      var touched := Touch(s, user, token, None, client, expiresAt);
      See(if touched.Some? then touched.value else s, token)
    case Revoke(user, id, currentToken, currentClient) =>
      if id !in s.rows || s.rows[id].user != user || s.rows[id].revoked then s
      else if (currentToken.Some? && s.rows[id].token == currentToken)
           || (currentClient.Some? && s.rows[id].client == currentClient) then s
      else s.(rows := s.rows[id := Revoked(s.rows[id])])
    case Logout(token) => See(s.(rows := RevokeWhere(s.rows, (r: Session) => r.token == Some(token))), Some(token))
    case RevokeAll(user) => s.(rows := RevokeWhere(s.rows, (r: Session) => r.user == user && !r.revoked))
    case RevokeOthers(user, keep) =>
      See(s.(rows := RevokeWhere(s.rows, (r: Session) => r.user == user && !r.revoked && r.token != Some(keep))),
          Some(keep))
  }

  ghost predicate RefreshSucceeds(s: State, act: Action) {
    act.Refresh? && act.issued !in s.seen && act.issued != act.token
    && RefreshStep(s, act.token, act.claimant, act.active, act.client, act.issued, act.now, act.expiresAt).1
  }

  // ----- The store's invariant -----

  /** The two unique constraints of the table, and that a revoked row has no token. */
  ghost predicate Valid(s: State) {
    && (forall id :: id in s.rows ==> id < s.nextId)
    && (forall i: nat, j: nat, t: Token :: HasToken(s.rows, i, t) && HasToken(s.rows, j, t) ==> i == j)
    && (forall i, j, u, c :: HasClient(s.rows, i, u, c) && HasClient(s.rows, j, u, c) ==> i == j)
    && (forall id :: id in s.rows && s.rows[id].revoked ==> s.rows[id].token == None)
    && (forall id: nat, t: Token :: HasToken(s.rows, id, t) ==> t in s.seen)
    && s.spent <= s.seen
  }

  /** The row a touch writes, and how every other row came out of it. */
  lemma TouchOthers(s: State, user: nat, token: Option<Token>, next: Option<Token>, client: Option<nat>, expiresAt: int,
                    s': State)
      returns (id: nat)
    requires Valid(s) && Touch(s, user, token, next, client, expiresAt) == Some(s')
    ensures id in s'.rows
              && id == OrElse(OrElse(FindByClient(s.rows, user, client), FindByToken(s.rows, token)),
                              Some(s.nextId)).value
    ensures forall i :: i in s'.rows && i != id ==> i in s.rows
    ensures forall i: nat, t: Token :: i != id && HasToken(s'.rows, i, t) ==> HasToken(s.rows, i, t) && token != Some(t)
    ensures forall i, u, c :: i != id && HasClient(s'.rows, i, u, c) ==> HasClient(s.rows, i, u, c)
    ensures forall i :: i in s'.rows && i != id && s'.rows[i].revoked ==> s'.rows[i].token == None
    ensures s'.rows[id].user == user && !s'.rows[id].revoked
    ensures s'.rows[id].token == OrElse(OrElse(next, token), if id in s.rows then s.rows[id].token else None)
    ensures s'.rows[id].client == OrElse(client, if id in s.rows then s.rows[id].client else None)
    ensures s'.nextId == (if id in s.rows then s.nextId else s.nextId + 1) && s'.seen == s.seen && s'.spent == s.spent
    ensures id in s.rows || id == s.nextId
  {
    var byToken, byClient := FindByToken(s.rows, token), FindByClient(s.rows, user, client);
    id := OrElse(OrElse(byClient, byToken), Some(s.nextId)).value;
    assert byClient.Some? ==> HasClient(s.rows, byClient.value, user, client.value);
    forall i: nat, t: Token | i != id && HasToken(s'.rows, i, t)
      ensures HasToken(s.rows, i, t) && token != Some(t)
    {
      assert HasToken(s.rows, i, t);
      if token == Some(t) {
        assert false;
      }
    }
  }

  lemma TouchKeepsValid(s: State, user: nat, token: Option<Token>, next: Option<Token>, client: Option<nat>,
                        expiresAt: int)
    requires Valid(s)
    requires next.Some? ==> next.value !in s.seen
    ensures var r := Touch(s, user, token, next, client, expiresAt);
            r.Some? ==> Valid(See(See(r.value, token), next))
  {
    var r := Touch(s, user, token, next, client, expiresAt);
    if r.Some? {
      var s' := r.value;
      var id := TouchOthers(s, user, token, next, client, expiresAt, s');
      forall i: nat, t: Token | i != id && HasToken(s'.rows, i, t)
        ensures !HasToken(s'.rows, id, t)
      {
        assert HasToken(s.rows, i, t);
        assert id in s.rows && s.rows[id].token == Some(t) ==> HasToken(s.rows, id, t);
      }
      forall i, u, c | i != id && HasClient(s'.rows, i, u, c)
        ensures !HasClient(s'.rows, id, u, c)
      {
        assert HasClient(s.rows, i, u, c);
        if HasClient(s'.rows, id, u, c) {
          OtherClient(s, user, token, client, i, id, c);
          assert false;
        }
      }
    }
  }

  /** The client id a touch writes is on no other row of the user. */
  lemma OtherClient(s: State, user: nat, token: Option<Token>, client: Option<nat>, i: nat, id: nat, c: nat)
    requires Valid(s) && i != id && HasClient(s.rows, i, user, c)
    requires id == OrElse(OrElse(FindByClient(s.rows, user, client), FindByToken(s.rows, token)), Some(s.nextId)).value
    requires !TouchRefused(s.rows, user, FindByToken(s.rows, token), FindByClient(s.rows, user, client))
    ensures OrElse(client, if id in s.rows then s.rows[id].client else None) != Some(c)
  {
    if client != Some(c) && id in s.rows && s.rows[id].client == Some(c) {
      assert s.rows[id].user == user;
      assert HasClient(s.rows, id, user, c);
    }
  }

  lemma RevokeWhereKeepsValid(s: State, which: Session -> bool)
    requires Valid(s)
    ensures Valid(s.(rows := RevokeWhere(s.rows, which)))
  {
    var rows := RevokeWhere(s.rows, which);
    assert forall id: nat, t: Token :: HasToken(rows, id, t) ==> HasToken(s.rows, id, t);
    assert forall id, u, c :: HasClient(rows, id, u, c) ==> HasClient(s.rows, id, u, c);
  }

  /** Every operation keeps the store valid; run alone, none ever runs into a unique constraint. */
  lemma NextKeepsValid(s: State, act: Action)
    requires Valid(s)
    ensures Valid(Next(s, act))
  {
    match act
    case Login(user, client, issued, expiresAt) =>
      if issued !in s.seen {
        TouchKeepsValid(s, user, Some(issued), None, client, expiresAt);
      }
    case Refresh(_, _, _, _, _, _, _) => RefreshKeepsValid(s, act);
    case Heartbeat(user, token, client, expiresAt) => TouchKeepsValid(s, user, token, None, client, expiresAt);
    case Revoke(user, id, _, _) => RevokeKeepsValid(s, act);
    case Logout(token) => RevokeWhereKeepsValid(s, (r: Session) => r.token == Some(token));
    case RevokeAll(user) => RevokeWhereKeepsValid(s, (r: Session) => r.user == user && !r.revoked);
    case RevokeOthers(user, keep) =>
      RevokeWhereKeepsValid(s, (r: Session) => r.user == user && !r.revoked && r.token != Some(keep));
  }

  lemma RevokeKeepsValid(s: State, act: Action)
    requires Valid(s) && act.Revoke?
    ensures Valid(Next(s, act))
  {
    var s' := Next(s, act);
    assert forall id: nat, t: Token :: HasToken(s'.rows, id, t) ==> HasToken(s.rows, id, t);
    assert forall id, u, c :: HasClient(s'.rows, id, u, c) ==> HasClient(s.rows, id, u, c);
  }

  lemma RefreshKeepsValid(s: State, act: Action)
    requires Valid(s) && act.Refresh?
    ensures Valid(Next(s, act))
  {
    var s' := Next(s, act);
    var found := FindByToken(s.rows, Some(act.token));
    if act.issued !in s.seen && act.issued != act.token && found.Some? {
      var session := s.rows[found.value];
      assert HasToken(s.rows, found.value, act.token);
      if session.revoked || act.now > session.expiresAt {
        assert forall id: nat, t: Token :: HasToken(s'.rows, id, t) ==> HasToken(s.rows, id, t);
        assert forall id, u, c :: HasClient(s'.rows, id, u, c) ==> HasClient(s.rows, id, u, c);
      } else if act.active {
        var user := OrElse(act.claimant, Some(session.user)).value;
        TouchKeepsValid(s, user, Some(act.token), Some(act.issued), OrElse(act.client, session.client), act.expiresAt);
      }
    }
  }

  // ----- What a touch and a refresh do to the rows -----

  /** A revoked row of the user with the client id, when one is given. */
  ghost predicate HasRevokedClient(rows: map<nat, Session>, j: nat, user: nat, client: Option<nat>) {
    client.Some? && HasClient(rows, j, user, client.value) && rows[j].revoked
  }

  ghost predicate NoRevokedClient(rows: map<nat, Session>, user: nat, client: Option<nat>) {
    forall j: nat :: !HasRevokedClient(rows, j, user, client)
  }

  /** The token is on a row of someone else, or a revoked row of the user has the client id. */
  ghost predicate Blocked(rows: map<nat, Session>, user: nat, token: Token, client: Option<nat>) {
    exists i :: HasToken(rows, i, token) && (rows[i].user != user || !NoRevokedClient(rows, user, client))
  }

  /** Which row a touch writes: the one with the client id, else the one with the token, else a new one. */
  ghost predicate Chosen(rows: map<nat, Session>, user: nat, token: Option<Token>, client: Option<nat>, id: nat) {
    if client.Some? && exists j :: HasClient(rows, j, user, client.value) then HasClient(rows, id, user, client.value)
    else if token.Some? && exists i :: HasToken(rows, i, token.value) then HasToken(rows, id, token.value)
    else id !in rows
  }

  /**
   The rows after a touch: the chosen row belongs to the user, is open until `expiresAt` and holds the newest
   token; another row that held the token is revoked; every other row is as it was.
   */
  ghost predicate IsTouched(before: map<nat, Session>, after: map<nat, Session>, user: nat, token: Option<Token>,
                            next: Option<Token>, client: Option<nat>, expiresAt: int, id: nat)
  {
    && Chosen(before, user, token, client, id)
    && after.Keys == before.Keys + {id}
    && after[id].user == user && !after[id].revoked && after[id].expiresAt == expiresAt
    && (next.Some? ==> after[id].token == next)
    && (next.None? && token.Some? ==> after[id].token == token)
    && (next.None? && token.None? && id in before ==> after[id].token == before[id].token)
    && (client.Some? ==> after[id].client == client)
    && (client.None? && id in before ==> after[id].client == before[id].client)
    && forall i :: i in before && i != id ==>
         if token.Some? && before[i].token == token
         then after[i] == Session(before[i].user, None, before[i].client, true, before[i].expiresAt)
         else after[i] == before[i]
  }

  lemma RefusedExactly(s: State, user: nat, token: Option<Token>, client: Option<nat>)
    requires Valid(s)
    ensures TouchRefused(s.rows, user, FindByToken(s.rows, token), FindByClient(s.rows, user, client))
            <==> token.Some? && Blocked(s.rows, user, token.value, client)
  {
    var byToken, byClient := FindByToken(s.rows, token), FindByClient(s.rows, user, client);
    if byToken.Some? {
      var i := byToken.value;
      assert HasToken(s.rows, i, token.value) && !s.rows[i].revoked;
      assert forall j :: HasToken(s.rows, j, token.value) ==> j == i;
      if byClient.Some? && s.rows[byClient.value].revoked {
        assert HasRevokedClient(s.rows, byClient.value, user, client);
      }
      if !NoRevokedClient(s.rows, user, client) {
        var j: nat :| HasRevokedClient(s.rows, j, user, client);
        assert HasClient(s.rows, j, user, client.value) && byClient == Some(j);
      }
    }
  }

  lemma TouchExactly(s: State, user: nat, token: Option<Token>, next: Option<Token>, client: Option<nat>,
                     expiresAt: int)
    requires Valid(s)
    ensures var r := Touch(s, user, token, next, client, expiresAt);
            && (r.None? <==> (token.None? && client.None? && next.None?)
                             || (token.Some? && Blocked(s.rows, user, token.value, client)))
            && (r.Some? ==> exists id :: IsTouched(s.rows, r.value.rows, user, token, next, client, expiresAt, id))
  {
    var byToken, byClient := FindByToken(s.rows, token), FindByClient(s.rows, user, client);
    var r := Touch(s, user, token, next, client, expiresAt);
    RefusedExactly(s, user, token, client);
    if r.Some? {
      var id := OrElse(OrElse(byClient, byToken), Some(s.nextId)).value;
      ChosenByLookups(s, user, token, client, id);
      TouchedRow(s, user, token, next, client, expiresAt, id, r.value.rows);
      OtherRows(s, user, token, next, client, expiresAt, id, r.value.rows);
      assert IsTouched(s.rows, r.value.rows, user, token, next, client, expiresAt, id);
    }
  }

  lemma ChosenByLookups(s: State, user: nat, token: Option<Token>, client: Option<nat>, id: nat)
    requires Valid(s)
    requires id == OrElse(OrElse(FindByClient(s.rows, user, client), FindByToken(s.rows, token)), Some(s.nextId)).value
    ensures Chosen(s.rows, user, token, client, id)
  {
  }

  lemma TouchedRow(s: State, user: nat, token: Option<Token>, next: Option<Token>, client: Option<nat>,
                   expiresAt: int, id: nat, after: map<nat, Session>)
    requires Valid(s) && Touch(s, user, token, next, client, expiresAt).Some?
    requires after == Touch(s, user, token, next, client, expiresAt).value.rows
    requires id == OrElse(OrElse(FindByClient(s.rows, user, client), FindByToken(s.rows, token)), Some(s.nextId)).value
    ensures after.Keys == s.rows.Keys + {id}
    ensures after[id] == Session(user, OrElse(OrElse(next, token), if id in s.rows then s.rows[id].token else None),
                                 OrElse(client, if id in s.rows then s.rows[id].client else None), false, expiresAt)
  {
  }

  lemma OtherRows(s: State, user: nat, token: Option<Token>, next: Option<Token>, client: Option<nat>,
                  expiresAt: int, id: nat, after: map<nat, Session>)
    requires Valid(s) && Touch(s, user, token, next, client, expiresAt).Some?
    requires after == Touch(s, user, token, next, client, expiresAt).value.rows
    requires id == OrElse(OrElse(FindByClient(s.rows, user, client), FindByToken(s.rows, token)), Some(s.nextId)).value
    ensures forall i :: i in s.rows && i != id ==>
              i in after
              && if token.Some? && s.rows[i].token == token
                 then after[i] == Session(s.rows[i].user, None, s.rows[i].client, true, s.rows[i].expiresAt)
                 else after[i] == s.rows[i]
  {
    var byToken := FindByToken(s.rows, token);
    forall i | i in s.rows && i != id && token.Some? && s.rows[i].token == token
      ensures byToken == Some(i)
    {
      assert HasToken(s.rows, i, token.value);
      assert HasToken(s.rows, byToken.value, token.value);
    }
  }

  /**
   A refresh succeeds exactly when its token is on a row that has not expired, the user is active, the decoded
   token (if it is decoded) names the row's user, and no revoked row of theirs has the client id.
   */
  ghost predicate Exchangeable(rows: map<nat, Session>, token: Token, claimant: Option<nat>, active: bool,
                               client: Option<nat>, now: int, id: nat)
  {
    && HasToken(rows, id, token) && now <= rows[id].expiresAt && active
    && (claimant.Some? ==> claimant.value == rows[id].user)
    && NoRevokedClient(rows, rows[id].user, if client.Some? then client else rows[id].client)
  }

  /** The rows after a refresh that was refused: a row with its token that has expired is revoked. */
  ghost predicate IsExpired(before: map<nat, Session>, after: map<nat, Session>, token: Token, now: int) {
    after.Keys == before.Keys
    && forall i :: i in before ==>
         if before[i].token == Some(token) && now > before[i].expiresAt
         then after[i] == Session(before[i].user, None, before[i].client, true, before[i].expiresAt)
         else after[i] == before[i]
  }

  /** The rows after a refresh that succeeded: its touch was for the user of the row with the token. */
  ghost predicate IsRefreshed(before: map<nat, Session>, after: map<nat, Session>, token: Token, issued: Token,
                              client: Option<nat>, expiresAt: int, i: nat, id: nat)
  {
    HasToken(before, i, token)
    && IsTouched(before, after, before[i].user, Some(token), Some(issued),
                 if client.Some? then client else before[i].client, expiresAt, id)
  }

  lemma RefreshExactly(s: State, act: Action)
    requires Valid(s) && act.Refresh? && act.issued !in s.seen && act.issued != act.token
    ensures RefreshSucceeds(s, act)
            <==> exists id :: Exchangeable(s.rows, act.token, act.claimant, act.active, act.client, act.now, id)
    ensures !RefreshSucceeds(s, act) ==> IsExpired(s.rows, Next(s, act).rows, act.token, act.now)
    ensures RefreshSucceeds(s, act) ==> exists i, id ::
              IsRefreshed(s.rows, Next(s, act).rows, act.token, act.issued, act.client, act.expiresAt, i, id)
  {
    var found := FindByToken(s.rows, Some(act.token));
    RefusedRefresh(s, act);
    if found.Some? {
      var i := found.value;
      assert HasToken(s.rows, i, act.token) && !s.rows[i].revoked;
      assert forall j :: HasToken(s.rows, j, act.token) ==> j == i;
      var session := s.rows[i];
      var user, client := OrElse(act.claimant, Some(session.user)).value, OrElse(act.client, session.client);
      RefusedExactly(s, user, Some(act.token), client);
      if RefreshSucceeds(s, act) {
        assert user == session.user;
        RefreshTouches(s, act, i);
        assert Exchangeable(s.rows, act.token, act.claimant, act.active, act.client, act.now, i);
      }
    }
  }

  lemma RefusedRefresh(s: State, act: Action)
    requires Valid(s) && act.Refresh? && act.issued !in s.seen && act.issued != act.token
    ensures !RefreshSucceeds(s, act) ==> IsExpired(s.rows, Next(s, act).rows, act.token, act.now)
  {
    var found := FindByToken(s.rows, Some(act.token));
    if found.Some? {
      assert HasToken(s.rows, found.value, act.token) && !s.rows[found.value].revoked;
      assert forall j :: HasToken(s.rows, j, act.token) ==> j == found.value;
    }
    assert forall j :: j in s.rows && s.rows[j].token == Some(act.token) ==> HasToken(s.rows, j, act.token);
  }

  lemma RefreshTouches(s: State, act: Action, i: nat)
    requires Valid(s) && RefreshSucceeds(s, act) && FindByToken(s.rows, Some(act.token)) == Some(i)
    requires OrElse(act.claimant, Some(s.rows[i].user)).value == s.rows[i].user
    ensures exists id ::
              IsRefreshed(s.rows, Next(s, act).rows, act.token, act.issued, act.client, act.expiresAt, i, id)
  {
    var user, client, after := s.rows[i].user, OrElse(act.client, s.rows[i].client), Next(s, act).rows;
    TouchExactly(s, user, Some(act.token), Some(act.issued), client, act.expiresAt);
    var id :| IsTouched(s.rows, after, user, Some(act.token), Some(act.issued), client, act.expiresAt, id);
    assert IsRefreshed(s.rows, after, act.token, act.issued, act.client, act.expiresAt, i, id);
  }

  /** The other ways to end sessions, row by row; whatever they revoke loses its token. */
  lemma RevocationsExactly(s: State, act: Action)
    requires act.Revoke? || act.Logout? || act.RevokeAll? || act.RevokeOthers?
    ensures var after := Next(s, act).rows;
            && after.Keys == s.rows.Keys
            && forall i :: i in s.rows ==>
                 var r := s.rows[i];
                 after[i] == if match act
                                case Revoke(user, id, token, client) =>
                                  i == id && r.user == user && !r.revoked
                                  && (token.Some? ==> r.token != token) && (client.Some? ==> r.client != client)
                                case Logout(token) => r.token == Some(token)
                                case RevokeAll(user) => r.user == user && !r.revoked
                                case RevokeOthers(user, keep) => r.user == user && !r.revoked && r.token != Some(keep)
                             then Session(r.user, None, r.client, true, r.expiresAt) else r
  {
  }

  /** What a login hands out can be exchanged until it expires, for as long as nothing else happens. */
  lemma LoginThenRefresh(s: State, login: Action, refresh: Action)
    requires Valid(s) && login.Login? && login.issued !in s.seen
    requires refresh.Refresh? && refresh.token == login.issued && refresh.issued !in Next(s, login).seen
    requires refresh.claimant.None? || refresh.claimant == Some(login.user)
    requires refresh.client.None? || refresh.client == login.client
    ensures RefreshSucceeds(Next(s, login), refresh) <==> refresh.active && refresh.now <= login.expiresAt
  {
    var s1 := Next(s, login);
    NextKeepsValid(s, login);
    var id := LoginOpens(s, login);
    RefreshExactly(s1, refresh);
    assert forall i :: HasToken(s1.rows, i, refresh.token) ==> i == id;
    if refresh.active && refresh.now <= login.expiresAt {
      OnlyOpenClient(s1, id, login.user, if refresh.client.Some? then refresh.client else s1.rows[id].client);
      assert Exchangeable(s1.rows, refresh.token, refresh.claimant, refresh.active, refresh.client, refresh.now, id);
    }
  }

  lemma LoginOpens(s: State, login: Action) returns (id: nat)
    requires Valid(s) && login.Login? && login.issued !in s.seen
    ensures var rows := Next(s, login).rows;
            && HasToken(rows, id, login.issued) && rows[id].user == login.user && !rows[id].revoked
            && rows[id].expiresAt == login.expiresAt && (login.client.Some? ==> rows[id].client == login.client)
  {
    TouchExactly(s, login.user, Some(login.issued), None, login.client, login.expiresAt);
    assert forall i :: !HasToken(s.rows, i, login.issued);
    id :| IsTouched(s.rows, Next(s, login).rows, login.user, Some(login.issued), None, login.client, login.expiresAt,
                    id);
  }

  /** No revoked row has the client id of an open row of the user. */
  lemma OnlyOpenClient(s: State, id: nat, user: nat, client: Option<nat>)
    requires Valid(s) && id in s.rows && s.rows[id].user == user && !s.rows[id].revoked
    requires client.Some? ==> client == s.rows[id].client
    ensures NoRevokedClient(s.rows, user, client)
  {
    assert client.Some? ==> HasClient(s.rows, id, user, client.value);
  }

  // ----- Rotation -----

  /** After a successful refresh the old token is on no row, and the new one on exactly one, of the user's. */
  lemma RefreshRotates(s: State, act: Action)
    requires Valid(s) && RefreshSucceeds(s, act)
    ensures var rows := Next(s, act).rows;
            && (forall id :: !HasToken(rows, id, act.token))
            && (exists id :: HasToken(rows, id, act.issued) && !rows[id].revoked
                  && forall j :: HasToken(rows, j, act.issued) ==> j == id)
    ensures exists id :: HasToken(s.rows, id, act.token) && act.now <= s.rows[id].expiresAt
  {
    var found := FindByToken(s.rows, Some(act.token));
    var session := s.rows[found.value];
    assert HasToken(s.rows, found.value, act.token);
    var user := OrElse(act.claimant, Some(session.user)).value;
    var client := OrElse(act.client, session.client);
    var touched := Touch(s, user, Some(act.token), Some(act.issued), client, act.expiresAt);
    var id := TouchOthers(s, user, Some(act.token), Some(act.issued), client, act.expiresAt, touched.value);
    var rows := Next(s, act).rows;
    assert rows == touched.value.rows;
    assert HasToken(rows, id, act.issued);
    NextKeepsValid(s, act);
  }

  // ----- Revoked sessions -----

  /** A login, or a heartbeat whose token is on no row, that names the session's client id. */
  ghost predicate Reopens(s: State, act: Action, id: nat) {
    match act
    case Login(user, client, issued, _) =>
      issued !in s.seen && client.Some? && HasClient(s.rows, id, user, client.value)
    case Heartbeat(user, carried, client, _) =>
      client.Some? && HasClient(s.rows, id, user, client.value) && FindByToken(s.rows, carried).None?
    case _ => false
  }

  lemma TouchReopens(s: State, user: nat, token: Option<Token>, next: Option<Token>, client: Option<nat>,
                     expiresAt: int, id: nat, s': State)
    requires Valid(s) && id in s.rows && s.rows[id].revoked
    requires Touch(s, user, token, next, client, expiresAt) == Some(s')
    ensures id in s'.rows
    ensures !s'.rows[id].revoked
            <==> client.Some? && HasClient(s.rows, id, user, client.value) && FindByToken(s.rows, token).None?
  {
    var written := TouchOthers(s, user, token, next, client, expiresAt, s');
    var byToken, byClient := FindByToken(s.rows, token), FindByClient(s.rows, user, client);
    if byToken.Some? {
      assert HasToken(s.rows, byToken.value, token.value);
    }
    assert client.Some? && HasClient(s.rows, id, user, client.value) ==> byClient == Some(id);
  }

  /** A revoked session stays revoked on every step but a login or a tokenless heartbeat of its own client id. */
  lemma RevokedStaysRevoked(s: State, act: Action, id: nat)
    requires Valid(s) && id in s.rows && s.rows[id].revoked
    ensures id in Next(s, act).rows
    ensures Next(s, act).rows[id].revoked <==> !Reopens(s, act, id)
  {
    match act
    case Login(user, client, issued, expiresAt) =>
      var touched := Touch(s, user, Some(issued), None, client, expiresAt);
      if issued !in s.seen && touched.Some? {
        TouchReopens(s, user, Some(issued), None, client, expiresAt, id, touched.value);
        assert FindByToken(s.rows, Some(issued)).None?;
      }
    case Heartbeat(user, carried, client, expiresAt) =>
      var touched := Touch(s, user, carried, None, client, expiresAt);
      if touched.Some? {
        TouchReopens(s, user, carried, None, client, expiresAt, id, touched.value);
      }
    case Refresh(token, claimant, active, client, issued, now, expiresAt) =>
      var found := FindByToken(s.rows, Some(token));
      if RefreshSucceeds(s, act) {
        var session := s.rows[found.value];
        var user := OrElse(claimant, Some(session.user)).value;
        TouchReopens(s, user, Some(token), Some(issued), OrElse(client, session.client), expiresAt, id,
                     Touch(s, user, Some(token), Some(issued), OrElse(client, session.client), expiresAt).value);
      }
    case _ =>
  }

  // ----- A token is exchanged at most once -----

  ghost predicate SpentGone(s: State) {
    forall id: nat, t: Token :: HasToken(s.rows, id, t) ==> t !in s.spent
  }

  /** A heartbeat (or a listing) carries no token, or one that was not exchanged. */
  ghost predicate Honest(s: State, act: Action) {
    act.Heartbeat? && act.carried.Some? ==> act.carried.value !in s.spent
  }

  lemma HeldTokensAreHonest(s: State, act: Action, id: nat)
    requires SpentGone(s) && act.Heartbeat?
    requires act.carried.Some? ==> HasToken(s.rows, id, act.carried.value)
    ensures Honest(s, act)
  {
  }

  lemma TouchSpent(s: State, user: nat, token: Option<Token>, next: Option<Token>, client: Option<nat>, expiresAt: int,
                   s': State)
    requires Valid(s) && SpentGone(s) && Touch(s, user, token, next, client, expiresAt) == Some(s')
    ensures SpentGone(s') <==>
              (next.None? && token.Some? ==> token.value !in s.spent) && (next.Some? ==> next.value !in s.spent)
  {
    var id := TouchOthers(s, user, token, next, client, expiresAt, s');
    forall t: Token
      ensures HasToken(s'.rows, id, t) <==> s'.rows[id].token == Some(t)
    {
    }
    assert id in s.rows && s.rows[id].token.Some? ==> HasToken(s.rows, id, s.rows[id].token.value);
    if next.Some? {
      assert HasToken(s'.rows, id, next.value);
    } else if token.Some? {
      assert HasToken(s'.rows, id, token.value);
    }
  }

  /** A step keeps exchanged tokens off every row if and only if it is honest. */
  lemma SpentStep(s: State, act: Action)
    requires Valid(s) && SpentGone(s)
    ensures SpentGone(Next(s, act)) <==> Honest(s, act)
  {
    match act
    case Login(user, client, issued, expiresAt) =>
      var touched := Touch(s, user, Some(issued), None, client, expiresAt);
      if issued !in s.seen && touched.Some? {
        TouchSpent(s, user, Some(issued), None, client, expiresAt, touched.value);
      }
    case Heartbeat(user, carried, client, expiresAt) =>
      var touched := Touch(s, user, carried, None, client, expiresAt);
      if touched.Some? {
        TouchSpent(s, user, carried, None, client, expiresAt, touched.value);
      } else if carried.Some? {
        assert FindByToken(s.rows, carried).Some?;
      }
    case Refresh(_, _, _, _, _, _, _) => RefreshSpent(s, act);
    case _ =>
      assert forall id: nat, t: Token :: HasToken(Next(s, act).rows, id, t) ==> HasToken(s.rows, id, t);
  }

  lemma RefreshSpent(s: State, act: Action)
    requires Valid(s) && SpentGone(s) && act.Refresh?
    ensures SpentGone(Next(s, act))
  {
    var s' := Next(s, act);
    if RefreshSucceeds(s, act) {
      var session := s.rows[FindByToken(s.rows, Some(act.token)).value];
      var user := OrElse(act.claimant, Some(session.user)).value;
      var client := OrElse(act.client, session.client);
      TouchSpent(s, user, Some(act.token), Some(act.issued), client, act.expiresAt,
                 Touch(s, user, Some(act.token), Some(act.issued), client, act.expiresAt).value);
      RefreshRotates(s, act);
    } else {
      assert forall id: nat, t: Token :: HasToken(s'.rows, id, t) ==> HasToken(s.rows, id, t);
    }
  }

  // ----- Runs -----

  ghost function Run(s: State, acts: seq<Action>): State
    decreases |acts|
  {
    if acts == [] then s else Next(Run(s, acts[..|acts| - 1]), acts[|acts| - 1])
  }

  /** How often the run exchanged token `t`. */
  ghost function Exchanges(s: State, acts: seq<Action>, t: Token): nat
    decreases |acts|
  {
    if acts == [] then 0
    else
      var init, act := acts[..|acts| - 1], acts[|acts| - 1];
      Exchanges(s, init, t) + if RefreshSucceeds(Run(s, init), act) && act.token == t then 1 else 0
  }

  ghost predicate HonestRun(s: State, acts: seq<Action>)
    decreases |acts|
  {
    acts == [] || (HonestRun(s, acts[..|acts| - 1]) && Honest(Run(s, acts[..|acts| - 1]), acts[|acts| - 1]))
  }

  /** Every run keeps tokens distinct, client ids distinct per user, and revoked rows without a token. */
  lemma {:induction false} RunsAreValid(acts: seq<Action>)
    ensures Valid(Run(EMPTY, acts))
    decreases |acts|
  {
    if acts != [] {
      RunsAreValid(acts[..|acts| - 1]);
      NextKeepsValid(Run(EMPTY, acts[..|acts| - 1]), acts[|acts| - 1]);
    }
  }

  lemma NeverForgotten(s: State, act: Action)
    ensures s.spent <= Next(s, act).spent
    ensures RefreshSucceeds(s, act) ==> act.token in Next(s, act).spent
  {
  }

  /** At the end of the run and at every point before it. */
  ghost predicate SpentGoneThroughout(s: State, acts: seq<Action>)
    decreases |acts|
  {
    SpentGone(Run(s, acts)) && (acts != [] ==> SpentGoneThroughout(s, acts[..|acts| - 1]))
  }

  /** Exchanged tokens stay off every row throughout a run if and only if each of its steps is honest. */
  lemma {:induction false} HonestExactly(acts: seq<Action>)
    ensures SpentGoneThroughout(EMPTY, acts) <==> HonestRun(EMPTY, acts)
    decreases |acts|
  {
    if acts != [] {
      var init := acts[..|acts| - 1];
      HonestExactly(init);
      RunsAreValid(init);
      if SpentGoneThroughout(EMPTY, init) {
        SpentStep(Run(EMPTY, init), acts[|acts| - 1]);
      }
    }
  }

  /** On an honest run of calls that nothing interrupts, no token is ever exchanged twice. */
  lemma {:induction false} ExchangedOnce(acts: seq<Action>, t: Token)
    requires HonestRun(EMPTY, acts)
    ensures SpentGone(Run(EMPTY, acts))
    ensures Exchanges(EMPTY, acts, t) <= 1
    ensures Exchanges(EMPTY, acts, t) == 1 ==> t in Run(EMPTY, acts).spent
    decreases |acts|
  {
    if acts != [] {
      var init, act := acts[..|acts| - 1], acts[|acts| - 1];
      ExchangedOnce(init, t);
      RunsAreValid(init);
      var s := Run(EMPTY, init);
      SpentStep(s, act);
      NeverForgotten(s, act);
      if RefreshSucceeds(s, act) && act.token == t {
        RefreshRotates(s, act);
      }
    }
  }

  lemma LookupsOf(rows: map<nat, Session>, id: nat, t: Token)
    requires forall i :: i in rows && rows[i].token == Some(t) ==> i == id
    ensures FindByToken(rows, Some(t)) == if HasToken(rows, id, t) then Some(id) else None
    ensures FindByClient(rows, 7, None) == None
  {
  }

  /** Without that, one can be: a heartbeat that still carries the old token brings it back. */
  lemma StaleHeartbeatRevives()
    ensures var acts := [Login(7, None, 1, 100), Refresh(1, None, true, None, 2, 0, 100),
                         Heartbeat(7, Some(1), None, 100), Refresh(1, None, true, None, 3, 0, 100)];
            Exchanges(EMPTY, acts, 1) == 2
  {
    var a0, a1 := Login(7, None, 1, 100), Refresh(1, None, true, None, 2, 0, 100);
    var a2, a3 := Heartbeat(7, Some(1), None, 100), Refresh(1, None, true, None, 3, 0, 100);
    var s1 := State(map[0 := Session(7, Some(1), None, false, 100)], 1, {1}, {});
    var s2 := State(map[0 := Session(7, Some(2), None, false, 100)], 1, {1, 2}, {1});
    var s3 := State(map[0 := Session(7, Some(2), None, false, 100), 1 := Session(7, Some(1), None, false, 100)], 2,
                    {1, 2}, {1});
    LookupsOf(EMPTY.rows, 0, 1);
    assert Next(EMPTY, a0).rows == s1.rows;
    assert Next(EMPTY, a0) == s1;
    LookupsOf(s1.rows, 0, 1);
    assert Next(s1, a1).rows == s2.rows;
    assert Next(s1, a1) == s2;
    LookupsOf(s2.rows, 1, 1);
    assert Next(s2, a2).rows == s3.rows;
    assert Next(s2, a2) == s3;
    LookupsOf(s3.rows, 1, 1);
    assert RefreshSucceeds(s1, a1) && RefreshSucceeds(s3, a3);
    FourSteps(a0, a1, a2, a3);
  }

  lemma FourSteps(a0: Action, a1: Action, a2: Action, a3: Action)
    ensures var s1 := Next(EMPTY, a0);
            var s2 := Next(s1, a1);
            var s3 := Next(s2, a2);
            Exchanges(EMPTY, [a0, a1, a2, a3], 1)
            == (if RefreshSucceeds(EMPTY, a0) && a0.token == 1 then 1 else 0)
               + (if RefreshSucceeds(s1, a1) && a1.token == 1 then 1 else 0)
               + (if RefreshSucceeds(s2, a2) && a2.token == 1 then 1 else 0)
               + (if RefreshSucceeds(s3, a3) && a3.token == 1 then 1 else 0)
  {
    var acts := [a0, a1, a2, a3];
    assert acts[..3] == [a0, a1, a2] && [a0, a1, a2][..2] == [a0, a1] && [a0, a1][..1] == [a0] && [a0][..0] == [];
    assert Run(EMPTY, [a0]) == Next(EMPTY, a0);
    assert Run(EMPTY, [a0, a1]) == Next(Next(EMPTY, a0), a1);
    assert Exchanges(EMPTY, [a0], 1) == if RefreshSucceeds(EMPTY, a0) && a0.token == 1 then 1 else 0;
    assert Exchanges(EMPTY, [a0, a1], 1) == Exchanges(EMPTY, [a0], 1)
      + if RefreshSucceeds(Next(EMPTY, a0), a1) && a1.token == 1 then 1 else 0;
    assert Exchanges(EMPTY, [a0, a1, a2], 1) == Exchanges(EMPTY, [a0, a1], 1)
      + if RefreshSucceeds(Run(EMPTY, [a0, a1]), a2) && a2.token == 1 then 1 else 0;
  }

  // ----- The store -----

  /** The session table and the service methods that write it in place. */
  class Store {
    var rows: map<nat, Session>
    var nextId: nat
    ghost var seen: set<Token>
    ghost var spent: set<Token>

    ghost function Now(): State
      reads this
    {
      State(rows, nextId, seen, spent)
    }

    constructor ()
      ensures Now() == EMPTY
    {
      rows, nextId, seen, spent := map[], 0, {}, {};
    }

    method FindSessionByToken(t: Option<Token>) returns (id: Option<nat>)
      requires Valid(Now())
      ensures id == FindByToken(rows, t)
    {
      if t.Some? && exists i :: i in rows && rows[i].token == t {
        var i :| i in rows && rows[i].token == t;
        assert HasToken(rows, i, t.value);
        return Some(i);
      }
      assert t.Some? ==> forall i :: !HasToken(rows, i, t.value);
      return None;
    }

    method FindUserSessionByClient(user: nat, client: Option<nat>) returns (id: Option<nat>)
      requires Valid(Now())
      ensures id == FindByClient(rows, user, client)
    {
      if client.Some? && exists i :: i in rows && rows[i].user == user && rows[i].client == client {
        var i :| i in rows && rows[i].user == user && rows[i].client == client;
        assert HasClient(rows, i, user, client.value);
        return Some(i);
      }
      assert client.Some? ==> forall i :: !HasClient(rows, i, user, client.value);
      return None;
    }

    /** `touchOwnSession`. */
    method TouchOwnSession(user: nat, token: Option<Token>, next: Option<Token>, client: Option<nat>, expiresAt: int)
        returns (ok: bool)
      requires Valid(Now())
      modifies this`rows, this`nextId
      ensures !ok <==> (token.None? && client.None? && next.None?)
                       || (token.Some? && Blocked(old(rows), user, token.value, client))
      ensures ok <==> Touch(old(Now()), user, token, next, client, expiresAt).Some?
      ensures Now() == if ok then Touch(old(Now()), user, token, next, client, expiresAt).value else old(Now())
      ensures ok ==> exists id :: IsTouched(old(rows), rows, user, token, next, client, expiresAt, id)
    {
      TouchExactly(Now(), user, token, next, client, expiresAt);
      if token.None? && client.None? && next.None? {
        return false;
      }
      var tokenSession := FindSessionByToken(token);
      var clientSession := FindUserSessionByClient(user, client);
      if tokenSession.Some? && rows[tokenSession.value].user != user {
        return false;
      }
      var session := OrElse(clientSession, tokenSession);
      if session.Some? && rows[session.value].revoked && tokenSession.Some? {
        return false;
      }
      if tokenSession.Some? && clientSession.Some? && tokenSession != clientSession {
        rows := rows[tokenSession.value := Revoked(rows[tokenSession.value])];
      }
      if session.Some? {
        var row := rows[session.value].(expiresAt := expiresAt, revoked := false);
        if next.Some? || token.Some? {
          row := row.(token := OrElse(next, token));
        }
        if client.Some? {
          row := row.(client := client);
        }
        rows := rows[session.value := row];
      } else {
        rows := rows[nextId := Session(user, OrElse(next, token), client, false, expiresAt)];
        nextId := nextId + 1;
      }
      return true;
    }

    /** `refreshToken`; `claimant` is the user named by the decoded token, when it is decoded. */
    method RefreshToken(token: Token, claimant: Option<nat>, active: bool, client: Option<nat>, issued: Token, now: int,
                        expiresAt: int)
      returns (ok: bool)
      requires Valid(Now()) && issued !in seen && issued != token
      modifies this
      ensures Now() == Next(old(Now()), Refresh(token, claimant, active, client, issued, now, expiresAt))
      ensures ok <==> RefreshSucceeds(old(Now()), Refresh(token, claimant, active, client, issued, now, expiresAt))
      ensures ok <==> exists id :: Exchangeable(old(rows), token, claimant, active, client, now, id)
      ensures !ok ==> IsExpired(old(rows), rows, token, now)
      ensures ok ==> exists i, id :: IsRefreshed(old(rows), rows, token, issued, client, expiresAt, i, id)
    {
      RefreshExactly(Now(), Refresh(token, claimant, active, client, issued, now, expiresAt));
      var session := FindSessionByToken(Some(token));
      seen := seen + {token} + {issued};
      if session.None? {
        return false;
      }
      var row := rows[session.value];
      if row.revoked || now > row.expiresAt {
        rows := rows[session.value := Revoked(row)];
        return false;
      }
      if !active {
        return false;
      }
      seen := old(seen);
      ok := TouchOwnSession(OrElse(claimant, Some(row.user)).value, Some(token), Some(issued),
                            OrElse(client, row.client), expiresAt);
      seen := seen + {token} + {issued};
      if ok {
        spent := spent + {token};
      }
    }

    /** `revokeOwnSession`: refuses the caller's own session. */
    method RevokeOwnSession(user: nat, id: nat, currentToken: Option<Token>, currentClient: Option<nat>)
        returns (ok: bool)
      modifies this`rows
      ensures Now() == Next(old(Now()), Revoke(user, id, currentToken, currentClient))
      ensures ok <==> id in old(rows) && old(rows)[id].user == user && !old(rows)[id].revoked
                      && !(currentToken.Some? && old(rows)[id].token == currentToken)
                      && !(currentClient.Some? && old(rows)[id].client == currentClient)
      ensures rows == if ok then old(rows)[id := old(rows)[id].(token := None, revoked := true)] else old(rows)
    {
      if id !in rows || rows[id].user != user || rows[id].revoked {
        return false;
      }
      if (currentToken.Some? && rows[id].token == currentToken)
          || (currentClient.Some? && rows[id].client == currentClient) {
        return false;
      }
      rows := rows[id := rows[id].(token := None, revoked := true)];
      return true;
    }
  }
}
