/**
 What stays as it is in every continuation of the interleaved session calls: when an exchanged token is never
 exchanged again, and when a revoked session is never opened again.
 */
module SessionFinality {
  import opened Common
  import opened SessionSteps
  import S = Sessions

  // ----- Exchanged tokens -----

  /** A call in flight that could still write the token, or exchange it. */
  predicate Carries(call: Call, t: Token) {
    !call.Revoking? && (call.touch.token == Some(t) || call.touch.next == Some(t))
  }

  predicate Idle(s: State, t: Token) { forall c :: c in s.calls ==> !Carries(s.calls[c], t) }

  predicate OnNoRow(s: State, t: Token) { forall id :: id in s.rows ==> s.rows[id].token != Some(t) }

  /** A login with the token, a heartbeat that carries it, or a refresh that issues it. */
  predicate Brings(act: Action, t: Token) {
    (act.BeginTouch? && act.token == Some(t)) || (act.BeginRefresh? && act.issued == t)
  }

  predicate NeverBrings(acts: seq<Action>, t: Token) { forall i :: 0 <= i < |acts| ==> !Brings(acts[i], t) }

  /** No continuation exchanges the token unless it is brought in anew. */
  ghost predicate Over(s: State, t: Token) {
    forall acts: seq<Action> :: NeverBrings(acts, t) ==> Count(s, acts, t) == 0
  }

  /** A call that is still to look its rows up, with the token presented and a new one to come. */
  predicate Ready(s: State, call: Call, t: Token) {
    call.Starting? && call.touch.token == Some(t) && (call.touch.next.Some? ==> IsNew(s.rows, call.touch.next.value))
  }

  lemma GoneStep(s: State, act: Action, t: Token)
    requires Valid(s) && Idle(s, t) && OnNoRow(s, t) && !Brings(act, t)
    ensures Idle(Next(s, act), t) && OnNoRow(Next(s, act), t) && !ExchangesNow(s, act, t)
  {
    var s' := Next(s, act);
    if act.BeginRefresh? && s' != s {
      var found := S.FindByToken(s.rows, Some(act.presented));
      assert S.HasToken(s.rows, found.value, act.presented);
    }
  }

  lemma {:induction false} GoneRuns(s: State, acts: seq<Action>, t: Token)
    requires Valid(s) && Idle(s, t) && OnNoRow(s, t) && NeverBrings(acts, t)
    ensures Count(s, acts, t) == 0
    ensures Valid(Run(s, acts)) && Idle(Run(s, acts), t) && OnNoRow(Run(s, acts), t)
    decreases |acts|
  {
    if acts != [] {
      var init, act := acts[..|acts| - 1], acts[|acts| - 1];
      GoneRuns(s, init, t);
      assert !Brings(act, t);
      NextKeepsValid(Run(s, init), act);
      GoneStep(Run(s, init), act, t);
    }
  }

  lemma {:induction false} SomeNewToken(rows: Rows, ids: set<nat>, t: Token) returns (n: Token)
    requires ids <= rows.Keys
    ensures n > t && forall id :: id in ids ==> rows[id].token.Some? ==> rows[id].token.value < n
    decreases ids
  {
    if ids == {} {
      n := t + 1;
    } else {
      var id :| id in ids;
      n := SomeNewToken(rows, ids - {id}, t);
      if rows[id].token.Some? && rows[id].token.value >= n {
        n := rows[id].token.value + 1;
      }
    }
  }

  lemma {:induction false} StatementsBringNothing(c: nat, n: nat, t: Token)
    ensures NeverBrings(Statements(c, n), t)
  {
    if n > 0 {
      StatementsBringNothing(c, n - 1, t);
    }
  }

  lemma {:induction false} CountConcat(s: State, first: seq<Action>, second: seq<Action>, t: Token)
    ensures Run(s, first + second) == Run(Run(s, first), second)
    ensures Count(s, first + second, t) == Count(s, first, t) + Count(Run(s, first), second, t)
    decreases |second|
  {
    if second == [] {
      assert first + second == first;
    } else {
      var init, act := second[..|second| - 1], second[|second| - 1];
      CountConcat(s, first, init, t);
      assert first + second == (first + init) + [act] && second == init + [act];
      RunPush(s, first + init, act, t);
      RunPush(Run(s, first), init, act, t);
    }
  }

  /** A token on a row can be exchanged: one refresh, run alone with a new token, does it. */
  lemma RowIsExchanged(s: State, id: nat, t: Token) returns (acts: seq<Action>)
    requires Valid(s) && S.HasToken(s.rows, id, t)
    ensures NeverBrings(acts, t) && Count(s, acts, t) >= 1
  {
    var row := s.rows[id];
    var issued := SomeNewToken(s.rows, s.rows.Keys, t);
    var begin := BeginRefresh(t, None, None, issued, row.expiresAt, row.expiresAt);
    var begun, c := Next(s, begin), s.nextCall;
    assert S.FindByToken(s.rows, Some(t)) == Some(id) by {
      assert S.HasToken(s.rows, S.FindByToken(s.rows, Some(t)).value, t);
    }
    NextKeepsValid(s, begin);
    HeldTokenIsExchanged(begun, c, Touching(row.user, Some(t), Some(issued), row.client, row.expiresAt), id);
    RunPush(s, [], begin, t);
    assert [] + [begin] == [begin];
    RunDrives(s, [begin], c, 3, t);
    StatementsBringNothing(c, 3, t);
    acts := [begin] + Statements(c, 3);
  }

  /** A heartbeat that still starts with a token writes it back. */
  lemma LateHeartbeatWrites(s: State, c: nat, t: Token) returns (id: nat)
    requires Valid(s) && c in s.calls && Ready(s, s.calls[c], t) && s.calls[c].touch.next.None? && OnNoRow(s, t)
    ensures S.HasToken(Drive(s, c, true, 3).rows, id, t)
  {
    var touch := s.calls[c].touch;
    var byClient := S.FindByClient(s.rows, touch.user, touch.client);
    assert S.FindByToken(s.rows, touch.token).None?;
    ThreeStatements(s, c, touch, None, byClient);
    var looked := Drive(s, c, true, 2);
    id := WrittenId(looked, byClient);
    var row := WrittenRow(looked, touch, byClient);
    if byClient.Some? {
      assert S.HasClient(s.rows, id, touch.user, touch.client.value);
    }
    assert Fits(s.rows, id, row);
  }

  /** A call that still starts with the token leads to an exchange, too. */
  lemma ReadyIsExchanged(s: State, c: nat, t: Token) returns (acts: seq<Action>)
    requires Valid(s) && c in s.calls && Ready(s, s.calls[c], t) && OnNoRow(s, t)
    ensures NeverBrings(acts, t) && Count(s, acts, t) >= 1
  {
    var touch := s.calls[c].touch;
    StatementsBringNothing(c, 3, t);
    RunDrives(s, [], c, 3, t);
    assert [] + Statements(c, 3) == Statements(c, 3);
    if touch.next.Some? {
      LateRefreshSucceeds(s, c, touch);
      acts := Statements(c, 3);
    } else {
      var id := LateHeartbeatWrites(s, c, t);
      DriveKeepsValid(s, c, true, 3);
      var more := RowIsExchanged(Drive(s, c, true, 3), id, t);
      CountConcat(s, Statements(c, 3), more, t);
      acts := Statements(c, 3) + more;
    }
  }

  /**
   A token is never exchanged again, in any continuation that does not bring it in anew, if and only if it is
   on no row and no call in flight carries it, provided that the calls that do are still to start.
   */
  lemma OverExactly(s: State, t: Token)
    requires Valid(s) && forall c :: c in s.calls && Carries(s.calls[c], t) ==> Ready(s, s.calls[c], t)
    ensures Over(s, t) <==> OnNoRow(s, t) && Idle(s, t)
  {
    if !OnNoRow(s, t) {
      var id :| id in s.rows && s.rows[id].token == Some(t);
      assert S.HasToken(s.rows, id, t);
      var acts := RowIsExchanged(s, id, t);
    } else if !Idle(s, t) {
      var c :| c in s.calls && Carries(s.calls[c], t);
      var acts := ReadyIsExchanged(s, c, t);
    } else {
      forall acts: seq<Action> | NeverBrings(acts, t)
        ensures Count(s, acts, t) == 0
      {
        GoneRuns(s, acts, t);
      }
    }
  }

  /** Exchanging a token takes it off its row; the others keep theirs. */
  lemma ExchangedRow(s: State, act: Action, t: Token)
    requires Valid(s) && ExchangesNow(s, act, t)
    ensures Next(s, act).calls == s.calls - {act.call}
    ensures OnNoRow(Next(s, act), t) <==> !OnAnotherRow(s.rows, WrittenId(s, s.calls[act.call].target), t)
  {
    var s', id := Next(s, act), WrittenId(s, s.calls[act.call].target);
    assert s'.rows == s.rows[id := s'.rows[id]] && s'.rows[id].token == s.calls[act.call].touch.next;
    if j :| j in s'.rows && s'.rows[j].token == Some(t) {
      assert j != id && S.HasToken(s.rows, j, t);
    }
    if OnAnotherRow(s.rows, id, t) {
      var j :| j != id && S.HasToken(s.rows, j, t);
      assert s'.rows[j].token == Some(t);
    }
  }

  /**
   An exchange is final, over every continuation that does not bring the token in anew, if and only if when it
   is written no other row holds the token and no other call in flight carries it; the calls that do are taken
   to be still to start.
   */
  lemma ExchangeIsFinal(s: State, act: Action, t: Token)
    requires Valid(s) && ExchangesNow(s, act, t)
    requires forall d :: d != act.call && d in s.calls && Carries(s.calls[d], t) ==> Ready(Next(s, act), s.calls[d], t)
    ensures Over(Next(s, act), t)
            <==> !OnAnotherRow(s.rows, WrittenId(s, s.calls[act.call].target), t)
                 && forall d :: d != act.call && d in s.calls ==> !Carries(s.calls[d], t)
  {
    NextKeepsValid(s, act);
    ExchangedRow(s, act, t);
    var s' := Next(s, act);
    forall d | d in s'.calls
      ensures d != act.call && d in s.calls && s'.calls[d] == s.calls[d]
    {
    }
    forall d | d != act.call && d in s.calls
      ensures d in s'.calls && s'.calls[d] == s.calls[d]
    {
    }
    OverExactly(s', t);
  }

  // ----- Revoked sessions -----

  ghost predicate IsRevoked(s: State, id: nat) { id in s.rows && s.rows[id].revoked }

  /** A statement opens a revoked session if and only if it is a touch's write to its row that goes through. */
  lemma RevokedRowExactly(s: State, act: Action, id: nat)
    requires Valid(s) && IsRevoked(s, id)
    ensures IsRevoked(Next(s, act), id)
            <==> !(act.Continue? && Succeeds(s, act.call) && s.calls[act.call].target == Some(id))
  {
  }

  predicate Names(touch: Touching, row: S.Session) {
    row.client.Some? && touch.client == row.client && touch.user == row.user
  }

  /** A call in flight that may still write the row: it names its user and client id, or it has the row in its hands. */
  predicate Reaches(rows: Rows, call: Call, id: nat)
    requires id in rows
  {
    match call
    case Starting(touch) => Names(touch, rows[id])
    case Looking(touch, byToken, _) => Names(touch, rows[id]) || byToken == Some(id)
    case Merging(_, _, survivor) => survivor == id
    case Writing(_, target) => target == Some(id)
    case Revoking(_) => false
  }

  predicate Unreached(s: State, id: nat)
    requires id in s.rows
  {
    forall c :: c in s.calls ==> !Reaches(s.rows, s.calls[c], id)
  }

  /** The step begins a login, a heartbeat or a refresh that names the row's user and client id. */
  ghost predicate StartsOn(s: State, act: Action, id: nat)
    requires id in s.rows
  {
    !act.Continue? && s.nextCall in Next(s, act).calls && Reaches(s.rows, Next(s, act).calls[s.nextCall], id)
  }

  ghost predicate NeverStartsOn(s: State, acts: seq<Action>, id: nat)
    decreases |acts|
  {
    acts == []
    || (var before, act := Run(s, acts[..|acts| - 1]), acts[|acts| - 1];
        NeverStartsOn(s, acts[..|acts| - 1], id) && id in before.rows && !StartsOn(before, act, id))
  }

  ghost predicate StaysRevoked(s: State, id: nat) {
    forall acts: seq<Action> :: NeverStartsOn(s, acts, id) ==> IsRevoked(Run(s, acts), id)
  }

  lemma UnreachedContinue(s: State, c: nat, proceeds: bool, id: nat)
    requires Valid(s) && IsRevoked(s, id) && Unreached(s, id)
    ensures var s' := Next(s, Continue(c, proceeds)); IsRevoked(s', id) && Unreached(s', id)
  {
    var s' := Next(s, Continue(c, proceeds));
    RevokedRowExactly(s, Continue(c, proceeds), id);
    assert s'.rows[id].user == s.rows[id].user && s'.rows[id].client == s.rows[id].client;
    if c in s.calls && s.calls[c].Starting? && proceeds {
      var found := S.FindByToken(s.rows, s.calls[c].touch.token);
      assert found.Some? ==> S.HasToken(s.rows, found.value, s.calls[c].touch.token.value);
    }
    if c in s.calls && s.calls[c].Looking? {
      var touch := s.calls[c].touch;
      var byClient := S.FindByClient(s.rows, touch.user, touch.client);
      assert byClient.Some? ==> S.HasClient(s.rows, byClient.value, touch.user, touch.client.value);
    }
    forall d | d in s'.calls
      ensures !Reaches(s'.rows, s'.calls[d], id)
    {
      assert d in s.calls && !Reaches(s.rows, s.calls[d], id);
    }
  }

  lemma UnreachedBegin(s: State, act: Action, id: nat)
    requires Valid(s) && IsRevoked(s, id) && Unreached(s, id) && !act.Continue? && !StartsOn(s, act, id)
    ensures IsRevoked(Next(s, act), id) && Unreached(Next(s, act), id)
  {
    var s' := Next(s, act);
    assert s'.rows[id].user == s.rows[id].user && s'.rows[id].client == s.rows[id].client;
    forall d | d in s'.calls
      ensures !Reaches(s'.rows, s'.calls[d], id)
    {
      assert d != s.nextCall ==> d in s.calls && s'.calls[d] == s.calls[d];
    }
  }

  lemma {:induction false} UnreachedRuns(s: State, acts: seq<Action>, id: nat)
    requires Valid(s) && IsRevoked(s, id) && Unreached(s, id) && NeverStartsOn(s, acts, id)
    ensures Valid(Run(s, acts)) && IsRevoked(Run(s, acts), id) && Unreached(Run(s, acts), id)
    decreases |acts|
  {
    if acts != [] {
      var init, act := acts[..|acts| - 1], acts[|acts| - 1];
      UnreachedRuns(s, init, id);
      NextKeepsValid(Run(s, init), act);
      if act.Continue? {
        UnreachedContinue(Run(s, init), act.call, act.proceeds, id);
      } else {
        UnreachedBegin(Run(s, init), act, id);
      }
    }
  }

  /** The call would open the row now: it is about to write it, or starts with tokens that are on no row. */
  ghost predicate Opens(s: State, c: nat, id: nat)
    requires c in s.calls
  {
    || (s.calls[c].Writing? && Succeeds(s, c) && s.calls[c].target == Some(id))
    || (s.calls[c].Starting?
        && (s.calls[c].touch.token.Some? ==> IsNew(s.rows, s.calls[c].touch.token.value))
        && (s.calls[c].touch.next.Some? ==> IsNew(s.rows, s.calls[c].touch.next.value)))
  }

  lemma StartedTouchOpens(s: State, c: nat, id: nat)
    requires Valid(s) && IsRevoked(s, id) && c in s.calls && s.calls[c].Starting? && Opens(s, c, id)
    requires Names(s.calls[c].touch, s.rows[id])
    ensures !IsRevoked(Drive(s, c, true, 3), id)
  {
    var touch := s.calls[c].touch;
    var byToken, byClient := S.FindByToken(s.rows, touch.token), S.FindByClient(s.rows, touch.user, touch.client);
    assert byToken.Some? ==> S.HasToken(s.rows, byToken.value, touch.token.value);
    assert S.HasClient(s.rows, id, touch.user, touch.client.value);
    assert byClient == Some(id);
    ThreeStatements(s, c, touch, None, Some(id));
    assert Fits(s.rows, id, WrittenRow(s, touch, Some(id)));
  }

  lemma ContinueStartsNothing(s: State, acts: seq<Action>, c: nat, id: nat)
    requires NeverStartsOn(s, acts, id) && id in Run(s, acts).rows
    ensures NeverStartsOn(s, acts + [Continue(c, true)], id)
    ensures Run(s, acts + [Continue(c, true)]) == Next(Run(s, acts), Continue(c, true))
  {
    assert (acts + [Continue(c, true)])[..|acts|] == acts;
  }

  lemma {:induction false} StatementsStartNothing(s: State, c: nat, n: nat, id: nat)
    requires id in s.rows
    ensures NeverStartsOn(s, Statements(c, n), id)
    ensures Run(s, Statements(c, n)) == Drive(s, c, true, n) && id in Drive(s, c, true, n).rows
  {
    if n > 0 {
      StatementsStartNothing(s, c, n - 1, id);
      ContinueStartsNothing(s, Statements(c, n - 1), c, id);
      RowsStay(Drive(s, c, true, n - 1), c, id);
    }
  }

  lemma RowsStay(s: State, c: nat, id: nat)
    requires id in s.rows
    ensures id in Next(s, Continue(c, true)).rows
  {
  }

  /**
   A revoked session stays revoked, in every continuation that begins no call on its user and client id, if and
   only if no call in flight reaches it, provided that those that do could open it now.
   */
  lemma RevokedForGood(s: State, id: nat)
    requires Valid(s) && IsRevoked(s, id)
    requires forall c :: c in s.calls && Reaches(s.rows, s.calls[c], id) ==> Opens(s, c, id)
    ensures StaysRevoked(s, id) <==> Unreached(s, id)
  {
    if Unreached(s, id) {
      forall acts: seq<Action> | NeverStartsOn(s, acts, id)
        ensures IsRevoked(Run(s, acts), id)
      {
        UnreachedRuns(s, acts, id);
      }
    } else {
      var c :| c in s.calls && Reaches(s.rows, s.calls[c], id);
      if s.calls[c].Starting? {
        StatementsStartNothing(s, c, 3, id);
        StartedTouchOpens(s, c, id);
        assert !IsRevoked(Run(s, Statements(c, 3)), id);
      } else {
        StatementsStartNothing(s, c, 1, id);
        RevokedRowExactly(s, Continue(c, true), id);
        assert Drive(s, c, true, 1) == Next(Drive(s, c, true, 0), Continue(c, true));
        assert !IsRevoked(Run(s, Statements(c, 1)), id);
      }
    }
  }
}
