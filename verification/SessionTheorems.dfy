/** What holds of refresh tokens over every run of the service's calls. */
module SessionTheorems {
  import opened Base
  import opened UserStatus
  import opened SessionModel

  lemma IssueKeepsValid(s: State, userId: nat, now: nat)
    requires Valid(s) && userId in s.users
    ensures Valid(IssueToken(s, userId, now).0)
  {
  }

  lemma StepKeepsValid(s: State, op: Op, now: nat)
    requires Valid(s)
    ensures Valid(Step(s, op, now).0)
    ensures s.issued <= Step(s, op, now).0.issued
  {
    match op
    case OpRegister(_, password) =>
      IssueKeepsValid(AddUser(s, Some(ACTIVE), Some(password)), s.nextUser, now);
    case OpMiniprogramLogin(found, _) =>
      IssueKeepsValid(AddUser(s, Some(ACTIVE), None), s.nextUser, now);
      if found.Some? && found.value in s.users { IssueKeepsValid(s, found.value, now); }
    case OpLogin(found, _) =>
      if found.Some? && found.value in s.users { IssueKeepsValid(s, found.value, now); }
    case OpRefresh(presented) =>
      if presented.Some? && presented.value.userId in s.users { IssueKeepsValid(s, presented.value.userId, now); }
    case _ =>
      QuietStepKeepsValid(s, op, now);
  }

  /** The calls that never issue a token. */
  predicate Quiet(op: Op) {
    !op.OpRegister? && !op.OpMiniprogramLogin? && !op.OpLogin? && !op.OpRefresh?
  }

  lemma QuietStepKeepsValid(s: State, op: Op, now: nat)
    requires Valid(s) && Quiet(op)
    ensures Valid(Step(s, op, now).0)
    ensures s.issued == Step(s, op, now).0.issued
  {
    if !op.OpCreateUser? {
      UsersKeepValid(s, Step(s, op, now).0.users);
    }
  }

  /** Rows may go, and sessions may end; nothing else about sessions changes. */
  lemma UsersKeepValid(s: State, users: Users)
    requires Valid(s)
    requires forall id :: id in users ==>
               id in s.users && (users[id].hashedRt.Some? ==> users[id].hashedRt == s.users[id].hashedRt)
    ensures Valid(s.(users := users))
  {
  }

  lemma {:induction false} RunKeepsValid(s: State, events: seq<Event>, k: nat)
    requires Valid(s) && k <= |events|
    ensures Valid(After(s, events[..k]))
    ensures s.issued <= After(s, events[..k]).issued
  {
    if k > 0 {
      RunKeepsValid(s, events, k - 1);
      assert events[..k][..k - 1] == events[..k - 1];
      StepKeepsValid(After(s, events[..k - 1]), events[k - 1].op, events[k - 1].now);
    }
  }

  lemma AfterNext(s: State, events: seq<Event>, k: nat)
    requires k < |events|
    ensures After(s, events[..k + 1]) == Step(After(s, events[..k]), events[k].op, events[k].now).0
  {
    assert events[..k + 1][..k] == events[..k];
  }

  /**
   The calls that end the session of `token`, told from the tables and the call: a new login of its
   user, any verified refresh for its user, a logout, a password change, disabling, removal.
  */
  predicate Ends(s: State, op: Op, now: nat, token: Token) {
    var user := token.userId;
    match op
    case OpRegister(_, _) => false
    case OpCreateUser(_, _) => false
    case OpMiniprogramLogin(found, _) => found == Some(user)
    case OpLogin(found, password) =>
      found == Some(user) && password != "" && user in s.users
      && IsUserActive(s.users[user].status) && s.users[user].password == Some(password)
    case OpRefresh(presented) =>
      presented.Some? && Verified(s, presented.value, now) && presented.value.userId == user
    case OpLogout(userId) => userId == user
    case OpLogoutByRefreshToken(presented) => presented == Some(token) && Verified(s, token, now)
    case OpUpdateUser(id, password, _, refused) => id == user && !refused && Truthy(password)
    case OpUpdateUserStatus(id, status, currentUser) =>
      id == user && !IsUserActive(status) && currentUser != Some(id)
    case OpResetPassword(id, _) => id == user
    case OpChangePassword(id, current, _) => id == user && user in s.users && s.users[user].password == Some(current)
    case OpRemoveUsers(ids, currentUser, refused) =>
      user in ids && !refused && !(NonZero(currentUser) && currentUser.value in ids)
  }

  /** One step: an old token stays stored exactly when it was stored and the call does not end it. */
  lemma StepOnStored(s: State, op: Op, now: nat, token: Token)
    requires Valid(s) && token in s.issued
    ensures Stored(Step(s, op, now).0, token) <==> Stored(s, token) && !Ends(s, op, now, token)
  {
    if op.OpUpdateUserStatus? {
      NormalizeKeepsActivity(op.newStatus);
    }
  }

  lemma NormalizeKeepsActivity(status: Option<string>)
    ensures IsUserActive(Some(NormalizeUserStatus(status))) <==> IsUserActive(status)
  {
    assert RESIGNED != ACTIVE && DISABLED != ACTIVE && RESIGNED != DISABLED;
    assert RESIGNED != "1" && DISABLED != "1" && DISABLED != "0";
  }

  /** A call that issues a token issues a new one, which is then the stored token of its user. */
  lemma StepIssues(s: State, op: Op, now: nat)
    requires Valid(s) && Step(s, op, now).1.Issued?
    ensures var token := Step(s, op, now).1.token;
      && token !in s.issued && token in Step(s, op, now).0.issued
      && Stored(Step(s, op, now).0, token)
      && token.exp == now + s.lifetime
  {
  }

  /** A token becomes stored only by being issued. */
  lemma StepStoresOnlyIssued(s: State, op: Op, now: nat, token: Token)
    requires Valid(s) && token !in s.issued
    ensures token in Step(s, op, now).0.issued || Stored(Step(s, op, now).0, token)
            ==> Step(s, op, now).1 == Issued(token)
  {
  }

  // ---------------------------------------------------------- the main result

  /** The token was issued by the k-th call and no later call of the run ended its session. */
  ghost predicate LiveSince(s: State, events: seq<Event>, k: nat, token: Token) {
    && k < |events|
    && OutcomeAt(s, events, k) == Issued(token)
    && (forall m :: k < m < |events| ==> !Ends(After(s, events[..m]), events[m].op, events[m].now, token))
  }

  lemma LiveSinceShortens(s: State, events: seq<Event>, k: nat, token: Token)
    requires LiveSince(s, events, k, token) && k < |events| - 1
    ensures var n := |events| - 1;
      LiveSince(s, events[..n], k, token) && !Ends(After(s, events[..n]), events[n].op, events[n].now, token)
  {
    var init := events[..|events| - 1];
    assert init[..k] == events[..k];
    forall m | k < m < |init|
      ensures !Ends(After(s, init[..m]), init[m].op, init[m].now, token)
    {
      assert init[..m] == events[..m];
      assert !Ends(After(s, events[..m]), events[m].op, events[m].now, token);
    }
  }

  lemma LiveSinceExtends(s: State, events: seq<Event>, k: nat, token: Token)
    requires |events| > 0 && LiveSince(s, events[..|events| - 1], k, token)
    requires var n := |events| - 1; !Ends(After(s, events[..n]), events[n].op, events[n].now, token)
    ensures LiveSince(s, events, k, token)
  {
    var init := events[..|events| - 1];
    assert init[..k] == events[..k];
    forall m | k < m < |events|
      ensures !Ends(After(s, events[..m]), events[m].op, events[m].now, token)
    {
      if m < |init| {
        assert init[..m] == events[..m];
        assert !Ends(After(s, init[..m]), init[m].op, init[m].now, token);
      }
    }
  }

  ghost predicate IssuedIn(s: State, events: seq<Event>, token: Token) {
    exists k: nat :: k < |events| && OutcomeAt(s, events, k) == Issued(token)
  }

  lemma OutcomeInPrefix(s: State, events: seq<Event>, k: nat)
    requires k + 1 < |events|
    ensures OutcomeAt(s, events[..|events| - 1], k) == OutcomeAt(s, events, k)
  {
    assert events[..|events| - 1][..k] == events[..k];
  }

  lemma IssuedInPrefix(s: State, events: seq<Event>, token: Token)
    requires |events| > 0
    ensures var n := |events| - 1;
      IssuedIn(s, events, token) <==> IssuedIn(s, events[..n], token) || OutcomeAt(s, events, n) == Issued(token)
  {
    var n := |events| - 1;
    var init := events[..n];
    forall k: nat | k < n
      ensures OutcomeAt(s, events, k) == OutcomeAt(s, init, k)
    {
      OutcomeInPrefix(s, events, k);
    }
    if k: nat :| k < |init| && OutcomeAt(s, init, k) == Issued(token) {
      assert OutcomeAt(s, events, k) == Issued(token);
    }
    if k: nat :| k < |events| && OutcomeAt(s, events, k) == Issued(token) {
      if k < n { assert OutcomeAt(s, init, k) == Issued(token); }
    }
  }

  /** The tokens the service knows are those it had and those the run issued. */
  lemma {:induction false} IssuedExactly(s: State, events: seq<Event>, token: Token)
    requires Valid(s) && token !in s.issued
    ensures token in After(s, events).issued <==> IssuedIn(s, events, token)
  {
    if events == [] {
    } else {
      var n := |events| - 1;
      IssuedExactly(s, events[..n], token);
      IssuedInPrefix(s, events, token);
      RunKeepsValid(s, events, n);
      StepKeepsValid(After(s, events[..n]), events[n].op, events[n].now);
      var before := After(s, events[..n]);
      if token !in before.issued {
        StepStoresOnlyIssued(before, events[n].op, events[n].now, token);
        if OutcomeAt(s, events, n) == Issued(token) {
          StepIssues(before, events[n].op, events[n].now);
        }
      }
    }
  }

  /** After any run, a token is the stored one exactly when it was issued in the run and not ended since. */
  lemma {:induction false} StoredExactly(s: State, events: seq<Event>, token: Token)
    requires Valid(s) && token !in s.issued
    ensures Stored(After(s, events), token) <==> Live(s, events, token)
  {
    if events == [] {
    } else {
      var n := |events| - 1;
      var before := After(s, events[..n]);
      RunKeepsValid(s, events, n);
      if OutcomeAt(s, events, n) == Issued(token) {
        StepIssues(before, events[n].op, events[n].now);
        assert LiveSince(s, events, n, token);
      } else {
        StoredExactly(s, events[..n], token);
        if Live(s, events, token) { LiveWasLive(s, events, token); }
        if Live(s, events[..n], token) && !Ends(before, events[n].op, events[n].now, token) {
          LiveStaysLive(s, events, token);
        }
        if token in before.issued {
          StepOnStored(before, events[n].op, events[n].now, token);
        } else {
          StepStoresOnlyIssued(before, events[n].op, events[n].now, token);
        }
      }
    }
  }

  ghost predicate Live(s: State, events: seq<Event>, token: Token) {
    exists k :: LiveSince(s, events, k, token)
  }

  /** When the last call did not issue it, a token that is live now was live before and has not been ended. */
  lemma LiveWasLive(s: State, events: seq<Event>, token: Token)
    requires |events| > 0 && OutcomeAt(s, events, |events| - 1) != Issued(token)
    requires Live(s, events, token)
    ensures var n := |events| - 1;
      Live(s, events[..n], token) && !Ends(After(s, events[..n]), events[n].op, events[n].now, token)
  {
    var k :| LiveSince(s, events, k, token);
    LiveSinceShortens(s, events, k, token);
  }

  lemma LiveStaysLive(s: State, events: seq<Event>, token: Token)
    requires |events| > 0 && Live(s, events[..|events| - 1], token)
    requires var n := |events| - 1; !Ends(After(s, events[..n]), events[n].op, events[n].now, token)
    ensures Live(s, events, token)
  {
    var k :| LiveSince(s, events[..|events| - 1], k, token);
    LiveSinceExtends(s, events, k, token);
  }

  /**
   A refresh succeeds exactly when the presented token has not expired, its user exists and is
   active, some call of the run issued it, and no call since has ended its session.
  */
  lemma AcceptedExactly(s: State, events: seq<Event>, token: Token, now: nat)
    requires Valid(s) && token !in s.issued
    ensures var end := After(s, events);
      Accepted(end, token, now) <==>
      && now < token.exp
      && token.userId in end.users && IsUserActive(end.users[token.userId].status)
      && Live(s, events, token)
  {
    StoredExactly(s, events, token);
    RunKeepsValid(s, events, |events|);
    assert events[..|events|] == events;
  }

  // ------------------------------------------------------------- consequences

  /** A token that is no longer stored never becomes the stored one again. */
  lemma {:induction false} NeverStoredAgain(s: State, events: seq<Event>, token: Token)
    requires Valid(s) && token in s.issued && !Stored(s, token)
    ensures !Stored(After(s, events), token) && token in After(s, events).issued
    ensures Valid(After(s, events))
  {
    if events == [] {
    } else {
      var n := |events| - 1;
      NeverStoredAgain(s, events[..n], token);
      var before := After(s, events[..n]);
      StepOnStored(before, events[n].op, events[n].now, token);
      StepKeepsValid(before, events[n].op, events[n].now);
    }
  }

  lemma {:induction false} AfterConcat(s: State, a: seq<Event>, b: seq<Event>)
    ensures After(s, a + b) == After(After(s, a), b)
  {
    if b == [] {
      assert a + b == a;
    } else {
      var n := |b| - 1;
      assert (a + b)[..|a + b| - 1] == a + b[..n];
      AfterConcat(s, a, b[..n]);
    }
  }

  /** Over any run, no token is redeemed twice. */
  lemma RedeemedAtMostOnce(s: State, events: seq<Event>, i: nat, j: nat, token: Token)
    requires Valid(s) && i < j < |events|
    requires events[i].op == OpRefresh(Some(token)) && OutcomeAt(s, events, i).Issued?
    requires events[j].op == OpRefresh(Some(token))
    ensures OutcomeAt(s, events, j) == Rejected
  {
    RedeemedIsGone(s, events, i, token);
    NeverStoredAgain(After(s, events[..i + 1]), events[i + 1..j], token);
    AfterConcat(s, events[..i + 1], events[i + 1..j]);
    assert events[..i + 1] + events[i + 1..j] == events[..j];
  }

  lemma RedeemedIsGone(s: State, events: seq<Event>, i: nat, token: Token)
    requires Valid(s) && i < |events|
    requires events[i].op == OpRefresh(Some(token)) && OutcomeAt(s, events, i).Issued?
    ensures Valid(After(s, events[..i + 1])) && token in After(s, events[..i + 1]).issued
    ensures !Stored(After(s, events[..i + 1]), token)
  {
    RunKeepsValid(s, events, i);
    var before := After(s, events[..i]);
    StepOnStored(before, events[i].op, events[i].now, token);
    StepKeepsValid(before, events[i].op, events[i].now);
    AfterNext(s, events, i);
  }

  /** No token of this user can be redeemed. */
  ghost predicate NoSession(s: State, user: nat) {
    user in s.users ==> s.users[user].hashedRt.None?
  }

  lemma NoSessionRejects(s: State, user: nat, token: Token, now: nat)
    requires NoSession(s, user) && token.userId == user
    ensures !Accepted(s, token, now)
  {
  }

  /** Without a call that issues a token to the user, no session comes back. */
  lemma {:induction false} NoSessionUntilIssued(s: State, events: seq<Event>, user: nat)
    requires NoSession(s, user)
    requires forall k :: 0 <= k < |events| && OutcomeAt(s, events, k).Issued?
               ==> OutcomeAt(s, events, k).token.userId != user
    ensures NoSession(After(s, events), user)
  {
    if events == [] {
    } else {
      var n := |events| - 1;
      var init := events[..n];
      forall k | 0 <= k < n
        ensures OutcomeAt(s, init, k) == OutcomeAt(s, events, k)
      {
        assert init[..k] == events[..k];
      }
      NoSessionUntilIssued(s, init, user);
      assert Step(After(s, init), events[n].op, events[n].now).1 == OutcomeAt(s, events, n);
      StepKeepsNoSession(After(s, init), events[n].op, events[n].now, user);
    }
  }

  lemma StepKeepsNoSession(s: State, op: Op, now: nat, user: nat)
    requires NoSession(s, user)
    requires Step(s, op, now).1.Issued? ==> Step(s, op, now).1.token.userId != user
    ensures NoSession(Step(s, op, now).0, user)
  {
  }

  /**
   Presenting a genuine token that is not the stored one is rejected and leaves its user without
   any redeemable token until the next call that issues one to that user.
  */
  lemma ReuseEndsSession(s: State, token: Token, now: nat, events: seq<Event>, other: Token, later: nat)
    requires Valid(s) && Verified(s, token, now) && !Stored(s, token)
    requires other.userId == token.userId
    requires var after := RefreshToken(s, Some(token), now).0;
      forall k :: 0 <= k < |events| && OutcomeAt(after, events, k).Issued?
        ==> OutcomeAt(after, events, k).token.userId != token.userId
    ensures RefreshToken(s, Some(token), now).1 == Rejected
    ensures !Accepted(After(RefreshToken(s, Some(token), now).0, events), other, later)
  {
    var after := RefreshToken(s, Some(token), now).0;
    NoSessionUntilIssued(after, events, token.userId);
    NoSessionRejects(After(after, events), token.userId, other, later);
  }

  /** The administrative calls that revoke a user's sessions when they succeed. */
  predicate Revokes(op: Op, user: nat) {
    match op
    case OpResetPassword(id, _) => id == user
    case OpChangePassword(id, _, _) => id == user
    case OpUpdateUser(id, password, _, _) => id == user && Truthy(password)
    case OpUpdateUserStatus(id, status, _) => id == user && !IsUserActive(status)
    case _ => false
  }

  /** After a successful revoking call no earlier token of the user is accepted in any continuation. */
  lemma RevocationIsFinal(s: State, op: Op, now: nat, events: seq<Event>, token: Token, later: nat)
    requires Valid(s) && token in s.issued
    requires Revokes(op, token.userId) && Step(s, op, now).1 == Ok
    ensures !Accepted(After(Step(s, op, now).0, events), token, later)
  {
    StepOnStored(s, op, now, token);
    StepKeepsValid(s, op, now);
    NeverStoredAgain(Step(s, op, now).0, events, token);
  }

  /** Logging out with a token that is not the stored one changes nothing. */
  lemma StaleLogoutIsHarmless(s: State, stale: Token, now: nat, current: Token, later: nat)
    requires Valid(s) && stale != current && Stored(s, current)
    ensures Accepted(LogoutByRefreshToken(s, Some(stale), now), current, later) <==> Accepted(s, current, later)
    ensures !Stored(s, stale) ==> LogoutByRefreshToken(s, Some(stale), now) == s
  {
  }

  /** A user update that goes through leaves the user without a session exactly when it sets a password or there was none. */
  lemma UpdateUserRevokesExactly(s: State, id: nat, password: Option<string>, status: Option<string>)
    requires id in s.users
    ensures NoSession(Step(s, OpUpdateUser(id, password, status, false), 0).0, id)
            <==> (password.Some? && password.value != "") || NoSession(s, id)
  {
  }

  /** Disabling through the user form and enabling again leaves the old token redeemable. */
  lemma DisablingByUpdateKeepsToken()
    ensures exists s: State, token: Token ::
      && Valid(s)
      && Accepted(s, token, 0)
      && var disabled := Step(s, OpUpdateUser(1, None, Some(DISABLED), false), 0).0;
         && 1 in disabled.users && !IsUserActive(disabled.users[1].status)
         && Accepted(Step(disabled, OpUpdateUserStatus(1, Some(ACTIVE), None), 0).0, token, 0)
  {
    var token := Token(1, 0, 10);
    var s := State(map[1 := User(Some(ACTIVE), None, Some(token))], 2, {token}, 1, 10);
    NormalizeKeepsActivity(Some(DISABLED));
    InactiveExactly(Some(DISABLED));
    InactiveExactly(Some(ACTIVE));
    assert ACTIVE != DISABLED && ACTIVE != RESIGNED && ACTIVE != "0";
    assert Valid(s) && Accepted(s, token, 0);
    var disabled := Step(s, OpUpdateUser(1, None, Some(DISABLED), false), 0).0;
    assert disabled.users[1].hashedRt == Some(token);
    assert !IsUserActive(disabled.users[1].status);
    assert Accepted(Step(disabled, OpUpdateUserStatus(1, Some(ACTIVE), None), 0).0, token, 0);
  }

  // ------------------------------------------------------- tokens of inactive users

  /** The call issues a token to a user whose account is not active. */
  predicate IssuesToInactive(s: State, op: Op, now: nat) {
    var (s', outcome) := Step(s, op, now);
    outcome.Issued? && outcome.token.userId in s'.users && !IsUserActive(s'.users[outcome.token.userId].status)
  }

  /** Only a mini-program login does so, and it does so for every inactive user it finds. */
  lemma IssuesToInactiveExactly(s: State, op: Op, now: nat)
    ensures IssuesToInactive(s, op, now) <==>
      op.OpMiniprogramLogin? && op.found.Some? && op.found.value in s.users
      && !IsUserActive(s.users[op.found.value].status)
  {
    assert IsUserActive(Some(ACTIVE));
  }

  /**
   Such a token is not redeemable: a refresh with it is rejected and clears it. But it stays
   stored until then, and once the account is enabled it is redeemable until it expires.
  */
  lemma InactiveTokenWaitsForEnabling(s: State, user: nat, now: nat, later: nat, status: Option<string>)
    requires user in s.users && !IsUserActive(s.users[user].status) && IsUserActive(status)
    ensures var (s', outcome) := Step(s, OpMiniprogramLogin(Some(user), false), now);
      && outcome.Issued?
      && !Accepted(s', outcome.token, later)
      && (later < outcome.token.exp ==> NoSession(RefreshToken(s', Some(outcome.token), later).0, user))
      && (Accepted(Step(s', OpUpdateUserStatus(user, status, None), later).0, outcome.token, later) <==>
            later < outcome.token.exp)
  {
    NormalizeKeepsActivity(status);
  }

  /** A disabled user is issued a token by a mini-program login. */
  lemma DisabledUserIsIssuedToken()
    ensures exists s: State :: Valid(s) && IssuesToInactive(s, OpMiniprogramLogin(Some(1), false), 0)
  {
    var s := State(map[1 := User(Some(DISABLED), None, None)], 2, {}, 0, 10);
    assert 1 in s.users;
    InactiveExactly(Some(DISABLED));
    IssuesToInactiveExactly(s, OpMiniprogramLogin(Some(1), false), 0);
    assert Valid(s);
  }
}
