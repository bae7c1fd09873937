/**
 The sessions as an outsider would specify them: every account counts the sessions it has
 been granted and remembers whether the latest one is still live. The stored-token code
 refines this: over every run both give the same answers.
*/
module GenerationSpec {
  import opened Base
  import opened UserStatus
  import opened SessionModel
  import opened SessionTheorems

  /** What a genuine, unexpired token amounts to: the user's gen-th session. */
  datatype Handle = Handle(userId: nat, gen: nat)

  datatype Account = Account(status: Option<string>, password: Option<string>, gen: nat, live: bool)

  datatype Spec = Spec(accounts: map<nat, Account>, nextUser: nat)

  datatype Answer = Granted(handle: Handle) | Done | Refused

  function Grant(spec: Spec, id: nat): (Spec, Answer)
    requires id in spec.accounts
  {
    var account := spec.accounts[id];
    var account := account.(gen := account.gen + 1, live := true);
    (spec.(accounts := spec.accounts[id := account]), Granted(Handle(id, account.gen)))
  }

  function Close(spec: Spec, id: nat): Spec {
    if id in spec.accounts then spec.(accounts := spec.accounts[id := spec.accounts[id].(live := false)]) else spec
  }

  function Open(spec: Spec, status: Option<string>, password: Option<string>): Spec {
    spec.(accounts := spec.accounts[spec.nextUser := Account(status, password, 0, false)], nextUser := spec.nextUser + 1)
  }

  /** The handle names the latest session of its account and that session is live. */
  predicate IsCurrent(spec: Spec, handle: Handle) {
    && handle.userId in spec.accounts
    && spec.accounts[handle.userId].live
    && spec.accounts[handle.userId].gen == handle.gen
  }

  /** `handle` is what the presented token amounts to, None when it is missing or does not verify. */
  function SpecStep(spec: Spec, op: Op, handle: Option<Handle>): (Spec, Answer) {
    match op
    case OpRegister(refused, password) =>
      if refused then (spec, Refused) else Grant(Open(spec, Some(ACTIVE), Some(password)), spec.nextUser)
    case OpMiniprogramLogin(found, refused) =>
      if found.Some? && found.value in spec.accounts then Grant(spec, found.value)
      else if refused then (spec, Refused)
      else Grant(Open(spec, Some(ACTIVE), None), spec.nextUser)
    case OpLogin(found, password) =>
      if password != "" && found.Some? && found.value in spec.accounts
         && IsUserActive(spec.accounts[found.value].status)
         && spec.accounts[found.value].password == Some(password)
      then Grant(spec, found.value) else (spec, Refused)
    case OpRefresh(_) =>
      if handle.None? then (spec, Refused)
      else if IsCurrent(spec, handle.value) && IsUserActive(spec.accounts[handle.value.userId].status)
      then Grant(spec, handle.value.userId)
      else (Close(spec, handle.value.userId), Refused)
    case OpLogout(userId) => (Close(spec, userId), Done)
    case OpLogoutByRefreshToken(_) =>
      (if handle.Some? && IsCurrent(spec, handle.value) then Close(spec, handle.value.userId) else spec, Done)
    case OpCreateUser(password, status) =>
      (Open(spec, Some(NormalizeUserStatus(status)), Some(password)), Done)
    case OpUpdateUser(id, password, status, refused) =>
      if refused || id !in spec.accounts then (spec, Refused)
      else
        var account := spec.accounts[id];
        (spec.(accounts := spec.accounts[id := account.(
           status := if Truthy(status) then Some(NormalizeUserStatus(status)) else account.status,
           password := if Truthy(password) then password else account.password,
           live := account.live && !Truthy(password))]), Done)
    case OpUpdateUserStatus(id, status, currentUser) =>
      if id !in spec.accounts || (currentUser == Some(id) && !IsUserActive(status)) then (spec, Refused)
      else
        var account := spec.accounts[id];
        (spec.(accounts := spec.accounts[id := account.(
           status := Some(NormalizeUserStatus(status)), live := account.live && IsUserActive(status))]), Done)
    case OpResetPassword(id, password) =>
      if id !in spec.accounts then (spec, Refused)
      else (spec.(accounts := spec.accounts[id := spec.accounts[id].(password := Some(password), live := false)]), Done)
    case OpChangePassword(id, current, next) =>
      if id !in spec.accounts || spec.accounts[id].password != Some(current) then (spec, Refused)
      else (spec.(accounts := spec.accounts[id := spec.accounts[id].(password := Some(next), live := false)]), Done)
    case OpRemoveUsers(ids, currentUser, refused) =>
      if (NonZero(currentUser) && currentUser.value in ids) || refused then (spec, Refused)
      else (spec.(accounts := spec.accounts - ids), Done)
  }

  // -------------------------------------------------------------- simulation

  /** Which session of its user each issued token (by its id) was. */
  type Numbering = map<nat, nat>

  ghost predicate SameAccounts(s: State, spec: Spec) {
    && spec.nextUser == s.nextUser
    && spec.accounts.Keys == s.users.Keys
    && (forall id :: id in s.users ==>
          && spec.accounts[id].status == s.users[id].status
          && spec.accounts[id].password == s.users[id].password
          && (spec.accounts[id].live <==> s.users[id].hashedRt.Some?))
  }

  ghost predicate Numbered(s: State, spec: Spec, gens: Numbering) {
    && (forall t :: t in s.issued ==> t.jti in gens)
    && (forall t :: t in s.issued && t.userId in spec.accounts ==> gens[t.jti] <= spec.accounts[t.userId].gen)
    && (forall t, t' | t in s.issued && t' in s.issued && t.userId == t'.userId && t.userId in spec.accounts ::
          gens[t.jti] == gens[t'.jti] ==> t == t')
  }

  ghost predicate LatestStored(s: State, spec: Spec, gens: Numbering) {
    forall id | id in s.users && id in spec.accounts && s.users[id].hashedRt.Some? ::
      var jti := s.users[id].hashedRt.value.jti;
      jti in gens ==> gens[jti] == spec.accounts[id].gen
  }

  ghost predicate Simulates(s: State, spec: Spec, gens: Numbering) {
    Valid(s) && SameAccounts(s, spec) && Numbered(s, spec, gens) && LatestStored(s, spec, gens)
  }

  function Presented(op: Op): Option<Token> {
    match op
    case OpRefresh(presented) => presented
    case OpLogoutByRefreshToken(presented) => presented
    case _ => None
  }

  function HandleOf(s: State, gens: Numbering, token: Option<Token>, now: nat): Option<Handle> {
    if token.Some? && Verified(s, token.value, now) && token.value.jti in gens
    then Some(Handle(token.value.userId, gens[token.value.jti])) else None
  }

  predicate SameAnswer(outcome: Outcome, answer: Answer, gens: Numbering) {
    match outcome
    case Issued(token) => token.jti in gens && answer == Granted(Handle(token.userId, gens[token.jti]))
    case Ok => answer == Done
    case Rejected => answer == Refused
  }

  /** The numbering after a call: a token just issued is its user's newest session. */
  function NextNumbering(gens: Numbering, outcome: Outcome, answer: Answer): Numbering {
    if outcome.Issued? && answer.Granted? then gens[outcome.token.jti := answer.handle.gen] else gens
  }

  /** A stored token is its user's current session, and no other token is. */
  lemma StoredIsCurrent(s: State, spec: Spec, gens: Numbering, token: Token)
    requires Simulates(s, spec, gens) && token in s.issued
    ensures Stored(s, token) <==> IsCurrent(spec, Handle(token.userId, gens[token.jti]))
  {
    var id := token.userId;
    if IsCurrent(spec, Handle(id, gens[token.jti])) {
      assert id in s.users;
      var stored := s.users[id].hashedRt.value;
      assert gens[stored.jti] == spec.accounts[id].gen;
    }
  }

  lemma GrantSimulates(s: State, spec: Spec, gens: Numbering, id: nat, now: nat)
    requires Simulates(s, spec, gens) && id in s.users
    ensures var (s', outcome) := IssueToken(s, id, now);
      var (spec', answer) := Grant(spec, id);
      var gens' := NextNumbering(gens, outcome, answer);
      Simulates(s', spec', gens') && SameAnswer(outcome, answer, gens')
  {
    IssueKeepsValid(s, id, now);
  }

  lemma OpenSimulates(s: State, spec: Spec, gens: Numbering, status: Option<string>, password: Option<string>)
    requires Simulates(s, spec, gens)
    ensures Simulates(AddUser(s, status, password), Open(spec, status, password), gens)
  {
  }

  lemma CloseSimulates(s: State, spec: Spec, gens: Numbering, id: nat)
    requires Simulates(s, spec, gens)
    ensures Simulates(ClearUserToken(s, id), Close(spec, id), gens)
  {
    QuietStepKeepsValid(s, OpLogout(id), 0);
  }

  /** The rows after an administrative call: none is new, and sessions only end, on both sides alike. */
  ghost predicate Tracks(s: State, spec: Spec, users: Users, accounts: map<nat, Account>) {
    && accounts.Keys == users.Keys
    && (forall id :: id in users ==>
          && id in s.users && id in spec.accounts
          && accounts[id].status == users[id].status && accounts[id].password == users[id].password
          && accounts[id].gen == spec.accounts[id].gen
          && (accounts[id].live <==> users[id].hashedRt.Some?)
          && (users[id].hashedRt.Some? ==> users[id].hashedRt == s.users[id].hashedRt))
  }

  lemma UsersSimulate(s: State, spec: Spec, gens: Numbering, users: Users, accounts: map<nat, Account>)
    requires Simulates(s, spec, gens) && Tracks(s, spec, users, accounts)
    ensures Simulates(s.(users := users), spec.(accounts := accounts), gens)
  {
    UsersKeepValid(s, users);
  }

  /** The same call made on both sides gets the same answer and leaves the sides related. */
  ghost predicate Agrees(s: State, spec: Spec, gens: Numbering, op: Op, now: nat) {
    var (s', outcome) := Step(s, op, now);
    var (spec', answer) := SpecStep(spec, op, HandleOf(s, gens, Presented(op), now));
    var gens' := NextNumbering(gens, outcome, answer);
    Simulates(s', spec', gens') && SameAnswer(outcome, answer, gens')
  }

  lemma RefreshIgnored(s: State, spec: Spec, gens: Numbering, op: Op, now: nat)
    requires Simulates(s, spec, gens) && op.OpRefresh?
    requires HandleOf(s, gens, op.presented, now).Some? ==>
               var id := op.presented.value.userId; id in s.users ==> s.users[id].hashedRt.None?
    ensures Agrees(s, spec, gens, op, now)
  {
    if HandleOf(s, gens, op.presented, now).Some? {
      assert Close(spec, op.presented.value.userId).accounts == spec.accounts;
    }
  }

  lemma RefreshCloses(s: State, spec: Spec, gens: Numbering, op: Op, now: nat)
    requires Simulates(s, spec, gens) && op.OpRefresh? && HandleOf(s, gens, op.presented, now).Some?
    requires op.presented.value.userId in s.users && s.users[op.presented.value.userId].hashedRt.Some?
    requires Stored(s, op.presented.value) ==> !IsUserActive(s.users[op.presented.value.userId].status)
    ensures Agrees(s, spec, gens, op, now)
  {
    StoredIsCurrent(s, spec, gens, op.presented.value);
    CloseSimulates(s, spec, gens, op.presented.value.userId);
  }

  lemma RefreshGrants(s: State, spec: Spec, gens: Numbering, op: Op, now: nat)
    requires Simulates(s, spec, gens) && op.OpRefresh? && HandleOf(s, gens, op.presented, now).Some?
    requires Stored(s, op.presented.value) && IsUserActive(s.users[op.presented.value.userId].status)
    ensures Agrees(s, spec, gens, op, now)
  {
    StoredIsCurrent(s, spec, gens, op.presented.value);
    GrantSimulates(s, spec, gens, op.presented.value.userId, now);
  }

  lemma RefreshSimulates(s: State, spec: Spec, gens: Numbering, op: Op, now: nat)
    requires Simulates(s, spec, gens) && op.OpRefresh?
    ensures Agrees(s, spec, gens, op, now)
  {
    if HandleOf(s, gens, op.presented, now).None? {
      RefreshIgnored(s, spec, gens, op, now);
    } else {
      var id := op.presented.value.userId;
      if id !in s.users || s.users[id].hashedRt.None? {
        RefreshIgnored(s, spec, gens, op, now);
      } else if Stored(s, op.presented.value) && IsUserActive(s.users[id].status) {
        RefreshGrants(s, spec, gens, op, now);
      } else {
        RefreshCloses(s, spec, gens, op, now);
      }
    }
  }

  lemma LogoutSimulates(s: State, spec: Spec, gens: Numbering, op: Op, now: nat)
    requires Simulates(s, spec, gens) && op.OpLogoutByRefreshToken?
    ensures Agrees(s, spec, gens, op, now)
  {
    if HandleOf(s, gens, op.presented, now).Some? {
      StoredIsCurrent(s, spec, gens, op.presented.value);
      CloseSimulates(s, spec, gens, op.presented.value.userId);
    }
  }

  /** The calls of account administration, which never present or issue a token. */
  predicate Administrative(op: Op) {
    op.OpUpdateUser? || op.OpUpdateUserStatus? || op.OpResetPassword? || op.OpChangePassword? || op.OpRemoveUsers?
  }

  lemma UpdateTracks(s: State, spec: Spec, op: Op)
    requires SameAccounts(s, spec) && op.OpUpdateUser?
    ensures var (s', outcome) := Step(s, op, 0);
      var (spec', answer) := SpecStep(spec, op, None);
      Tracks(s, spec, s'.users, spec'.accounts) && SameAnswer(outcome, answer, map[])
  {
  }

  lemma StatusTracks(s: State, spec: Spec, op: Op)
    requires SameAccounts(s, spec) && op.OpUpdateUserStatus?
    ensures var (s', outcome) := Step(s, op, 0);
      var (spec', answer) := SpecStep(spec, op, None);
      Tracks(s, spec, s'.users, spec'.accounts) && SameAnswer(outcome, answer, map[])
  {
    NormalizeKeepsActivity(op.newStatus);
  }

  lemma PasswordsTrack(s: State, spec: Spec, op: Op)
    requires SameAccounts(s, spec) && (op.OpResetPassword? || op.OpChangePassword?)
    ensures var (s', outcome) := Step(s, op, 0);
      var (spec', answer) := SpecStep(spec, op, None);
      Tracks(s, spec, s'.users, spec'.accounts) && SameAnswer(outcome, answer, map[])
  {
  }

  lemma RemovalTracks(s: State, spec: Spec, op: Op)
    requires SameAccounts(s, spec) && op.OpRemoveUsers?
    ensures var (s', outcome) := Step(s, op, 0);
      var (spec', answer) := SpecStep(spec, op, None);
      Tracks(s, spec, s'.users, spec'.accounts) && SameAnswer(outcome, answer, map[])
  {
  }

  lemma AdministrationSimulates(s: State, spec: Spec, gens: Numbering, op: Op, now: nat)
    requires Simulates(s, spec, gens) && Administrative(op)
    ensures Agrees(s, spec, gens, op, now)
  {
    if op.OpRemoveUsers? { RemovalTracks(s, spec, op); }
    else if op.OpResetPassword? || op.OpChangePassword? { PasswordsTrack(s, spec, op); }
    else if op.OpUpdateUser? { UpdateTracks(s, spec, op); }
    else { StatusTracks(s, spec, op); }
    UsersSimulate(s, spec, gens, Step(s, op, now).0.users, SpecStep(spec, op, None).0.accounts);
  }

  /** A new account that is granted its first session at once. */
  lemma NewcomerSimulates(s: State, spec: Spec, gens: Numbering, password: Option<string>, now: nat)
    requires Simulates(s, spec, gens)
    ensures var (s', outcome) := IssueToken(AddUser(s, Some(ACTIVE), password), s.nextUser, now);
      var (spec', answer) := Grant(Open(spec, Some(ACTIVE), password), spec.nextUser);
      var gens' := NextNumbering(gens, outcome, answer);
      Simulates(s', spec', gens') && SameAnswer(outcome, answer, gens')
  {
    OpenSimulates(s, spec, gens, Some(ACTIVE), password);
    GrantSimulates(AddUser(s, Some(ACTIVE), password), Open(spec, Some(ACTIVE), password), gens, s.nextUser, now);
  }

  lemma RegisterSimulates(s: State, spec: Spec, gens: Numbering, op: Op, now: nat)
    requires Simulates(s, spec, gens) && op.OpRegister?
    ensures Agrees(s, spec, gens, op, now)
  {
    NewcomerSimulates(s, spec, gens, Some(op.password), now);
  }

  lemma MiniprogramLoginSimulates(s: State, spec: Spec, gens: Numbering, op: Op, now: nat)
    requires Simulates(s, spec, gens) && op.OpMiniprogramLogin?
    ensures Agrees(s, spec, gens, op, now)
  {
    if op.found.Some? && op.found.value in s.users {
      GrantSimulates(s, spec, gens, op.found.value, now);
    } else {
      NewcomerSimulates(s, spec, gens, None, now);
    }
  }

  lemma LoginSimulates(s: State, spec: Spec, gens: Numbering, op: Op, now: nat)
    requires Simulates(s, spec, gens) && op.OpLogin?
    ensures Agrees(s, spec, gens, op, now)
  {
    if op.found.Some? && op.found.value in s.users {
      GrantSimulates(s, spec, gens, op.found.value, now);
    }
  }

  lemma PlainSimulates(s: State, spec: Spec, gens: Numbering, op: Op, now: nat)
    requires Simulates(s, spec, gens) && (op.OpLogout? || op.OpCreateUser?)
    ensures Agrees(s, spec, gens, op, now)
  {
    match op
    case OpLogout(userId) => CloseSimulates(s, spec, gens, userId);
    case OpCreateUser(password, status) =>
      OpenSimulates(s, spec, gens, Some(NormalizeUserStatus(status)), Some(password));
  }

  lemma StepSimulates(s: State, spec: Spec, gens: Numbering, op: Op, now: nat)
    requires Simulates(s, spec, gens)
    ensures Agrees(s, spec, gens, op, now)
  {
    if Administrative(op) { AdministrationSimulates(s, spec, gens, op, now); }
    else if op.OpRefresh? { RefreshSimulates(s, spec, gens, op, now); }
    else if op.OpLogoutByRefreshToken? { LogoutSimulates(s, spec, gens, op, now); }
    else if op.OpLogout? || op.OpCreateUser? { PlainSimulates(s, spec, gens, op, now); }
    else if op.OpRegister? { RegisterSimulates(s, spec, gens, op, now); }
    else if op.OpMiniprogramLogin? { MiniprogramLoginSimulates(s, spec, gens, op, now); }
    else { LoginSimulates(s, spec, gens, op, now); }
  }

  // -------------------------------------------------------------------- runs

  datatype Pair = Pair(s: State, spec: Spec, gens: Numbering)

  /** Both machines after the same run. */
  ghost function Both(p: Pair, events: seq<Event>): Pair {
    if events == [] then p
    else
      var n := |events| - 1;
      var q := Both(p, events[..n]);
      var (s, outcome) := Step(q.s, events[n].op, events[n].now);
      var (spec, answer) := SpecStep(q.spec, events[n].op, HandleOf(q.s, q.gens, Presented(events[n].op), events[n].now));
      Pair(s, spec, NextNumbering(q.gens, outcome, answer))
  }

  lemma {:induction false} RunSimulates(p: Pair, events: seq<Event>)
    requires Simulates(p.s, p.spec, p.gens)
    ensures var q := Both(p, events); Simulates(q.s, q.spec, q.gens) && q.s == After(p.s, events)
  {
    if events == [] {
    } else {
      var n := |events| - 1;
      var q := Both(p, events[..n]);
      RunSimulates(p, events[..n]);
      StepSimulates(q.s, q.spec, q.gens, events[n].op, events[n].now);
    }
  }

  /**
   Refinement: from the empty system, after any run, a refresh of a token the service issued
   succeeds exactly when the token is unexpired and the specification's account says it is the
   latest session, live, and of an active user.
  */
  lemma CodeRefinesGenerations(nextUser: nat, lifetime: nat, events: seq<Event>, token: Token, now: nat)
    ensures var p := Pair(SessionModel.State(map[], nextUser, {}, 0, lifetime), Spec(map[], nextUser), map[]);
      var q := Both(p, events);
      && q.s == After(p.s, events)
      && (token in q.s.issued ==>
            token.jti in q.gens
            && (Accepted(q.s, token, now) <==>
                now < token.exp
                && IsCurrent(q.spec, Handle(token.userId, q.gens[token.jti]))
                && IsUserActive(q.spec.accounts[token.userId].status)))
  {
    var p := Pair(SessionModel.State(map[], nextUser, {}, 0, lifetime), Spec(map[], nextUser), map[]);
    RunSimulates(p, events);
    var q := Both(p, events);
    if token in q.s.issued {
      StoredIsCurrent(q.s, q.spec, q.gens, token);
    }
  }
}
