/**
 Refresh-token sessions: one stored-token cell per user, as values.
 A stored bcrypt hash stands for the very token (or password) that was hashed, and a
 refresh token passes JWT verification exactly when the service issued it and it has
 not expired. Every public call is one atomic step.
*/
module SessionModel {
  import opened Base
  import opened UserStatus

  /** A refresh JWT: its user, the random id that makes it unique (the "jti" claim, section 4.1.7 of RFC 7519), its expiry. */
  datatype Token = Token(userId: nat, jti: nat, exp: nat)

  datatype User = User(status: Option<string>, password: Option<string>, hashedRt: Option<Token>)

  /** `issued` and `nextJti` are bookkeeping for "issued by the service" and "never issued before". */
  datatype State = State(users: map<nat, User>, nextUser: nat, issued: set<Token>, nextJti: nat, lifetime: nat)

  datatype Outcome = Issued(token: Token) | Ok | Rejected

  predicate Verified(s: State, token: Token, now: nat) {
    token in s.issued && now < token.exp
  }

  // ------------------------------------------------------- the cell operations

  function ClearUserToken(s: State, userId: nat): State {
    if userId in s.users then s.(users := s.users[userId := s.users[userId].(hashedRt := None)]) else s
  }

  /** generateTokens followed by updateRtHash. */
  function IssueToken(s: State, userId: nat, now: nat): (State, Outcome)
    requires userId in s.users
  {
    var token := Token(userId, s.nextJti, now + s.lifetime);
    (s.(users := s.users[userId := s.users[userId].(hashedRt := Some(token))],
        issued := s.issued + {token}, nextJti := s.nextJti + 1),
     Issued(token))
  }

  function AddUser(s: State, status: Option<string>, password: Option<string>): State {
    s.(users := s.users[s.nextUser := User(status, password, None)], nextUser := s.nextUser + 1)
  }

  // --------------------------------------------------------------------- calls

  /** A refused registration (address or number taken, default role missing) creates nothing. */
  function Register(s: State, refused: bool, password: string, now: nat): (State, Outcome) {
    if refused then (s, Rejected)
    else IssueToken(AddUser(s, Some(ACTIVE), Some(password)), s.nextUser, now)
  }

  /** `found` is the row the WeChat id leads to; the account status is not checked here. */
  function MiniprogramLogin(s: State, found: Option<nat>, refused: bool, now: nat): (State, Outcome) {
    if found.Some? && found.value in s.users then IssueToken(s, found.value, now)
    else if refused then (s, Rejected)
    else IssueToken(AddUser(s, Some(ACTIVE), None), s.nextUser, now)
  }

  /** `found` is the row the e-mail address leads to. */
  function Login(s: State, found: Option<nat>, password: string, now: nat): (State, Outcome) {
    if password == "" || found.None? || found.value !in s.users then (s, Rejected)
    else
      var user := s.users[found.value];
      if !IsUserActive(user.status) || user.password != Some(password) then (s, Rejected)
      else IssueToken(s, found.value, now)
  }

  function RefreshToken(s: State, presented: Option<Token>, now: nat): (State, Outcome) {
    if presented.None? || !Verified(s, presented.value, now) then (s, Rejected)
    else
      var id := presented.value.userId;
      if id !in s.users || s.users[id].hashedRt.None? then (s, Rejected)
      else if !IsUserActive(s.users[id].status) then (ClearUserToken(s, id), Rejected)
      else if s.users[id].hashedRt != presented then (ClearUserToken(s, id), Rejected)
      else IssueToken(s, id, now)
  }

  function LogoutByRefreshToken(s: State, presented: Option<Token>, now: nat): State {
    if presented.None? || !Verified(s, presented.value, now) then s
    else
      var id := presented.value.userId;
      if id in s.users && s.users[id].hashedRt == presented then ClearUserToken(s, id) else s
  }

  type Users = map<nat, User>

  /** `refused` stands for the role checks that precede the update. */
  function UpdateUser(users: Users, id: nat, password: Option<string>, status: Option<string>, refused: bool): (Users, Outcome) {
    if refused || id !in users then (users, Rejected)
    else
      var user := users[id];
      var user := if Truthy(status) then user.(status := Some(NormalizeUserStatus(status))) else user;
      var user := if Truthy(password) then user.(password := password, hashedRt := None) else user;
      (users[id := user], Ok)
  }

  function UpdateUserStatus(users: Users, id: nat, status: Option<string>, currentUser: Option<nat>): (Users, Outcome) {
    var status := Some(NormalizeUserStatus(status));
    if currentUser == Some(id) && !IsUserActive(status) then (users, Rejected)
    else if id !in users then (users, Rejected)
    else
      var user := users[id].(status := status);
      (users[id := if IsUserActive(status) then user else user.(hashedRt := None)], Ok)
  }

  function ResetPassword(users: Users, id: nat, password: string): (Users, Outcome) {
    if id !in users then (users, Rejected)
    else (users[id := users[id].(password := Some(password), hashedRt := None)], Ok)
  }

  function ChangePassword(users: Users, id: nat, current: string, next: string): (Users, Outcome) {
    if id !in users || users[id].password != Some(current) then (users, Rejected)
    else ResetPassword(users, id, next)
  }

  /** `refused` stands for rows elsewhere that still refer to one of the users. */
  function RemoveUsers(users: Users, ids: set<nat>, currentUser: Option<nat>, refused: bool): (Users, Outcome) {
    if (NonZero(currentUser) && currentUser.value in ids) || refused then (users, Rejected)
    else (users - ids, Ok)
  }

  // ---------------------------------------------------------------------- runs

  datatype Op =
    | OpRegister(refused: bool, password: string)
    | OpMiniprogramLogin(found: Option<nat>, refused: bool)
    | OpLogin(found: Option<nat>, password: string)
    | OpRefresh(presented: Option<Token>)
    | OpLogout(userId: nat)
    | OpLogoutByRefreshToken(presented: Option<Token>)
    | OpCreateUser(password: string, status: Option<string>)
    | OpUpdateUser(id: nat, newPassword: Option<string>, newStatus: Option<string>, refused: bool)
    | OpUpdateUserStatus(id: nat, newStatus: Option<string>, currentUser: Option<nat>)
    | OpResetPassword(id: nat, password: string)
    | OpChangePassword(id: nat, current: string, next: string)
    | OpRemoveUsers(ids: set<nat>, currentUser: Option<nat>, refused: bool)

  function Step(s: State, op: Op, now: nat): (State, Outcome) {
    match op
    case OpRegister(refused, password) => Register(s, refused, password, now)
    case OpMiniprogramLogin(found, refused) => MiniprogramLogin(s, found, refused, now)
    case OpLogin(found, password) => Login(s, found, password, now)
    case OpRefresh(presented) => RefreshToken(s, presented, now)
    case OpLogout(userId) => (ClearUserToken(s, userId), Ok)
    case OpLogoutByRefreshToken(presented) => (LogoutByRefreshToken(s, presented, now), Ok)
    case OpCreateUser(password, status) => (AddUser(s, Some(NormalizeUserStatus(status)), Some(password)), Ok)
    case OpUpdateUser(id, password, status, refused) =>
      var (users, outcome) := UpdateUser(s.users, id, password, status, refused);
      (s.(users := users), outcome)
    case OpUpdateUserStatus(id, status, currentUser) =>
      var (users, outcome) := UpdateUserStatus(s.users, id, status, currentUser);
      (s.(users := users), outcome)
    case OpResetPassword(id, password) =>
      var (users, outcome) := ResetPassword(s.users, id, password);
      (s.(users := users), outcome)
    case OpChangePassword(id, current, next) =>
      var (users, outcome) := ChangePassword(s.users, id, current, next);
      (s.(users := users), outcome)
    case OpRemoveUsers(ids, currentUser, refused) =>
      var (users, outcome) := RemoveUsers(s.users, ids, currentUser, refused);
      (s.(users := users), outcome)
  }

  datatype Event = Event(op: Op, now: nat)

  /** The state after a run, its last event applied last. */
  function After(s: State, events: seq<Event>): State {
    if events == [] then s
    else
      var n := |events| - 1;
      Step(After(s, events[..n]), events[n].op, events[n].now).0
  }

  /** What the k-th call of a run returned. */
  function OutcomeAt(s: State, events: seq<Event>, k: nat): Outcome
    requires k < |events|
  {
    Step(After(s, events[..k]), events[k].op, events[k].now).1
  }

  // ----------------------------------------------------------------- invariant

  /** Stored tokens were issued to that very user; token ids are unique and below the counter. */
  ghost predicate Valid(s: State) {
    && (forall id :: id in s.users ==> id < s.nextUser)
    && (forall id :: id in s.users && s.users[id].hashedRt.Some? ==>
          s.users[id].hashedRt.value in s.issued && s.users[id].hashedRt.value.userId == id)
    && (forall t :: t in s.issued ==> t.jti < s.nextJti && t.userId < s.nextUser)
    && (forall t, t' :: t in s.issued && t' in s.issued && t.jti == t'.jti ==> t == t')
  }

  predicate Stored(s: State, token: Token) {
    token.userId in s.users && s.users[token.userId].hashedRt == Some(token)
  }

  predicate Accepted(s: State, token: Token, now: nat) {
    RefreshToken(s, Some(token), now).1.Issued?
  }
}
