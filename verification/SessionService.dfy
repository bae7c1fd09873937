/** The user and authentication services: methods that change the user rows in place. */
module SessionService {
  import opened Base
  import opened UserStatus
  import opened SessionModel
  import opened SessionTheorems

  class UsersService {
    var users: map<nat, User>
    var nextUser: nat

    constructor ()
      ensures users == map[] && nextUser == 1
    {
      users, nextUser := map[], 1;
    }

    method CreateUser(status: Option<string>, password: Option<string>) returns (id: nat)
      modifies this
      ensures id == old(nextUser) && nextUser == id + 1
      ensures users == old(users)[id := User(status, password, None)]
    {
      id := nextUser;
      users := users[id := User(status, password, None)];
      nextUser := nextUser + 1;
    }

    /** updateMany with the condition that a hash is stored. */
    method ClearUserToken(userId: nat)
      modifies this
      ensures nextUser == old(nextUser)
      ensures users == if userId in old(users) then old(users)[userId := old(users)[userId].(hashedRt := None)] else old(users)
    {
      users := map id | id in users ::
        if id == userId && users[id].hashedRt.Some? then users[id].(hashedRt := None) else users[id];
      assert users == if userId in old(users) then old(users)[userId := old(users)[userId].(hashedRt := None)] else old(users);
    }

    method UpdateUserToken(userId: nat, hash: Token)
      requires userId in users
      modifies this
      ensures nextUser == old(nextUser)
      ensures users == old(users)[userId := old(users)[userId].(hashedRt := Some(hash))]
    {
      users := users[userId := users[userId].(hashedRt := Some(hash))];
    }

    method UpdateUser(id: nat, password: Option<string>, status: Option<string>, refused: bool) returns (outcome: Outcome)
      modifies this
      ensures nextUser == old(nextUser)
      ensures (users, outcome) == SessionModel.UpdateUser(old(users), id, password, status, refused)
    {
      if refused || id !in users {
        return Rejected;
      }
      var user := users[id];
      if Truthy(status) {
        user := user.(status := Some(NormalizeUserStatus(status)));
      }
      if Truthy(password) {
        user := user.(password := password, hashedRt := None);
      }
      users := users[id := user];
      return Ok;
    }

    method UpdateUserStatus(id: nat, newStatus: Option<string>, currentUser: Option<nat>) returns (outcome: Outcome)
      modifies this
      ensures nextUser == old(nextUser)
      ensures (users, outcome) == SessionModel.UpdateUserStatus(old(users), id, newStatus, currentUser)
    {
      var status := NormalizeUserStatus(newStatus);
      if currentUser == Some(id) && !IsUserActive(Some(status)) {
        return Rejected;
      }
      if id !in users {
        return Rejected;
      }
      var user := users[id].(status := Some(status));
      if !IsUserActive(Some(status)) {
        user := user.(hashedRt := None);
      }
      users := users[id := user];
      return Ok;
    }

    method ResetPassword(id: nat, password: string) returns (outcome: Outcome)
      modifies this
      ensures nextUser == old(nextUser)
      ensures (users, outcome) == SessionModel.ResetPassword(old(users), id, password)
    {
      if id !in users {
        return Rejected;
      }
      users := users[id := users[id].(password := Some(password), hashedRt := None)];
      return Ok;
    }

    method ChangePassword(id: nat, current: string, next: string) returns (outcome: Outcome)
      modifies this
      ensures nextUser == old(nextUser)
      ensures (users, outcome) == SessionModel.ChangePassword(old(users), id, current, next)
    {
      if id !in users || users[id].password.None? {
        return Rejected;
      }
      var isCurrentPasswordValid := users[id].password.value == current;
      if !isCurrentPasswordValid {
        return Rejected;
      }
      users := users[id := users[id].(password := Some(next), hashedRt := None)];
      return Ok;
    }

    method RemoveByIds(ids: set<nat>, currentUser: Option<nat>, refused: bool) returns (outcome: Outcome)
      modifies this
      ensures nextUser == old(nextUser)
      ensures (users, outcome) == SessionModel.RemoveUsers(old(users), ids, currentUser, refused)
    {
      if NonZero(currentUser) && currentUser.value in ids {
        return Rejected;
      }
      if refused {
        return Rejected;
      }
      users := map id | id in users && id !in ids :: users[id];
      assert users == old(users) - ids;
      return Ok;
    }
  }

  class AuthService {
    const userService: UsersService
    const lifetime: nat
    var issued: set<Token>
    var nextJti: nat

    constructor (userService: UsersService, lifetime: nat)
      requires userService.users == map[]
      ensures this.userService == userService && this.lifetime == lifetime
      ensures State() == SessionModel.State(map[], userService.nextUser, {}, 0, lifetime)
      ensures Valid(State())
    {
      this.userService, this.lifetime := userService, lifetime;
      issued, nextJti := {}, 0;
    }

    function State(): State
      reads this, userService
    {
      SessionModel.State(userService.users, userService.nextUser, issued, nextJti, lifetime)
    }

    /** randomUUID gives the new token an id no earlier token has. */
    method GenerateTokens(userId: nat, now: nat) returns (token: Token)
      modifies this
      ensures token == Token(userId, old(nextJti), now + lifetime)
      ensures issued == old(issued) + {token} && nextJti == old(nextJti) + 1
    {
      token := Token(userId, nextJti, now + lifetime);
      issued := issued + {token};
      nextJti := nextJti + 1;
    }

    method UpdateRtHash(userId: nat, token: Token)
      requires userId in userService.users
      modifies userService
      ensures userService.nextUser == old(userService.nextUser)
      ensures userService.users
              == old(userService.users)[userId := old(userService.users)[userId].(hashedRt := Some(token))]
    {
      userService.UpdateUserToken(userId, token);
    }

    method Register(refused: bool, password: string, now: nat) returns (outcome: Outcome)
      requires Valid(State())
      modifies this, userService
      ensures Valid(State())
      ensures (State(), outcome) == Step(old(State()), OpRegister(refused, password), now)
    {
      StepKeepsValid(State(), OpRegister(refused, password), now);
      if refused {
        return Rejected;
      }
      var id := userService.CreateUser(Some(ACTIVE), Some(password));
      var token := GenerateTokens(id, now);
      UpdateRtHash(id, token);
      return Issued(token);
    }

    method MiniprogramLogin(found: Option<nat>, refused: bool, now: nat) returns (outcome: Outcome)
      requires Valid(State())
      modifies this, userService
      ensures Valid(State())
      ensures (State(), outcome) == Step(old(State()), OpMiniprogramLogin(found, refused), now)
    {
      StepKeepsValid(State(), OpMiniprogramLogin(found, refused), now);
      var id: nat;
      if found.Some? && found.value in userService.users {
        id := found.value;
      } else {
        if refused {
          return Rejected;
        }
        id := userService.CreateUser(Some(ACTIVE), None);
      }
      var token := GenerateTokens(id, now);
      UpdateRtHash(id, token);
      return Issued(token);
    }

    method Login(found: Option<nat>, password: string, now: nat) returns (outcome: Outcome)
      requires Valid(State())
      modifies this, userService
      ensures Valid(State())
      ensures (State(), outcome) == Step(old(State()), OpLogin(found, password), now)
    {
      StepKeepsValid(State(), OpLogin(found, password), now);
      if password == "" {
        return Rejected;
      }
      if found.None? || found.value !in userService.users {
        return Rejected;
      }
      var user := userService.users[found.value];
      if !IsUserActive(user.status) {
        return Rejected;
      }
      var isPasswordValid := if user.password.Some? then user.password.value == password else false;
      if !isPasswordValid {
        return Rejected;
      }
      var token := GenerateTokens(found.value, now);
      UpdateRtHash(found.value, token);
      return Issued(token);
    }

    method Logout(userId: nat)
      requires Valid(State())
      modifies userService
      ensures Valid(State())
      ensures State() == Step(old(State()), OpLogout(userId), 0).0
    {
      StepKeepsValid(State(), OpLogout(userId), 0);
      userService.ClearUserToken(userId);
    }

    method LogoutByRefreshToken(presented: Option<Token>, now: nat)
      requires Valid(State())
      modifies userService
      ensures Valid(State())
      ensures State() == Step(old(State()), OpLogoutByRefreshToken(presented), now).0
    {
      StepKeepsValid(State(), OpLogoutByRefreshToken(presented), now);
      if presented.None? {
        return;
      }
      if !(presented.value in issued && now < presented.value.exp) {
        return;
      }
      var userId := presented.value.userId;
      if userId !in userService.users || userService.users[userId].hashedRt.None? {
        return;
      }
      var isCurrentRefreshToken := userService.users[userId].hashedRt.value == presented.value;
      if isCurrentRefreshToken {
        userService.ClearUserToken(userId);
      }
    }

    method RefreshToken(presented: Option<Token>, now: nat) returns (outcome: Outcome)
      requires Valid(State())
      modifies this, userService
      ensures Valid(State())
      ensures (State(), outcome) == Step(old(State()), OpRefresh(presented), now)
    {
      StepKeepsValid(State(), OpRefresh(presented), now);
      if presented.None? {
        return Rejected;
      }
      if !(presented.value in issued && now < presented.value.exp) {
        return Rejected;
      }
      var userId := presented.value.userId;
      if userId !in userService.users || userService.users[userId].hashedRt.None? {
        return Rejected;
      }
      var user := userService.users[userId];
      if !IsUserActive(user.status) {
        userService.ClearUserToken(userId);
        return Rejected;
      }
      var isJwtValid := user.hashedRt.value == presented.value;
      if !isJwtValid {
        userService.ClearUserToken(userId);
        return Rejected;
      }
      var token := GenerateTokens(userId, now);
      UpdateRtHash(userId, token);
      return Issued(token);
    }
  }
}
