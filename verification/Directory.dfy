/** Users, roles and permissions as the approval and message services see them. */
module Directory {
  import opened Base
  import opened UserStatus

  datatype User = User(status: Option<string>, roles: set<string>)

  datatype Role = Role(enabled: bool, permissions: set<string>)

  datatype Directory = Directory(users: map<nat, User>, roles: map<string, Role>)

  function RoleCodes(dir: Directory, user: nat): set<string> {
    if user in dir.users then dir.users[user].roles else {}
  }

  /** Role rows grant permissions whether or not the role is enabled. */
  predicate HasPermission(dir: Directory, user: nat, code: string) {
    exists role :: role in RoleCodes(dir, user) && role in dir.roles && code in dir.roles[role].permissions
  }

  predicate RoleEnabled(dir: Directory, code: string) {
    code in dir.roles && dir.roles[code].enabled
  }

  /** The users createTodoForRole selects. */
  function RoleMembers(dir: Directory, code: string): set<nat> {
    set u | u in dir.users && IsListedActive(dir.users[u].status)
            && code in dir.users[u].roles && RoleEnabled(dir, code)
  }

  /** The members that pass isUserActive, the test used everywhere else. */
  function ActiveMembers(dir: Directory, code: string): set<nat> {
    set u | u in dir.users && IsUserActive(dir.users[u].status)
            && code in dir.users[u].roles && RoleEnabled(dir, code)
  }

  /** A status that fits neither the fan-out query nor the inactive values. */
  predicate Unlisted(status: Option<string>) {
    status.None? || status.value !in {"active", "Active", "ACTIVE", "0", RESIGNED, DISABLED}
  }

  /** The fan-out reaches every active member exactly when no member's status is unlisted (null, "1", ...). */
  lemma FanOutReachesAll(dir: Directory, code: string)
    ensures RoleMembers(dir, code) <= ActiveMembers(dir, code)
    ensures RoleMembers(dir, code) == ActiveMembers(dir, code) <==>
            !exists u :: u in dir.users && code in dir.users[u].roles && RoleEnabled(dir, code)
                         && Unlisted(dir.users[u].status)
  {
    forall u | u in dir.users
      ensures IsListedActive(dir.users[u].status) ==> IsUserActive(dir.users[u].status)
      ensures IsUserActive(dir.users[u].status) && !IsListedActive(dir.users[u].status)
              <==> Unlisted(dir.users[u].status)
    {
      var status := dir.users[u].status;
      InactiveExactly(status);
      if IsListedActive(status) { ListedIsActive(status); }
    }
    if u :| u in dir.users && code in dir.users[u].roles && RoleEnabled(dir, code)
            && Unlisted(dir.users[u].status) {
      assert u in ActiveMembers(dir, code) && u !in RoleMembers(dir, code);
    }
  }

  /** A member whose status column is empty may decide but is sent no TODO. */
  lemma FanOutMissesSomeone()
    ensures exists dir: Directory, code: string :: RoleMembers(dir, code) != ActiveMembers(dir, code)
  {
    var dir := Directory(map[1 := User(None, {"manager"})], map["manager" := Role(true, {})]);
    assert 1 in dir.users && "manager" in dir.users[1].roles && dir.users[1].status == None;
    assert IsUserActive(None) && RoleEnabled(dir, "manager");
    assert 1 in ActiveMembers(dir, "manager");
    assert 1 !in RoleMembers(dir, "manager");
  }
}
