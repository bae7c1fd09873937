/** Who may make each call of the approval service, what it answers and what it writes, told from the tables. */
module ApprovalEffects {
  import opened Base
  import opened Directory
  import opened ApprovalModel
  import opened ApprovalInvariants
  import opened ApprovalSteps
  import UserStatus
  import MC = MessageCenter
  import ME = MessageEffects

  /** The user has a role whose row grants this permission; whether the role is enabled does not matter. */
  ghost predicate Grants(dir: Directory, user: nat, code: string) {
    && user in dir.users
    && exists role :: role in dir.users[user].roles && role in dir.roles && code in dir.roles[role].permissions
  }

  /** The caller is an admin, the named approver, or has the role the request is sent to. */
  ghost predicate MayDecide(dir: Directory, r: Request, caller: Caller) {
    || caller.isAdmin
    || (r.approverType == USER && r.approverUserId == Some(caller.id))
    || (r.approverType == ROLE && r.approverRoleCode.Some? && r.approverRoleCode.value != ""
        && caller.id in dir.users && r.approverRoleCode.value in dir.users[caller.id].roles)
  }

  ghost predicate MayCancel(dir: Directory, r: Request, caller: Caller) {
    || caller.id == r.applicantId
    || caller.isAdmin
    || Grants(dir, caller.id, "approval.requests.cancel")
    || Grants(dir, caller.id, "approval.requests.manage")
  }

  ghost predicate MayView(dir: Directory, r: Request, caller: Caller) {
    || caller.id == r.applicantId
    || Grants(dir, caller.id, "approval.requests.manage")
    || MayDecide(dir, r, caller)
  }

  /** The access checks of the service are these conditions. */
  lemma AccessExactly(dir: Directory, r: Request, caller: Caller)
    ensures IsApprover(dir, r, caller) <==> MayDecide(dir, r, caller)
    ensures CanCancel(dir, r, caller) <==> MayCancel(dir, r, caller)
    ensures CanView(dir, r, caller) <==> MayView(dir, r, caller)
  {
    assert HasPermission(dir, caller.id, "approval.requests.cancel") <==>
      Grants(dir, caller.id, "approval.requests.cancel");
    assert HasPermission(dir, caller.id, "approval.requests.manage") <==>
      Grants(dir, caller.id, "approval.requests.manage");
  }

  /** A role reaches its members with one of the three queried statuses, if it is enabled. */
  lemma RoleMembersExactly(dir: Directory, code: string, user: nat)
    ensures user in RoleMembers(dir, code) <==>
      && user in dir.users && code in dir.users[user].roles
      && code in dir.roles && dir.roles[code].enabled
      && dir.users[user].status in {Some("active"), Some("Active"), Some("ACTIVE")}
  {
  }

  // ------------------------------------------------------------------- verdicts

  /** The request row has its new status and decision time, the log one entry more; nothing else but mail changes. */
  ghost predicate Concluded(db: Db, after: Db, id: nat, actor: nat, status: Status, action: ActionType,
                            comment: Option<string>, now: nat)
    requires id in db.requests
  {
    && after.directory == db.directory && after.nextRequest == db.nextRequest
    && after.requests == db.requests[id := db.requests[id].(status := status, decidedAt := Some(now))]
    && after.actions == db.actions + [Action(id, actor, action, comment)]
  }

  /** The notice a verdict sends to the applicant. */
  ghost predicate Notified(db: Db, after: Db, id: nat, title: string, comment: Option<string>)
    requires id in db.requests
  {
    && after.mail.nextId == db.mail.nextId + 1
    && db.mail.nextId in after.mail.rows
    && after.mail.rows[db.mail.nextId] == MC.Message(
         db.requests[id].applicantId, MC.NOTIFICATION, title, comment,
         Some("approval_request"), Some(Decimal(id)), None, None, None, None)
  }

  /** Deciding: who may, when each error comes, and what is written. */
  lemma DecideExactly(db: Db, id: nat, caller: Caller, approve: bool, comment: Option<string>, now: nat)
    ensures var (after, outcome) := Decide(db, id, caller, approve, comment, now);
      var pending := id in db.requests && db.requests[id].status == PENDING;
      var allowed := pending && MayDecide(db.directory, db.requests[id], caller);
      && (outcome == NotFound <==> id !in db.requests)
      && (outcome == BadRequest <==> id in db.requests && !pending)
      && (outcome == Forbidden <==> pending && !allowed)
      && (outcome == ForeignKey <==> allowed && caller.id !in db.directory.users)
      && (outcome == Done <==> allowed && caller.id in db.directory.users)
      && (outcome != Done ==> after == db)
      && (outcome == Done && approve ==>
            && Concluded(db, after, id, caller.id, APPROVED, APPROVE, comment, now)
            && Notified(db, after, id, "审批请求已通过", comment))
      && (outcome == Done && !approve ==>
            && Concluded(db, after, id, caller.id, REJECTED, REJECT, comment, now)
            && Notified(db, after, id, "审批请求已驳回", comment))
  {
    if id in db.requests { AccessExactly(db.directory, db.requests[id], caller); }
  }

  /** Cancelling: who may, when each error comes, and what is written. */
  lemma CancelExactly(db: Db, id: nat, caller: Caller, comment: Option<string>, now: nat)
    ensures var (after, outcome) := Cancel(db, id, caller, comment, now);
      var pending := id in db.requests && db.requests[id].status == PENDING;
      var allowed := pending && MayCancel(db.directory, db.requests[id], caller);
      && (outcome == NotFound <==> id !in db.requests)
      && (outcome == BadRequest <==> id in db.requests && !pending)
      && (outcome == Forbidden <==> pending && !allowed)
      && (outcome == ForeignKey <==> allowed && caller.id !in db.directory.users)
      && (outcome == Done <==> allowed && caller.id in db.directory.users)
      && (outcome != Done ==> after == db)
      && (outcome == Done ==>
            && Concluded(db, after, id, caller.id, CANCELLED, CANCEL, comment, now)
            && Notified(db, after, id, "审批请求已取消", comment))
  {
    if id in db.requests { AccessExactly(db.directory, db.requests[id], caller); }
  }

  /** Commenting: who may, when each error comes, and that one log entry is all that is written. */
  lemma CommentExactly(db: Db, id: nat, caller: Caller, comment: Option<string>)
    ensures var (after, outcome) := Comment(db, id, caller, comment);
      var allowed := id in db.requests && MayView(db.directory, db.requests[id], caller);
      && (outcome == NotFound <==> id !in db.requests)
      && (outcome == Forbidden <==> id in db.requests && !allowed)
      && (outcome == ForeignKey <==> allowed && caller.id !in db.directory.users)
      && (outcome == Done <==> allowed && caller.id in db.directory.users)
      && (outcome != Done ==> after == db)
      && (outcome == Done ==> after == db.(actions := db.actions + [Action(id, caller.id, COMMENT, comment)]))
  {
    if id in db.requests { AccessExactly(db.directory, db.requests[id], caller); }
  }

  // ------------------------------------------------------------------- creating

  /** The body names an existing active user, or an existing enabled role, as its approver type asks. */
  ghost predicate NamesApprover(dir: Directory, dto: CreateDto) {
    match dto.approverType
    case USER =>
      && dto.approverUserId.Some? && dto.approverUserId.value != 0 && dto.approverUserId.value in dir.users
      && dir.users[dto.approverUserId.value].status !in {Some("0"), Some("resigned"), Some("disabled")}
    case ROLE =>
      && dto.approverRoleCode.Some? && dto.approverRoleCode.value != ""
      && dto.approverRoleCode.value in dir.roles && dir.roles[dto.approverRoleCode.value].enabled
  }

  lemma NamesApproverExactly(dir: Directory, dto: CreateDto)
    ensures ApproverAccepted(dir, dto) <==> NamesApprover(dir, dto)
  {
    if dto.approverType == USER && dto.approverUserId.Some? && dto.approverUserId.value in dir.users {
      UserStatus.InactiveExactly(dir.users[dto.approverUserId.value].status);
    }
  }

  /** Creating: when each error comes, and every column of the new request and log entry. */
  lemma CreateExactly(db: Db, dto: CreateDto, applicantId: nat, members: seq<nat>)
    ensures var (after, outcome) := Create(db, dto, applicantId, members);
      var accepted := NamesApprover(db.directory, dto);
      && (outcome == BadRequest <==> !accepted)
      && (outcome == ForeignKey <==> accepted && applicantId !in db.directory.users)
      && (outcome == Done <==> accepted && applicantId in db.directory.users)
      && (outcome != Done ==> after == db)
      && (outcome == Done ==>
            && after.directory == db.directory && after.nextRequest == db.nextRequest + 1
            && after.requests == db.requests[db.nextRequest := Request(
                 dto.title, dto.description, dto.businessType, dto.businessId, applicantId, dto.approverType,
                 if dto.approverType == USER then dto.approverUserId else None,
                 if dto.approverType == ROLE then dto.approverRoleCode else None,
                 PENDING, None)]
            && after.actions == db.actions + [Action(db.nextRequest, applicantId, SUBMIT, None)])
  {
    NamesApproverExactly(db.directory, dto);
  }

  /** Every row a creation adds to the messages is an untouched TODO about the request, from its applicant. */
  lemma CreatedTodoColumns(db: Db, dto: CreateDto, applicantId: nat, members: seq<nat>, m: nat)
    requires Inv(db) && Create(db, dto, applicantId, members).1 == Done
    requires m in Create(db, dto, applicantId, members).0.mail.rows
    ensures var row := Create(db, dto, applicantId, members).0.mail.rows[m];
      if m in db.mail.rows then row == db.mail.rows[m]
      else row == MC.Message(
             row.userId, MC.TODO, "待审批：" + dto.title, dto.description,
             Some("approval_request"), Some(Decimal(db.nextRequest)), Some(applicantId), None, None, None)
  {
    var users, draft := Recipients(dto, members), TodoDraft(db.nextRequest, dto, applicantId);
    MC.InsertTodosKeys(db.mail, users, draft);
    if m !in db.mail.rows { ME.InsertTodosExactly(db.mail, users, draft, m - db.mail.nextId); }
  }

  // ------------------------------------------------------------- deleting users

  /** Deleting users: when it is refused, and what goes, row by row and column by column. */
  lemma DeleteUsersExactly(db: Db, ids: set<nat>, currentUser: Option<nat>, refused: bool, user: nat, id: nat, m: nat)
    ensures var (after, outcome) := DeleteUsers(db, ids, currentUser, refused);
      var gone := ids * db.directory.users.Keys;
      var self := currentUser.Some? && currentUser.value != 0 && currentUser.value in ids;
      var needed := refused || (exists r :: r in db.requests && db.requests[r].applicantId in gone)
                    || (exists a :: a in db.actions && a.actorId in gone);
      && (outcome == BadRequest <==> self)
      && (outcome == ForeignKey <==> !self && needed)
      && (outcome == Done <==> !self && !needed)
      && (outcome != Done ==> after == db)
      && (outcome == Done ==>
            && (user in after.directory.users <==> user in db.directory.users && user !in ids)
            && (user in after.directory.users ==> after.directory.users[user] == db.directory.users[user])
            && after.directory.roles == db.directory.roles
            && after.nextRequest == db.nextRequest && after.actions == db.actions && after.mail.nextId == db.mail.nextId
            && (id in after.requests <==> id in db.requests)
            && (id in db.requests ==>
                  var named := db.requests[id].approverUserId;
                  after.requests[id] == db.requests[id].(
                    approverUserId := if named.Some? && named.value in gone then None else named))
            && (m in after.mail.rows <==> m in db.mail.rows && db.mail.rows[m].userId !in gone)
            && (m in after.mail.rows ==>
                  var creator := db.mail.rows[m].createdById;
                  after.mail.rows[m] == db.mail.rows[m].(
                    createdById := if creator.Some? && creator.value in gone then None else creator)))
  {
    var gone := ids * db.directory.users.Keys;
    assert (exists i :: 0 <= i < |db.actions| && db.actions[i].actorId in gone) <==>
           (exists a :: a in db.actions && a.actorId in gone) by {
      if i :| 0 <= i < |db.actions| && db.actions[i].actorId in gone { assert db.actions[i] in db.actions; }
    }
  }

  // ---------------------------------------------------------- notices over runs

  lemma OneVerdict(log: seq<Action>, status: Status, i: nat)
    requires Replay(log) == Some(status) && i < |log|
    ensures log[i].action == APPROVE ==> status == APPROVED
    ensures log[i].action == REJECT ==> status == REJECTED
    ensures log[i].action == CANCEL ==> status == CANCELLED
  {
    ReplayMeaning(log, status);
    var k :| LogShape(log, status, k);
  }

  /** In every reachable state the notice of a closed request tells the verdict that its log holds. */
  lemma ReachableNoticeTitle(dir: Directory, events: seq<Event>, id: nat, i: nat, n: nat)
    requires 0 !in dir.users && Runnable(Initial(dir), events)
    requires var db := After(Initial(dir), events);
      && id in db.requests && i < |Log(db.actions, id)|
      && n in db.mail.rows && db.mail.rows[n].kind == MC.NOTIFICATION
      && db.mail.rows[n].businessType == Some("approval_request") && db.mail.rows[n].businessId == Some(Decimal(id))
    ensures var db := After(Initial(dir), events);
      var title, action := db.mail.rows[n].title, Log(db.actions, id)[i].action;
      && db.mail.rows[n].userId == db.requests[id].applicantId
      && (action == APPROVE ==> title == "审批请求已通过")
      && (action == REJECT ==> title == "审批请求已驳回")
      && (action == CANCEL ==> title == "审批请求已取消")
  {
    var db := After(Initial(dir), events);
    ReachableInv(dir, events);
    assert Sound(db, id);
    assert n in Notices(Letters(db.mail, id));
    OneVerdict(Log(db.actions, id), db.requests[id].status, i);
  }
}
