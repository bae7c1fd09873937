/**
 Approval requests, their action log and the messages they produce, as values.
 Every public call of the service is one step on this state; a call that raises
 an error leaves the state as it was.
*/
module ApprovalModel {
  import opened Base
  import opened UserStatus
  import opened Directory
  import MC = MessageCenter

  const APPROVAL_BUSINESS_TYPE := "approval_request"
  const MANAGE_PERMISSION := "approval.requests.manage"
  const CANCEL_PERMISSION := "approval.requests.cancel"

  datatype Status = PENDING | APPROVED | REJECTED | CANCELLED

  datatype ActionType = SUBMIT | APPROVE | REJECT | CANCEL | COMMENT

  datatype ApproverType = USER | ROLE

  datatype Request = Request(
    title: string, description: Option<string>, businessType: string, businessId: Option<string>,
    applicantId: nat, approverType: ApproverType,
    approverUserId: Option<nat>, approverRoleCode: Option<string>,
    status: Status, decidedAt: Option<nat>)

  datatype Action = Action(requestId: nat, actorId: nat, action: ActionType, comment: Option<string>)

  datatype CreateDto = CreateDto(
    title: string, description: Option<string>, businessType: string, businessId: Option<string>,
    approverType: ApproverType, approverUserId: Option<nat>, approverRoleCode: Option<string>)

  datatype Caller = Caller(id: nat, isAdmin: bool)

  datatype Db = Db(
    directory: Directory, requests: map<nat, Request>, nextRequest: nat,
    actions: seq<Action>, mail: MC.Mailbox)

  datatype Outcome = Done | NotFound | Forbidden | BadRequest | ForeignKey

  // ------------------------------------------------------------ access checks

  predicate IsApprover(dir: Directory, r: Request, caller: Caller) {
    || caller.isAdmin
    || (r.approverType == USER && r.approverUserId == Some(caller.id))
    || (r.approverType == ROLE && Truthy(r.approverRoleCode)
        && r.approverRoleCode.value in RoleCodes(dir, caller.id))
  }

  predicate CanManage(dir: Directory, caller: Caller) {
    caller.isAdmin || HasPermission(dir, caller.id, MANAGE_PERMISSION)
  }

  predicate CanView(dir: Directory, r: Request, caller: Caller) {
    CanManage(dir, caller) || r.applicantId == caller.id || IsApprover(dir, r, caller)
  }

  predicate CanCancel(dir: Directory, r: Request, caller: Caller) {
    || r.applicantId == caller.id
    || caller.isAdmin
    || HasPermission(dir, caller.id, CANCEL_PERMISSION)
    || HasPermission(dir, caller.id, MANAGE_PERMISSION)
  }

  /** assertValidApprover and assertApproverExists. */
  predicate ApproverAccepted(dir: Directory, dto: CreateDto) {
    match dto.approverType
    case USER =>
      && NonZero(dto.approverUserId)
      && dto.approverUserId.value in dir.users
      && IsUserActive(dir.users[dto.approverUserId.value].status)
    case ROLE =>
      Truthy(dto.approverRoleCode) && RoleEnabled(dir, dto.approverRoleCode.value)
  }

  // --------------------------------------------------------------------- steps

  function NewRequest(dto: CreateDto, applicantId: nat): Request {
    Request(dto.title, dto.description, dto.businessType, dto.businessId, applicantId, dto.approverType,
            if dto.approverType == USER then dto.approverUserId else None,
            if dto.approverType == ROLE then dto.approverRoleCode else None,
            PENDING, None)
  }

  const TODO_PREFIX := "待审批："

  function TodoDraft(id: nat, dto: CreateDto, applicantId: nat): MC.Draft {
    MC.Draft(0, TODO_PREFIX + dto.title, dto.description,
             Some(APPROVAL_BUSINESS_TYPE), Some(Decimal(id)), Some(applicantId))
  }

  /** The users that get a TODO: the named user, or the role members in the order the query returned them. */
  function Recipients(dto: CreateDto, members: seq<nat>): seq<nat> {
    match dto.approverType
    case USER => if NonZero(dto.approverUserId) then [dto.approverUserId.value] else []
    case ROLE => if Truthy(dto.approverRoleCode) then members else []
  }

  function Create(db: Db, dto: CreateDto, applicantId: nat, members: seq<nat>): (Db, Outcome) {
    if !ApproverAccepted(db.directory, dto) then (db, BadRequest)
    else if applicantId !in db.directory.users then (db, ForeignKey)
    else
      var id := db.nextRequest;
      (db.(requests := db.requests[id := NewRequest(dto, applicantId)],
           nextRequest := id + 1,
           actions := db.actions + [Action(id, applicantId, SUBMIT, None)],
           mail := MC.InsertTodos(db.mail, Recipients(dto, members), TodoDraft(id, dto, applicantId))),
       Done)
  }

  /** The title of the notice the applicant gets. */
  function NoticeTitle(status: Status): string {
    match status
    case APPROVED => "审批请求已通过"
    case CANCELLED => "审批请求已取消"
    case _ => "审批请求已驳回"
  }

  function NoticeDraft(id: nat, applicantId: nat, status: Status, comment: Option<string>): MC.Draft {
    MC.Draft(applicantId, NoticeTitle(status), comment,
             Some(APPROVAL_BUSINESS_TYPE), Some(Decimal(id)), None)
  }

  /** Writes the verdict: the request row, its log entry and the notice to the applicant. */
  function Conclude(db: Db, id: nat, actor: nat, status: Status, action: ActionType,
                    comment: Option<string>, now: nat, mail: MC.Mailbox): Db
    requires id in db.requests
  {
    var r := db.requests[id];
    db.(requests := db.requests[id := r.(status := status, decidedAt := Some(now))],
        actions := db.actions + [Action(id, actor, action, comment)],
        mail := MC.Insert(mail, NoticeDraft(id, r.applicantId, status, comment), MC.NOTIFICATION))
  }

  function Decide(db: Db, id: nat, caller: Caller, approve: bool, comment: Option<string>, now: nat): (Db, Outcome) {
    if id !in db.requests then (db, NotFound)
    else if db.requests[id].status != PENDING then (db, BadRequest)
    else if !IsApprover(db.directory, db.requests[id], caller) then (db, Forbidden)
    else if caller.id !in db.directory.users then (db, ForeignKey)
    else
      var done := MC.CompleteBusinessTodos(db.mail, APPROVAL_BUSINESS_TYPE, Decimal(id), caller.id, now);
      var closed := MC.CancelBusinessTodos(done, APPROVAL_BUSINESS_TYPE, Decimal(id), caller.id, now);
      (Conclude(db, id, caller.id, if approve then APPROVED else REJECTED,
                if approve then APPROVE else REJECT, comment, now, closed), Done)
  }

  function Cancel(db: Db, id: nat, caller: Caller, comment: Option<string>, now: nat): (Db, Outcome) {
    if id !in db.requests then (db, NotFound)
    else if db.requests[id].status != PENDING then (db, BadRequest)
    else if !CanCancel(db.directory, db.requests[id], caller) then (db, Forbidden)
    else if caller.id !in db.directory.users then (db, ForeignKey)
    else
      var closed := MC.CancelBusinessTodos(db.mail, APPROVAL_BUSINESS_TYPE, Decimal(id), 0, now);
      (Conclude(db, id, caller.id, CANCELLED, CANCEL, comment, now, closed), Done)
  }

  function Comment(db: Db, id: nat, caller: Caller, comment: Option<string>): (Db, Outcome) {
    if id !in db.requests then (db, NotFound)
    else if !CanView(db.directory, db.requests[id], caller) then (db, Forbidden)
    else if caller.id !in db.directory.users then (db, ForeignKey)
    else (db.(actions := db.actions + [Action(id, caller.id, COMMENT, comment)]), Done)
  }

  // -------------------------------------------------------------- deleting users

  /** Foreign keys that forbid deleting these users: they applied for a request or acted on one. */
  predicate StillReferred(db: Db, gone: set<nat>) {
    || (exists id :: id in db.requests && db.requests[id].applicantId in gone)
    || (exists i :: 0 <= i < |db.actions| && db.actions[i].actorId in gone)
  }

  /** A request whose named approver is deleted keeps its type and loses the approver. */
  function WithoutApprover(r: Request, gone: set<nat>): Request {
    if r.approverUserId.Some? && r.approverUserId.value in gone then r.(approverUserId := None) else r
  }

  /**
   removeByIds and remove, with what the foreign keys make of it in these tables;
   `refused` stands for rows of other tables that still refer to one of the users.
  */
  function DeleteUsers(db: Db, ids: set<nat>, currentUser: Option<nat>, refused: bool): (Db, Outcome) {
    var gone := ids * db.directory.users.Keys;
    if NonZero(currentUser) && currentUser.value in ids then (db, BadRequest)
    else if StillReferred(db, gone) || refused then (db, ForeignKey)
    else
      (db.(directory := db.directory.(users := db.directory.users - gone),
           requests := map id | id in db.requests :: WithoutApprover(db.requests[id], gone),
           mail := MC.DropUsers(db.mail, gone)), Done)
  }

  // ---------------------------------------------------------------------- runs

  datatype Op =
    | OpCreate(dto: CreateDto, applicantId: nat, members: seq<nat>)
    | OpDecide(id: nat, caller: Caller, approve: bool, comment: Option<string>)
    | OpCancel(id: nat, caller: Caller, comment: Option<string>)
    | OpComment(id: nat, caller: Caller, comment: Option<string>)
    | OpMessage(call: MC.Call)
    | OpDirectory(directory: Directory)
    | OpDeleteUsers(ids: set<nat>, currentUser: Option<nat>, refused: bool)

  function Apply(db: Db, op: Op, now: nat): (Db, Outcome) {
    match op
    case OpCreate(dto, applicant, members) => Create(db, dto, applicant, members)
    case OpDecide(id, caller, approve, comment) => Decide(db, id, caller, approve, comment, now)
    case OpCancel(id, caller, comment) => Cancel(db, id, caller, comment, now)
    case OpComment(id, caller, comment) => Comment(db, id, caller, comment)
    case OpMessage(call) => (db.(mail := MC.Perform(db.mail, call, now)), Done)
    case OpDirectory(dir) => (db.(directory := dir), Done)
    case OpDeleteUsers(ids, currentUser, refused) => DeleteUsers(db, ids, currentUser, refused)
  }

  /**
   The message calls the rest of the system makes: users act on single messages,
   other modules create and bulk-update messages under their own business type.
  */
  predicate ForeignCall(call: MC.Call) {
    match call
    case CallCreateNotification(draft) => draft.businessType != Some(APPROVAL_BUSINESS_TYPE)
    case CallCreateTodo(draft) => draft.businessType != Some(APPROVAL_BUSINESS_TYPE)
    case CallCreateTodoForRole(_, draft) => draft.businessType != Some(APPROVAL_BUSINESS_TYPE)
    case CallCompleteBusinessTodos(businessType, _, _) => businessType != APPROVAL_BUSINESS_TYPE
    case CallCancelBusinessTodos(businessType, _, _) => businessType != APPROVAL_BUSINESS_TYPE
    case _ => true
  }

  /**
   What may happen next: the member list is what the fan-out query returns, message calls
   stay within their business type, and a change of users and roles drops no user, since
   deleting users is a call of its own. Ids come from an autoincrement column, so they are positive.
  */
  ghost predicate Enabled(db: Db, op: Op) {
    match op
    case OpCreate(dto, _, members) =>
      dto.approverType == ROLE && Truthy(dto.approverRoleCode)
      ==> Enumerates(members, RoleMembers(db.directory, dto.approverRoleCode.value))
    case OpMessage(call) => ForeignCall(call)
    case OpDirectory(dir) =>
      db.directory.users.Keys <= dir.users.Keys && 0 !in dir.users
    case _ => true
  }

  datatype Event = Event(op: Op, now: nat)

  ghost predicate Runnable(db: Db, events: seq<Event>)
    decreases |events|
  {
    events != [] ==>
      Enabled(db, events[0].op) && Runnable(Apply(db, events[0].op, events[0].now).0, events[1..])
  }

  /** The users an operation deletes. */
  function DeletedBy(db: Db, op: Op): set<nat> {
    match op
    case OpDeleteUsers(ids, currentUser, refused) =>
      if DeleteUsers(db, ids, currentUser, refused).1 == Done then ids * db.directory.users.Keys else {}
    case _ => {}
  }

  /** The users a run deletes. */
  function DeletedIn(db: Db, events: seq<Event>): set<nat>
    decreases |events|
  {
    if events == [] then {}
    else
      DeletedBy(db, events[0].op) + DeletedIn(Apply(db, events[0].op, events[0].now).0, events[1..])
  }

  function After(db: Db, events: seq<Event>): Db
    decreases |events|
  {
    if events == [] then db
    else After(Apply(db, events[0].op, events[0].now).0, events[1..])
  }

  function Initial(dir: Directory): Db {
    Db(dir, map[], 1, [], MC.Mailbox(map[], 1))
  }
}
