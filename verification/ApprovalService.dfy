/** The approval service: methods that change the request and action tables in place. */
module ApprovalService {
  import opened Base
  import opened UserStatus
  import opened Directory
  import opened ApprovalModel
  import opened ApprovalInvariants
  import opened ApprovalSteps
  import MC = MessageCenter
  import MS = MessagesService

  class ApprovalRequestsService {
    var directory: Directory
    var requests: map<nat, Request>
    var nextRequest: nat
    var actions: seq<Action>
    const messagesService: MS.MessagesService

    constructor (directory: Directory, messagesService: MS.MessagesService)
      requires 0 !in directory.users && messagesService.Box() == MC.Mailbox(map[], 1)
      ensures this.messagesService == messagesService
      ensures State() == Initial(directory) && Valid()
    {
      this.directory := directory;
      this.messagesService := messagesService;
      requests, nextRequest, actions := map[], 1, [];
    }

    function State(): Db
      reads this, messagesService
    {
      Db(directory, requests, nextRequest, actions, messagesService.Box())
    }

    ghost predicate Valid()
      reads this, messagesService
    {
      Inv(State())
    }

    method UserHasPermission(userId: nat, code: string) returns (granted: bool)
      ensures granted == HasPermission(directory, userId, code)
    {
      granted := exists role :: role in RoleCodes(directory, userId) && role in directory.roles
                                && code in directory.roles[role].permissions;
    }

    method CanManageApprovals(caller: Caller) returns (allowed: bool)
      ensures allowed == CanManage(directory, caller)
    {
      allowed := caller.isAdmin;
      if !allowed {
        allowed := UserHasPermission(caller.id, MANAGE_PERMISSION);
      }
    }

    method CheckApprover(request: Request, caller: Caller) returns (approver: bool)
      ensures approver == IsApprover(directory, request, caller)
    {
      if caller.isAdmin {
        return true;
      }
      if request.approverType == USER && request.approverUserId == Some(caller.id) {
        return true;
      }
      if request.approverType == ROLE && Truthy(request.approverRoleCode) {
        var roleCodes := RoleCodes(directory, caller.id);
        return request.approverRoleCode.value in roleCodes;
      }
      return false;
    }

    method AssertCanView(request: Request, caller: Caller) returns (outcome: Outcome)
      ensures outcome == if CanView(directory, request, caller) then Done else Forbidden
    {
      var manager := CanManageApprovals(caller);
      if manager {
        return Done;
      }
      if request.applicantId == caller.id {
        return Done;
      }
      var approver := CheckApprover(request, caller);
      if approver {
        return Done;
      }
      return Forbidden;
    }

    method FindOne(id: nat, caller: Caller) returns (outcome: Outcome, request: Option<Request>)
      ensures outcome == NotFound <==> id !in requests
      ensures outcome == Done <==> id in requests && CanView(directory, requests[id], caller)
      ensures outcome in {Done, NotFound, Forbidden}
      ensures request == if outcome == Done then Some(requests[id]) else None
    {
      if id !in requests {
        return NotFound, None;
      }
      outcome := AssertCanView(requests[id], caller);
      request := if outcome == Done then Some(requests[id]) else None;
    }

    method AssertApprover(dto: CreateDto) returns (outcome: Outcome)
      ensures outcome == if ApproverAccepted(directory, dto) then Done else BadRequest
    {
      if dto.approverType == USER && !NonZero(dto.approverUserId) {
        return BadRequest;
      }
      if dto.approverType == ROLE && !Truthy(dto.approverRoleCode) {
        return BadRequest;
      }
      if dto.approverType == USER && NonZero(dto.approverUserId) {
        var user := dto.approverUserId.value;
        if user !in directory.users || !IsUserActive(directory.users[user].status) {
          return BadRequest;
        }
      }
      if dto.approverType == ROLE && Truthy(dto.approverRoleCode) {
        var code := dto.approverRoleCode.value;
        if code !in directory.roles || !directory.roles[code].enabled {
          return BadRequest;
        }
      }
      return Done;
    }

    method CreateApprovalTodos(id: nat, dto: CreateDto, applicantId: nat) returns (ghost members: seq<nat>)
      requires messagesService.Valid()
      modifies messagesService
      ensures dto.approverType == ROLE && Truthy(dto.approverRoleCode)
              ==> Enumerates(members, RoleMembers(directory, dto.approverRoleCode.value))
      ensures messagesService.Box()
              == MC.InsertTodos(old(messagesService.Box()), Recipients(dto, members), TodoDraft(id, dto, applicantId))
    {
      var input := TodoDraft(id, dto, applicantId);
      members := [];
      if dto.approverType == USER && NonZero(dto.approverUserId) {
        messagesService.CreateTodo(input.(userId := dto.approverUserId.value));
        return;
      }
      if dto.approverType == ROLE && Truthy(dto.approverRoleCode) {
        var _, users := messagesService.CreateTodoForRole(directory, dto.approverRoleCode.value, input);
        members := users;
      }
    }

    /** `members` is the order in which the fan-out query returned the role's users. */
    method Create(dto: CreateDto, applicantId: nat) returns (outcome: Outcome, ghost members: seq<nat>)
      requires Valid()
      modifies this, messagesService
      ensures Valid()
      ensures outcome == Done ==> old(Enabled(State(), OpCreate(dto, applicantId, members)))
      ensures (State(), outcome) == ApprovalModel.Create(old(State()), dto, applicantId, members)
    {
      members := [];
      outcome := AssertApprover(dto);
      if outcome != Done {
        return;
      }
      if applicantId !in directory.users {
        return ForeignKey, members;
      }
      var id := nextRequest;
      requests := requests[id := Request(
        dto.title, dto.description, dto.businessType, dto.businessId, applicantId, dto.approverType,
        if dto.approverType == USER then dto.approverUserId else None,
        if dto.approverType == ROLE then dto.approverRoleCode else None,
        PENDING, None)];
      nextRequest := nextRequest + 1;
      actions := actions + [Action(id, applicantId, SUBMIT, None)];
      members := CreateApprovalTodos(id, dto, applicantId);
      CreateKeepsInv(old(State()), dto, applicantId, members);
    }

    method NotifyApplicant(id: nat, title: string, content: Option<string>)
      requires messagesService.Valid()
      modifies messagesService
      ensures messagesService.Valid()
      ensures id !in requests ==> messagesService.Box() == old(messagesService.Box())
      ensures id in requests ==> messagesService.Box() == MC.Insert(old(messagesService.Box()),
        MC.Draft(requests[id].applicantId, title, content, Some(APPROVAL_BUSINESS_TYPE), Some(Decimal(id)), None),
        MC.NOTIFICATION)
    {
      if id !in requests {
        return;
      }
      messagesService.CreateNotification(MC.Draft(
        requests[id].applicantId, title, content, Some(APPROVAL_BUSINESS_TYPE), Some(Decimal(id)), None));
    }

    method Decide(id: nat, caller: Caller, status: Status, action: ActionType, comment: Option<string>, now: nat)
      returns (outcome: Outcome)
      requires Valid()
      requires (status == APPROVED && action == APPROVE) || (status == REJECTED && action == REJECT)
      modifies this, messagesService
      ensures Valid()
      ensures (State(), outcome) == ApprovalModel.Decide(old(State()), id, caller, status == APPROVED, comment, now)
    {
      if id !in requests {
        return NotFound;
      }
      var request := requests[id];
      if request.status != PENDING {
        return BadRequest;
      }
      var approver := CheckApprover(request, caller);
      if !approver {
        return Forbidden;
      }
      if caller.id !in directory.users {
        return ForeignKey;
      }
      requests := requests[id := request.(status := status, decidedAt := Some(now))];
      actions := actions + [Action(id, caller.id, action, comment)];
      messagesService.CompleteBusinessTodos(APPROVAL_BUSINESS_TYPE, Decimal(id), caller.id, now);
      messagesService.CancelBusinessTodos(APPROVAL_BUSINESS_TYPE, Decimal(id), caller.id, now);
      NotifyApplicant(id, if status == APPROVED then "审批请求已通过" else "审批请求已驳回", comment);
      DecideKeepsInv(old(State()), id, caller, status == APPROVED, comment, now);
      return Done;
    }

    method Approve(id: nat, caller: Caller, comment: Option<string>, now: nat) returns (outcome: Outcome)
      requires Valid()
      modifies this, messagesService
      ensures Valid()
      ensures (State(), outcome) == ApprovalModel.Decide(old(State()), id, caller, true, comment, now)
    {
      outcome := Decide(id, caller, APPROVED, APPROVE, comment, now);
    }

    method Reject(id: nat, caller: Caller, comment: Option<string>, now: nat) returns (outcome: Outcome)
      requires Valid()
      modifies this, messagesService
      ensures Valid()
      ensures (State(), outcome) == ApprovalModel.Decide(old(State()), id, caller, false, comment, now)
    {
      outcome := Decide(id, caller, REJECTED, REJECT, comment, now);
    }

    method Cancel(id: nat, caller: Caller, comment: Option<string>, now: nat) returns (outcome: Outcome)
      requires Valid()
      modifies this, messagesService
      ensures Valid()
      ensures (State(), outcome) == ApprovalModel.Cancel(old(State()), id, caller, comment, now)
    {
      if id !in requests {
        return NotFound;
      }
      var request := requests[id];
      if request.status != PENDING {
        return BadRequest;
      }
      var canCancelAny := caller.isAdmin;
      if !canCancelAny {
        canCancelAny := UserHasPermission(caller.id, CANCEL_PERMISSION);
      }
      if !canCancelAny {
        canCancelAny := UserHasPermission(caller.id, MANAGE_PERMISSION);
      }
      if request.applicantId != caller.id && !canCancelAny {
        return Forbidden;
      }
      if caller.id !in directory.users {
        return ForeignKey;
      }
      requests := requests[id := request.(status := CANCELLED, decidedAt := Some(now))];
      actions := actions + [Action(id, caller.id, CANCEL, comment)];
      messagesService.CancelBusinessTodos(APPROVAL_BUSINESS_TYPE, Decimal(id), 0, now);
      NotifyApplicant(id, "审批请求已取消", comment);
      CancelKeepsInv(old(State()), id, caller, comment, now);
      return Done;
    }

    method Comment(id: nat, caller: Caller, comment: Option<string>) returns (outcome: Outcome)
      requires Valid()
      modifies this
      ensures Valid()
      ensures (State(), outcome) == ApprovalModel.Comment(old(State()), id, caller, comment)
    {
      if id !in requests {
        return NotFound;
      }
      outcome := AssertCanView(requests[id], caller);
      if outcome != Done {
        return;
      }
      if caller.id !in directory.users {
        return ForeignKey;
      }
      actions := actions + [Action(id, caller.id, COMMENT, comment)];
      CommentKeepsInv(old(State()), id, caller, comment);
    }
  }
}
