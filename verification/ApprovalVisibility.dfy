/** Who sees which request: the list filter against the per-request access check. */
module ApprovalVisibility {
  import opened Base
  import opened Directory
  import opened ApprovalModel
  import opened ApprovalInvariants
  import opened ApprovalSteps
  import opened ApprovalEffects

  datatype Query = Query(
    status: Option<Status>, businessType: Option<string>, applicantId: Option<nat>,
    approverRoleCode: Option<string>, mine: bool, pendingForMe: bool, keyword: Option<string>)

  const EMPTY_QUERY := Query(None, None, None, None, false, false, None)
  const PENDING_FOR_ME_QUERY := EMPTY_QUERY.(pendingForMe := true)

  datatype TextColumn = Title | Description | BusinessType | BusinessId

  datatype Clause =
    | ApplicantIs(userId: nat)
    | ApproverUserIs(userId: nat)
    | ApproverRoleIn(codes: set<string>)
    | Contains(column: TextColumn, keyword: string)

  /** The filter object; an absent field does not restrict, `anyOf` is the OR list. */
  datatype Where = Where(
    status: Option<Status>, businessType: Option<string>, applicantId: Option<nat>,
    approverRoleCode: Option<string>, anyOf: Option<seq<Clause>>)

  /** Case-insensitive substring search is the database's; it is any relation here. */
  type TextSearch = (string, string) -> bool

  function Text(r: Request, column: TextColumn): Option<string> {
    match column
    case Title => Some(r.title)
    case Description => r.description
    case BusinessType => Some(r.businessType)
    case BusinessId => r.businessId
  }

  predicate Satisfies(r: Request, clause: Clause, search: TextSearch) {
    match clause
    case ApplicantIs(user) => r.applicantId == user
    case ApproverUserIs(user) => r.approverUserId == Some(user)
    case ApproverRoleIn(codes) => r.approverRoleCode.Some? && r.approverRoleCode.value in codes
    case Contains(column, keyword) =>
      Text(r, column).Some? && search(Text(r, column).value, keyword)
  }

  predicate Selects(w: Where, r: Request, search: TextSearch) {
    && (w.status.Some? ==> r.status == w.status.value)
    && (w.businessType.Some? ==> r.businessType == w.businessType.value)
    && (w.applicantId.Some? ==> r.applicantId == w.applicantId.value)
    && (w.approverRoleCode.Some? ==> r.approverRoleCode == w.approverRoleCode)
    && (w.anyOf.Some? ==> exists i :: 0 <= i < |w.anyOf.value| && Satisfies(r, w.anyOf.value[i], search))
  }

  function ApproverWhere(user: nat, roleCodes: set<string>): seq<Clause> {
    [ApproverUserIs(user)] + if roleCodes != {} then [ApproverRoleIn(roleCodes)] else []
  }

  /** buildWhere: assigns the filter's fields one after the other, with its early returns. */
  method BuildWhere(query: Query, caller: Caller, roleCodes: set<string>, canManage: bool) returns (w: Where)
    ensures w == WhereOf(query, caller, roleCodes, canManage)
  {
    w := Where(None, None, None, None, None);
    if query.status.Some? {
      w := w.(status := query.status);
    }
    if Truthy(query.businessType) {
      w := w.(businessType := query.businessType);
    }
    if NonZero(query.applicantId) {
      w := w.(applicantId := query.applicantId);
    }
    if Truthy(query.approverRoleCode) {
      w := w.(approverRoleCode := query.approverRoleCode);
    }
    if Truthy(query.keyword) {
      var k := query.keyword.value;
      w := w.(anyOf := Some([Contains(Title, k), Contains(Description, k),
                             Contains(BusinessType, k), Contains(BusinessId, k)]));
    }
    if query.mine {
      w := w.(applicantId := Some(caller.id));
      return w;
    }
    if query.pendingForMe {
      w := w.(status := Some(PENDING));
      w := w.(anyOf := Some(ApproverWhere(caller.id, roleCodes)));
      return w;
    }
    if !canManage {
      w := w.(anyOf := Some([ApplicantIs(caller.id)] + ApproverWhere(caller.id, roleCodes)));
    }
  }

  /** The filter field by field: which part of the query decides each column. */
  function WhereOf(query: Query, caller: Caller, roleCodes: set<string>, canManage: bool): Where {
    var mine, pending := query.mine, !query.mine && query.pendingForMe;
    Where(
      if pending then Some(PENDING) else query.status,
      if Truthy(query.businessType) then query.businessType else None,
      if mine then Some(caller.id) else if NonZero(query.applicantId) then query.applicantId else None,
      if Truthy(query.approverRoleCode) then query.approverRoleCode else None,
      if pending then Some(ApproverWhere(caller.id, roleCodes))
      else if !mine && !canManage then Some([ApplicantIs(caller.id)] + ApproverWhere(caller.id, roleCodes))
      else if Truthy(query.keyword) then
        var k := query.keyword.value;
        Some([Contains(Title, k), Contains(Description, k), Contains(BusinessType, k), Contains(BusinessId, k)])
      else None)
  }

  /** The ids of the rows findAll selects for this caller, over all its pages. */
  ghost function Found(db: Db, query: Query, caller: Caller, search: TextSearch): set<nat> {
    set id | id in db.requests &&
             Selects(WhereOf(query, caller, RoleCodes(db.directory, caller.id), CanManage(db.directory, caller)),
                     db.requests[id], search)
  }

  /** A row some approver clause selects is one the caller approves, and for a non-admin conversely. */
  lemma ApproverClauses(dir: Directory, r: Request, caller: Caller, search: TextSearch)
    requires ApproverShape(dir, r)
    ensures var clauses := ApproverWhere(caller.id, RoleCodes(dir, caller.id));
      var selected := exists i :: 0 <= i < |clauses| && Satisfies(r, clauses[i], search);
      && (selected ==> IsApprover(dir, r, caller))
      && (!caller.isAdmin ==> (selected <==> IsApprover(dir, r, caller)))
  {
    var codes := RoleCodes(dir, caller.id);
    var clauses := ApproverWhere(caller.id, codes);
    assert clauses[0] == ApproverUserIs(caller.id);
    if codes != {} { assert clauses[1] == ApproverRoleIn(codes); }
    if r.approverType == USER && r.approverUserId == Some(caller.id) {
      assert Satisfies(r, clauses[0], search);
    }
    if r.approverType == ROLE && r.approverRoleCode.value in codes {
      assert Satisfies(r, clauses[1], search);
    }
  }

  /** The clause list of a caller without the manage permission selects what that caller may view. */
  lemma OwnerOrApproverClauses(dir: Directory, r: Request, caller: Caller, search: TextSearch)
    requires ApproverShape(dir, r) && !CanManage(dir, caller)
    ensures var clauses := [ApplicantIs(caller.id)] + ApproverWhere(caller.id, RoleCodes(dir, caller.id));
      (exists i :: 0 <= i < |clauses| && Satisfies(r, clauses[i], search)) <==> CanView(dir, r, caller)
  {
    var approver := ApproverWhere(caller.id, RoleCodes(dir, caller.id));
    var clauses := [ApplicantIs(caller.id)] + approver;
    ApproverClauses(dir, r, caller, search);
    if i :| 0 <= i < |clauses| && Satisfies(r, clauses[i], search) {
      if i > 0 { assert Satisfies(r, approver[i - 1], search); }
    }
    if CanView(dir, r, caller) {
      if r.applicantId == caller.id {
        assert Satisfies(r, clauses[0], search);
      } else {
        var i :| 0 <= i < |approver| && Satisfies(r, approver[i], search);
        assert clauses[i + 1] == approver[i];
      }
    }
  }

  /** Whatever the query, findAll only selects rows findOne lets the caller view. */
  lemma ListedIsViewable(db: Db, query: Query, caller: Caller, search: TextSearch, id: nat)
    requires Inv(db) && id in Found(db, query, caller, search)
    ensures CanView(db.directory, db.requests[id], caller)
  {
    assert Sound(db, id);
    ApproverClauses(db.directory, db.requests[id], caller, search);
    if !CanManage(db.directory, caller) {
      OwnerOrApproverClauses(db.directory, db.requests[id], caller, search);
    }
  }

  /** With the empty query findAll selects exactly the rows findOne lets the caller view. */
  lemma EmptyQueryListsViewable(db: Db, caller: Caller, search: TextSearch)
    requires Inv(db)
    ensures Found(db, EMPTY_QUERY, caller, search)
            == set id | id in db.requests && CanView(db.directory, db.requests[id], caller)
  {
    forall id | id in db.requests
      ensures id in Found(db, EMPTY_QUERY, caller, search) <==> CanView(db.directory, db.requests[id], caller)
    {
      assert Sound(db, id);
      if !CanManage(db.directory, caller) {
        OwnerOrApproverClauses(db.directory, db.requests[id], caller, search);
      }
    }
  }

  /** The requests on which this caller's approve or reject would go through. */
  ghost function Decidable(db: Db, caller: Caller, approve: bool, now: nat): set<nat> {
    set id | id in db.requests && Decide(db, id, caller, approve, None, now).1 == Done
  }

  /** A non-admin's pendingForMe list is exactly what that caller can approve, and can reject. */
  lemma PendingForMeIsDecidable(db: Db, caller: Caller, approve: bool, now: nat, search: TextSearch)
    requires Inv(db) && !caller.isAdmin
    ensures Found(db, PENDING_FOR_ME_QUERY, caller, search) == Decidable(db, caller, approve, now)
  {
    forall id | id in db.requests
      ensures id in Found(db, PENDING_FOR_ME_QUERY, caller, search) <==> id in Decidable(db, caller, approve, now)
    {
      assert Sound(db, id);
      ApproverClauses(db.directory, db.requests[id], caller, search);
    }
  }

  /** An admin can decide every pending request; the list names only those sent to the admin. */
  lemma PendingForMeOfAdmin(db: Db, caller: Caller, approve: bool, now: nat, search: TextSearch)
    requires Inv(db) && caller.isAdmin && caller.id in db.directory.users
    ensures Found(db, PENDING_FOR_ME_QUERY, caller, search) <= Decidable(db, caller, approve, now)
    ensures Decidable(db, caller, approve, now) == set id | id in db.requests && db.requests[id].status == PENDING
    ensures Found(db, PENDING_FOR_ME_QUERY, caller, search) == Decidable(db, caller, approve, now) <==>
            forall id :: id in db.requests && db.requests[id].status == PENDING ==>
              IsApprover(db.directory, db.requests[id], caller.(isAdmin := false))
  {
    forall id | id in db.requests
      ensures id in Found(db, PENDING_FOR_ME_QUERY, caller, search) <==>
              db.requests[id].status == PENDING
              && IsApprover(db.directory, db.requests[id], caller.(isAdmin := false))
    {
      assert Sound(db, id);
      ApproverClauses(db.directory, db.requests[id], caller.(isAdmin := false), search);
    }
  }

  /** Both halves of the agreement, in every state a run from the empty tables reaches. */
  lemma ReachableListAgrees(dir: Directory, events: seq<Event>, query: Query, caller: Caller, search: TextSearch)
    requires 0 !in dir.users && Runnable(Initial(dir), events)
    ensures var db := After(Initial(dir), events);
      && (forall id :: id in Found(db, query, caller, search) ==>
            id in db.requests && CanView(db.directory, db.requests[id], caller))
      && Found(db, EMPTY_QUERY, caller, search)
         == set id | id in db.requests && CanView(db.directory, db.requests[id], caller)
  {
    var db := After(Initial(dir), events);
    ReachableInv(dir, events);
    forall id | id in Found(db, query, caller, search)
      ensures CanView(db.directory, db.requests[id], caller)
    {
      ListedIsViewable(db, query, caller, search, id);
    }
    EmptyQueryListsViewable(db, caller, search);
  }

  /** One of the request's four text columns matches the keyword. */
  predicate Mentions(r: Request, keyword: string, search: TextSearch) {
    || search(r.title, keyword)
    || (r.description.Some? && search(r.description.value, keyword))
    || search(r.businessType, keyword)
    || (r.businessId.Some? && search(r.businessId.value, keyword))
  }

  /** For every query and caller, which requests the list shows, told from their columns. */
  lemma FoundExactly(db: Db, query: Query, caller: Caller, search: TextSearch, id: nat)
    requires Inv(db) && id in db.requests
    ensures var r, pending := db.requests[id], query.pendingForMe && !query.mine;
      var manager := caller.isAdmin || Grants(db.directory, caller.id, "approval.requests.manage");
      id in Found(db, query, caller, search) <==>
        && (if pending then r.status == PENDING else query.status.Some? ==> r.status == query.status.value)
        && (query.businessType.Some? && query.businessType.value != "" ==> r.businessType == query.businessType.value)
        && (if query.mine then r.applicantId == caller.id
            else query.applicantId.Some? && query.applicantId.value != 0 ==> r.applicantId == query.applicantId.value)
        && (query.approverRoleCode.Some? && query.approverRoleCode.value != "" ==>
              r.approverRoleCode == query.approverRoleCode)
        && (if pending then MayDecide(db.directory, r, caller.(isAdmin := false))
            else if !query.mine && !manager then MayView(db.directory, r, caller)
            else query.keyword.Some? && query.keyword.value != "" ==> Mentions(r, query.keyword.value, search))
  {
    var dir, r := db.directory, db.requests[id];
    var plain := caller.(isAdmin := false);
    assert Sound(db, id);
    AccessExactly(dir, r, caller);
    AccessExactly(dir, r, plain);
    ApproverClauses(dir, r, plain, search);
    ManagerExactly(dir, caller);
    if !CanManage(dir, caller) { OwnerOrApproverClauses(dir, r, caller, search); }
    if query.keyword.Some? { KeywordClauses(r, query.keyword.value, search); }
  }

  lemma ManagerExactly(dir: Directory, caller: Caller)
    ensures CanManage(dir, caller) <==> caller.isAdmin || Grants(dir, caller.id, "approval.requests.manage")
  {
    assert HasPermission(dir, caller.id, "approval.requests.manage") <==>
      Grants(dir, caller.id, "approval.requests.manage");
  }

  lemma KeywordClauses(r: Request, k: string, search: TextSearch)
    ensures var clauses := [Contains(Title, k), Contains(Description, k), Contains(BusinessType, k), Contains(BusinessId, k)];
      (exists i :: 0 <= i < |clauses| && Satisfies(r, clauses[i], search)) <==> Mentions(r, k, search)
  {
    var clauses := [Contains(Title, k), Contains(Description, k), Contains(BusinessType, k), Contains(BusinessId, k)];
    if search(r.title, k) { assert Satisfies(r, clauses[0], search); }
    if r.description.Some? && search(r.description.value, k) { assert Satisfies(r, clauses[1], search); }
    if search(r.businessType, k) { assert Satisfies(r, clauses[2], search); }
    if r.businessId.Some? && search(r.businessId.value, k) { assert Satisfies(r, clauses[3], search); }
  }
}
