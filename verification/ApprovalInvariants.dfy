/** What every reachable approval state satisfies, and what each step changes. */
module ApprovalInvariants {
  import opened Base
  import opened Directory
  import opened ApprovalModel
  import MC = MessageCenter

  // ------------------------------------------------------------- the action log

  /** The log of one request, oldest entry first. */
  function Log(actions: seq<Action>, id: nat): seq<Action> {
    if actions == [] then []
    else
      var last := actions[|actions| - 1];
      Log(actions[..|actions| - 1], id) + if last.requestId == id then [last] else []
  }

  lemma LogAppend(actions: seq<Action>, a: Action, id: nat)
    ensures Log(actions + [a], id) == if a.requestId == id then Log(actions, id) + [a] else Log(actions, id)
  {
    assert (actions + [a])[..|actions|] == actions;
  }

  lemma {:induction false} LogOfStranger(actions: seq<Action>, id: nat)
    requires forall i :: 0 <= i < |actions| ==> actions[i].requestId != id
    ensures Log(actions, id) == []
  {
    if actions == [] {
    } else {
      LogOfStranger(actions[..|actions| - 1], id);
    }
  }

  /** The status a log leads to, or None when it is no legal log. */
  function Replay(log: seq<Action>): Option<Status> {
    if log == [] then None
    else
      var before := Replay(log[..|log| - 1]);
      match log[|log| - 1].action
      case SUBMIT => if |log| == 1 then Some(PENDING) else None
      case COMMENT => before
      case APPROVE => if before == Some(PENDING) then Some(APPROVED) else None
      case REJECT => if before == Some(PENDING) then Some(REJECTED) else None
      case CANCEL => if before == Some(PENDING) then Some(CANCELLED) else None
  }

  function Verdict(status: Status): ActionType
    requires status != PENDING
  {
    match status
    case APPROVED => APPROVE
    case REJECTED => REJECT
    case CANCELLED => CANCEL
  }

  /** SUBMIT, then comments with, once the request is closed, one verdict at position k among them. */
  ghost predicate LogShape(log: seq<Action>, status: Status, k: nat) {
    && |log| > 0 && log[0].action == SUBMIT
    && (status != PENDING ==> 0 < k < |log| && log[k].action == Verdict(status))
    && (forall i :: 0 < i < |log| && (status == PENDING || i != k) ==> log[i].action == COMMENT)
  }

  /** Replaying a log gives a status exactly when the log has that status's shape. */
  lemma {:induction false} ReplayMeaning(log: seq<Action>, status: Status)
    ensures Replay(log) == Some(status) <==> exists k :: LogShape(log, status, k)
  {
    if log == [] {
    } else {
      var n := |log| - 1;
      var init := log[..n];
      ReplayMeaning(init, status);
      ReplayMeaning(init, PENDING);
      if Replay(log) == Some(status) {
        if n == 0 {
          assert Replay(init) == None;
          assert LogShape(log, status, 0);
        } else if log[n].action == COMMENT {
          var k :| LogShape(init, status, k);
          assert forall i :: 0 < i < |log| && (status == PENDING || i != k) ==> i == n || log[i] == init[i];
          assert LogShape(log, status, k);
        } else {
          var k :| LogShape(init, PENDING, k);
          assert forall i :: 0 < i < n ==> log[i] == init[i];
          assert LogShape(log, status, n);
        }
      }
      if k :| LogShape(log, status, k) {
        if n == 0 {
        } else if log[n].action == COMMENT {
          assert LogShape(init, status, k);
        } else {
          assert status != PENDING && k == n;
          assert LogShape(init, PENDING, 0);
        }
      }
    }
  }

  // ------------------------------------------------- the messages of one request

  predicate About(m: MC.Message, id: nat) {
    MC.Concerns(m, APPROVAL_BUSINESS_TYPE, Decimal(id))
  }

  lemma AboutOne(m: MC.Message, a: nat, b: nat)
    requires About(m, a) && About(m, b)
    ensures a == b
  {
    DecimalInjective(a, b);
  }

  /** All messages, TODOs and notices, that carry this request's business key. */
  function Letters(mail: MC.Mailbox, id: nat): map<nat, MC.Message> {
    map m | m in mail.rows && About(mail.rows[m], id) :: mail.rows[m]
  }

  function Todos(letters: map<nat, MC.Message>): set<nat> {
    set m | m in letters && letters[m].kind == MC.TODO
  }

  function OpenTodos(letters: map<nat, MC.Message>): set<nat> {
    set m | m in letters && MC.Open(letters[m])
  }

  function CompletedTodos(letters: map<nat, MC.Message>): set<nat> {
    set m | m in letters && letters[m].kind == MC.TODO && letters[m].completedAt.Some?
  }

  function CancelledTodos(letters: map<nat, MC.Message>): set<nat> {
    set m | m in letters && letters[m].kind == MC.TODO && letters[m].cancelledAt.Some?
  }

  function Notices(letters: map<nat, MC.Message>): set<nat> {
    set m | m in letters && letters[m].kind == MC.NOTIFICATION
  }

  // -------------------------------------------------------------- the invariant

  /**
   The applicant exists; only the approver column of the approver's type is filled. The column of
   a named user names an existing one or, after that user was deleted, nobody.
  */
  predicate ApproverShape(dir: Directory, r: Request) {
    && r.applicantId in dir.users
    && match r.approverType
       case USER =>
         (r.approverUserId.Some? ==> r.approverUserId.value in dir.users) && r.approverRoleCode.None?
       case ROLE =>
         r.approverUserId.None? && Truthy(r.approverRoleCode)
  }

  ghost predicate LettersOk(letters: map<nat, MC.Message>, r: Request) {
    if r.status == PENDING then Notices(letters) == {}
    else
      && OpenTodos(letters) == {}
      && exists n :: Notices(letters) == {n} && letters[n].userId == r.applicantId
                     && letters[n].title == NoticeTitle(r.status)
  }

  ghost predicate LogOk(log: seq<Action>, r: Request) {
    && Replay(log) == Some(r.status)
    && log[0].actorId == r.applicantId
  }

  ghost predicate RequestOk(dir: Directory, r: Request, log: seq<Action>, letters: map<nat, MC.Message>) {
    && ApproverShape(dir, r)
    && (r.decidedAt.None? <==> r.status == PENDING)
    && LogOk(log, r)
    && LettersOk(letters, r)
  }

  ghost predicate HasOwner(db: Db, m: MC.Message) {
    m.businessType == Some(APPROVAL_BUSINESS_TYPE) ==> exists id :: id in db.requests && About(m, id)
  }

  ghost predicate Sound(db: Db, id: nat)
    requires id in db.requests
  {
    RequestOk(db.directory, db.requests[id], Log(db.actions, id), Letters(db.mail, id))
  }

  /** Ids come from the counters, and every log entry refers to a request. */
  ghost predicate Tables(db: Db) {
    && MC.Valid(db.mail)
    && 0 !in db.directory.users
    && db.nextRequest > 0
    && (forall id :: id in db.requests ==> 0 < id < db.nextRequest)
    && (forall i :: 0 <= i < |db.actions| ==> db.actions[i].requestId in db.requests)
  }

  ghost predicate Owned(db: Db) {
    forall m {:trigger HasOwner(db, db.mail.rows[m])} :: m in db.mail.rows ==> HasOwner(db, db.mail.rows[m])
  }

  ghost predicate AllSound(db: Db) {
    forall id {:trigger Sound(db, id)} :: id in db.requests ==> Sound(db, id)
  }

  ghost predicate Inv(db: Db) {
    Tables(db) && Owned(db) && AllSound(db)
  }

  // ----------------------------------------------------------- frames on letters

  lemma LettersAfterInsert(mail: MC.Mailbox, draft: MC.Draft, kind: MC.MessageType, id: nat)
    requires MC.Valid(mail)
    ensures var row := MC.NewRow(draft, kind);
      Letters(MC.Insert(mail, draft, kind), id) ==
      if About(row, id) then Letters(mail, id)[mail.nextId := row] else Letters(mail, id)
  {
  }

  /** A bulk update for one request leaves the letters of every other request alone. */
  lemma LettersAfterBulk(mail: MC.Mailbox, id: nat, other: nat, user: nat, now: nat)
    requires id != other
    ensures Letters(MC.CompleteBusinessTodos(mail, APPROVAL_BUSINESS_TYPE, Decimal(id), user, now), other)
            == Letters(mail, other)
    ensures Letters(MC.CancelBusinessTodos(mail, APPROVAL_BUSINESS_TYPE, Decimal(id), user, now), other)
            == Letters(mail, other)
  {
    DecimalInjective(id, other);
  }

  /** Same messages, of which only unset timestamps may have been set. */
  ghost predicate LettersEvolve(letters: map<nat, MC.Message>, letters': map<nat, MC.Message>) {
    && letters'.Keys == letters.Keys
    && (forall m :: m in letters ==> MC.Evolves(letters[m], letters'[m]))
  }

  lemma InsertTodosLetters(mail: MC.Mailbox, users: seq<nat>, draft: MC.Draft, id: nat)
    requires MC.Valid(mail)
    requires draft.businessType == Some(APPROVAL_BUSINESS_TYPE) ==> draft.businessId != Some(Decimal(id))
    ensures Letters(MC.InsertTodos(mail, users, draft), id) == Letters(mail, id)
  {
    var after := MC.InsertTodos(mail, users, draft);
    MC.InsertTodosKeys(mail, users, draft);
    forall m | m in after.rows && m !in mail.rows
      ensures !About(after.rows[m], id)
    {
      MC.InsertTodosRow(mail, users, draft, m - mail.nextId);
    }
  }

  lemma ForeignCallLetters(mail: MC.Mailbox, call: MC.Call, now: nat, id: nat)
    requires MC.Valid(mail) && ForeignCall(call)
    ensures LettersEvolve(Letters(mail, id), Letters(MC.Perform(mail, call, now), id))
  {
    match call
    case CallCreateTodoForRole(users, draft) =>
      InsertTodosLetters(mail, users, draft, id);
    case CallCreateNotification(draft) =>
      LettersAfterInsert(mail, draft, MC.NOTIFICATION, id);
    case CallCreateTodo(draft) =>
      LettersAfterInsert(mail, draft, MC.TODO, id);
    case _ =>
      MC.PerformKeepsInvariant(mail, call, now);
      assert MC.Perform(mail, call, now).rows.Keys == mail.rows.Keys;
  }

  lemma LettersOkEvolves(letters: map<nat, MC.Message>, letters': map<nat, MC.Message>, r: Request)
    requires LettersOk(letters, r) && LettersEvolve(letters, letters')
    ensures LettersOk(letters', r)
    ensures Todos(letters') == Todos(letters) && Notices(letters') == Notices(letters)
  {
    assert Notices(letters') == Notices(letters);
    assert OpenTodos(letters') <= OpenTodos(letters);
    if r.status != PENDING {
      var n :| Notices(letters) == {n} && letters[n].userId == r.applicantId
               && letters[n].title == NoticeTitle(r.status);
      assert n in Notices(letters);
    }
  }
}
