/** The main results on approval runs. */
module ApprovalTheorems {
  import opened Base
  import opened Directory
  import opened ApprovalModel
  import opened ApprovalInvariants
  import opened ApprovalSteps
  import MC = MessageCenter

  // -------------------------------------------------------- reachable states

  /**
   In every reachable state the status is what the log says, the decision time is set
   exactly when the request is closed, and a closed request has no open TODO.
  */
  lemma ReachableRequest(dir: Directory, events: seq<Event>, id: nat)
    requires 0 !in dir.users && Runnable(Initial(dir), events)
    requires id in After(Initial(dir), events).requests
    ensures var db := After(Initial(dir), events);
      var r := db.requests[id];
      && Replay(Log(db.actions, id)) == Some(r.status)
      && (exists k :: LogShape(Log(db.actions, id), r.status, k))
      && Log(db.actions, id)[0].actorId == r.applicantId
      && (r.decidedAt.None? <==> r.status == PENDING)
      && (r.status != PENDING ==> OpenTodos(Letters(db.mail, id)) == {})
  {
    var db := After(Initial(dir), events);
    ReachableInv(dir, events);
    assert Sound(db, id);
    ReplayMeaning(Log(db.actions, id), db.requests[id].status);
  }

  /** A pending request has sent no notice; a closed one exactly one, to its applicant, naming the verdict. */
  lemma ReachableNotices(dir: Directory, events: seq<Event>, id: nat)
    requires 0 !in dir.users && Runnable(Initial(dir), events)
    requires id in After(Initial(dir), events).requests
    ensures var db := After(Initial(dir), events);
      var r := db.requests[id];
      var letters := Letters(db.mail, id);
      if r.status == PENDING then |Notices(letters)| == 0
      else
        && |Notices(letters)| == 1
        && (forall n :: n in Notices(letters) ==>
              letters[n].userId == r.applicantId && letters[n].title == NoticeTitle(r.status))
  {
    ReachableInv(dir, events);
    assert Sound(After(Initial(dir), events), id);
  }

  /** In every reachable state a request's TODOs are the open, the completed and the cancelled ones. */
  lemma ReachableTodoSplit(dir: Directory, events: seq<Event>, id: nat)
    requires 0 !in dir.users && Runnable(Initial(dir), events)
    ensures var letters := Letters(After(Initial(dir), events).mail, id);
      |Todos(letters)| == |OpenTodos(letters)| + |CompletedTodos(letters)| + |CancelledTodos(letters)|
  {
    ReachableInv(dir, events);
    var db := After(Initial(dir), events);
    var letters := Letters(db.mail, id);
    forall m | m in letters ensures MC.WellFormed(letters[m]) {
      assert m in db.mail.rows;
    }
    TodoSplit(letters);
  }

  lemma TodoSplit(letters: map<nat, MC.Message>)
    requires forall m :: m in letters ==> MC.WellFormed(letters[m])
    ensures |Todos(letters)| == |OpenTodos(letters)| + |CompletedTodos(letters)| + |CancelledTodos(letters)|
  {
    var open, completed, cancelled := OpenTodos(letters), CompletedTodos(letters), CancelledTodos(letters);
    assert Todos(letters) == open + completed + cancelled;
    assert open !! completed !! cancelled;
    assert |open + completed| == |open| + |completed|;
    assert |open + completed + cancelled| == |open + completed| + |cancelled|;
  }

  // ----------------------------------------------------- what creation fans out

  /** The users a new request is sent to. */
  function Audience(dir: Directory, dto: CreateDto): set<nat>
    requires ApproverAccepted(dir, dto)
  {
    if dto.approverType == USER then {dto.approverUserId.value} else RoleMembers(dir, dto.approverRoleCode.value)
  }

  /** A new request sends one open TODO to the named user, or one to each selected member of the role. */
  lemma CreationFanOut(db: Db, dto: CreateDto, applicantId: nat, members: seq<nat>)
    requires Inv(db) && Enabled(db, OpCreate(dto, applicantId, members))
    requires Create(db, dto, applicantId, members).1 == Done
    ensures var letters := Letters(Create(db, dto, applicantId, members).0.mail, db.nextRequest);
      && OpenTodos(letters) == Todos(letters) == letters.Keys
      && (set m | m in letters :: letters[m].userId) == Audience(db.directory, dto)
      && (forall m, n :: m in letters && n in letters && letters[m].userId == letters[n].userId ==> m == n)
  {
    var users := Recipients(dto, members);
    var letters := Letters(CreatedMail(db, dto, applicantId, users), db.nextRequest);
    assert Enumerates(users, Audience(db.directory, dto));
    NewLettersOk(db, dto, applicantId, users);
    LettersOfNew(db, dto, applicantId, users);
    forall m | m in letters
      ensures letters[m].userId == users[m - db.mail.nextId]
    {
      assert NewTodo(db, dto, applicantId, users[m - db.mail.nextId], letters[m]);
    }
    AddresseesOf(letters, db.mail.nextId, users);
  }

  lemma AddresseesOf(letters: map<nat, MC.Message>, low: nat, users: seq<nat>)
    requires forall m :: m in letters <==> low <= m < low + |users|
    requires forall m :: m in letters ==> letters[m].userId == users[m - low]
    ensures (set m | m in letters :: letters[m].userId) == (set u | u in users)
  {
    forall u | u in users
      ensures exists m :: m in letters && letters[m].userId == u
    {
      var k :| 0 <= k < |users| && users[k] == u;
      assert low + k in letters;
    }
  }

  // ------------------------------------------------------------ deciding

  /**
   A decision completes the decider's open TODOs on this request, cancels everyone
   else's, sends one notice to the applicant, and touches no other message.
  */
  lemma DecisionEffect(db: Db, id: nat, caller: Caller, approve: bool, comment: Option<string>, now: nat)
    requires Inv(db) && Decide(db, id, caller, approve, comment, now).1 == Done
    ensures var after := Decide(db, id, caller, approve, comment, now).0.mail;
      && after.rows.Keys == db.mail.rows.Keys + {db.mail.nextId}
      && after.rows[db.mail.nextId] ==
           MC.NewRow(NoticeDraft(id, db.requests[id].applicantId, if approve then APPROVED else REJECTED, comment),
                     MC.NOTIFICATION)
      && (forall m :: m in db.mail.rows ==>
            after.rows[m] ==
            if m !in OpenTodos(Letters(db.mail, id)) then db.mail.rows[m]
            else if db.mail.rows[m].userId == caller.id then db.mail.rows[m].(completedAt := Some(now))
            else db.mail.rows[m].(cancelledAt := Some(now)))
  {
  }

  /** Cancelling a request cancels all its open TODOs, sends one notice and touches no other message. */
  lemma CancellationEffect(db: Db, id: nat, caller: Caller, comment: Option<string>, now: nat)
    requires Inv(db) && Cancel(db, id, caller, comment, now).1 == Done
    ensures var after := Cancel(db, id, caller, comment, now).0.mail;
      && after.rows.Keys == db.mail.rows.Keys + {db.mail.nextId}
      && after.rows[db.mail.nextId] ==
           MC.NewRow(NoticeDraft(id, db.requests[id].applicantId, CANCELLED, comment), MC.NOTIFICATION)
      && (forall m :: m in db.mail.rows ==>
            after.rows[m] ==
            if m !in OpenTodos(Letters(db.mail, id)) then db.mail.rows[m]
            else db.mail.rows[m].(cancelledAt := Some(now)))
  {
  }

  /** Deciding or cancelling one request changes no row, log entry or message of another. */
  lemma VerdictIsolated(db: Db, id: nat, caller: Caller, approve: bool, comment: Option<string>, now: nat, other: nat)
    requires Inv(db) && other in db.requests && other != id
    ensures forall after <- {Decide(db, id, caller, approve, comment, now).0, Cancel(db, id, caller, comment, now).0} ::
      && other in after.requests && after.requests[other] == db.requests[other]
      && Log(after.actions, other) == Log(db.actions, other)
      && Letters(after.mail, other) == Letters(db.mail, other)
  {
    if Decide(db, id, caller, approve, comment, now).1 == Done {
      DecisionCloses(db.mail, id, caller.id, now);
      ConcludeOthers(db, id, caller.id, if approve then APPROVED else REJECTED, comment, now,
                     DecisionMail(db.mail, id, caller.id, now), other);
    }
    if Cancel(db, id, caller, comment, now).1 == Done {
      CancelCloses(db.mail, id, now);
      ConcludeOthers(db, id, caller.id, CANCELLED, comment, now,
                     MC.CancelBusinessTodos(db.mail, APPROVAL_BUSINESS_TYPE, Decimal(id), 0, now), other);
    }
  }

  // ------------------------------------------------------ history of one request

  /** What was submitted stays, but for a deleted approver; a verdict is final. */
  predicate RequestLater(r: Request, r': Request, gone: set<nat>) {
    && r' == WithoutApprover(r, gone).(status := r'.status, decidedAt := r'.decidedAt)
    && (r.status != PENDING ==> r'.status == r.status && r'.decidedAt == r.decidedAt)
  }

  /** The TODOs are those whose recipient is not gone; of a letter that is left no set timestamp has changed. */
  ghost predicate LettersLater(letters: map<nat, MC.Message>, letters': map<nat, MC.Message>, gone: set<nat>) {
    && Todos(letters') == (set m | m in Todos(letters) && letters[m].userId !in gone)
    && (forall m :: m in letters && letters[m].userId !in gone ==>
          m in letters' && MC.Outlives(letters[m], letters'[m]))
  }

  /** `db'` is a possible later state for request `id` when the users in `gone` have been deleted since. */
  ghost predicate Later(db: Db, db': Db, id: nat, gone: set<nat>)
    requires id in db.requests
  {
    && id in db'.requests
    && RequestLater(db.requests[id], db'.requests[id], gone)
    && Log(db.actions, id) <= Log(db'.actions, id)
    && LettersLater(Letters(db.mail, id), Letters(db'.mail, id), gone)
  }

  lemma ConcludeLater(db: Db, id: nat, actor: nat, status: Status, comment: Option<string>, now: nat, closed: MC.Mailbox)
    requires Inv(db) && id in db.requests && db.requests[id].status == PENDING
    requires status != PENDING && ClosesFor(db.mail, closed, id)
    ensures Later(db, Conclude(db, id, actor, status, Verdict(status), comment, now, closed), id, {})
  {
    var r := db.requests[id];
    var draft := NoticeDraft(id, r.applicantId, status, comment);
    var after := Conclude(db, id, actor, status, Verdict(status), comment, now, closed);
    LogAppend(db.actions, Action(id, actor, Verdict(status), comment), id);
    LettersOfEvolution(db.mail, closed, id);
    LettersAfterInsert(closed, draft, MC.NOTIFICATION, id);
    assert closed.nextId !in Letters(closed, id);
    assert Todos(Letters(closed, id)) == Todos(Letters(db.mail, id));
    assert Todos(Letters(after.mail, id)) == Todos(Letters(closed, id));
  }

  /** A request whose row, log and letters are the same. */
  lemma SameIsLater(db: Db, db': Db, id: nat)
    requires id in db.requests && id in db'.requests && db'.requests[id] == db.requests[id]
    requires Log(db'.actions, id) == Log(db.actions, id) && Letters(db'.mail, id) == Letters(db.mail, id)
    ensures Later(db, db', id, {})
  {
  }

  lemma DecideLater(db: Db, id: nat, caller: Caller, approve: bool, comment: Option<string>, now: nat, j: nat)
    requires Inv(db) && j in db.requests
    ensures Later(db, Decide(db, id, caller, approve, comment, now).0, j, {})
  {
    if Decide(db, id, caller, approve, comment, now).1 == Done && j == id {
      DecisionCloses(db.mail, id, caller.id, now);
      ConcludeLater(db, id, caller.id, if approve then APPROVED else REJECTED, comment, now,
                    DecisionMail(db.mail, id, caller.id, now));
    } else {
      if j != id { VerdictIsolated(db, id, caller, approve, comment, now, j); }
      SameIsLater(db, Decide(db, id, caller, approve, comment, now).0, j);
    }
  }

  lemma CancelLater(db: Db, id: nat, caller: Caller, comment: Option<string>, now: nat, j: nat)
    requires Inv(db) && j in db.requests
    ensures Later(db, Cancel(db, id, caller, comment, now).0, j, {})
  {
    if Cancel(db, id, caller, comment, now).1 == Done && j == id {
      CancelCloses(db.mail, id, now);
      ConcludeLater(db, id, caller.id, CANCELLED, comment, now,
                    MC.CancelBusinessTodos(db.mail, APPROVAL_BUSINESS_TYPE, Decimal(id), 0, now));
    } else {
      if j != id { VerdictIsolated(db, id, caller, false, comment, now, j); }
      SameIsLater(db, Cancel(db, id, caller, comment, now).0, j);
    }
  }

  lemma MessageLater(db: Db, call: MC.Call, now: nat, j: nat)
    requires Inv(db) && ForeignCall(call) && j in db.requests
    ensures Later(db, db.(mail := MC.Perform(db.mail, call, now)), j, {})
  {
    var letters, letters' := Letters(db.mail, j), Letters(MC.Perform(db.mail, call, now), j);
    assert Sound(db, j);
    ForeignCallLetters(db.mail, call, now, j);
    LettersOkEvolves(letters, letters', db.requests[j]);
    assert LettersLater(letters, letters', {});
  }

  lemma CreateLater(db: Db, dto: CreateDto, applicantId: nat, members: seq<nat>, j: nat)
    requires Inv(db) && j in db.requests
    ensures Later(db, Create(db, dto, applicantId, members).0, j, {})
  {
    CreateOthers(db, dto, applicantId, Recipients(dto, members), j);
    SameIsLater(db, Create(db, dto, applicantId, members).0, j);
  }

  lemma CommentLater(db: Db, id: nat, caller: Caller, comment: Option<string>, j: nat)
    requires Inv(db) && j in db.requests
    ensures Later(db, Comment(db, id, caller, comment).0, j, {})
  {
    var letters := Letters(db.mail, j);
    LogAppend(db.actions, Action(id, caller.id, COMMENT, comment), j);
    assert LettersLater(letters, letters, {});
  }

  lemma DeleteUsersLater(db: Db, ids: set<nat>, currentUser: Option<nat>, refused: bool, j: nat)
    requires Inv(db) && j in db.requests
    ensures var op := OpDeleteUsers(ids, currentUser, refused);
      Later(db, DeleteUsers(db, ids, currentUser, refused).0, j, DeletedBy(db, op))
  {
    if DeleteUsers(db, ids, currentUser, refused).1 == Done {
      var gone := ids * db.directory.users.Keys;
      LettersAfterDrop(db.mail, gone, j);
      assert LettersLater(Letters(db.mail, j), Dropped(Letters(db.mail, j), gone), gone);
    } else {
      SameIsLater(db, db, j);
    }
  }

  lemma StepLater(db: Db, op: Op, now: nat, j: nat)
    requires Inv(db) && Enabled(db, op) && j in db.requests
    ensures Later(db, Apply(db, op, now).0, j, DeletedBy(db, op))
  {
    match op
    case OpCreate(dto, applicant, members) => CreateLater(db, dto, applicant, members, j);
    case OpDecide(id, caller, approve, comment) => DecideLater(db, id, caller, approve, comment, now, j);
    case OpCancel(id, caller, comment) => CancelLater(db, id, caller, comment, now, j);
    case OpComment(id, caller, comment) => CommentLater(db, id, caller, comment, j);
    case OpMessage(call) => MessageLater(db, call, now, j);
    case OpDirectory(dir) => SameIsLater(db, db.(directory := dir), j);
    case OpDeleteUsers(ids, currentUser, refused) => DeleteUsersLater(db, ids, currentUser, refused, j);
  }

  lemma LettersLaterTransitive(a: map<nat, MC.Message>, b: map<nat, MC.Message>, c: map<nat, MC.Message>,
                               gone: set<nat>, more: set<nat>)
    requires LettersLater(a, b, gone) && LettersLater(b, c, more)
    ensures LettersLater(a, c, gone + more)
  {
    forall m | m in a && a[m].userId !in gone + more
      ensures m in c && MC.Outlives(a[m], c[m])
    {
      assert MC.Outlives(a[m], b[m]);
    }
    forall m
      ensures m in Todos(c) <==> m in Todos(a) && a[m].userId !in gone + more
    {
      if m in Todos(a) && a[m].userId !in gone { assert MC.Outlives(a[m], b[m]); }
    }
  }

  lemma LaterTransitive(a: Db, b: Db, c: Db, id: nat, gone: set<nat>, more: set<nat>)
    requires id in a.requests && Later(a, b, id, gone) && Later(b, c, id, more)
    ensures Later(a, c, id, gone + more)
  {
    LettersLaterTransitive(Letters(a.mail, id), Letters(b.mail, id), Letters(c.mail, id), gone, more);
  }

  /**
   Whatever runs after a request exists: a verdict is final, the log only grows, and its TODOs are
   the same rows but for those whose recipient the run deleted.
  */
  lemma {:induction false} RunLater(db: Db, events: seq<Event>, id: nat)
    requires Inv(db) && Runnable(db, events) && id in db.requests
    ensures Later(db, After(db, events), id, DeletedIn(db, events))
    decreases |events|
  {
    if events == [] {
      SameIsLater(db, db, id);
    } else {
      var next := Apply(db, events[0].op, events[0].now).0;
      StepKeepsInv(db, events[0].op, events[0].now);
      StepLater(db, events[0].op, events[0].now, id);
      RunLater(next, events[1..], id);
      LaterTransitive(db, next, After(next, events[1..]), id, DeletedBy(db, events[0].op),
                      DeletedIn(next, events[1..]));
    }
  }

  lemma OneLetterEach(letters: map<nat, MC.Message>, todos: set<nat>)
    requires todos <= letters.Keys
    requires forall m, n :: m in todos && n in todos && letters[m].userId == letters[n].userId ==> m == n
    ensures |todos| == |set m | m in todos :: letters[m].userId|
    decreases todos
  {
    if todos == {} {
    } else {
      var m :| m in todos;
      var rest := todos - {m};
      OneLetterEach(letters, rest);
      assert (set n | n in todos :: letters[n].userId) == (set n | n in rest :: letters[n].userId) + {letters[m].userId};
    }
  }

  lemma SmallerPart(all: set<nat>, gone: set<nat>)
    ensures |all - gone| == |all| <==> all !! gone
  {
    assert all == (all - gone) + (all * gone);
    assert |all| == |all - gone| + |all * gone|;
    if all !! gone { assert all * gone == {}; }
  }

  /**
   At any later time the TODOs of a request are the ones its creation fanned out whose recipient
   has not been deleted. So their number is that of the fan-out exactly when none was deleted.
  */
  lemma TodosExactly(db: Db, dto: CreateDto, applicantId: nat, members: seq<nat>, events: seq<Event>)
    requires Inv(db) && Enabled(db, OpCreate(dto, applicantId, members))
    requires Create(db, dto, applicantId, members).1 == Done
    requires Runnable(Create(db, dto, applicantId, members).0, events)
    ensures var created := Create(db, dto, applicantId, members).0;
      var gone, audience := DeletedIn(created, events), Audience(db.directory, dto);
      var sent := Letters(created.mail, db.nextRequest);
      var left := Letters(After(created, events).mail, db.nextRequest);
      && Todos(left) == (set m | m in sent && sent[m].userId !in gone)
      && (set m | m in Todos(left) :: left[m].userId) == audience - gone
      && |Todos(left)| == |audience - gone|
      && (|Todos(left)| == |audience| <==> audience !! gone)
  {
    var created := Create(db, dto, applicantId, members).0;
    var gone := DeletedIn(created, events);
    var sent, left := Letters(created.mail, db.nextRequest), Letters(After(created, events).mail, db.nextRequest);
    CreateKeepsInv(db, dto, applicantId, members);
    CreationFanOut(db, dto, applicantId, members);
    RunLater(created, events, db.nextRequest);
    assert LettersLater(sent, left, gone);
    forall m | m in Todos(left) ensures left[m].userId == sent[m].userId {
      assert MC.Outlives(sent[m], left[m]);
    }
    RecipientsLeft(sent, left, gone, Audience(db.directory, dto));
    OneLetterEach(left, Todos(left));
    SmallerPart(Audience(db.directory, dto), gone);
  }

  lemma RecipientsLeft(sent: map<nat, MC.Message>, left: map<nat, MC.Message>, gone: set<nat>, audience: set<nat>)
    requires Todos(sent) == sent.Keys && (set m | m in sent :: sent[m].userId) == audience
    requires Todos(left) == (set m | m in Todos(sent) && sent[m].userId !in gone)
    requires forall m :: m in Todos(left) ==> left[m].userId == sent[m].userId
    ensures (set m | m in Todos(left) :: left[m].userId) == audience - gone
  {
    forall u | u in audience - gone
      ensures exists m :: m in Todos(left) && left[m].userId == u
    {
      var m :| m in sent && sent[m].userId == u;
      assert m in Todos(sent);
      assert m in Todos(left);
    }
  }

  // ------------------------------------------------- what deleting users can do

  const OFFICE := Directory(
    map[1 := User(Some("active"), {}), 2 := User(Some("active"), {"manager"})],
    map["manager" := Role(true, {})])
  const TO_MANAGERS := CreateDto("Leave", None, "leave", None, ROLE, None, Some("manager"))
  const SUBMITTED := OpCreate(TO_MANAGERS, 1, [2])
  const MANAGER_LEAVES := OpDeleteUsers({2}, Some(1), false)

  lemma SubmittedOk()
    ensures Inv(Initial(OFFICE)) && Enabled(Initial(OFFICE), SUBMITTED)
    ensures RoleMembers(OFFICE, "manager") == {2} && ApproverAccepted(OFFICE, TO_MANAGERS)
    ensures var (created, outcome) := Apply(Initial(OFFICE), SUBMITTED, 0);
      && outcome == Done
      && created.directory == OFFICE && created.requests == map[1 := NewRequest(TO_MANAGERS, 1)]
      && created.actions == [Action(1, 1, SUBMIT, None)]
  {
    assert OFFICE.users[2].status == Some("active");
    assert RoleMembers(OFFICE, "manager") == {2};
    assert Enumerates([2], {2});
  }

  lemma ManagerLeavesOk(created: Db)
    requires created.directory == OFFICE && created.requests == map[1 := NewRequest(TO_MANAGERS, 1)]
    requires created.actions == [Action(1, 1, SUBMIT, None)]
    ensures DeletedBy(created, MANAGER_LEAVES) == {2}
    ensures var after := Apply(created, MANAGER_LEAVES, 1).0;
      1 in after.requests && after.requests[1].status == PENDING
  {
    assert {2} * OFFICE.users.Keys == {2};
    assert !StillReferred(created, {2});
  }

  /** A request sent to the one manager has one TODO; once the manager's account is deleted it has none. */
  lemma DeletionDropsTodo()
    ensures var submitted := Apply(Initial(OFFICE), SUBMITTED, 0).0;
      var later := [Event(MANAGER_LEAVES, 1)];
      && Enabled(Initial(OFFICE), SUBMITTED) && Runnable(submitted, later)
      && |Todos(Letters(submitted.mail, 1))| == 1
      && |Todos(Letters(After(submitted, later).mail, 1))| == 0
      && 1 in After(submitted, later).requests && After(submitted, later).requests[1].status == PENDING
  {
    var db, later := Initial(OFFICE), [Event(MANAGER_LEAVES, 1)];
    var submitted := Apply(db, SUBMITTED, 0).0;
    SubmittedOk();
    ManagerLeavesOk(submitted);
    assert later[1..] == [];
    assert After(submitted, later) == Apply(submitted, MANAGER_LEAVES, 1).0;
    assert DeletedIn(submitted, later) == {2};
    TodosExactly(db, TO_MANAGERS, 1, [2], later);
    TodosExactly(db, TO_MANAGERS, 1, [2], []);
  }

  /** Deleting the named approver of a pending request leaves it open, with admins alone able to decide it. */
  lemma DeletedApproverLeavesAdmins(db: Db, ids: set<nat>, currentUser: Option<nat>, id: nat, caller: Caller,
                                    approve: bool, comment: Option<string>, now: nat)
    requires Inv(db) && id in db.requests && db.requests[id].status == PENDING
    requires DeleteUsers(db, ids, currentUser, false).1 == Done
    requires db.requests[id].approverUserId.Some? && db.requests[id].approverUserId.value in ids
    ensures var after := DeleteUsers(db, ids, currentUser, false).0;
      && id in after.requests && after.requests[id].status == PENDING
      && OpenTodos(Letters(after.mail, id))
         == (set m | m in OpenTodos(Letters(db.mail, id)) && db.mail.rows[m].userId !in ids * db.directory.users.Keys)
      && (Decide(after, id, caller, approve, comment, now).1 == Done <==>
            caller.isAdmin && caller.id in after.directory.users)
  {
    assert Sound(db, id);
    LettersAfterDrop(db.mail, ids * db.directory.users.Keys, id);
  }
}
