/** Every step keeps the invariant; so every run does. */
module ApprovalSteps {
  import opened Base
  import opened Directory
  import opened ApprovalModel
  import opened ApprovalInvariants
  import MC = MessageCenter

  lemma OwnerMoves(db: Db, after: Db, m: MC.Message, m': MC.Message)
    requires HasOwner(db, m) && db.requests.Keys <= after.requests.Keys
    requires m'.businessType == m.businessType && m'.businessId == m.businessId
    ensures HasOwner(after, m')
  {
    if m.businessType == Some(APPROVAL_BUSINESS_TYPE) {
      var owner :| owner in db.requests && About(m, owner);
      assert owner in after.requests && About(m', owner);
    }
  }

  // --------------------------------------------------------- one more log entry

  lemma CommentLogOk(log: seq<Action>, entry: Action, r: Request)
    requires LogOk(log, r) && entry.action == COMMENT
    ensures LogOk(log + [entry], r)
  {
    assert (log + [entry])[..|log|] == log;
  }

  lemma VerdictLogOk(log: seq<Action>, entry: Action, r: Request, status: Status, now: nat)
    requires LogOk(log, r) && r.status == PENDING
    requires status != PENDING && entry.action == Verdict(status)
    ensures LogOk(log + [entry], r.(status := status, decidedAt := Some(now)))
  {
    assert (log + [entry])[..|log|] == log;
  }

  // -------------------------------------------------------- deciding, cancelling

  /** `closed` is `mail` after the bulk updates for request `id`: its TODOs are closed, nothing else changed. */
  ghost predicate ClosesFor(mail: MC.Mailbox, closed: MC.Mailbox, id: nat) {
    && MC.Valid(closed)
    && closed.nextId == mail.nextId
    && closed.rows.Keys == mail.rows.Keys
    && (forall m :: m in mail.rows ==> MC.Evolves(mail.rows[m], closed.rows[m]))
    && (forall other :: other != id ==> Letters(closed, other) == Letters(mail, other))
    && OpenTodos(Letters(closed, id)) == {}
  }

  lemma LettersOfEvolution(mail: MC.Mailbox, closed: MC.Mailbox, id: nat)
    requires closed.rows.Keys == mail.rows.Keys
    requires forall m :: m in mail.rows ==> MC.Evolves(mail.rows[m], closed.rows[m])
    ensures LettersEvolve(Letters(mail, id), Letters(closed, id))
  {
  }

  lemma CancelCloses(mail: MC.Mailbox, id: nat, now: nat)
    requires MC.Valid(mail)
    ensures ClosesFor(mail, MC.CancelBusinessTodos(mail, APPROVAL_BUSINESS_TYPE, Decimal(id), 0, now), id)
  {
    forall other | other != id
      ensures Letters(MC.CancelBusinessTodos(mail, APPROVAL_BUSINESS_TYPE, Decimal(id), 0, now), other)
              == Letters(mail, other)
    {
      LettersAfterBulk(mail, id, other, 0, now);
    }
  }

  /** The two bulk updates of a decision, one after the other. */
  function DecisionMail(mail: MC.Mailbox, id: nat, user: nat, now: nat): MC.Mailbox {
    var done := MC.CompleteBusinessTodos(mail, APPROVAL_BUSINESS_TYPE, Decimal(id), user, now);
    MC.CancelBusinessTodos(done, APPROVAL_BUSINESS_TYPE, Decimal(id), user, now)
  }

  lemma DecisionCloses(mail: MC.Mailbox, id: nat, user: nat, now: nat)
    requires MC.Valid(mail) && user != 0
    ensures ClosesFor(mail, DecisionMail(mail, id, user, now), id)
  {
    var done := MC.CompleteBusinessTodos(mail, APPROVAL_BUSINESS_TYPE, Decimal(id), user, now);
    assert MC.Valid(done);
    forall other | other != id
      ensures Letters(DecisionMail(mail, id, user, now), other) == Letters(mail, other)
    {
      LettersAfterBulk(mail, id, other, user, now);
      LettersAfterBulk(done, id, other, user, now);
    }
  }

  lemma ConcludedLetters(r: Request, status: Status, now: nat, letters: map<nat, MC.Message>,
                         closed: map<nat, MC.Message>, n: nat, notice: MC.Message)
    requires r.status == PENDING && status != PENDING
    requires LettersOk(letters, r) && LettersEvolve(letters, closed) && OpenTodos(closed) == {}
    requires n !in closed && notice.kind == MC.NOTIFICATION
    requires notice.userId == r.applicantId && notice.title == NoticeTitle(status)
    ensures LettersOk(closed[n := notice], r.(status := status, decidedAt := Some(now)))
  {
    var after := closed[n := notice];
    assert Notices(closed) == Notices(letters) == {};
    assert forall m :: m in closed ==> m in after && after[m] == closed[m];
    assert OpenTodos(after) == OpenTodos(closed);
    assert Notices(after) == {n};
  }

  lemma ConcludeRequest(db: Db, id: nat, actor: nat, status: Status, comment: Option<string>,
                        now: nat, closed: MC.Mailbox)
    requires Inv(db) && id in db.requests && db.requests[id].status == PENDING
    requires status != PENDING && ClosesFor(db.mail, closed, id)
    ensures Sound(Conclude(db, id, actor, status, Verdict(status), comment, now, closed), id)
  {
    var r := db.requests[id];
    var draft := NoticeDraft(id, r.applicantId, status, comment);
    var notice := MC.NewRow(draft, MC.NOTIFICATION);
    assert Sound(db, id);
    LettersOfEvolution(db.mail, closed, id);
    LettersAfterInsert(closed, draft, MC.NOTIFICATION, id);
    assert closed.nextId !in Letters(closed, id);
    ConcludedLetters(r, status, now, Letters(db.mail, id), Letters(closed, id), closed.nextId, notice);
    var entry := Action(id, actor, Verdict(status), comment);
    LogAppend(db.actions, entry, id);
    VerdictLogOk(Log(db.actions, id), entry, r, status, now);
  }

  /** A verdict on one request changes neither the row, the log nor the messages of another. */
  lemma ConcludeOthers(db: Db, id: nat, actor: nat, status: Status, comment: Option<string>,
                       now: nat, closed: MC.Mailbox, other: nat)
    requires id in db.requests && other in db.requests && other != id
    requires status != PENDING && ClosesFor(db.mail, closed, id)
    ensures var after := Conclude(db, id, actor, status, Verdict(status), comment, now, closed);
      && after.requests[other] == db.requests[other]
      && Log(after.actions, other) == Log(db.actions, other)
      && Letters(after.mail, other) == Letters(db.mail, other)
  {
    LogAppend(db.actions, Action(id, actor, Verdict(status), comment), other);
    DecimalInjective(id, other);
    LettersAfterInsert(closed, NoticeDraft(id, db.requests[id].applicantId, status, comment), MC.NOTIFICATION, other);
  }

  lemma ConcludeOwners(db: Db, id: nat, actor: nat, status: Status, comment: Option<string>,
                       now: nat, closed: MC.Mailbox, m: nat)
    requires Inv(db) && id in db.requests
    requires status != PENDING && ClosesFor(db.mail, closed, id)
    requires m in Conclude(db, id, actor, status, Verdict(status), comment, now, closed).mail.rows
    ensures var after := Conclude(db, id, actor, status, Verdict(status), comment, now, closed);
      HasOwner(after, after.mail.rows[m])
  {
    var after := Conclude(db, id, actor, status, Verdict(status), comment, now, closed);
    if m == closed.nextId {
      assert About(after.mail.rows[m], id);
    } else {
      assert MC.Evolves(db.mail.rows[m], after.mail.rows[m]);
      OwnerMoves(db, after, db.mail.rows[m], after.mail.rows[m]);
    }
  }

  lemma ConcludeSound(db: Db, id: nat, actor: nat, status: Status, comment: Option<string>,
                      now: nat, closed: MC.Mailbox)
    requires Inv(db) && id in db.requests && db.requests[id].status == PENDING
    requires status != PENDING && ClosesFor(db.mail, closed, id)
    ensures AllSound(Conclude(db, id, actor, status, Verdict(status), comment, now, closed))
  {
    var after := Conclude(db, id, actor, status, Verdict(status), comment, now, closed);
    forall j | j in after.requests
      ensures Sound(after, j)
    {
      if j == id {
        ConcludeRequest(db, id, actor, status, comment, now, closed);
      } else {
        assert Sound(db, j);
        ConcludeOthers(db, id, actor, status, comment, now, closed, j);
      }
    }
  }

  lemma ConcludeKeepsInv(db: Db, id: nat, actor: nat, status: Status, comment: Option<string>,
                         now: nat, closed: MC.Mailbox)
    requires Inv(db) && id in db.requests && db.requests[id].status == PENDING
    requires status != PENDING && ClosesFor(db.mail, closed, id)
    ensures Inv(Conclude(db, id, actor, status, Verdict(status), comment, now, closed))
  {
    var after := Conclude(db, id, actor, status, Verdict(status), comment, now, closed);
    MC.InsertKeeps(closed, NoticeDraft(id, db.requests[id].applicantId, status, comment), MC.NOTIFICATION);
    assert Tables(after);
    assert Owned(after) by {
      forall m | m in after.mail.rows
        ensures HasOwner(after, after.mail.rows[m])
      {
        ConcludeOwners(db, id, actor, status, comment, now, closed, m);
      }
    }
    ConcludeSound(db, id, actor, status, comment, now, closed);
  }

  lemma DecideKeepsInv(db: Db, id: nat, caller: Caller, approve: bool, comment: Option<string>, now: nat)
    requires Inv(db)
    ensures Inv(Decide(db, id, caller, approve, comment, now).0)
  {
    if Decide(db, id, caller, approve, comment, now).1 == Done {
      DecisionCloses(db.mail, id, caller.id, now);
      ConcludeKeepsInv(db, id, caller.id, if approve then APPROVED else REJECTED, comment, now,
                       DecisionMail(db.mail, id, caller.id, now));
    }
  }

  lemma CancelKeepsInv(db: Db, id: nat, caller: Caller, comment: Option<string>, now: nat)
    requires Inv(db)
    ensures Inv(Cancel(db, id, caller, comment, now).0)
  {
    if Cancel(db, id, caller, comment, now).1 == Done {
      CancelCloses(db.mail, id, now);
      ConcludeKeepsInv(db, id, caller.id, CANCELLED, comment, now,
                       MC.CancelBusinessTodos(db.mail, APPROVAL_BUSINESS_TYPE, Decimal(id), 0, now));
    }
  }

  // ---------------------------------------------------------------- commenting

  lemma CommentSound(db: Db, entry: Action)
    requires Inv(db) && entry.action == COMMENT
    ensures AllSound(db.(actions := db.actions + [entry]))
  {
    var after := db.(actions := db.actions + [entry]);
    forall j | j in after.requests
      ensures Sound(after, j)
    {
      assert Sound(db, j);
      LogAppend(db.actions, entry, j);
      if j == entry.requestId { CommentLogOk(Log(db.actions, j), entry, db.requests[j]); }
    }
  }

  lemma SameMailOwned(db: Db, after: Db)
    requires Owned(db) && after.mail == db.mail && db.requests.Keys <= after.requests.Keys
    ensures Owned(after)
  {
    forall m | m in after.mail.rows
      ensures HasOwner(after, after.mail.rows[m])
    {
      OwnerMoves(db, after, db.mail.rows[m], after.mail.rows[m]);
    }
  }

  lemma CommentKeepsInv(db: Db, id: nat, caller: Caller, comment: Option<string>)
    requires Inv(db)
    ensures Inv(Comment(db, id, caller, comment).0)
  {
    if Comment(db, id, caller, comment).1 == Done {
      CommentSound(db, Action(id, caller.id, COMMENT, comment));
      SameMailOwned(db, Comment(db, id, caller, comment).0);
    }
  }

  // ------------------------------------------------------------------ creating

  /** No message and no log entry mentions a request that does not exist yet. */
  lemma NoLettersYet(db: Db)
    requires Inv(db)
    ensures Letters(db.mail, db.nextRequest) == map[]
    ensures Log(db.actions, db.nextRequest) == []
  {
    forall m | m in db.mail.rows
      ensures !About(db.mail.rows[m], db.nextRequest)
    {
      if About(db.mail.rows[m], db.nextRequest) {
        assert HasOwner(db, db.mail.rows[m]);
        var owner :| owner in db.requests && About(db.mail.rows[m], owner);
        AboutOne(db.mail.rows[m], owner, db.nextRequest);
        assert false;
      }
    }
    LogOfStranger(db.actions, db.nextRequest);
  }

  /** An untouched TODO for this user about the request that is being created. */
  predicate NewTodo(db: Db, dto: CreateDto, applicantId: nat, user: nat, m: MC.Message) {
    m == MC.NewRow(TodoDraft(db.nextRequest, dto, applicantId).(userId := user), MC.TODO)
  }

  function CreatedMail(db: Db, dto: CreateDto, applicantId: nat, users: seq<nat>): MC.Mailbox {
    MC.InsertTodos(db.mail, users, TodoDraft(db.nextRequest, dto, applicantId))
  }

  /** The letters of a new request: one open TODO per recipient, numbered consecutively. */
  lemma LettersOfNew(db: Db, dto: CreateDto, applicantId: nat, users: seq<nat>)
    requires Inv(db)
    ensures var letters := Letters(CreatedMail(db, dto, applicantId, users), db.nextRequest);
      && (forall m :: m in letters <==> db.mail.nextId <= m < db.mail.nextId + |users|)
      && (forall m :: m in letters ==> NewTodo(db, dto, applicantId, users[m - db.mail.nextId], letters[m]))
  {
    var draft := TodoDraft(db.nextRequest, dto, applicantId);
    var after := MC.InsertTodos(db.mail, users, draft);
    MC.InsertTodosKeys(db.mail, users, draft);
    NoLettersYet(db);
    forall m | m in after.rows && m < db.mail.nextId
      ensures !About(after.rows[m], db.nextRequest)
    {
      assert m !in Letters(db.mail, db.nextRequest);
    }
    forall m | m in after.rows && m >= db.mail.nextId
      ensures NewTodo(db, dto, applicantId, users[m - db.mail.nextId], after.rows[m])
      ensures About(after.rows[m], db.nextRequest)
    {
      MC.InsertTodosRow(db.mail, users, draft, m - db.mail.nextId);
    }
  }

  lemma NewLettersOk(db: Db, dto: CreateDto, applicantId: nat, users: seq<nat>)
    requires Inv(db)
    ensures var letters := Letters(CreatedMail(db, dto, applicantId, users), db.nextRequest);
      Notices(letters) == {} && OpenTodos(letters) == letters.Keys == Todos(letters)
  {
    var letters := Letters(CreatedMail(db, dto, applicantId, users), db.nextRequest);
    LettersOfNew(db, dto, applicantId, users);
    forall m | m in letters
      ensures MC.Open(letters[m])
    {
      assert NewTodo(db, dto, applicantId, users[m - db.mail.nextId], letters[m]);
    }
  }

  lemma CreatedRequestOk(db: Db, dto: CreateDto, applicantId: nat, users: seq<nat>)
    requires Inv(db) && ApproverAccepted(db.directory, dto) && applicantId in db.directory.users
    ensures var entry := Action(db.nextRequest, applicantId, SUBMIT, None);
      RequestOk(db.directory, NewRequest(dto, applicantId), Log(db.actions + [entry], db.nextRequest),
                Letters(CreatedMail(db, dto, applicantId, users), db.nextRequest))
  {
    var entry := Action(db.nextRequest, applicantId, SUBMIT, None);
    NoLettersYet(db);
    LogAppend(db.actions, entry, db.nextRequest);
    assert Log(db.actions + [entry], db.nextRequest) == [entry];
    assert LogOk([entry], NewRequest(dto, applicantId));
    NewLettersOk(db, dto, applicantId, users);
  }

  /** Creating a request changes neither the log nor the messages of an older one. */
  lemma CreateOthers(db: Db, dto: CreateDto, applicantId: nat, users: seq<nat>, j: nat)
    requires MC.Valid(db.mail) && j != db.nextRequest
    ensures Letters(CreatedMail(db, dto, applicantId, users), j) == Letters(db.mail, j)
    ensures Log(db.actions + [Action(db.nextRequest, applicantId, SUBMIT, None)], j) == Log(db.actions, j)
  {
    LogAppend(db.actions, Action(db.nextRequest, applicantId, SUBMIT, None), j);
    DecimalInjective(j, db.nextRequest);
    InsertTodosLetters(db.mail, users, TodoDraft(db.nextRequest, dto, applicantId), j);
  }

  lemma CreateOwners(db: Db, after: Db, dto: CreateDto, applicantId: nat, users: seq<nat>, m: nat)
    requires Inv(db) && db.requests.Keys <= after.requests.Keys && db.nextRequest in after.requests
    requires m in CreatedMail(db, dto, applicantId, users).rows
    ensures HasOwner(after, CreatedMail(db, dto, applicantId, users).rows[m])
  {
    var draft := TodoDraft(db.nextRequest, dto, applicantId);
    MC.InsertTodosKeys(db.mail, users, draft);
    if m in db.mail.rows {
      OwnerMoves(db, after, db.mail.rows[m], db.mail.rows[m]);
    } else {
      MC.InsertTodosRow(db.mail, users, draft, m - db.mail.nextId);
      assert About(CreatedMail(db, dto, applicantId, users).rows[m], db.nextRequest);
    }
  }

  lemma CreateSound(db: Db, dto: CreateDto, applicantId: nat, members: seq<nat>)
    requires Inv(db) && Create(db, dto, applicantId, members).1 == Done
    ensures AllSound(Create(db, dto, applicantId, members).0)
  {
    var after := Create(db, dto, applicantId, members).0;
    forall j | j in after.requests
      ensures Sound(after, j)
    {
      if j == db.nextRequest {
        CreatedRequestOk(db, dto, applicantId, Recipients(dto, members));
      } else {
        assert Sound(db, j);
        CreateOthers(db, dto, applicantId, Recipients(dto, members), j);
      }
    }
  }

  lemma CreateOwned(db: Db, dto: CreateDto, applicantId: nat, members: seq<nat>)
    requires Inv(db) && Create(db, dto, applicantId, members).1 == Done
    ensures Owned(Create(db, dto, applicantId, members).0)
  {
    var after := Create(db, dto, applicantId, members).0;
    forall m | m in after.mail.rows
      ensures HasOwner(after, after.mail.rows[m])
    {
      CreateOwners(db, after, dto, applicantId, Recipients(dto, members), m);
    }
  }

  lemma CreateKeepsInv(db: Db, dto: CreateDto, applicantId: nat, members: seq<nat>)
    requires Inv(db)
    ensures Inv(Create(db, dto, applicantId, members).0)
  {
    if Create(db, dto, applicantId, members).1 == Done {
      MC.InsertTodosKeys(db.mail, Recipients(dto, members), TodoDraft(db.nextRequest, dto, applicantId));
      CreateSound(db, dto, applicantId, members);
      CreateOwned(db, dto, applicantId, members);
    }
  }

  // -------------------------------------------- other modules, users and roles

  lemma MessageOwners(db: Db, call: MC.Call, now: nat, m: nat)
    requires Inv(db) && ForeignCall(call)
    requires m in MC.Perform(db.mail, call, now).rows
    ensures HasOwner(db, MC.Perform(db.mail, call, now).rows[m])
  {
    var after := MC.Perform(db.mail, call, now);
    MC.PerformKeepsInvariant(db.mail, call, now);
    if m in db.mail.rows {
      assert MC.Evolves(db.mail.rows[m], after.rows[m]);
      OwnerMoves(db, db, db.mail.rows[m], after.rows[m]);
    } else if call.CallCreateTodoForRole? {
      MC.InsertTodosKeys(db.mail, call.users, call.draft);
      MC.InsertTodosRow(db.mail, call.users, call.draft, m - db.mail.nextId);
    }
  }

  lemma MessageKeepsInv(db: Db, call: MC.Call, now: nat)
    requires Inv(db) && ForeignCall(call)
    ensures Inv(db.(mail := MC.Perform(db.mail, call, now)))
  {
    var after := db.(mail := MC.Perform(db.mail, call, now));
    MC.PerformKeepsInvariant(db.mail, call, now);
    forall j | j in after.requests
      ensures Sound(after, j)
    {
      assert Sound(db, j);
      ForeignCallLetters(db.mail, call, now, j);
      LettersOkEvolves(Letters(db.mail, j), Letters(after.mail, j), db.requests[j]);
    }
    forall m | m in after.mail.rows
      ensures HasOwner(after, after.mail.rows[m])
    {
      MessageOwners(db, call, now, m);
      OwnerMoves(db, after, after.mail.rows[m], after.mail.rows[m]);
    }
  }

  lemma DirectoryKeepsInv(db: Db, dir: Directory)
    requires Inv(db) && db.directory.users.Keys <= dir.users.Keys && 0 !in dir.users
    ensures Inv(db.(directory := dir))
  {
    var after := db.(directory := dir);
    forall j | j in after.requests
      ensures Sound(after, j)
    {
      assert Sound(db, j);
    }
    SameMailOwned(db, after);
  }

  // -------------------------------------------------------------- deleting users

  /** The letters that are left when these users are gone. */
  function Dropped(letters: map<nat, MC.Message>, gone: set<nat>): map<nat, MC.Message> {
    map m | m in letters && letters[m].userId !in gone :: MC.Orphaned(letters[m], gone)
  }

  lemma LettersAfterDrop(mail: MC.Mailbox, gone: set<nat>, id: nat)
    ensures Letters(MC.DropUsers(mail, gone), id) == Dropped(Letters(mail, id), gone)
  {
  }

  lemma LettersOkDrop(letters: map<nat, MC.Message>, r: Request, gone: set<nat>)
    requires LettersOk(letters, r) && r.applicantId !in gone
    ensures LettersOk(Dropped(letters, gone), WithoutApprover(r, gone))
  {
    var dropped := Dropped(letters, gone);
    assert Notices(dropped) <= Notices(letters);
    assert OpenTodos(dropped) <= OpenTodos(letters);
    if r.status != PENDING {
      var n :| Notices(letters) == {n} && letters[n].userId == r.applicantId
               && letters[n].title == NoticeTitle(r.status);
      assert n in Notices(letters);
      assert n in Notices(dropped);
      assert Notices(dropped) == {n};
    }
  }

  lemma DeleteUsersSound(db: Db, ids: set<nat>, currentUser: Option<nat>, refused: bool, j: nat)
    requires Inv(db) && DeleteUsers(db, ids, currentUser, refused).1 == Done && j in db.requests
    ensures Sound(DeleteUsers(db, ids, currentUser, refused).0, j)
  {
    var gone := ids * db.directory.users.Keys;
    assert Sound(db, j);
    assert db.requests[j].applicantId !in gone;
    LettersAfterDrop(db.mail, gone, j);
    LettersOkDrop(Letters(db.mail, j), db.requests[j], gone);
  }

  /** Deleting users keeps every invariant: cascades empty mailboxes and columns, never a log or a notice. */
  lemma DeleteUsersKeepsInv(db: Db, ids: set<nat>, currentUser: Option<nat>, refused: bool)
    requires Inv(db)
    ensures Inv(DeleteUsers(db, ids, currentUser, refused).0)
  {
    var after := DeleteUsers(db, ids, currentUser, refused).0;
    if DeleteUsers(db, ids, currentUser, refused).1 == Done {
      assert after.requests.Keys == db.requests.Keys;
      forall j | j in after.requests
        ensures Sound(after, j)
      {
        DeleteUsersSound(db, ids, currentUser, refused, j);
      }
      forall m | m in after.mail.rows
        ensures HasOwner(after, after.mail.rows[m])
      {
        OwnerMoves(db, after, db.mail.rows[m], after.mail.rows[m]);
      }
    }
  }

  // ---------------------------------------------------------------------- runs

  lemma StepKeepsInv(db: Db, op: Op, now: nat)
    requires Inv(db) && Enabled(db, op)
    ensures Inv(Apply(db, op, now).0)
  {
    match op
    case OpCreate(dto, applicant, members) => CreateKeepsInv(db, dto, applicant, members);
    case OpDecide(id, caller, approve, comment) => DecideKeepsInv(db, id, caller, approve, comment, now);
    case OpCancel(id, caller, comment) => CancelKeepsInv(db, id, caller, comment, now);
    case OpComment(id, caller, comment) => CommentKeepsInv(db, id, caller, comment);
    case OpMessage(call) => MessageKeepsInv(db, call, now);
    case OpDirectory(dir) => DirectoryKeepsInv(db, dir);
    case OpDeleteUsers(ids, currentUser, refused) => DeleteUsersKeepsInv(db, ids, currentUser, refused);
  }

  lemma {:induction false} RunKeepsInv(db: Db, events: seq<Event>)
    requires Inv(db) && Runnable(db, events)
    ensures Inv(After(db, events))
    decreases |events|
  {
    if events == [] {
    } else {
      StepKeepsInv(db, events[0].op, events[0].now);
      RunKeepsInv(Apply(db, events[0].op, events[0].now).0, events[1..]);
    }
  }

  /** The invariant holds in every state a run from the empty tables reaches. */
  lemma ReachableInv(dir: Directory, events: seq<Event>)
    requires 0 !in dir.users && Runnable(Initial(dir), events)
    ensures Inv(After(Initial(dir), events))
  {
    RunKeepsInv(Initial(dir), events);
  }
}
