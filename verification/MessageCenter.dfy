/**
 The message table of the message centre and what each call does to it.
 A call is one atomic step; `now` is the value new Date() returns inside it.
*/
module MessageCenter {
  import opened Base

  datatype MessageType = NOTIFICATION | TODO

  datatype Message = Message(
    userId: nat, kind: MessageType, title: string, content: Option<string>,
    businessType: Option<string>, businessId: Option<string>, createdById: Option<nat>,
    readAt: Option<nat>, completedAt: Option<nat>, cancelledAt: Option<nat>)

  /** What a caller supplies for a new message; `userId` is the recipient. */
  datatype Draft = Draft(
    userId: nat, title: string, content: Option<string>,
    businessType: Option<string>, businessId: Option<string>, createdById: Option<nat>)

  datatype Mailbox = Mailbox(rows: map<nat, Message>, nextId: nat)

  datatype Outcome = Done | NotFound | Forbidden | BadRequest

  predicate Open(m: Message) {
    m.kind == TODO && m.completedAt.None? && m.cancelledAt.None?
  }

  predicate Unread(m: Message) {
    m.kind == NOTIFICATION && m.readAt.None?
  }

  // ---------------------------------------------------------------- creation

  function NewRow(draft: Draft, kind: MessageType): Message {
    Message(draft.userId, kind, draft.title, draft.content, draft.businessType,
            draft.businessId, draft.createdById, None, None, None)
  }

  function Insert(box: Mailbox, draft: Draft, kind: MessageType): Mailbox {
    Mailbox(box.rows[box.nextId := NewRow(draft, kind)], box.nextId + 1)
  }

  /** createMany: one row per user, with consecutive ids in the order of the users. */
  function InsertTodos(box: Mailbox, users: seq<nat>, draft: Draft): Mailbox
    decreases |users|
  {
    if users == [] then box
    else InsertTodos(Insert(box, draft.(userId := users[0]), TODO), users[1..], draft)
  }

  lemma InsertKeeps(box: Mailbox, draft: Draft, kind: MessageType)
    requires Valid(box)
    ensures var after := Insert(box, draft, kind);
      && Valid(after)
      && after.rows.Keys == box.rows.Keys + {box.nextId}
      && after.rows[box.nextId] == NewRow(draft, kind)
      && (forall id :: id in box.rows ==> id != box.nextId && after.rows[id] == box.rows[id])
  {
  }

  /** createMany keeps every row and adds one per user, numbered consecutively. */
  lemma {:induction false} InsertTodosKeys(box: Mailbox, users: seq<nat>, draft: Draft)
    requires Valid(box)
    ensures var after := InsertTodos(box, users, draft);
      && Valid(after)
      && after.nextId == box.nextId + |users|
      && (forall id :: id in after.rows <==> id in box.rows || box.nextId <= id < box.nextId + |users|)
      && (forall id :: id in box.rows ==> after.rows[id] == box.rows[id])
    decreases |users|
  {
    if users == [] {
    } else {
      var first := Insert(box, draft.(userId := users[0]), TODO);
      InsertKeeps(box, draft.(userId := users[0]), TODO);
      InsertTodosKeys(first, users[1..], draft);
    }
  }

  /** The k-th row createMany adds is an untouched TODO for the k-th user. */
  lemma {:induction false} InsertTodosRow(box: Mailbox, users: seq<nat>, draft: Draft, k: nat)
    requires Valid(box) && k < |users|
    ensures var rows := InsertTodos(box, users, draft).rows;
      box.nextId + k in rows && rows[box.nextId + k] == NewRow(draft.(userId := users[k]), TODO)
    decreases |users|
  {
    var first := Insert(box, draft.(userId := users[0]), TODO);
    InsertKeeps(box, draft.(userId := users[0]), TODO);
    InsertTodosKeys(first, users[1..], draft);
    if k > 0 {
      InsertTodosRow(first, users[1..], draft, k - 1);
    } else {
      assert box.nextId in first.rows;
    }
  }

  // ---------------------------------------------------------- calls on one row

  /** findOwnedMessage: the error it raises, or Done. */
  function Ownership(box: Mailbox, id: nat, caller: nat): Outcome {
    if id !in box.rows then NotFound
    else if box.rows[id].userId != caller then Forbidden
    else Done
  }

  function FirstOf(time: Option<nat>, now: nat): Option<nat> {
    if time.Some? then time else Some(now)
  }

  function MarkRead(box: Mailbox, id: nat, caller: nat, now: nat): (Mailbox, Outcome) {
    var found := Ownership(box, id, caller);
    if found != Done then (box, found)
    else if box.rows[id].kind != NOTIFICATION then (box, BadRequest)
    else
      var m := box.rows[id];
      (box.(rows := box.rows[id := m.(readAt := FirstOf(m.readAt, now))]), Done)
  }

  function CompleteTodo(box: Mailbox, id: nat, caller: nat, now: nat): (Mailbox, Outcome) {
    var found := Ownership(box, id, caller);
    if found != Done then (box, found)
    else if box.rows[id].kind != TODO then (box, BadRequest)
    else if box.rows[id].cancelledAt.Some? then (box, BadRequest)
    else
      var m := box.rows[id];
      (box.(rows := box.rows[id := m.(completedAt := FirstOf(m.completedAt, now))]), Done)
  }

  function CancelTodo(box: Mailbox, id: nat, caller: nat, now: nat): (Mailbox, Outcome) {
    var found := Ownership(box, id, caller);
    if found != Done then (box, found)
    else if box.rows[id].kind != TODO then (box, BadRequest)
    else if box.rows[id].completedAt.Some? then (box, BadRequest)
    else
      var m := box.rows[id];
      (box.(rows := box.rows[id := m.(cancelledAt := FirstOf(m.cancelledAt, now))]), Done)
  }

  // ------------------------------------------------------------- bulk updates

  function Read(m: Message, user: nat, now: nat): Message {
    if Unread(m) && m.userId == user then m.(readAt := Some(now)) else m
  }

  /** A message about this business record. */
  predicate Concerns(m: Message, businessType: string, businessId: string) {
    m.businessType == Some(businessType) && m.businessId == Some(businessId)
  }

  /** User 0 stands for "no user given", here and in Cancelled. */
  function Completed(m: Message, businessType: string, businessId: string, user: nat, now: nat): Message {
    if Concerns(m, businessType, businessId) && Open(m) && (user != 0 ==> m.userId == user)
    then m.(completedAt := Some(now)) else m
  }

  function Cancelled(m: Message, businessType: string, businessId: string, except: nat, now: nat): Message {
    if Concerns(m, businessType, businessId) && Open(m) && (except != 0 ==> m.userId != except)
    then m.(cancelledAt := Some(now)) else m
  }

  function MarkAllRead(box: Mailbox, user: nat, now: nat): Mailbox {
    box.(rows := map id | id in box.rows :: Read(box.rows[id], user, now))
  }

  function CompleteBusinessTodos(box: Mailbox, businessType: string, businessId: string, user: nat, now: nat): Mailbox {
    box.(rows := map id | id in box.rows :: Completed(box.rows[id], businessType, businessId, user, now))
  }

  function CancelBusinessTodos(box: Mailbox, businessType: string, businessId: string, except: nat, now: nat): Mailbox {
    box.(rows := map id | id in box.rows :: Cancelled(box.rows[id], businessType, businessId, except, now))
  }

  /** What a fan-out reads back: TODOs of these users about the draft's business record. */
  predicate Answers(m: Message, users: set<nat>, draft: Draft) {
    && m.kind == TODO && m.userId in users
    && (draft.businessType.Some? ==> m.businessType == draft.businessType)
    && (draft.businessId.Some? ==> m.businessId == draft.businessId)
  }

  // ---------------------------------------------------------- deleting users

  /** A message whose creator is deleted forgets its creator. */
  function Orphaned(m: Message, gone: set<nat>): Message {
    if m.createdById.Some? && m.createdById.value in gone then m.(createdById := None) else m
  }

  /** What deleting these user rows does to the messages: the mailboxes of the users go with them. */
  function DropUsers(box: Mailbox, gone: set<nat>): Mailbox {
    box.(rows := map id | id in box.rows && box.rows[id].userId !in gone :: Orphaned(box.rows[id], gone))
  }

  // ------------------------------------------------------------ runs of calls

  datatype Call =
    | CallMarkRead(id: nat, caller: nat)
    | CallMarkAllRead(caller: nat)
    | CallCompleteTodo(id: nat, caller: nat)
    | CallCancelTodo(id: nat, caller: nat)
    | CallCreateNotification(draft: Draft)
    | CallCreateTodo(draft: Draft)
    | CallCreateTodoForRole(users: seq<nat>, draft: Draft)
    | CallCompleteBusinessTodos(businessType: string, businessId: string, user: nat)
    | CallCancelBusinessTodos(businessType: string, businessId: string, user: nat)

  function Perform(box: Mailbox, call: Call, now: nat): Mailbox {
    match call
    case CallMarkRead(id, caller) => MarkRead(box, id, caller, now).0
    case CallMarkAllRead(caller) => MarkAllRead(box, caller, now)
    case CallCompleteTodo(id, caller) => CompleteTodo(box, id, caller, now).0
    case CallCancelTodo(id, caller) => CancelTodo(box, id, caller, now).0
    case CallCreateNotification(draft) => Insert(box, draft, NOTIFICATION)
    case CallCreateTodo(draft) => Insert(box, draft, TODO)
    case CallCreateTodoForRole(users, draft) => InsertTodos(box, users, draft)
    case CallCompleteBusinessTodos(bt, bid, user) => CompleteBusinessTodos(box, bt, bid, user, now)
    case CallCancelBusinessTodos(bt, bid, user) => CancelBusinessTodos(box, bt, bid, user, now)
  }

  /** The table after a run; call k happens at time times[k]. */
  function AfterCalls(box: Mailbox, calls: seq<Call>, times: seq<nat>): Mailbox
    requires |calls| == |times|
    decreases |calls|
  {
    if calls == [] then box
    else AfterCalls(Perform(box, calls[0], times[0]), calls[1..], times[1..])
  }

  // --------------------------------------------------------------- invariants

  /** A TODO is never both completed and cancelled; a notification is only ever read. */
  predicate WellFormed(m: Message) {
    match m.kind
    case TODO => m.readAt.None? && (m.completedAt.None? || m.cancelledAt.None?)
    case NOTIFICATION => m.completedAt.None? && m.cancelledAt.None?
  }

  ghost predicate Valid(box: Mailbox) {
    forall id :: id in box.rows ==> id < box.nextId && WellFormed(box.rows[id])
  }

  predicate Kept(before: Option<nat>, after: Option<nat>) {
    before.Some? ==> after == before
  }

  /** Only unset timestamps may have changed. */
  predicate Evolves(m: Message, m': Message) {
    && m' == m.(readAt := m'.readAt, completedAt := m'.completedAt, cancelledAt := m'.cancelledAt)
    && Kept(m.readAt, m'.readAt)
    && Kept(m.completedAt, m'.completedAt)
    && Kept(m.cancelledAt, m'.cancelledAt)
  }

  /** As Evolves; in addition the creator may have been forgotten. */
  predicate Outlives(m: Message, m': Message) {
    && Evolves(m.(createdById := m'.createdById), m')
    && Kept(m'.createdById, m.createdById)
  }

  /** Nothing is deleted and nothing set is changed. */
  ghost predicate Grows(box: Mailbox, box': Mailbox) {
    && box.nextId <= box'.nextId
    && (forall id :: id in box.rows ==> id in box'.rows && Evolves(box.rows[id], box'.rows[id]))
  }

  lemma UpdateKeeps(box: Mailbox, id: nat, m: Message)
    requires Valid(box) && id in box.rows && Evolves(box.rows[id], m) && WellFormed(m)
    ensures Valid(box.(rows := box.rows[id := m])) && Grows(box, box.(rows := box.rows[id := m]))
  {
  }

  lemma OneRowKeeps(box: Mailbox, id: nat, caller: nat, now: nat)
    requires Valid(box)
    ensures Valid(MarkRead(box, id, caller, now).0) && Grows(box, MarkRead(box, id, caller, now).0)
    ensures Valid(CompleteTodo(box, id, caller, now).0) && Grows(box, CompleteTodo(box, id, caller, now).0)
    ensures Valid(CancelTodo(box, id, caller, now).0) && Grows(box, CancelTodo(box, id, caller, now).0)
  {
    if id in box.rows && box.rows[id].userId == caller {
      var m := box.rows[id];
      if m.kind == NOTIFICATION {
        UpdateKeeps(box, id, m.(readAt := FirstOf(m.readAt, now)));
      } else {
        if m.cancelledAt.None? { UpdateKeeps(box, id, m.(completedAt := FirstOf(m.completedAt, now))); }
        if m.completedAt.None? { UpdateKeeps(box, id, m.(cancelledAt := FirstOf(m.cancelledAt, now))); }
      }
    }
  }

  lemma PerformKeepsInvariant(box: Mailbox, call: Call, now: nat)
    requires Valid(box)
    ensures Valid(Perform(box, call, now))
    ensures Grows(box, Perform(box, call, now))
  {
    match call
    case CallMarkRead(id, caller) => OneRowKeeps(box, id, caller, now);
    case CallCompleteTodo(id, caller) => OneRowKeeps(box, id, caller, now);
    case CallCancelTodo(id, caller) => OneRowKeeps(box, id, caller, now);
    case CallCreateTodoForRole(users, draft) => InsertTodosKeys(box, users, draft);
    case _ =>
  }

  lemma GrowsTransitive(a: Mailbox, b: Mailbox, c: Mailbox)
    requires Grows(a, b) && Grows(b, c)
    ensures Grows(a, c)
  {
    forall id | id in a.rows
      ensures id in c.rows && Evolves(a.rows[id], c.rows[id])
    {
      assert Evolves(a.rows[id], b.rows[id]) && Evolves(b.rows[id], c.rows[id]);
    }
  }

  /** Over any run of calls, from any valid table: the table stays valid and only grows. */
  lemma {:induction false} RunKeepsInvariant(box: Mailbox, calls: seq<Call>, times: seq<nat>)
    requires |calls| == |times| && Valid(box)
    ensures Valid(AfterCalls(box, calls, times))
    ensures Grows(box, AfterCalls(box, calls, times))
    decreases |calls|
  {
    if calls == [] {
    } else {
      var next := Perform(box, calls[0], times[0]);
      PerformKeepsInvariant(box, calls[0], times[0]);
      RunKeepsInvariant(next, calls[1..], times[1..]);
      GrowsTransitive(box, next, AfterCalls(next, calls[1..], times[1..]));
    }
  }

  // ------------------------------------------------------- the state filter

  datatype NullTest = Any | IsNull | NotNull

  datatype Where = Where(
    userId: Option<nat>, kind: Option<MessageType>,
    readAt: NullTest, completedAt: NullTest, cancelledAt: NullTest)

  predicate Passes(test: NullTest, time: Option<nat>) {
    match test
    case Any => true
    case IsNull => time.None?
    case NotNull => time.Some?
  }

  predicate Matches(where_: Where, m: Message) {
    && (where_.userId.Some? ==> where_.userId.value == m.userId)
    && (where_.kind.Some? ==> where_.kind.value == m.kind)
    && Passes(where_.readAt, m.readAt)
    && Passes(where_.completedAt, m.completedAt)
    && Passes(where_.cancelledAt, m.cancelledAt)
  }

  /** applyMessageStateFilter as a function of the filter it receives. */
  function StateFiltered(w: Where, state: string): Where {
    if state == "unread" then w.(kind := Some(NOTIFICATION), readAt := IsNull)
    else if state == "read" then w.(kind := Some(NOTIFICATION), readAt := NotNull)
    else if state == "pending" then w.(kind := Some(TODO), completedAt := IsNull, cancelledAt := IsNull)
    else if state == "done" then w.(kind := Some(TODO), completedAt := NotNull)
    else if state == "cancelled" then w.(kind := Some(TODO), cancelledAt := NotNull)
    else w
  }

  function OwnedBy(user: nat): Where {
    Where(Some(user), None, Any, Any, Any)
  }

  /** The ids the list endpoint selects for this user and state ("" for no state). */
  function Listed(box: Mailbox, user: nat, state: string): set<nat> {
    set id | id in box.rows && Matches(StateFiltered(OwnedBy(user), state), box.rows[id])
  }

  function UnreadNotifications(box: Mailbox, user: nat): nat {
    |set id | id in box.rows && Unread(box.rows[id]) && box.rows[id].userId == user|
  }

  function PendingTodos(box: Mailbox, user: nat): nat {
    |set id | id in box.rows && Open(box.rows[id]) && box.rows[id].userId == user|
  }

  /** The five states split a user's mailbox: every message is in exactly one of them. */
  lemma StatesPartition(box: Mailbox, user: nat)
    requires Valid(box)
    ensures Listed(box, user, "unread") !! Listed(box, user, "read") !! Listed(box, user, "pending")
            !! Listed(box, user, "done") !! Listed(box, user, "cancelled")
    ensures Listed(box, user, "") ==
            Listed(box, user, "unread") + Listed(box, user, "read") + Listed(box, user, "pending")
            + Listed(box, user, "done") + Listed(box, user, "cancelled")
  {
  }

  /** The two counters of the badge count the unread and the pending list. */
  lemma CountsAreListed(box: Mailbox, user: nat)
    ensures UnreadNotifications(box, user) == |Listed(box, user, "unread")|
    ensures PendingTodos(box, user) == |Listed(box, user, "pending")|
  {
    assert Listed(box, user, "unread")
        == set id | id in box.rows && Unread(box.rows[id]) && box.rows[id].userId == user;
    assert Listed(box, user, "pending")
        == set id | id in box.rows && Open(box.rows[id]) && box.rows[id].userId == user;
  }

  /** The badge counts exactly the messages the unread and pending lists show. */
  lemma UnreadCountAgrees(box: Mailbox, user: nat)
    requires Valid(box)
    ensures UnreadNotifications(box, user) + PendingTodos(box, user)
            == |Listed(box, user, "unread") + Listed(box, user, "pending")|
    ensures |Listed(box, user, "")| ==
            UnreadNotifications(box, user) + PendingTodos(box, user) + |Listed(box, user, "read")|
            + |Listed(box, user, "done")| + |Listed(box, user, "cancelled")|
  {
    var all, unread, read := Listed(box, user, ""), Listed(box, user, "unread"), Listed(box, user, "read");
    var pending, done, cancelled :=
      Listed(box, user, "pending"), Listed(box, user, "done"), Listed(box, user, "cancelled");
    CountsAreListed(box, user);
    StatesPartition(box, user);
    SizeOfSplit(all, unread, read, pending, done, cancelled);
  }

  lemma SizeOfSplit(all: set<nat>, a: set<nat>, b: set<nat>, c: set<nat>, d: set<nat>, e: set<nat>)
    requires all == a + b + c + d + e && a !! b !! c !! d !! e
    ensures |a + c| == |a| + |c|
    ensures |all| == |a| + |b| + |c| + |d| + |e|
  {
    assert |a + b| == |a| + |b|;
    assert |a + b + c| == |a + b| + |c|;
    assert |a + b + c + d| == |a + b + c| + |d|;
  }
}
