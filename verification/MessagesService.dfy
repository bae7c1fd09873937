/** The message service: methods that change the message table in place. */
module MessagesService {
  import opened Base
  import opened UserStatus
  import opened Directory
  import MC = MessageCenter

  /** The mutable filter object a listing builds up field by field. */
  class MessageWhere {
    var userId: Option<nat>
    var kind: Option<MC.MessageType>
    var readAt: MC.NullTest
    var completedAt: MC.NullTest
    var cancelledAt: MC.NullTest

    constructor (userId: Option<nat>, kind: Option<MC.MessageType>)
      ensures Value() == MC.Where(userId, kind, MC.Any, MC.Any, MC.Any)
    {
      this.userId, this.kind := userId, kind;
      readAt, completedAt, cancelledAt := MC.Any, MC.Any, MC.Any;
    }

    function Value(): MC.Where
      reads this
    {
      MC.Where(userId, kind, readAt, completedAt, cancelledAt)
    }
  }

  method ApplyMessageStateFilter(w: MessageWhere, state: Option<string>)
    modifies w
    ensures w.Value() == MC.StateFiltered(old(w.Value()), if state.Some? then state.value else "")
  {
    if !Truthy(state) {
      return;
    }
    if state.value == "unread" {
      w.kind := Some(MC.NOTIFICATION);
      w.readAt := MC.IsNull;
    }
    if state.value == "read" {
      w.kind := Some(MC.NOTIFICATION);
      w.readAt := MC.NotNull;
    }
    if state.value == "pending" {
      w.kind := Some(MC.TODO);
      w.completedAt := MC.IsNull;
      w.cancelledAt := MC.IsNull;
    }
    if state.value == "done" {
      w.kind := Some(MC.TODO);
      w.completedAt := MC.NotNull;
    }
    if state.value == "cancelled" {
      w.kind := Some(MC.TODO);
      w.cancelledAt := MC.NotNull;
    }
  }

  /** Every row a fan-out adds is among the TODOs read back afterwards. */
  lemma NewTodosAnswer(box: MC.Mailbox, users: seq<nat>, members: set<nat>, draft: MC.Draft)
    requires MC.Valid(box) && forall u :: u in users ==> u in members
    ensures var after := MC.InsertTodos(box, users, draft);
      forall id :: id in after.rows && id !in box.rows ==> MC.Answers(after.rows[id], members, draft)
  {
    var after := MC.InsertTodos(box, users, draft);
    MC.InsertTodosKeys(box, users, draft);
    forall id | id in after.rows && id !in box.rows
      ensures MC.Answers(after.rows[id], members, draft)
    {
      MC.InsertTodosRow(box, users, draft, id - box.nextId);
    }
  }

  class MessagesService {
    var rows: map<nat, MC.Message>
    var nextId: nat

    constructor ()
      ensures Box() == MC.Mailbox(map[], 1) && Valid()
    {
      rows, nextId := map[], 1;
    }

    function Box(): MC.Mailbox
      reads this
    {
      MC.Mailbox(rows, nextId)
    }

    ghost predicate Valid()
      reads this
    {
      MC.Valid(Box())
    }

    method UnreadCount(user: nat) returns (unreadNotifications: nat, pendingTodos: nat, total: nat)
      requires Valid()
      ensures unreadNotifications == |MC.Listed(Box(), user, "unread")|
      ensures pendingTodos == |MC.Listed(Box(), user, "pending")|
      ensures total == |MC.Listed(Box(), user, "unread") + MC.Listed(Box(), user, "pending")|
    {
      unreadNotifications := MC.UnreadNotifications(Box(), user);
      pendingTodos := MC.PendingTodos(Box(), user);
      total := unreadNotifications + pendingTodos;
      MC.CountsAreListed(Box(), user);
      MC.UnreadCountAgrees(Box(), user);
    }

    method FindOwnedMessage(id: nat, caller: nat) returns (found: MC.Outcome)
      ensures found == MC.NotFound <==> id !in rows
      ensures found == MC.Done <==> id in rows && rows[id].userId == caller
      ensures found in {MC.Done, MC.NotFound, MC.Forbidden}
    {
      if id !in rows {
        return MC.NotFound;
      }
      if rows[id].userId != caller {
        return MC.Forbidden;
      }
      return MC.Done;
    }

    method MarkRead(id: nat, caller: nat, now: nat) returns (outcome: MC.Outcome)
      requires Valid()
      modifies this
      ensures Valid() && (Box(), outcome) == MC.MarkRead(old(Box()), id, caller, now)
    {
      outcome := FindOwnedMessage(id, caller);
      if outcome != MC.Done {
        return;
      }
      if rows[id].kind != MC.NOTIFICATION {
        return MC.BadRequest;
      }
      if rows[id].readAt.None? {
        rows := rows[id := rows[id].(readAt := Some(now))];
      }
      assert Box().rows == MC.MarkRead(old(Box()), id, caller, now).0.rows;
    }

    method MarkAllRead(user: nat, now: nat) returns (count: nat)
      requires Valid()
      modifies this
      ensures Valid() && Box() == MC.MarkAllRead(old(Box()), user, now)
      ensures count == old(|MC.Listed(Box(), user, "unread")|)
      ensures MC.Listed(Box(), user, "unread") == {}
    {
      ghost var unread := MC.Listed(Box(), user, "unread");
      var targets := set id | id in rows && rows[id].userId == user && MC.Unread(rows[id]);
      assert targets == unread;
      count := |targets|;
      rows := map id | id in rows :: if id in targets then rows[id].(readAt := Some(now)) else rows[id];
    }

    method CompleteTodo(id: nat, caller: nat, now: nat) returns (outcome: MC.Outcome)
      requires Valid()
      modifies this
      ensures Valid() && (Box(), outcome) == MC.CompleteTodo(old(Box()), id, caller, now)
    {
      outcome := FindOwnedMessage(id, caller);
      if outcome != MC.Done {
        return;
      }
      if rows[id].kind != MC.TODO {
        return MC.BadRequest;
      }
      if rows[id].cancelledAt.Some? {
        return MC.BadRequest;
      }
      if rows[id].completedAt.None? {
        rows := rows[id := rows[id].(completedAt := Some(now))];
      }
      assert Box().rows == MC.CompleteTodo(old(Box()), id, caller, now).0.rows;
    }

    method CancelTodo(id: nat, caller: nat, now: nat) returns (outcome: MC.Outcome)
      requires Valid()
      modifies this
      ensures Valid() && (Box(), outcome) == MC.CancelTodo(old(Box()), id, caller, now)
    {
      outcome := FindOwnedMessage(id, caller);
      if outcome != MC.Done {
        return;
      }
      if rows[id].kind != MC.TODO {
        return MC.BadRequest;
      }
      if rows[id].completedAt.Some? {
        return MC.BadRequest;
      }
      if rows[id].cancelledAt.None? {
        rows := rows[id := rows[id].(cancelledAt := Some(now))];
      }
      assert Box().rows == MC.CancelTodo(old(Box()), id, caller, now).0.rows;
    }

    method CreateNotification(draft: MC.Draft)
      requires Valid()
      modifies this
      ensures Valid() && Box() == MC.Insert(old(Box()), draft, MC.NOTIFICATION)
    {
      rows := rows[nextId := MC.NewRow(draft, MC.NOTIFICATION)];
      nextId := nextId + 1;
    }

    method CreateTodo(draft: MC.Draft)
      requires Valid()
      modifies this
      ensures Valid() && Box() == MC.Insert(old(Box()), draft, MC.TODO)
    {
      rows := rows[nextId := MC.NewRow(draft, MC.TODO)];
      nextId := nextId + 1;
    }

    /** The user query of the fan-out; the database may return the rows in any order. */
    method FindRoleUsers(dir: Directory, roleCode: string) returns (users: seq<nat>)
      ensures Enumerates(users, RoleMembers(dir, roleCode))
    {
      var rest := RoleMembers(dir, roleCode);
      users := [];
      while rest != {}
        invariant rest <= RoleMembers(dir, roleCode)
        invariant Enumerates(users, RoleMembers(dir, roleCode) - rest)
        decreases |rest|
      {
        var u :| u in rest;
        users := users + [u];
        rest := rest - {u};
      }
    }

    /** The TODOs of these users about the draft's business record, by id; a missing part does not restrict. */
    method FindTodos(users: set<nat>, draft: MC.Draft) returns (todos: seq<nat>)
      requires Valid()
      ensures forall id :: id in todos <==>
        && id in rows && rows[id].kind == MC.TODO && rows[id].userId in users
        && (draft.businessType.Some? ==> rows[id].businessType == draft.businessType)
        && (draft.businessId.Some? ==> rows[id].businessId == draft.businessId)
      ensures forall i, j :: 0 <= i < j < |todos| ==> todos[i] < todos[j]
    {
      todos := [];
      for id := 0 to nextId
        invariant forall k :: k in todos <==> k < id && k in rows && MC.Answers(rows[k], users, draft)
        invariant forall i, j :: 0 <= i < j < |todos| ==> todos[i] < todos[j]
      {
        if id in rows && MC.Answers(rows[id], users, draft) {
          assert forall i :: 0 <= i < |todos| ==> todos[i] in todos;
          todos := todos + [id];
        }
      }
    }

    /** `activeUsers` is the order in which the query returned the recipients; the TODOs are returned by id. */
    method CreateTodoForRole(dir: Directory, roleCode: string, draft: MC.Draft)
      returns (todos: seq<nat>, ghost activeUsers: seq<nat>)
      requires Valid()
      modifies this
      ensures Enumerates(activeUsers, RoleMembers(dir, roleCode))
      ensures Valid() && Box() == MC.InsertTodos(old(Box()), activeUsers, draft)
      ensures forall id :: id in todos <==>
        && id in rows && rows[id].kind == MC.TODO && rows[id].userId in RoleMembers(dir, roleCode)
        && (draft.businessType.Some? ==> rows[id].businessType == draft.businessType)
        && (draft.businessId.Some? ==> rows[id].businessId == draft.businessId)
      ensures forall i, j :: 0 <= i < j < |todos| ==> todos[i] < todos[j]
      ensures forall id :: id in rows && id !in old(rows) ==> id in todos
    {
      var users := FindRoleUsers(dir, roleCode);
      var recipients := FilterActive(dir, roleCode, users);
      activeUsers := recipients;
      if |recipients| == 0 {
        assert RoleMembers(dir, roleCode) == {} by { EnumerationLength(recipients, RoleMembers(dir, roleCode)); }
        return [], activeUsers;
      }
      CreateMany(recipients, draft);
      NewTodosAnswer(old(Box()), recipients, RoleMembers(dir, roleCode), draft);
      todos := FindTodos((set u | u in recipients), draft);
      assert (set u | u in recipients) == RoleMembers(dir, roleCode);
    }

    /** The status test in memory keeps everybody the query selected. */
    method FilterActive(dir: Directory, roleCode: string, users: seq<nat>) returns (activeUsers: seq<nat>)
      requires forall u :: u in users ==> u in RoleMembers(dir, roleCode)
      ensures activeUsers == users
    {
      activeUsers := [];
      for i := 0 to |users|
        invariant activeUsers == users[..i]
      {
        assert users[i] in users;
        ListedIsActive(dir.users[users[i]].status);
        if IsUserActive(dir.users[users[i]].status) {
          activeUsers := activeUsers + [users[i]];
        }
      }
    }

    method CreateMany(users: seq<nat>, draft: MC.Draft)
      requires Valid()
      modifies this
      ensures Valid() && Box() == MC.InsertTodos(old(Box()), users, draft)
    {
      for i := 0 to |users|
        invariant MC.InsertTodos(Box(), users[i..], draft) == MC.InsertTodos(old(Box()), users, draft)
      {
        assert users[i..][1..] == users[i + 1..];
        rows := rows[nextId := MC.NewRow(draft.(userId := users[i]), MC.TODO)];
        nextId := nextId + 1;
      }
      MC.InsertTodosKeys(old(Box()), users, draft);
    }

    method CompleteBusinessTodos(businessType: string, businessId: string, user: nat, now: nat)
      requires Valid()
      modifies this
      ensures Valid() && Box() == MC.CompleteBusinessTodos(old(Box()), businessType, businessId, user, now)
    {
      rows := map id | id in rows ::
        if MC.Concerns(rows[id], businessType, businessId) && MC.Open(rows[id])
           && (user == 0 || rows[id].userId == user)
        then rows[id].(completedAt := Some(now)) else rows[id];
    }

    method CancelBusinessTodos(businessType: string, businessId: string, except: nat, now: nat)
      requires Valid()
      modifies this
      ensures Valid() && Box() == MC.CancelBusinessTodos(old(Box()), businessType, businessId, except, now)
    {
      rows := map id | id in rows ::
        if MC.Concerns(rows[id], businessType, businessId) && MC.Open(rows[id])
           && (except == 0 || rows[id].userId != except)
        then rows[id].(cancelledAt := Some(now)) else rows[id];
    }
  }
}
