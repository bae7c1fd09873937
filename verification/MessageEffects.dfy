/** What each call of the message centre answers and changes, told from the columns of the rows. */
module MessageEffects {
  import opened Base
  import opened MessageCenter

  // ------------------------------------------------------------------ the lists

  /** What each state of the message list shows; any other state shows the whole mailbox. */
  lemma ListedExactly(box: Mailbox, user: nat, id: nat, other: string)
    requires id in box.rows
    requires other !in {"unread", "read", "pending", "done", "cancelled"}
    ensures var m := box.rows[id];
      && (id in Listed(box, user, "unread") <==> m.userId == user && m.kind == NOTIFICATION && m.readAt.None?)
      && (id in Listed(box, user, "read") <==> m.userId == user && m.kind == NOTIFICATION && m.readAt.Some?)
      && (id in Listed(box, user, "pending") <==>
            m.userId == user && m.kind == TODO && m.completedAt.None? && m.cancelledAt.None?)
      && (id in Listed(box, user, "done") <==> m.userId == user && m.kind == TODO && m.completedAt.Some?)
      && (id in Listed(box, user, "cancelled") <==> m.userId == user && m.kind == TODO && m.cancelledAt.Some?)
      && (id in Listed(box, user, other) <==> m.userId == user)
  {
  }

  // ---------------------------------------------------------- calls on one row

  /** No other row, and no row id, has changed. */
  ghost predicate OnlyRow(box: Mailbox, box': Mailbox, id: nat) {
    && box'.nextId == box.nextId && box'.rows.Keys == box.rows.Keys
    && (forall k :: k in box.rows && k != id ==> box'.rows[k] == box.rows[k])
  }

  /** The time set first stays; the call sets it when there is none. */
  predicate SetOnce(before: Option<nat>, after: Option<nat>, now: nat) {
    after == Some(if before.Some? then before.value else now)
  }

  lemma MarkReadExactly(box: Mailbox, id: nat, caller: nat, now: nat)
    ensures var (box', outcome) := MarkRead(box, id, caller, now);
      && (outcome == NotFound <==> id !in box.rows)
      && (outcome == Forbidden <==> id in box.rows && box.rows[id].userId != caller)
      && (outcome == BadRequest <==> id in box.rows && box.rows[id].userId == caller && box.rows[id].kind == TODO)
      && (outcome == Done <==>
            id in box.rows && box.rows[id].userId == caller && box.rows[id].kind == NOTIFICATION)
      && (outcome != Done ==> box' == box)
      && (outcome == Done ==>
            && OnlyRow(box, box', id)
            && box'.rows[id].(readAt := box.rows[id].readAt) == box.rows[id]
            && SetOnce(box.rows[id].readAt, box'.rows[id].readAt, now)
            && id !in Listed(box', caller, "unread") && id in Listed(box', caller, "read"))
  {
  }

  lemma CompleteTodoExactly(box: Mailbox, id: nat, caller: nat, now: nat)
    ensures var (box', outcome) := CompleteTodo(box, id, caller, now);
      && (outcome == NotFound <==> id !in box.rows)
      && (outcome == Forbidden <==> id in box.rows && box.rows[id].userId != caller)
      && (outcome == BadRequest <==>
            && id in box.rows && box.rows[id].userId == caller
            && (box.rows[id].kind == NOTIFICATION || box.rows[id].cancelledAt.Some?))
      && (outcome == Done <==>
            && id in box.rows && box.rows[id].userId == caller
            && box.rows[id].kind == TODO && box.rows[id].cancelledAt.None?)
      && (outcome != Done ==> box' == box)
      && (outcome == Done ==>
            && OnlyRow(box, box', id)
            && box'.rows[id].(completedAt := box.rows[id].completedAt) == box.rows[id]
            && SetOnce(box.rows[id].completedAt, box'.rows[id].completedAt, now)
            && id !in Listed(box', caller, "pending") && id in Listed(box', caller, "done"))
  {
  }

  lemma CancelTodoExactly(box: Mailbox, id: nat, caller: nat, now: nat)
    ensures var (box', outcome) := CancelTodo(box, id, caller, now);
      && (outcome == NotFound <==> id !in box.rows)
      && (outcome == Forbidden <==> id in box.rows && box.rows[id].userId != caller)
      && (outcome == BadRequest <==>
            && id in box.rows && box.rows[id].userId == caller
            && (box.rows[id].kind == NOTIFICATION || box.rows[id].completedAt.Some?))
      && (outcome == Done <==>
            && id in box.rows && box.rows[id].userId == caller
            && box.rows[id].kind == TODO && box.rows[id].completedAt.None?)
      && (outcome != Done ==> box' == box)
      && (outcome == Done ==>
            && OnlyRow(box, box', id)
            && box'.rows[id].(cancelledAt := box.rows[id].cancelledAt) == box.rows[id]
            && SetOnce(box.rows[id].cancelledAt, box'.rows[id].cancelledAt, now)
            && id !in Listed(box', caller, "pending") && id in Listed(box', caller, "cancelled"))
  {
  }

  // -------------------------------------------------------------- bulk updates

  lemma MarkAllReadExactly(box: Mailbox, user: nat, now: nat, id: nat)
    requires id in box.rows
    ensures var box', m := MarkAllRead(box, user, now), box.rows[id];
      && box'.nextId == box.nextId && box'.rows.Keys == box.rows.Keys
      && box'.rows[id] ==
         if m.userId == user && m.kind == NOTIFICATION && m.readAt.None? then m.(readAt := Some(now)) else m
  {
  }

  /** An open TODO of the business record is completed, for one user or, when user is 0, for everybody. */
  lemma CompleteBusinessTodosExactly(box: Mailbox, businessType: string, businessId: string, user: nat, now: nat, id: nat)
    requires id in box.rows
    ensures var box', m := CompleteBusinessTodos(box, businessType, businessId, user, now), box.rows[id];
      && box'.nextId == box.nextId && box'.rows.Keys == box.rows.Keys
      && box'.rows[id] ==
         if m.businessType == Some(businessType) && m.businessId == Some(businessId)
            && m.kind == TODO && m.completedAt.None? && m.cancelledAt.None? && (user == 0 || m.userId == user)
         then m.(completedAt := Some(now)) else m
  {
  }

  /** An open TODO of the business record is cancelled, but not the excepted user's, unless that is 0. */
  lemma CancelBusinessTodosExactly(box: Mailbox, businessType: string, businessId: string, except: nat, now: nat, id: nat)
    requires id in box.rows
    ensures var box', m := CancelBusinessTodos(box, businessType, businessId, except, now), box.rows[id];
      && box'.nextId == box.nextId && box'.rows.Keys == box.rows.Keys
      && box'.rows[id] ==
         if m.businessType == Some(businessType) && m.businessId == Some(businessId)
            && m.kind == TODO && m.completedAt.None? && m.cancelledAt.None? && (except == 0 || m.userId != except)
         then m.(cancelledAt := Some(now)) else m
  {
  }

  // ------------------------------------------------------------------ creation

  /** A new message carries the draft's columns, none of its times is set, and no other row changes. */
  lemma InsertExactly(box: Mailbox, draft: Draft, kind: MessageType)
    ensures var box' := Insert(box, draft, kind);
      && box'.nextId == box.nextId + 1
      && box'.rows == box.rows[box.nextId := Message(
           draft.userId, kind, draft.title, draft.content, draft.businessType, draft.businessId,
           draft.createdById, None, None, None)]
  {
  }

  /** The same for each row of a fan-out. */
  lemma InsertTodosExactly(box: Mailbox, users: seq<nat>, draft: Draft, k: nat)
    requires Valid(box) && k < |users|
    ensures var rows := InsertTodos(box, users, draft).rows;
      && box.nextId + k in rows
      && rows[box.nextId + k] == Message(
           users[k], TODO, draft.title, draft.content, draft.businessType, draft.businessId,
           draft.createdById, None, None, None)
  {
    InsertTodosRow(box, users, draft, k);
  }
}
