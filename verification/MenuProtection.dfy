/** What every run of the two services keeps: valid tables, a forest, the system-managed rows. */
module MenuProtection {
  import opened Base
  import opened PermissionTables
  import opened Forest
  import opened MenuWalk
  import opened MenuOperations

  datatype Op =
    | OpCreate(create: CreateDto)
    | OpUpdate(id: nat, update: UpdateDto)
    | OpRemove(id: nat)
    | OpRemoveMany(ids: seq<nat>)

  /** The call comes back; create and update always do. */
  ghost predicate OpReturns(s: Store, op: Op)
    requires Valid(s)
  {
    match op
    case OpRemove(id) => Returns(s.groups, id)
    case OpRemoveMany(ids) => ReturnsAll(s, ids)
    case _ => true
  }

  ghost function Step(s: Store, op: Op): (Store, Outcome)
    requires Valid(s) && OpReturns(s, op)
  {
    match op
    case OpCreate(dto) => Create(s, dto)
    case OpUpdate(id, dto) => Update(s, id, dto)
    case OpRemove(id) => Remove(s, id)
    case OpRemoveMany(ids) => RemoveMany(s, ids)
  }

  // ------------------------------------------------------------------ validity

  lemma CreateKeepsValid(s: Store, dto: CreateDto)
    requires Valid(s)
    ensures Valid(Create(s, dto).0)
  {
    if Create(s, dto).1 == Done {
      OrderGrows(s, CreatedRow(dto));
      assert CreatedRow(dto).parentId.Some? ==> CreatedRow(dto).parentId.value in s.groups;
    }
  }

  lemma OrderGrows(s: Store, row: Group)
    requires Valid(s)
    ensures IsOrder(s.groups[s.nextId := row], s.order + [s.nextId])
  {
    assert s.nextId !in s.order by {
      assert s.nextId !in s.groups;
    }
  }

  lemma UpdateKeepsValid(s: Store, id: nat, dto: UpdateDto)
    requires Valid(s)
    ensures Valid(Update(s, id, dto).0)
  {
    var s' := Update(s, id, dto).0;
    if Update(s, id, dto).1 == Done {
      assert s'.groups.Keys == s.groups.Keys;
      forall y | y in s.groups && y != id
        ensures s.groups[y].code != s'.groups[id].code
      {
      }
    }
  }

  lemma StepKeepsValid(s: Store, op: Op)
    requires Valid(s) && OpReturns(s, op)
    ensures Valid(Step(s, op).0)
  {
    match op
    case OpCreate(dto) => CreateKeepsValid(s, dto);
    case OpUpdate(id, dto) => UpdateKeepsValid(s, id, dto);
    case OpRemove(id) => RemoveExact(s, id);
    case OpRemoveMany(ids) => RemoveManyExact(s, ids);
  }

  // ------------------------------------------------------ system-managed rows

  /** Every system-managed row of the earlier table is in the later one, unaltered. */
  ghost predicate Protects(s: Store, s': Store) {
    forall x :: x in s.groups && s.groups[x].code in SYSTEM_MANAGED_CODES ==>
      x in s'.groups && s'.groups[x] == s.groups[x]
  }

  lemma RemoveProtects(s: Store, id: nat)
    requires Valid(s) && Returns(s.groups, id)
    ensures Protects(s, Remove(s, id).0)
  {
    RemoveExact(s, id);
    if id in s.groups && !SystemManaged(s.groups[id]) {
      PreorderExact(s.groups, s.order, id);
      assert Remove(s, id).0 != s ==> NoneSystemManaged(s, Descendants(s.groups, id));
    }
  }

  lemma {:induction false} RemoveManyProtects(s: Store, ids: seq<nat>)
    requires Valid(s) && ReturnsAll(s, ids)
    ensures Protects(s, RemoveMany(s, ids).0)
    decreases |ids|
  {
    if ids == [] {
    } else {
      RemoveProtects(s, ids[0]);
      if Remove(s, ids[0]).1 == Done {
        RemoveExact(s, ids[0]);
        RemoveManyProtects(Remove(s, ids[0]).0, ids[1..]);
      }
    }
  }

  lemma CreateProtects(s: Store, dto: CreateDto)
    requires Valid(s)
    ensures Protects(s, Create(s, dto).0)
  {
  }

  lemma UpdateProtects(s: Store, id: nat, dto: UpdateDto)
    requires Valid(s)
    ensures Protects(s, Update(s, id, dto).0)
  {
  }

  lemma StepProtects(s: Store, op: Op)
    requires Valid(s) && OpReturns(s, op)
    ensures Protects(s, Step(s, op).0)
  {
    match op
    case OpCreate(dto) => CreateProtects(s, dto);
    case OpUpdate(id, dto) => UpdateProtects(s, id, dto);
    case OpRemove(id) => RemoveProtects(s, id);
    case OpRemoveMany(ids) => RemoveManyProtects(s, ids);
  }

  ghost predicate Runnable(s: Store, ops: seq<Op>)
    requires Valid(s)
    decreases |ops|
  {
    ops != [] ==>
      OpReturns(s, ops[0]) && (StepKeepsValid(s, ops[0]); Runnable(Step(s, ops[0]).0, ops[1..]))
  }

  ghost function After(s: Store, ops: seq<Op>): Store
    requires Valid(s) && Runnable(s, ops)
    decreases |ops|
  {
    if ops == [] then s
    else
      StepKeepsValid(s, ops[0]);
      After(Step(s, ops[0]).0, ops[1..])
  }

  /**
   Over any run of returning calls of both services, on any valid table, cyclic or not: no group
   row whose code is system-managed is ever deleted or altered.
  */
  lemma {:induction false} RunProtects(s: Store, ops: seq<Op>)
    requires Valid(s) && Runnable(s, ops)
    ensures Valid(After(s, ops)) && Protects(s, After(s, ops))
    decreases |ops|
  {
    if ops == [] {
    } else {
      StepKeepsValid(s, ops[0]);
      StepProtects(s, ops[0]);
      RunProtects(Step(s, ops[0]).0, ops[1..]);
    }
  }

  /** Also a call that hangs has, by then, deleted and altered no system-managed row. */
  lemma HangProtects(s: Store, ids: seq<nat>)
    requires Valid(s) && !ReturnsAll(s, ids)
    ensures exists k :: 0 <= k < |ids| && ReturnsAll(s, ids[..k])
              && RemoveMany(s, ids[..k]).1 == Done && !Returns(RemoveMany(s, ids[..k]).0.groups, ids[k])
              && Protects(s, RemoveMany(s, ids[..k]).0)
  {
    var k := HangsAfterPrefix(s, ids);
    RemoveManyProtects(s, ids[..k]);
  }

  // ------------------------------------------------------------------ acyclicity

  /** A successful update that hangs a menu into its own subtree. */
  ghost predicate ClosesCycle(s: Store, op: Op) {
    match op
    case OpUpdate(id, dto) =>
      Update(s, id, dto).1 == Done && dto.parent.Given? && dto.parent.id in Subtree(s.groups, id)
    case _ => false
  }

  lemma UpdateAcyclicExactly(s: Store, id: nat, dto: UpdateDto)
    requires Valid(s) && Acyclic(s.groups)
    ensures Acyclic(Update(s, id, dto).0.groups) <==> !ClosesCycle(s, OpUpdate(id, dto))
  {
    if Update(s, id, dto).1 == Done {
      var row := UpdatedRow(s.groups[id], dto);
      match dto.parent
      case Given(p) => MoveKeepsAcyclicExactly(s.groups, id, row, p);
      case Null => TopKeepsAcyclic(s.groups, id, row);
      case Unset =>
        if row.parentId.Some? {
          var p := row.parentId.value;
          ChildIsBelow(s.groups, p, id);
          if Below(s.groups, id, p) { BelowTransitive(s.groups, p, id, p); BelowIsRow(s.groups, p, p); }
          MoveKeepsAcyclicExactly(s.groups, id, row, p);
        } else {
          TopKeepsAcyclic(s.groups, id, row);
        }
    }
  }

  lemma {:induction false} RemoveManyKeepsAcyclic(s: Store, ids: seq<nat>)
    requires Valid(s) && Acyclic(s.groups) && ReturnsAll(s, ids)
    ensures Acyclic(RemoveMany(s, ids).0.groups)
    decreases |ids|
  {
    if ids == [] {
    } else {
      RemoveKeepsAcyclic(s, ids[0]);
      if Remove(s, ids[0]).1 == Done {
        RemoveExact(s, ids[0]);
        RemoveManyKeepsAcyclic(Remove(s, ids[0]).0, ids[1..]);
      }
    }
  }

  lemma RemoveKeepsAcyclic(s: Store, id: nat)
    requires Valid(s) && Acyclic(s.groups) && Returns(s.groups, id)
    ensures Acyclic(Remove(s, id).0.groups)
  {
    RemoveExact(s, id);
    SubtreeDownClosed(s.groups, id);
    RemovalKeepsForest(s.groups, Subtree(s.groups, id));
    RemovalKeepsForest(s.groups, Descendants(s.groups, id));
  }

  /** A call on an acyclic table leaves it acyclic exactly when it does not move a menu into its own subtree. */
  lemma StepAcyclicExactly(s: Store, op: Op)
    requires Valid(s) && Acyclic(s.groups) && OpReturns(s, op)
    ensures Acyclic(Step(s, op).0.groups) <==> !ClosesCycle(s, op)
  {
    match op
    case OpCreate(dto) =>
      if Create(s, dto).1 == Done { InsertKeepsForest(s.groups, s.nextId, CreatedRow(dto)); }
    case OpUpdate(id, dto) => UpdateAcyclicExactly(s, id, dto);
    case OpRemove(id) => RemoveKeepsAcyclic(s, id);
    case OpRemoveMany(ids) => RemoveManyKeepsAcyclic(s, ids);
  }

  // ------------------------------------------------------- runs on a forest

  lemma {:induction false} AcyclicReturnsAll(s: Store, ids: seq<nat>)
    requires Valid(s) && Acyclic(s.groups)
    ensures ReturnsAll(s, ids)
    decreases |ids|
  {
    if ids == [] {
    } else {
      AcyclicEverywhere(s.groups, ids[0]);
      RemoveKeepsAcyclic(s, ids[0]);
      if Remove(s, ids[0]).1 == Done {
        RemoveExact(s, ids[0]);
        AcyclicReturnsAll(Remove(s, ids[0]).0, ids[1..]);
      }
    }
  }

  /** On a forest every call comes back. */
  lemma AcyclicOpReturns(s: Store, op: Op)
    requires Valid(s) && Acyclic(s.groups)
    ensures OpReturns(s, op)
  {
    match op
    case OpRemove(id) => AcyclicEverywhere(s.groups, id);
    case OpRemoveMany(ids) => AcyclicReturnsAll(s, ids);
    case _ =>
  }

  /** No call of the run hangs a menu into its own subtree. */
  ghost predicate ClosesNoCycle(s: Store, ops: seq<Op>)
    requires Valid(s) && Acyclic(s.groups)
    decreases |ops|
  {
    ops != [] ==>
      && !ClosesCycle(s, ops[0])
      && (AcyclicOpReturns(s, ops[0]); StepKeepsValid(s, ops[0]); StepAcyclicExactly(s, ops[0]);
          ClosesNoCycle(Step(s, ops[0]).0, ops[1..]))
  }

  /** From a forest, a run in which no call closes a cycle comes back, call by call, and ends in a forest. */
  lemma {:induction false} RunStaysForest(s: Store, ops: seq<Op>)
    requires Valid(s) && Acyclic(s.groups) && ClosesNoCycle(s, ops)
    ensures Runnable(s, ops) && Valid(After(s, ops)) && Acyclic(After(s, ops).groups)
    decreases |ops|
  {
    if ops == [] {
    } else {
      AcyclicOpReturns(s, ops[0]);
      StepKeepsValid(s, ops[0]);
      StepAcyclicExactly(s, ops[0]);
      RunStaysForest(Step(s, ops[0]).0, ops[1..]);
    }
  }

  // ------------------------------------------------------------------- witnesses

  const TOP_MENU := Group("a", "A", "/a", None, 0, true, None)
  const INNER_MENU := Group("b", "B", "/b", None, 0, true, Some(1))
  const TWO_MENUS := Store(map[1 := TOP_MENU, 2 := INNER_MENU], [1, 2], map[], 3)
  const MOVE_UNDER_CHILD := UpdateDto(None, None, None, None, None, None, Given(2), [])

  lemma TwoMenusForest()
    ensures Valid(TWO_MENUS) && Acyclic(TWO_MENUS.groups)
    ensures IsChild(TWO_MENUS.groups, 1, 2) && Below(TWO_MENUS.groups, 1, 2)
    ensures TOP_MENU.code !in SYSTEM_MANAGED_CODES && INNER_MENU.code !in SYSTEM_MANAGED_CODES
  {
    var t := TWO_MENUS.groups;
    assert INNER_MENU.code != TOP_MENU.code;
    forall x | x in t ensures !Below(t, x, x) {
      forall k: nat | k > 0 ensures Up(t, x, k) != Some(x) {
        NothingAboveTop(t, 1, k);
        if k > 1 { NothingAboveTop(t, 1, k - 1); }
      }
    }
    assert IsChild(t, 1, 2);
    ChildIsBelow(t, 1, 2);
  }

  /** Nothing stops an update from moving a menu under its own child, which closes a cycle. */
  lemma UpdateCanCloseCycle()
    ensures Valid(TWO_MENUS) && Acyclic(TWO_MENUS.groups)
    ensures Update(TWO_MENUS, 1, MOVE_UNDER_CHILD).1 == Done
    ensures !Acyclic(Update(TWO_MENUS, 1, MOVE_UNDER_CHILD).0.groups)
  {
    TwoMenusForest();
    UpdateAcyclicExactly(TWO_MENUS, 1, MOVE_UNDER_CHILD);
  }

  /** The top menu still has a permission, its child has none. */
  const MENUS_WITH_PERMISSION := TWO_MENUS.(members := map[7 := 1])

  /** Removing the top menu fails at the second statement, when its child is already gone. */
  lemma FailedRemoveCanLoseChildren()
    ensures Valid(MENUS_WITH_PERMISSION) && Returns(MENUS_WITH_PERMISSION.groups, 1)
    ensures var (s', outcome) := Remove(MENUS_WITH_PERMISSION, 1);
      outcome != Done && 1 in s'.groups && 2 in MENUS_WITH_PERMISSION.groups && 2 !in s'.groups
  {
    var s := MENUS_WITH_PERMISSION;
    TwoMenusForest();
    AcyclicEverywhere(s.groups, 1);
    assert 2 in Descendants(s.groups, 1);
    assert s.members[7] == 1;
    assert Below(s.groups, 1, 1) == false;
    forall x | x in Subtree(s.groups, 1) ensures x in {1, 2} {
      if x != 1 { BelowIsRow(s.groups, 1, x); }
    }
    FailedRemoveChangesExactly(s, 1);
    RemoveExact(s, 1);
  }
}
