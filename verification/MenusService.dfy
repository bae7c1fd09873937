/** The menu service: methods that change the permission-group table in place. */
module MenusService {
  import opened Base
  import opened PermissionTables
  import opened Forest
  import opened MenuWalk
  import opened MenuOperations
  import opened MenuProtection
  import opened CodeBuilder

  /** The list of ids the recursive walk pushes to. */
  class IdList {
    var items: seq<nat>

    constructor ()
      ensures items == []
    {
      items := [];
    }

    method Push(id: nat)
      modifies this
      ensures items == old(items) + [id]
    {
      items := items + [id];
    }
  }

  class MenusService {
    var groups: Groups
    var order: seq<nat>
    var members: map<nat, nat>
    var nextId: nat

    constructor (s: Store)
      ensures State() == s
    {
      groups, order, members, nextId := s.groups, s.order, s.members, s.nextId;
    }

    function State(): Store
      reads this
    {
      Store(groups, order, members, nextId)
    }

    /** Pushes every id below the parent, each menu before its own children, after what the list already holds. */
    method GetChildMenuIds(parentId: nat, ids: IdList)
      requires NoDuplicates(order) && AcyclicBelow(groups, parentId)
      modifies ids
      ensures ids.items == old(ids.items) + Preorder(groups, order, parentId)
      decreases |Descendants(groups, parentId)|
    {
      var childMenus := Children(groups, order, parentId);
      ChildrenExact(groups, order, parentId);
      for i := 0 to |childMenus|
        invariant ids.items + PreorderOf(groups, order, parentId, childMenus[i..])
               == old(ids.items) + Preorder(groups, order, parentId)
      {
        ghost var rest := childMenus[i..];
        ghost var before := ids.items;
        assert IsChild(groups, parentId, childMenus[i]);
        AcyclicBelowChild(groups, parentId, childMenus[i]);
        ids.Push(childMenus[i]);
        GetChildMenuIds(childMenus[i], ids);
        assert rest[0] == childMenus[i] && rest[1..] == childMenus[i + 1..];
        Regroup(before, [childMenus[i]], Preorder(groups, order, childMenus[i]),
                PreorderOf(groups, order, parentId, rest[1..]));
      }
    }

    method DeleteMany(ids: set<nat>) returns (outcome: Outcome)
      modifies this
      ensures outcome == if HasMembers(old(State()), ids) then ForeignKey else Done
      ensures State() == if outcome == Done then Delete(old(State()), ids) else old(State())
    {
      if exists p :: p in members && members[p] in ids {
        return ForeignKey;
      }
      groups, order := DeleteRows(groups, ids), Without(order, ids);
      return Done;
    }

    method Remove(id: nat) returns (outcome: Outcome)
      requires Valid(State()) && Returns(groups, id)
      modifies this
      ensures Valid(State())
      ensures (State(), outcome) == MenuOperations.Remove(old(State()), id)
    {
      RemoveExact(State(), id);
      if id !in groups {
        return NotFound;
      }
      if SystemManaged(groups[id]) {
        return SystemManagedRow;
      }
      var childMenuIds := new IdList();
      GetChildMenuIds(id, childMenuIds);
      var below := set x | x in childMenuIds.items;
      assert childMenuIds.items == Preorder(groups, order, id);
      assert below == Elements(Preorder(groups, order, id));
      if exists x :: x in below && x in groups && SystemManaged(groups[x]) {
        return SystemManagedRow;
      }
      outcome := DeleteMany(below);
      if outcome != Done {
        return;
      }
      outcome := DeleteMany({id});
    }

    method RemoveMenusByIds(ids: seq<nat>) returns (outcome: Outcome)
      requires Valid(State()) && ReturnsAll(State(), ids)
      modifies this
      ensures Valid(State())
      ensures (State(), outcome) == RemoveMany(old(State()), ids)
    {
      outcome := Done;
      for i := 0 to |ids|
        invariant outcome == Done
        invariant Valid(State()) && ReturnsAll(State(), ids[i..])
        invariant RemoveMany(State(), ids[i..]) == RemoveMany(old(State()), ids)
      {
        ghost var rest, before := ids[i..], State();
        assert rest[0] == ids[i] && rest[1..] == ids[i + 1..];
        RemoveExact(before, ids[i]);
        outcome := Remove(ids[i]);
        if outcome != Done {
          return;
        }
      }
    }

    /** `parent` is what the body carries; a parent that is named must exist. */
    method CheckParent(parent: ParentField) returns (outcome: Outcome)
      ensures outcome == NotFound <==> parent.Given? && parent.id != 0 && parent.id !in groups
      ensures outcome in {Done, NotFound}
    {
      if parent.Given? && parent.id != 0 {
        if parent.id !in groups {
          return NotFound;
        }
      }
      return Done;
    }

    method Create(dto: CreateDto) returns (outcome: Outcome)
      requires Valid(State())
      modifies this
      ensures Valid(State())
      ensures (State(), outcome) == MenuOperations.Create(old(State()), dto)
    {
      CreateKeepsValid(State(), dto);
      outcome := CheckParent(dto.parent);
      if outcome != Done {
        return;
      }
      var code := if dto.code.Some? then dto.code.value else BuildCode(dto.path);
      if dto.parent.Given? && dto.parent.id !in groups {
        return ForeignKey;
      }
      if CodeTaken(groups, code, None) {
        return Conflict;
      }
      if !AllExist(members, dto.permissions) {
        return NotFound;
      }
      var id := nextId;
      nextId := nextId + 1;
      groups := groups[id := Group(
        code, dto.name, dto.path, dto.icon,
        if dto.sort.Some? then dto.sort.value else 0,
        if dto.visible.Some? then dto.visible.value else true,
        if dto.parent.Given? then Some(dto.parent.id) else None)];
      order := order + [id];
      members := Connect(members, dto.permissions, id);
    }

    /** The columns the body names replace the row's; a path without a code also renews the code. */
    method Merge(existing: Group, dto: UpdateDto) returns (row: Group)
      ensures row == UpdatedRow(existing, dto)
    {
      row := existing;
      if dto.code.Some? {
        row := row.(code := dto.code.value);
      }
      if dto.name.Some? {
        row := row.(name := dto.name.value);
      }
      if dto.path.Some? {
        row := row.(path := dto.path.value);
      }
      if dto.icon.Some? {
        row := row.(icon := dto.icon);
      }
      if dto.sort.Some? {
        row := row.(sort := dto.sort.value);
      }
      if dto.visible.Some? {
        row := row.(visible := dto.visible.value);
      }
      if Truthy(dto.path) && !Truthy(dto.code) {
        row := row.(code := BuildCode(dto.path.value));
      }
      match dto.parent
      case Unset =>
      case Null => row := row.(parentId := None);
      case Given(p) => row := row.(parentId := Some(p));
    }

    method Update(id: nat, dto: UpdateDto) returns (outcome: Outcome)
      requires Valid(State())
      modifies this
      ensures Valid(State())
      ensures (State(), outcome) == MenuOperations.Update(old(State()), id, dto)
    {
      UpdateKeepsValid(State(), id, dto);
      if id !in groups {
        return NotFound;
      }
      var row := groups[id];
      if SystemManaged(row) {
        return SystemManagedRow;
      }
      outcome := CheckParent(dto.parent);
      if outcome != Done {
        return;
      }
      if dto.parent.Given? && dto.parent.id !in groups {
        return ForeignKey;
      }
      row := Merge(row, dto);
      if CodeTaken(groups, row.code, Some(id)) {
        return Conflict;
      }
      if !AllExist(members, dto.permissions) {
        return NotFound;
      }
      groups := groups[id := row];
      members := Connect(members, dto.permissions, id);
      return Done;
    }
  }

  lemma Regroup(before: seq<nat>, head: seq<nat>, inner: seq<nat>, others: seq<nat>)
    ensures before + (head + inner + others) == before + head + inner + others
  {
  }
}
