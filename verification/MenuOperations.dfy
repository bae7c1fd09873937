/**
 The calls that write the permission-group table. The menu service and the permission-group
 service run the same code on it; only the latter can attach permissions to the group.
*/
module MenuOperations {
  import opened Base
  import opened PermissionTables
  import opened Forest
  import opened MenuWalk
  import opened CodeBuilder

  /** The codes the seed maintains; these rows may be neither edited nor deleted. */
  const SYSTEM_MANAGED_CODES: set<string> := {
    "dashboard", "message.center", "auth", "auth.users", "auth.roles", "auth.permissions", "auth.menus",
    "resources", "resources.images", "system", "system.logs", "system.dicts", "system.config", "system.files",
    "system.status", "system.version", "system.queues", "security", "security.loginLogs", "approval.requests",
    "common.export", "account", "account.profile"}

  predicate SystemManaged(row: Group) {
    row.code in SYSTEM_MANAGED_CODES
  }

  /** The group rows with their row order, and for each permission id the group it belongs to. */
  datatype Store = Store(groups: Groups, order: seq<nat>, members: map<nat, nat>, nextId: nat)

  datatype Outcome = Done | NotFound | SystemManagedRow | ForeignKey | Conflict

  /** parentId in a request body: left out, null, or a number. */
  datatype ParentField = Unset | Null | Given(id: nat)

  datatype CreateDto = CreateDto(
    code: Option<string>, name: string, path: string, icon: Option<string>, sort: Option<int>,
    visible: Option<bool>, parent: ParentField, permissions: seq<nat>)

  datatype UpdateDto = UpdateDto(
    code: Option<string>, name: Option<string>, path: Option<string>, icon: Option<string>, sort: Option<int>,
    visible: Option<bool>, parent: ParentField, permissions: seq<nat>)

  predicate CodeTaken(groups: Groups, code: string, except: Option<nat>) {
    exists x :: x in groups && groups[x].code == code && Some(x) != except
  }

  function Connect(members: map<nat, nat>, permissions: seq<nat>, group: nat): map<nat, nat> {
    map p | p in members :: if p in permissions then group else members[p]
  }

  predicate AllExist(members: map<nat, nat>, permissions: seq<nat>) {
    forall p :: p in permissions ==> p in members
  }

  // --------------------------------------------------------------------- create

  function CreatedRow(dto: CreateDto): Group {
    Group(if dto.code.Some? then dto.code.value else BuildCode(dto.path), dto.name, dto.path, dto.icon,
          if dto.sort.Some? then dto.sort.value else 0,
          if dto.visible.Some? then dto.visible.value else true,
          if dto.parent.Given? then Some(dto.parent.id) else None)
  }

  /** The check of the new parent; id 0 slips past it and is stopped by the foreign key. */
  function ParentError(groups: Groups, parent: ParentField): Outcome {
    if parent.Given? && parent.id !in groups then (if parent.id != 0 then NotFound else ForeignKey) else Done
  }

  function Create(s: Store, dto: CreateDto): (Store, Outcome) {
    var row := CreatedRow(dto);
    if ParentError(s.groups, dto.parent) != Done then (s, ParentError(s.groups, dto.parent))
    else if CodeTaken(s.groups, row.code, None) then (s, Conflict)
    else if !AllExist(s.members, dto.permissions) then (s, NotFound)
    else
      (Store(s.groups[s.nextId := row], s.order + [s.nextId],
             Connect(s.members, dto.permissions, s.nextId), s.nextId + 1), Done)
  }

  // --------------------------------------------------------------------- update

  function UpdatedRow(row: Group, dto: UpdateDto): Group {
    Group(if Truthy(dto.path) && !Truthy(dto.code) then BuildCode(dto.path.value)
          else if dto.code.Some? then dto.code.value else row.code,
          if dto.name.Some? then dto.name.value else row.name,
          if dto.path.Some? then dto.path.value else row.path,
          if dto.icon.Some? then dto.icon else row.icon,
          if dto.sort.Some? then dto.sort.value else row.sort,
          if dto.visible.Some? then dto.visible.value else row.visible,
          match dto.parent case Unset => row.parentId case Null => None case Given(p) => Some(p))
  }

  function Update(s: Store, id: nat, dto: UpdateDto): (Store, Outcome) {
    if id !in s.groups then (s, NotFound)
    else if SystemManaged(s.groups[id]) then (s, SystemManagedRow)
    else if ParentError(s.groups, dto.parent) != Done then (s, ParentError(s.groups, dto.parent))
    else
      var row := UpdatedRow(s.groups[id], dto);
      if CodeTaken(s.groups, row.code, Some(id)) then (s, Conflict)
      else if !AllExist(s.members, dto.permissions) then (s, NotFound)
      else (s.(groups := s.groups[id := row], members := Connect(s.members, dto.permissions, id)), Done)
  }

  // --------------------------------------------------------------------- delete

  /** A permission still belongs to one of these groups, so the database refuses to delete them. */
  predicate HasMembers(s: Store, ids: set<nat>) {
    exists p :: p in s.members && s.members[p] in ids
  }

  /** DELETE of these rows: references to them from rows that stay become null. */
  function DeleteRows(groups: Groups, ids: set<nat>): Groups {
    map x | x in groups && x !in ids ::
      if groups[x].parentId.Some? && groups[x].parentId.value in ids then groups[x].(parentId := None) else groups[x]
  }

  function Without(order: seq<nat>, ids: set<nat>): seq<nat> {
    if order == [] then []
    else (if order[0] in ids then [] else [order[0]]) + Without(order[1..], ids)
  }

  function Delete(s: Store, ids: set<nat>): Store {
    s.(groups := DeleteRows(s.groups, ids), order := Without(s.order, ids))
  }

  /** The walk below the row comes back, or an earlier check fails and there is no walk. */
  ghost predicate Returns(t: Groups, id: nat) {
    id in t && !SystemManaged(t[id]) ==> AcyclicBelow(t, id)
  }

  /** remove: two delete statements, the descendants first; the second may fail after the first succeeded. */
  ghost function Remove(s: Store, id: nat): (Store, Outcome)
    requires NoDuplicates(s.order) && Returns(s.groups, id)
  {
    if id !in s.groups then (s, NotFound)
    else if SystemManaged(s.groups[id]) then (s, SystemManagedRow)
    else
      var below := Elements(Preorder(s.groups, s.order, id));
      if exists x :: x in below && x in s.groups && SystemManaged(s.groups[x]) then (s, SystemManagedRow)
      else if HasMembers(s, below) then (s, ForeignKey)
      else if HasMembers(s, {id}) then (Delete(s, below), ForeignKey)
      else (Delete(Delete(s, below), {id}), Done)
  }

  // ------------------------------------------------------------------ invariant

  ghost predicate Valid(s: Store) {
    && IsOrder(s.groups, s.order)
    && (forall x :: x in s.groups ==> x < s.nextId)
    && WellParented(s.groups)
    && (forall x, y :: x in s.groups && y in s.groups && s.groups[x].code == s.groups[y].code ==> x == y)
  }

  lemma {:induction false} WithoutExact(order: seq<nat>, ids: set<nat>)
    requires NoDuplicates(order)
    ensures NoDuplicates(Without(order, ids))
    ensures forall x :: x in Without(order, ids) <==> x in order && x !in ids
  {
    if order == [] {
    } else {
      var rest := order[1..];
      assert forall i :: 0 <= i < |rest| ==> rest[i] == order[i + 1];
      assert order == [order[0]] + rest;
      WithoutExact(rest, ids);
    }
  }

  /** Deleting rows together with everything below them leaves every other row as it is. */
  lemma DeleteClosed(s: Store, ids: set<nat>)
    requires Valid(s) && DownClosed(s.groups, ids)
    ensures DeleteRows(s.groups, ids) == s.groups - ids
    ensures Valid(Delete(s, ids))
  {
    WithoutExact(s.order, ids);
    RemovalKeepsForest(s.groups, ids);
  }

  // ------------------------------------------------------------- exact removal

  ghost predicate NoneSystemManaged(s: Store, ids: set<nat>) {
    forall x :: x in ids && x in s.groups ==> s.groups[x].code !in SYSTEM_MANAGED_CODES
  }

  /** No permission belongs to one of these groups. */
  ghost predicate NoPermissions(s: Store, ids: set<nat>) {
    forall p :: p in s.members ==> s.members[p] !in ids
  }

  /** Exactly the subtree of id goes: the row, everything below it, and nothing else changes. */
  ghost predicate SubtreeRemoved(s: Store, s': Store, id: nat) {
    && s'.groups == s.groups - Subtree(s.groups, id)
    && s'.members == s.members && s'.nextId == s.nextId
  }

  lemma DeleteTwice(s: Store, below: set<nat>, id: nat)
    requires Valid(s) && below == Descendants(s.groups, id)
    ensures SubtreeRemoved(s, Delete(Delete(s, below), {id}), id)
    ensures Valid(Delete(s, below)) && Valid(Delete(Delete(s, below), {id}))
    ensures Delete(s, below).groups == s.groups - below
  {
    SubtreeDownClosed(s.groups, id);
    DeleteClosed(s, below);
    var first := Delete(s, below);
    forall y | y in first.groups
      ensures first.groups[y].parentId != Some(id)
    {
      if s.groups[y].parentId == Some(id) { ChildIsBelow(s.groups, id, y); }
    }
    DeleteClosed(first, {id});
    assert s.groups - below - {id} == s.groups - Subtree(s.groups, id);
  }

  lemma RemoveSucceedsExactly(s: Store, id: nat)
    requires Valid(s) && Returns(s.groups, id)
    ensures Remove(s, id).1 == Done <==>
      id in s.groups && NoneSystemManaged(s, Subtree(s.groups, id)) && NoPermissions(s, Subtree(s.groups, id))
  {
    if id in s.groups && !SystemManaged(s.groups[id]) {
      PreorderExact(s.groups, s.order, id);
      assert Elements(Preorder(s.groups, s.order, id)) == Descendants(s.groups, id);
    }
  }

  lemma RemoveOnStore(s: Store, id: nat)
    requires Valid(s) && Returns(s.groups, id)
    ensures var (s', outcome) := Remove(s, id);
      && (outcome == Done ==> s' == Delete(Delete(s, Descendants(s.groups, id)), {id}))
      && (outcome != Done ==> s' == s || (s' == Delete(s, Descendants(s.groups, id)) && !NoPermissions(s, {id})))
  {
    if id in s.groups && !SystemManaged(s.groups[id]) {
      PreorderExact(s.groups, s.order, id);
      assert Elements(Preorder(s.groups, s.order, id)) == Descendants(s.groups, id);
    }
  }

  /**
   remove returns exactly when the row exists, nothing in its subtree is system-managed and no
   permission belongs to the subtree; it then has deleted exactly that subtree. Otherwise nothing
   is deleted, except that a permission of the row itself stops only the second statement.
  */
  lemma RemoveExact(s: Store, id: nat)
    requires Valid(s) && Returns(s.groups, id)
    ensures var (s', outcome) := Remove(s, id);
      && Valid(s')
      && (outcome == Done <==>
            id in s.groups && NoneSystemManaged(s, Subtree(s.groups, id)) && NoPermissions(s, Subtree(s.groups, id)))
      && (outcome == Done ==> SubtreeRemoved(s, s', id))
      && (outcome != Done ==>
            s' == s || (s'.groups == s.groups - Descendants(s.groups, id) && !NoPermissions(s, {id})))
  {
    RemoveSucceedsExactly(s, id);
    RemoveOnStore(s, id);
    if id in s.groups {
      DeleteTwice(s, Descendants(s.groups, id), id);
    }
  }

  lemma RemoveUnfolded(s: Store, id: nat)
    requires Valid(s) && Returns(s.groups, id) && id in s.groups && !SystemManaged(s.groups[id])
    ensures var below := Descendants(s.groups, id);
      Remove(s, id) ==
      if !NoneSystemManaged(s, below) then (s, SystemManagedRow)
      else if HasMembers(s, below) then (s, ForeignKey)
      else if HasMembers(s, {id}) then (Delete(s, below), ForeignKey)
      else (Delete(Delete(s, below), {id}), Done)
  {
    PreorderExact(s.groups, s.order, id);
    assert Elements(Preorder(s.groups, s.order, id)) == Descendants(s.groups, id);
  }

  /** When each error of remove comes. */
  lemma RemoveErrorsExactly(s: Store, id: nat)
    requires Valid(s) && Returns(s.groups, id)
    ensures var outcome := Remove(s, id).1;
      && (outcome == NotFound <==> id !in s.groups)
      && (outcome == SystemManagedRow <==> id in s.groups && !NoneSystemManaged(s, Subtree(s.groups, id)))
      && (outcome == ForeignKey <==>
            && id in s.groups && NoneSystemManaged(s, Subtree(s.groups, id))
            && !NoPermissions(s, Subtree(s.groups, id)))
  {
    if id in s.groups {
      WholeSubtree(s, id);
      if !SystemManaged(s.groups[id]) { RemoveUnfolded(s, id); }
    }
  }

  lemma RemovalShows(t: Groups, gone: set<nat>)
    requires gone <= t.Keys
    ensures t - gone != t <==> gone != {}
  {
    if x :| x in gone { assert x in t && x !in t - gone; }
    if gone == {} { assert t - gone == t; }
  }

  lemma WholeSubtree(s: Store, id: nat)
    requires id in s.groups
    ensures NoneSystemManaged(s, Subtree(s.groups, id)) <==>
      !SystemManaged(s.groups[id]) && NoneSystemManaged(s, Descendants(s.groups, id))
  {
  }

  /**
   A remove that fails has still changed the table exactly when the checks pass, the row has
   descendants and none of them has permissions, but the row itself has one.
  */
  lemma FailedRemoveChangesExactly(s: Store, id: nat)
    requires Valid(s) && Returns(s.groups, id)
    ensures var (s', outcome) := Remove(s, id);
      (outcome != Done && s'.groups != s.groups) <==>
        && id in s.groups && NoneSystemManaged(s, Subtree(s.groups, id))
        && NoPermissions(s, Descendants(s.groups, id)) && !NoPermissions(s, {id})
        && Descendants(s.groups, id) != {}
  {
    if id in s.groups {
      WholeSubtree(s, id);
      if !SystemManaged(s.groups[id]) {
        RemoveUnfolded(s, id);
        DeleteTwice(s, Descendants(s.groups, id), id);
        RemovalShows(s.groups, Descendants(s.groups, id));
      }
    }
  }

  // ----------------------------------------------------------- removing several

  /** Every walk that the loop of removeMenusByIds starts comes back. */
  ghost predicate ReturnsAll(s: Store, ids: seq<nat>)
    requires Valid(s)
    decreases |ids|
  {
    ids != [] ==>
      && Returns(s.groups, ids[0])
      && (Remove(s, ids[0]).1 == Done ==>
            (RemoveExact(s, ids[0]);
             ReturnsAll(Remove(s, ids[0]).0, ids[1..])))
  }

  /** removeMenusByIds: one remove after the other, stopping at the first that fails. */
  ghost function RemoveMany(s: Store, ids: seq<nat>): (Store, Outcome)
    requires Valid(s) && ReturnsAll(s, ids)
    decreases |ids|
  {
    if ids == [] then (s, Done)
    else
      var (s1, outcome) := Remove(s, ids[0]);
      if outcome != Done then (s1, outcome)
      else
        RemoveExact(s, ids[0]);
        RemoveMany(s1, ids[1..])
  }

  ghost function UnionOf(t: Groups, ids: seq<nat>): set<nat> {
    if ids == [] then {} else Subtree(t, ids[0]) + UnionOf(t, ids[1..])
  }

  /** Every id exists and none lies in the subtree of an id named before it. */
  ghost predicate NoneNamedTwice(t: Groups, ids: seq<nat>) {
    && (forall i :: 0 <= i < |ids| ==> ids[i] in t)
    && (forall i, j :: 0 <= i < j < |ids| ==> ids[j] !in Subtree(t, ids[i]))
  }

  ghost predicate Removable(s: Store, ids: seq<nat>) {
    && NoneNamedTwice(s.groups, ids)
    && NoneSystemManaged(s, UnionOf(s.groups, ids))
    && NoPermissions(s, UnionOf(s.groups, ids))
  }

  lemma {:induction false} UnionAfterRemoval(t: Groups, gone: set<nat>, ids: seq<nat>)
    requires DownClosed(t, gone)
    requires forall i :: 0 <= i < |ids| ==> ids[i] !in gone
    ensures UnionOf(t - gone, ids) == UnionOf(t, ids) - gone
  {
    if ids == [] {
    } else {
      DescendantsAfterRemoval(t, gone, ids[0]);
      assert forall i :: 0 <= i < |ids[1..]| ==> ids[1..][i] == ids[i + 1];
      UnionAfterRemoval(t, gone, ids[1..]);
    }
  }

  lemma SubtreeOutside(t: Groups, gone: set<nat>, x: nat, y: nat)
    requires DownClosed(t, gone) && y !in gone
    ensures y in Subtree(t - gone, x) <==> y in Subtree(t, x)
  {
    BelowAfterRemoval(t, gone, x, y);
  }

  lemma NamedTwiceHead(t: Groups, ids: seq<nat>)
    requires ids != []
    ensures var gone := Subtree(t, ids[0]);
      NoneNamedTwice(t, ids) <==> ids[0] in t && NoneNamedTwice(t - gone, ids[1..])
  {
    var gone, rest := Subtree(t, ids[0]), ids[1..];
    SubtreeDownClosed(t, ids[0]);
    assert forall i :: 0 <= i < |rest| ==> rest[i] == ids[i + 1];
    if ids[0] in t && NoneNamedTwice(t - gone, rest) {
      forall i, j | 0 <= i < j < |ids|
        ensures ids[j] !in Subtree(t, ids[i])
      {
        assert rest[j - 1] in t - gone;
        if i > 0 {
          SubtreeOutside(t, gone, rest[i - 1], rest[j - 1]);
          assert rest[j - 1] !in Subtree(t - gone, rest[i - 1]);
        }
      }
      forall i | 0 <= i < |ids| ensures ids[i] in t {
        if i > 0 { assert rest[i - 1] in t - gone; }
      }
    }
    if NoneNamedTwice(t, ids) {
      forall i | 0 <= i < |rest| ensures rest[i] in t - gone {
        assert ids[i + 1] !in Subtree(t, ids[0]);
      }
      forall i, j | 0 <= i < j < |rest|
        ensures rest[j] !in Subtree(t - gone, rest[i])
      {
        assert ids[j + 1] !in Subtree(t, ids[i + 1]);
        SubtreeOutside(t, gone, rest[i], rest[j]);
      }
    }
  }

  lemma RemovableHead(s: Store, s1: Store, ids: seq<nat>)
    requires Valid(s) && ids != [] && ids[0] in s.groups && SubtreeRemoved(s, s1, ids[0])
    requires NoneSystemManaged(s, Subtree(s.groups, ids[0])) && NoPermissions(s, Subtree(s.groups, ids[0]))
    ensures Removable(s, ids) <==> Removable(s1, ids[1..])
    ensures Removable(s, ids) ==>
      UnionOf(s1.groups, ids[1..]) == UnionOf(s.groups, ids[1..]) - Subtree(s.groups, ids[0])
  {
    var gone, rest := Subtree(s.groups, ids[0]), ids[1..];
    SubtreeDownClosed(s.groups, ids[0]);
    NamedTwiceHead(s.groups, ids);
    if NoneNamedTwice(s1.groups, rest) {
      forall i | 0 <= i < |rest| ensures rest[i] !in gone {
        assert rest[i] in s1.groups;
      }
      UnionAfterRemoval(s.groups, gone, rest);
      assert UnionOf(s.groups, ids) == gone + UnionOf(s1.groups, rest);
      SplitConditions(s, s1, gone, UnionOf(s1.groups, rest));
    }
  }

  lemma SplitConditions(s: Store, s1: Store, gone: set<nat>, more: set<nat>)
    requires s1.groups == s.groups - gone && s1.members == s.members && gone !! more
    requires NoneSystemManaged(s, gone) && NoPermissions(s, gone)
    ensures NoneSystemManaged(s, gone + more) <==> NoneSystemManaged(s1, more)
    ensures NoPermissions(s, gone + more) <==> NoPermissions(s1, more)
  {
  }

  /**
   removeMenusByIds returns exactly when every id exists and none lies in the subtree of an earlier
   one, nothing in the subtrees is system-managed and no permission belongs to them; it has then
   deleted exactly the union of the subtrees.
  */
  lemma {:induction false} RemoveManyExact(s: Store, ids: seq<nat>)
    requires Valid(s) && ReturnsAll(s, ids)
    ensures var (s', outcome) := RemoveMany(s, ids);
      && Valid(s')
      && (outcome == Done <==> Removable(s, ids))
      && (outcome == Done ==>
            s'.groups == s.groups - UnionOf(s.groups, ids) && s'.members == s.members)
    decreases |ids|, 1
  {
    if ids == [] {
      assert s.groups - {} == s.groups;
    } else {
      RemoveExact(s, ids[0]);
      if Removable(s, ids) { HeadRemovable(s, ids); }
      if Remove(s, ids[0]).1 == Done { RemoveManyStep(s, ids); }
    }
  }

  lemma {:induction false} RemoveManyStep(s: Store, ids: seq<nat>)
    requires Valid(s) && ids != [] && ReturnsAll(s, ids)
    requires Remove(s, ids[0]).1 == Done
    ensures var (s', outcome) := RemoveMany(s, ids);
      && Valid(s')
      && (outcome == Done <==> Removable(s, ids))
      && (outcome == Done ==> s'.groups == s.groups - UnionOf(s.groups, ids) && s'.members == s.members)
    decreases |ids|, 0
  {
    var s1 := Remove(s, ids[0]).0;
    RemoveExact(s, ids[0]);
    RemovableHead(s, s1, ids);
    RemoveManyExact(s1, ids[1..]);
    MapMinus(s.groups, Subtree(s.groups, ids[0]), UnionOf(s1.groups, ids[1..]), UnionOf(s.groups, ids[1..]));
  }

  lemma MapMinus(t: Groups, a: set<nat>, b: set<nat>, c: set<nat>)
    ensures b == c - a ==> t - a - b == t - (a + c)
  {
    if b == c - a {
      assert (t - a - b).Keys == (t - (a + c)).Keys;
    }
  }

  lemma HeadRemovable(s: Store, ids: seq<nat>)
    requires ids != [] && Removable(s, ids)
    ensures ids[0] in s.groups
    ensures NoneSystemManaged(s, Subtree(s.groups, ids[0])) && NoPermissions(s, Subtree(s.groups, ids[0]))
  {
  }

  lemma {:induction false} UnionShrinks(t: Groups, gone: set<nat>, ids: seq<nat>)
    requires DownClosed(t, gone)
    ensures UnionOf(t - gone, ids) <= UnionOf(t, ids)
  {
    if ids == [] {
    } else {
      DescendantsAfterRemoval(t, gone, ids[0]);
      UnionShrinks(t, gone, ids[1..]);
    }
  }

  /** From the first table to the second only rows of `ids` are gone, and no row has changed. */
  ghost predicate OnlyGone(t: Groups, t': Groups, ids: set<nat>) {
    && (forall x :: x in t' ==> x in t && t'[x] == t[x])
    && (forall x :: x in t && x !in ids ==> x in t')
  }

  lemma RemoveTouchesSubtree(s: Store, id: nat)
    requires Valid(s) && Returns(s.groups, id)
    ensures OnlyGone(s.groups, Remove(s, id).0.groups, Subtree(s.groups, id))
  {
    RemoveExact(s, id);
  }

  /** Even when it stops halfway, removeMenusByIds deletes only rows of the named subtrees and changes no other row. */
  lemma {:induction false} RemoveManyTouchesSubtrees(s: Store, ids: seq<nat>)
    requires Valid(s) && ReturnsAll(s, ids)
    ensures OnlyGone(s.groups, RemoveMany(s, ids).0.groups, UnionOf(s.groups, ids))
    decreases |ids|
  {
    if ids == [] {
    } else {
      RemoveTouchesSubtree(s, ids[0]);
      if Remove(s, ids[0]).1 == Done {
        var gone := Subtree(s.groups, ids[0]);
        RemoveExact(s, ids[0]);
        SubtreeDownClosed(s.groups, ids[0]);
        RemoveManyTouchesSubtrees(Remove(s, ids[0]).0, ids[1..]);
        UnionShrinks(s.groups, gone, ids[1..]);
      }
    }
  }

  lemma PrefixCons(ids: seq<nat>, j: nat)
    requires j < |ids|
    ensures ids[..j + 1] == [ids[0]] + ids[1..][..j]
  {
  }

  lemma RemoveManyCons(s: Store, id: nat, rest: seq<nat>)
    requires Valid(s) && Returns(s.groups, id) && Remove(s, id).1 == Done
    requires Valid(Remove(s, id).0) && ReturnsAll(Remove(s, id).0, rest)
    ensures ReturnsAll(s, [id] + rest) && RemoveMany(s, [id] + rest) == RemoveMany(Remove(s, id).0, rest)
  {
    assert ([id] + rest)[1..] == rest;
  }

  /**
   A call that never comes back has worked through some of its ids completely, as the call on just
   these would have, and hangs in the walk below the next one.
  */
  lemma {:induction false} HangsAfterPrefix(s: Store, ids: seq<nat>) returns (k: nat)
    requires Valid(s) && !ReturnsAll(s, ids)
    ensures k < |ids| && ReturnsAll(s, ids[..k])
    ensures var (s', outcome) := RemoveMany(s, ids[..k]);
      outcome == Done && !Returns(s'.groups, ids[k])
    decreases |ids|
  {
    if !Returns(s.groups, ids[0]) {
      k := 0;
    } else {
      var rest := ids[1..];
      RemoveExact(s, ids[0]);
      var j := HangsAfterPrefix(Remove(s, ids[0]).0, rest);
      k := j + 1;
      RemoveManyCons(s, ids[0], rest[..j]);
      PrefixCons(ids, j);
    }
  }
}
