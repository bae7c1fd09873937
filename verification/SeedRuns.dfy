/** From single rows to whole subtrees: how the pieces of one upsert run fit together. */
module SeedRuns {
  import opened Base
  import opened PermissionTables
  import opened SeedModel
  import opened SeedSteps

  // ---------------------------------------------------- one group's permissions

  /** The permissions of one group have been written; the group table is untouched. */
  ghost predicate PermissionsWritten(db: Db, at: Placement, db': Db, at': Placement, seeds: seq<PermissionSeed>,
                                     groupId: nat, ids: seq<nat>) {
    && Valid(db') && Placed(db', at') && Progress(db, at, db', at')
    && db'.groups == db.groups && db'.nextGroup == db.nextGroup && at'.groups == at.groups
    && at'.permissions.Keys == at.permissions.Keys + Elements(PermissionCodes(seeds))
    && (forall p :: p in seeds ==> PermissionSettled(db', at', p, groupId))
    && Lists(at', ids, PermissionCodes(seeds))
  }

  lemma {:induction false} PermissionCodesConcat(a: seq<PermissionSeed>, b: seq<PermissionSeed>)
    ensures PermissionCodes(a + b) == PermissionCodes(a) + PermissionCodes(b)
  {
    if a == [] {
      assert a + b == b;
    } else {
      PermissionCodesConcat(a[1..], b);
      assert (a + b)[0] == a[0] && (a + b)[1..] == a[1..] + b;
    }
  }

  lemma {:induction false} PermissionCodesAt(seeds: seq<PermissionSeed>)
    ensures |PermissionCodes(seeds)| == |seeds|
    ensures forall i :: 0 <= i < |seeds| ==> PermissionCodes(seeds)[i] == seeds[i].code
  {
    if seeds == [] {
    } else {
      PermissionCodesAt(seeds[1..]);
    }
  }

  lemma PermissionListed(at1: Placement, seeds: seq<PermissionSeed>, seed: PermissionSeed, ids: seq<nat>, id: nat)
    requires Lists(at1, ids, PermissionCodes(seeds)) && seed.code !in at1.permissions
    ensures Lists(WithPermission(at1, seed.code, id), ids + [id], PermissionCodes(seeds + [seed]))
    ensures Elements(PermissionCodes(seeds + [seed])) == Elements(PermissionCodes(seeds)) + {seed.code}
  {
    PermissionCodesConcat(seeds, [seed]);
    assert PermissionCodes([seed]) == [seed.code] by { assert [seed][1..] == []; }
    ElementsConcat(PermissionCodes(seeds), [seed.code]);
    assert forall c :: c in PermissionCodes(seeds) ==> c in at1.permissions;
  }

  lemma PermissionWritten(db: Db, at: Placement, db1: Db, at1: Placement, db2: Db, seeds: seq<PermissionSeed>,
                          seed: PermissionSeed, groupId: nat, ids: seq<nat>, id: nat)
    requires PermissionsWritten(db, at, db1, at1, seeds, groupId, ids)
    requires Valid(db2) && PermissionUpserted(db1, db2, seed, groupId, id)
    requires groupId in at1.groups.Values && seed.code !in at1.permissions && id !in at1.permissions.Values
    ensures PermissionsWritten(db, at, db2, WithPermission(at1, seed.code, id), seeds + [seed], groupId, ids + [id])
  {
    var at2 := WithPermission(at1, seed.code, id);
    PermissionUpsertPlaced(db1, at1, db2, seed, groupId, id);
    PermissionUpsertProgress(db1, at1, db2, seed, groupId, id);
    ProgressTransitive(db, at, db1, at1, db2, at2);
    PermissionListed(at1, seeds, seed, ids, id);
    StillSettled(db1, at1, db2, seeds, seed, groupId, id);
  }

  lemma StillSettled(db1: Db, at1: Placement, db2: Db, seeds: seq<PermissionSeed>, seed: PermissionSeed, groupId: nat,
                     id: nat)
    requires PermissionUpserted(db1, db2, seed, groupId, id)
    requires seed.code !in at1.permissions && id !in at1.permissions.Values
    requires forall p :: p in seeds ==> PermissionSettled(db1, at1, p, groupId)
    ensures forall p :: p in seeds + [seed] ==> PermissionSettled(db2, WithPermission(at1, seed.code, id), p, groupId)
  {
    forall p | p in seeds + [seed]
      ensures PermissionSettled(db2, WithPermission(at1, seed.code, id), p, groupId)
    {
      if p in seeds { assert PermissionSettled(db1, at1, p, groupId); }
    }
  }

  // ------------------------------------------------------------ lists of menus

  lemma Associative<T>(a: seq<T>, b: seq<T>, c: seq<T>)
    ensures a + (b + c) == (a + b) + c
  {
  }

  lemma {:induction false} GroupCodesConcat(a: seq<MenuSeed>, b: seq<MenuSeed>)
    ensures GroupCodes(a + b) == GroupCodes(a) + GroupCodes(b)
  {
    if a == [] {
      assert a + b == b;
    } else {
      GroupCodesConcat(a[1..], b);
      assert (a + b)[0] == a[0] && (a + b)[1..] == a[1..] + b;
      var head := [a[0].code] + GroupCodes(a[0].children);
      assert GroupCodes(a + b) == head + GroupCodes(a[1..] + b);
      Associative(head, GroupCodes(a[1..]), GroupCodes(b));
    }
  }

  lemma {:induction false} AllPermissionCodesConcat(a: seq<MenuSeed>, b: seq<MenuSeed>)
    ensures AllPermissionCodes(a + b) == AllPermissionCodes(a) + AllPermissionCodes(b)
  {
    if a == [] {
      assert a + b == b;
    } else {
      AllPermissionCodesConcat(a[1..], b);
      assert (a + b)[0] == a[0] && (a + b)[1..] == a[1..] + b;
      var head := PermissionCodes(a[0].permissions) + AllPermissionCodes(a[0].children);
      assert AllPermissionCodes(a + b) == head + AllPermissionCodes(a[1..] + b);
      Associative(head, AllPermissionCodes(a[1..]), AllPermissionCodes(b));
    }
  }

  ghost predicate NewValue(at: Placement, at': Placement, id: nat) {
    exists d :: d in at'.groups && d !in at.groups && at'.groups[d] == id
  }

  /** Rows settled on the way hang under rows settled on the way, or directly under the parent in a menu's place. */
  ghost predicate Under(db': Db, at: Placement, at': Placement, menus: seq<MenuSeed>, parentId: Option<nat>)
    requires Placed(db', at')
  {
    forall c :: c in at'.groups && c !in at.groups ==> Hangs(db'.groups[at'.groups[c]], at, at', menus, parentId)
  }

  ghost predicate Hangs(row: Group, at: Placement, at': Placement, menus: seq<MenuSeed>, parentId: Option<nat>) {
    || (row.parentId == parentId && exists m :: m in menus && m.path == row.path)
    || (row.parentId.Some? && NewValue(at, at', row.parentId.value))
  }

  /** What an upsert of these menus under this parent relies on. */
  ghost predicate Ready(db: Db, at: Placement, menus: seq<MenuSeed>, parentId: Option<nat>) {
    && Valid(db) && Placed(db, at) && SeedOk(menus)
    && Elements(GroupCodes(menus)) !! at.groups.Keys
    && Elements(AllPermissionCodes(menus)) !! at.permissions.Keys
    && (parentId.Some? ==> parentId.value in at.groups.Values)
    && (forall m :: m in menus ==> PlaceFree(db, at, m.path, parentId))
  }

  /** Exactly the codes of these menus are settled in addition. */
  ghost predicate KeysGrown(at: Placement, at': Placement, menus: seq<MenuSeed>) {
    && at'.groups.Keys == at.groups.Keys + Elements(GroupCodes(menus))
    && at'.permissions.Keys == at.permissions.Keys + Elements(AllPermissionCodes(menus))
  }

  lemma KeysGrownConcat(at: Placement, at1: Placement, at2: Placement, a: seq<MenuSeed>, b: seq<MenuSeed>)
    requires KeysGrown(at, at1, a) && KeysGrown(at1, at2, b)
    ensures KeysGrown(at, at2, a + b)
  {
    GroupCodesConcat(a, b);
    AllPermissionCodesConcat(a, b);
    ElementsConcat(GroupCodes(a), GroupCodes(b));
    ElementsConcat(AllPermissionCodes(a), AllPermissionCodes(b));
  }

  lemma TreeKeysGrown(at: Placement, at2: Placement, at3: Placement, menu: MenuSeed)
    requires at2.groups.Keys == at.groups.Keys + {menu.code}
    requires at2.permissions.Keys == at.permissions.Keys + Elements(PermissionCodes(menu.permissions))
    requires KeysGrown(at2, at3, menu.children)
    ensures KeysGrown(at, at3, [menu])
  {
    TreeCodes(menu);
    ElementsConcat([menu.code], GroupCodes(menu.children));
    ElementsConcat(PermissionCodes(menu.permissions), AllPermissionCodes(menu.children));
    assert Elements([menu.code]) == {menu.code};
  }

  /** The menus have been written under this parent, and their permission ids are `ids`. */
  ghost predicate Written(db: Db, at: Placement, db': Db, at': Placement, menus: seq<MenuSeed>,
                          parentId: Option<nat>, ids: seq<nat>) {
    && Valid(db') && Placed(db', at') && Progress(db, at, db', at')
    && KeysGrown(at, at', menus)
    && AllSettled(db', at', menus, parentId)
    && Lists(at', ids, AllPermissionCodes(menus))
    && Under(db', at, at', menus, parentId)
  }

  lemma NothingWritten(db: Db, at: Placement, parentId: Option<nat>)
    requires Valid(db) && Placed(db, at)
    ensures Written(db, at, db, at, [], parentId, [])
  {
  }

  lemma AllSettledStay(db: Db, at: Placement, db': Db, at': Placement, menus: seq<MenuSeed>, parentId: Option<nat>)
    requires Progress(db, at, db', at') && AllSettled(db, at, menus, parentId)
    ensures AllSettled(db', at', menus, parentId)
  {
    forall m | m in menus
      ensures Settled(db', at', m, parentId)
    {
      SettledStays(db, at, db', at', m, parentId);
    }
  }

  /** A newly settled value is not one of the values settled before. */
  lemma NewValueIsNew(db: Db, at: Placement, db': Db, at': Placement, id: nat)
    requires Placed(db, at) && Placed(db', at') && Progress(db, at, db', at') && NewValue(at, at', id)
    ensures id !in at.groups.Values
  {
    var d :| d in at'.groups && d !in at.groups && at'.groups[d] == id;
    forall c | c in at.groups
      ensures at.groups[c] != id
    {
      assert db'.groups[at'.groups[c]].code == c;
    }
  }

  lemma UnderConcat(db: Db, at: Placement, db1: Db, at1: Placement, db2: Db, at2: Placement,
                    a: seq<MenuSeed>, b: seq<MenuSeed>, parentId: Option<nat>)
    requires Placed(db1, at1) && Placed(db2, at2)
    requires Progress(db, at, db1, at1) && Progress(db1, at1, db2, at2)
    requires Under(db1, at, at1, a, parentId) && Under(db2, at1, at2, b, parentId)
    ensures Under(db2, at, at2, a + b, parentId)
  {
    forall c | c in at2.groups && c !in at.groups
      ensures Hangs(db2.groups[at2.groups[c]], at, at2, a + b, parentId)
    {
      var row := db2.groups[at2.groups[c]];
      if c in at1.groups {
        assert Hangs(db1.groups[at1.groups[c]], at, at1, a, parentId);
        if row.parentId.Some? && NewValue(at, at1, row.parentId.value) {
          var d :| d in at1.groups && d !in at.groups && at1.groups[d] == row.parentId.value;
          assert d in at2.groups && at2.groups[d] == row.parentId.value;
        }
      } else {
        assert Hangs(row, at1, at2, b, parentId);
        if row.parentId.Some? && NewValue(at1, at2, row.parentId.value) {
          var d :| d in at2.groups && d !in at1.groups && at2.groups[d] == row.parentId.value;
          assert d !in at.groups;
        }
      }
    }
  }

  lemma ListedConcat(db1: Db, at1: Placement, db2: Db, at2: Placement, a: seq<MenuSeed>, b: seq<MenuSeed>,
                     ids: seq<nat>, more: seq<nat>)
    requires Progress(db1, at1, db2, at2)
    requires Lists(at1, ids, AllPermissionCodes(a)) && Lists(at2, more, AllPermissionCodes(b))
    ensures Lists(at2, ids + more, AllPermissionCodes(a + b))
  {
    AllPermissionCodesConcat(a, b);
    ListsStays(db1, at1, db2, at2, ids, AllPermissionCodes(a));
    ListsConcat(at2, ids, AllPermissionCodes(a), more, AllPermissionCodes(b));
  }

  lemma WrittenConcat(db: Db, at: Placement, db1: Db, at1: Placement, db2: Db, at2: Placement,
                      a: seq<MenuSeed>, b: seq<MenuSeed>, parentId: Option<nat>, ids: seq<nat>, more: seq<nat>)
    requires Written(db, at, db1, at1, a, parentId, ids) && Written(db1, at1, db2, at2, b, parentId, more)
    ensures Written(db, at, db2, at2, a + b, parentId, ids + more)
  {
    KeysGrownConcat(at, at1, at2, a, b);
    ProgressTransitive(db, at, db1, at1, db2, at2);
    AllSettledStay(db1, at1, db2, at2, a, parentId);
    ListedConcat(db1, at1, db2, at2, a, b, ids, more);
    UnderConcat(db, at, db1, at1, db2, at2, a, b, parentId);
  }

  // ------------------------------------------------------ readiness of the parts

  lemma SeedOkSplit(a: seq<MenuSeed>, b: seq<MenuSeed>)
    requires SeedOk(a + b)
    ensures SeedOk(a) && SeedOk(b)
    ensures Elements(GroupCodes(a)) !! Elements(GroupCodes(b))
    ensures Elements(AllPermissionCodes(a)) !! Elements(AllPermissionCodes(b))
    ensures forall m, n :: m in a && n in b ==> m.path != n.path
  {
    GroupCodesConcat(a, b);
    AllPermissionCodesConcat(a, b);
    NoDuplicatesSplit(GroupCodes(a), GroupCodes(b));
    NoDuplicatesSplit(AllPermissionCodes(a), AllPermissionCodes(b));
    PlacesSplit(a, b);
  }

  lemma PlacesSplit(a: seq<MenuSeed>, b: seq<MenuSeed>)
    requires PlacesDistinct(a + b)
    ensures PlacesDistinct(a) && PlacesDistinct(b)
    ensures forall m, n :: m in a && n in b ==> m.path != n.path
  {
    var c := a + b;
    assert forall i :: 0 <= i < |a| ==> a[i] == c[i];
    assert forall i :: 0 <= i < |b| ==> b[i] == c[|a| + i];
    forall m, n | m in a && n in b
      ensures m.path != n.path
    {
      var i :| 0 <= i < |a| && a[i] == m;
      var j :| 0 <= j < |b| && b[j] == n;
      assert c[i].path != c[|a| + j].path;
    }
  }

  lemma ReadySplit(db: Db, at: Placement, a: seq<MenuSeed>, b: seq<MenuSeed>, parentId: Option<nat>)
    requires Ready(db, at, a + b, parentId)
    ensures Ready(db, at, a, parentId) && Ready(db, at, b, parentId)
  {
    SeedOkSplit(a, b);
    GroupCodesConcat(a, b);
    AllPermissionCodesConcat(a, b);
    ElementsConcat(GroupCodes(a), GroupCodes(b));
    ElementsConcat(AllPermissionCodes(a), AllPermissionCodes(b));
  }

  /** After writing the first menus the rest is still ready: no sibling's place has been taken. */
  lemma ReadyAfter(db: Db, at: Placement, db1: Db, at1: Placement, a: seq<MenuSeed>, b: seq<MenuSeed>,
                   parentId: Option<nat>, ids: seq<nat>)
    requires Ready(db, at, a + b, parentId) && Written(db, at, db1, at1, a, parentId, ids)
    ensures Ready(db1, at1, b, parentId)
  {
    ReadySplit(db, at, a, b, parentId);
    SeedOkSplit(a, b);
    ValuesStay(db, at, db1, at1);
    forall m | m in b
      ensures PlaceFree(db1, at1, m.path, parentId)
    {
      assert PlaceFree(db, at, m.path, parentId);
      PlaceStaysFree(db, at, db1, at1, a, parentId, m.path);
    }
  }

  lemma ValuesStay(db: Db, at: Placement, db1: Db, at1: Placement)
    requires Progress(db, at, db1, at1)
    ensures at.groups.Values <= at1.groups.Values
  {
    forall x | x in at.groups.Values
      ensures x in at1.groups.Values
    {
      var c :| c in at.groups && at.groups[c] == x;
      assert c in at1.groups && at1.groups[c] == x;
    }
  }

  lemma PlaceStaysFree(db: Db, at: Placement, db1: Db, at1: Placement, a: seq<MenuSeed>,
                       parentId: Option<nat>, path: string)
    requires Placed(db, at) && Placed(db1, at1) && Progress(db, at, db1, at1)
    requires PlaceFree(db, at, path, parentId) && Under(db1, at, at1, a, parentId)
    requires parentId.Some? ==> parentId.value in at.groups.Values
    requires forall m :: m in a ==> m.path != path
    ensures PlaceFree(db1, at1, path, parentId)
  {
    forall c | c in at1.groups && db1.groups[at1.groups[c]].parentId == parentId
      ensures db1.groups[at1.groups[c]].path != path
    {
      if c !in at.groups {
        assert Hangs(db1.groups[at1.groups[c]], at, at1, a, parentId);
        if parentId.Some? && NewValue(at, at1, parentId.value) {
          NewValueIsNew(db, at, db1, at1, parentId.value);
        }
      }
    }
  }

  // ---------------------------------------------------------------- one subtree

  lemma TreeCodes(menu: MenuSeed)
    ensures GroupCodes([menu]) == [menu.code] + GroupCodes(menu.children)
    ensures AllPermissionCodes([menu]) == PermissionCodes(menu.permissions) + AllPermissionCodes(menu.children)
  {
    assert [menu][1..] == [];
  }

  lemma TreeOk(menu: MenuSeed)
    requires SeedOk([menu])
    ensures SeedOk(menu.children)
    ensures menu.code !in Elements(GroupCodes(menu.children))
    ensures NoDuplicates(PermissionCodes(menu.permissions)) && PermissionPlacesDistinct(menu.permissions)
    ensures Elements(PermissionCodes(menu.permissions)) !! Elements(AllPermissionCodes(menu.children))
  {
    TreeCodes(menu);
    NoDuplicatesSplit([menu.code], GroupCodes(menu.children));
    NoDuplicatesSplit(PermissionCodes(menu.permissions), AllPermissionCodes(menu.children));
    assert menu.code in [menu.code];
    assert PlacesDistinct([menu]);
    assert [menu][0] == menu;
  }

  /** Once the group row and its permissions are written, the children are ready under it. */
  lemma ChildrenReady(db: Db, at: Placement, db1: Db, db2: Db, at2: Placement, menu: MenuSeed,
                      parentId: Option<nat>, id: nat, ids: seq<nat>)
    requires Ready(db, at, [menu], parentId)
    requires Valid(db1) && GroupUpserted(db, db1, menu, parentId, id)
    requires id !in at.groups.Values
    requires PermissionsWritten(db1, WithGroup(at, menu.code, id), db2, at2, menu.permissions, id, ids)
    ensures Ready(db2, at2, menu.children, Some(id))
  {
    TreeCodes(menu);
    TreeOk(menu);
    ElementsConcat([menu.code], GroupCodes(menu.children));
    ElementsConcat(PermissionCodes(menu.permissions), AllPermissionCodes(menu.children));
    assert menu.code in Elements([menu.code]);
    assert menu in [menu];
    GroupUpsertPlaced(db, at, db1, menu, parentId, id);
    forall m | m in menu.children
      ensures PlaceFree(db2, at2, m.path, Some(id))
    {
      NothingUnderNew(db, at, db1, menu, parentId, id);
      assert db2.groups == db1.groups && at2.groups == WithGroup(at, menu.code, id).groups;
    }
  }

  /** No settled row hangs under a row that has just been settled. */
  lemma NothingUnderNew(db: Db, at: Placement, db1: Db, menu: MenuSeed, parentId: Option<nat>, id: nat)
    requires Placed(db, at) && GroupUpserted(db, db1, menu, parentId, id)
    requires menu.code !in at.groups && id !in at.groups.Values
    requires parentId.Some? ==> parentId.value in at.groups.Values
    ensures var at1 := WithGroup(at, menu.code, id);
      forall c :: c in at1.groups ==> at1.groups[c] in db1.groups && db1.groups[at1.groups[c]].parentId != Some(id)
  {
    var at1 := WithGroup(at, menu.code, id);
    forall c | c in at1.groups
      ensures at1.groups[c] in db1.groups && db1.groups[at1.groups[c]].parentId != Some(id)
    {
      if c != menu.code {
        assert at.groups[c] in at.groups.Values;
        assert db1.groups[at1.groups[c]] == db.groups[at.groups[c]];
      }
    }
  }

  lemma TreeUnder(db: Db, at: Placement, db1: Db, db2: Db, at2: Placement, db3: Db, at3: Placement,
                  menu: MenuSeed, parentId: Option<nat>, id: nat)
    requires Placed(db2, at2) && Placed(db3, at3) && Progress(db2, at2, db3, at3)
    requires menu.code !in at.groups && GroupUpserted(db, db1, menu, parentId, id)
    requires db2.groups == db1.groups && at2.groups == at.groups[menu.code := id]
    requires Under(db3, at2, at3, menu.children, Some(id))
    ensures Under(db3, at, at3, [menu], parentId)
  {
    assert NewValue(at, at3, id) by { assert at3.groups[menu.code] == id; }
    forall c | c in at3.groups && c !in at.groups
      ensures Hangs(db3.groups[at3.groups[c]], at, at3, [menu], parentId)
    {
      if c == menu.code {
        assert db3.groups[id] == db2.groups[id];
        assert menu in [menu];
      } else {
        var row := db3.groups[at3.groups[c]];
        assert Hangs(row, at2, at3, menu.children, Some(id));
        if row.parentId.Some? && NewValue(at2, at3, row.parentId.value) {
          var d :| d in at3.groups && d !in at2.groups && at3.groups[d] == row.parentId.value;
          assert d !in at.groups;
        }
      }
    }
  }

  lemma TreeSettled(db: Db, at: Placement, db1: Db, db2: Db, at2: Placement, db3: Db, at3: Placement,
                    menu: MenuSeed, parentId: Option<nat>, id: nat)
    requires GroupUpserted(db, db1, menu, parentId, id)
    requires db2.groups == db1.groups && at2.groups == at.groups[menu.code := id]
    requires Progress(db2, at2, db3, at3)
    requires forall p :: p in menu.permissions ==> PermissionSettled(db2, at2, p, id)
    requires AllSettled(db3, at3, menu.children, Some(id))
    ensures AllSettled(db3, at3, [menu], parentId)
  {
    assert at2.groups[menu.code] == id && at3.groups[menu.code] == id;
    assert db3.groups[id] == db1.groups[id];
    forall p | p in menu.permissions
      ensures PermissionSettled(db3, at3, p, id)
    {
      assert PermissionSettled(db2, at2, p, id);
    }
    assert Settled(db3, at3, menu, parentId);
  }

  lemma TreeListed(db2: Db, at2: Placement, db3: Db, at3: Placement, menu: MenuSeed, ids: seq<nat>, more: seq<nat>)
    requires Progress(db2, at2, db3, at3)
    requires Lists(at2, ids, PermissionCodes(menu.permissions)) && Lists(at3, more, AllPermissionCodes(menu.children))
    ensures Lists(at3, ids + more, AllPermissionCodes([menu]))
  {
    TreeCodes(menu);
    ListsStays(db2, at2, db3, at3, ids, PermissionCodes(menu.permissions));
    ListsConcat(at3, ids, PermissionCodes(menu.permissions), more, AllPermissionCodes(menu.children));
  }

  lemma TreeProgress(db: Db, at: Placement, db1: Db, db2: Db, at2: Placement, db3: Db, at3: Placement,
                     menu: MenuSeed, parentId: Option<nat>, id: nat)
    requires Placed(db, at) && GroupUpserted(db, db1, menu, parentId, id)
    requires menu.code !in at.groups && id !in at.groups.Values
    requires Progress(db1, WithGroup(at, menu.code, id), db2, at2) && Progress(db2, at2, db3, at3)
    ensures Progress(db, at, db3, at3)
  {
    GroupUpsertProgress(db, at, db1, menu, parentId, id);
    ProgressTransitive(db, at, db1, WithGroup(at, menu.code, id), db2, at2);
    ProgressTransitive(db, at, db2, at2, db3, at3);
  }

  lemma RootNotSettled(db: Db, at: Placement, menu: MenuSeed, parentId: Option<nat>)
    requires Ready(db, at, [menu], parentId)
    ensures menu.code !in at.groups && PlaceFree(db, at, menu.path, parentId)
  {
    TreeCodes(menu);
    assert GroupCodes([menu])[0] == menu.code;
    assert menu in [menu];
  }

  /** The group row, its permissions and its children together make the whole subtree. */
  lemma TreeWritten(db: Db, at: Placement, db1: Db, db2: Db, at2: Placement, db3: Db, at3: Placement,
                    menu: MenuSeed, parentId: Option<nat>, id: nat, ids: seq<nat>, more: seq<nat>)
    requires Ready(db, at, [menu], parentId)
    requires Valid(db1) && GroupUpserted(db, db1, menu, parentId, id) && id !in at.groups.Values
    requires PermissionsWritten(db1, WithGroup(at, menu.code, id), db2, at2, menu.permissions, id, ids)
    requires Written(db2, at2, db3, at3, menu.children, Some(id), more)
    ensures Written(db, at, db3, at3, [menu], parentId, ids + more)
  {
    RootNotSettled(db, at, menu, parentId);
    TreeKeysGrown(at, at2, at3, menu);
    TreeProgress(db, at, db1, db2, at2, db3, at3, menu, parentId, id);
    TreeListed(db2, at2, db3, at3, menu, ids, more);
    TreeSettled(db, at, db1, db2, at2, db3, at3, menu, parentId, id);
    TreeUnder(db, at, db1, db2, at2, db3, at3, menu, parentId, id);
  }
}
