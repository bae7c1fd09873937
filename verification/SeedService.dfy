/** The seed upsert: methods that write the seed tree into the two tables in place. */
module SeedService {
  import opened Base
  import opened PermissionTables
  import opened SeedModel
  import opened SeedSteps
  import opened SeedRuns
  import opened SeedRenames
  import opened SeedLoops

  // ------------------------------------------------------------------- the upsert

  class Seeder {
    var groups: map<nat, Group>
    var nextGroup: nat
    var permissions: map<nat, Permission>
    var nextPermission: nat

    constructor (db: Db)
      ensures State() == db
    {
      groups, nextGroup, permissions, nextPermission := db.groups, db.nextGroup, db.permissions, db.nextPermission;
    }

    function State(): Db
      reads this
    {
      Db(groups, nextGroup, permissions, nextPermission)
    }

    /** findUnique by code, then findFirst by path and parent; the database may return any first row. */
    method UpsertPermissionGroup(menu: MenuSeed, parentId: Option<nat>) returns (id: nat)
      requires Valid(State()) && (parentId.Some? ==> parentId.value in groups)
      modifies this
      ensures Valid(State()) && GroupUpserted(old(State()), State(), menu, parentId, id)
    {
      var existing: Option<nat> := None;
      if found :| found in groups && groups[found].code == menu.code {
        existing := Some(found);
      } else if found :| found in groups && groups[found].path == menu.path && groups[found].parentId == parentId {
        existing := Some(found);
      }
      var visible := if menu.visible.Some? then menu.visible.value else true;
      if existing.Some? {
        id := existing.value;
        var icon := if menu.icon.Some? then menu.icon else groups[id].icon;
        groups := groups[id := Group(menu.code, menu.name, menu.path, icon, menu.sort, visible, parentId)];
      } else {
        id := nextGroup;
        groups := groups[id := Group(menu.code, menu.name, menu.path, menu.icon, menu.sort, visible, parentId)];
        nextGroup := nextGroup + 1;
      }
      GroupUpsertKeepsValid(old(State()), State(), menu, parentId, id);
    }

    method UpsertPermission(seed: PermissionSeed, groupId: nat) returns (id: nat)
      requires Valid(State())
      modifies this
      ensures Valid(State()) && PermissionUpserted(old(State()), State(), seed, groupId, id)
    {
      var existing: Option<nat> := None;
      if found :| found in permissions && permissions[found].code == seed.code {
        existing := Some(found);
      } else if found :| found in permissions && permissions[found].action == seed.action
                         && permissions[found].path == seed.path && permissions[found].groupId == groupId {
        existing := Some(found);
      }
      if existing.Some? {
        id := existing.value;
        permissions := permissions[id := Permission(seed.code, seed.name, seed.action, seed.path, groupId)];
      } else {
        id := nextPermission;
        permissions := permissions[id := Permission(seed.code, seed.name, seed.action, seed.path, groupId)];
        nextPermission := nextPermission + 1;
      }
      PermissionUpsertKeepsValid(old(State()), State(), seed, groupId, id);
    }

    /** The permission loop of one menu. */
    method UpsertPermissions(seeds: seq<PermissionSeed>, groupId: nat, ghost at: Placement)
      returns (ids: seq<nat>, ghost at': Placement)
      requires PermissionsReady(State(), at, seeds, groupId)
      modifies this
      ensures PermissionsWritten(old(State()), at, State(), at', seeds, groupId, ids)
      ensures old(PermissionsPresent(State(), seeds, groupId)) ==> State() == old(State())
    {
      ghost var db := State();
      ids, at' := [], at;
      PermissionsStart(db, at, seeds, groupId);
      for i := 0 to |seeds|
        invariant PermissionsUpTo(db, at, State(), at', seeds, i, groupId, ids)
      {
        ghost var before := State();
        var id := UpsertPermission(seeds[i], groupId);
        PermissionStep(db, at, before, at', State(), seeds, i, groupId, ids, id);
        ids := ids + [id];
        at' := WithPermission(at', seeds[i].code, id);
      }
      PermissionsDone(db, at, State(), at', seeds, groupId, ids);
    }

    /** The menu loop: the one over the roots of the seed, and the one over a menu's children. */
    method UpsertMenus(menus: seq<MenuSeed>, parentId: Option<nat>, ghost at: Placement)
      returns (permissionIds: seq<nat>, ghost at': Placement)
      requires Ready(State(), at, menus, parentId)
      modifies this
      ensures Written(old(State()), at, State(), at', menus, parentId, permissionIds)
      ensures Foreseen(old(State()), at, State(), menus, parentId)
      ensures old(AlreadySettled(State(), menus, parentId)) ==> State() == old(State())
      decreases menus, 1
    {
      ghost var db := State();
      permissionIds, at' := [], at;
      MenusStart(db, at, menus, parentId);
      for i := 0 to |menus|
        invariant MenusUpTo(db, at, State(), at', menus, i, parentId, permissionIds)
      {
        permissionIds, at' := UpsertNextMenu(menus, i, parentId, permissionIds, db, at, at');
      }
      MenusDone(db, at, State(), at', menus, parentId, permissionIds);
    }

    /** The body of that loop; `db` and `at` are where the loop started. */
    method UpsertNextMenu(menus: seq<MenuSeed>, i: nat, parentId: Option<nat>, ids: seq<nat>,
                          ghost db: Db, ghost at: Placement, ghost at1: Placement)
      returns (permissionIds: seq<nat>, ghost at2: Placement)
      requires i < |menus| && Ready(db, at, menus, parentId)
      requires MenusUpTo(db, at, State(), at1, menus, i, parentId, ids)
      modifies this
      ensures MenusUpTo(db, at, State(), at2, menus, i + 1, parentId, permissionIds)
      decreases menus, 0
    {
      ghost var before := State();
      MenusStepReady(before, at1, menus, i, parentId);
      var more;
      more, at2 := UpsertMenuTree(menus[i], parentId, at1);
      MenusStep(db, at, before, at1, State(), at2, menus, i, parentId, ids, more);
      permissionIds := ids + more;
    }

    method UpsertMenuTree(menu: MenuSeed, parentId: Option<nat>, ghost at: Placement)
      returns (permissionIds: seq<nat>, ghost at': Placement)
      requires Ready(State(), at, [menu], parentId)
      modifies this
      ensures Written(old(State()), at, State(), at', [menu], parentId, permissionIds)
      ensures Foreseen(old(State()), at, State(), [menu], parentId)
      ensures old(AlreadySettled(State(), [menu], parentId)) ==> State() == old(State())
      decreases menu, 2
    {
      ghost var db := State();
      RootNotSettled(db, at, menu, parentId);
      var id := UpsertPermissionGroup(menu, parentId);
      ghost var db1, at1 := State(), WithGroup(at, menu.code, id);
      UpsertTakesNoSettledRow(db, at, db1, menu, parentId, id);
      PermissionsReadyUnder(db, at, db1, menu, parentId, id);
      var ids; ghost var at2;
      ids, at2 := UpsertPermissions(menu.permissions, id, at1);
      ghost var db2 := State();
      ChildrenReady(db, at, db1, db2, at2, menu, parentId, id, ids);
      var more; ghost var at3;
      more, at3 := UpsertMenus(menu.children, Some(id), at2);
      TreeWritten(db, at, db1, db2, at2, State(), at3, menu, parentId, id, ids, more);
      TreeForeseen(db, at, db1, db2, at2, State(), at3, menu, parentId, id);
      permissionIds, at' := ids + more, at3;
      TreeUnchanged(db, db1, menu, parentId, id);
    }

    /**
     The whole seed. From any valid tables: exactly one row per group code with the seed's data
     and parent, one id per permission in the seed's order, rows touched only when found by code
     or place, and nothing to do when the seed is already there. A row's code changes exactly
     when the starting tables say so.
    */
    method SeedMenuTree(menuTree: seq<MenuSeed>) returns (permissionIds: seq<nat>)
      requires Valid(State()) && SeedOk(menuTree)
      modifies this
      ensures Valid(State()) && TreeInTables(State(), menuTree) && AlreadySettled(State(), menuTree, None)
      ensures SeedWritten(old(State()), State(), menuTree)
      ensures PermissionList(State(), AllPermissionCodes(menuTree), permissionIds)
      ensures old(WouldRename(groups, menuTree)) <==> SomeRenamed(old(groups), groups)
      ensures old(AlreadySettled(State(), menuTree, None)) ==> State() == old(State())
    {
      ghost var start := Placement(map[], map[]);
      ghost var at';
      ghost var db := State();
      SeedStart(db, menuTree);
      permissionIds, at' := UpsertMenus(menuTree, None, start);
      SeedDone(db, State(), at', menuTree, permissionIds);
      AlreadySettledInTables(State(), menuTree);
    }

    /** Running the seed a second time changes nothing and returns the same ids. */
    method SeedTwice(menuTree: seq<MenuSeed>) returns (first: seq<nat>, second: seq<nat>, ghost between: Db)
      requires Valid(State()) && SeedOk(menuTree)
      modifies this
      ensures State() == between && first == second
      ensures AlreadySettled(between, menuTree, None) && SeedWritten(old(State()), between, menuTree)
    {
      first := SeedMenuTree(menuTree);
      between := State();
      second := SeedMenuTree(menuTree);
      PermissionListUnique(between, AllPermissionCodes(menuTree), first, second);
    }
  }

  // ----------------------------------------------------------------- a lost code

  /** A row that loses a code of the seed: the code then belongs to another row, which did not have it before. */
  lemma LostCodeMoves(db: Db, db': Db, menus: seq<MenuSeed>, row: nat)
    requires Valid(db) && SeedWritten(db, db', menus) && row in db.groups && row in db'.groups
    requires db.groups[row].code in GroupCodes(menus) && db'.groups[row].code != db.groups[row].code
    ensures db'.groups[row].code in GroupCodes(menus)
    ensures exists other :: other in db'.groups && other != row && db'.groups[other].code == db.groups[row].code
              && (other in db.groups ==> db.groups[other].code != db.groups[row].code)
  {
    var code := db.groups[row].code;
    assert OneRow(db'.groups, code);
    var other :| other in db'.groups && db'.groups[other].code == code;
    assert other != row;
  }

  const FIRST_MENU := MenuSeed("a", "A", "/a", None, 1, None, [], [])
  const SECOND_MENU := MenuSeed("b", "B", "/b", None, 2, None, [], [])
  const TWO_MENUS := [FIRST_MENU, SECOND_MENU]
  const MISPLACED_ROW := Group("b", "B", "/a", None, 2, true, None)
  const MISPLACED_DB := Db(map[1 := MISPLACED_ROW], 2, map[], 1)

  lemma LeafMenu(menu: MenuSeed)
    requires menu.permissions == [] && menu.children == []
    ensures GroupCodes([menu]) == [menu.code] && AllPermissionCodes([menu]) == []
    ensures Entries([menu], None) == [Entry(menu, None)]
  {
    TreeCodes(menu);
    TreeEntries(menu, None);
  }

  lemma TwoMenusOk()
    ensures SeedOk(TWO_MENUS) && GroupCodes(TWO_MENUS) == ["a", "b"]
    ensures Entries(TWO_MENUS, None) == [Entry(FIRST_MENU, None), Entry(SECOND_MENU, None)]
  {
    assert TWO_MENUS == [FIRST_MENU] + [SECOND_MENU];
    LeafMenu(FIRST_MENU);
    LeafMenu(SECOND_MENU);
    GroupCodesConcat([FIRST_MENU], [SECOND_MENU]);
    AllPermissionCodesConcat([FIRST_MENU], [SECOND_MENU]);
    EntriesConcat([FIRST_MENU], [SECOND_MENU], None);
    assert "/a"[1] != "/b"[1] && "a"[0] != "b"[0];
    assert PlacesDistinct(TWO_MENUS);
  }

  /** The row of the second menu sits where the first is looked up. */
  lemma MisplacedWouldRename()
    ensures Valid(MISPLACED_DB) && WouldRename(MISPLACED_DB.groups, TWO_MENUS)
  {
    var groups := MISPLACED_DB.groups;
    var entries := Entries(TWO_MENUS, None);
    TwoMenusOk();
    assert "a"[0] != "b"[0];
    assert entries[..0] == [];
    assert !CodeIn(groups, "a");
    assert CanBeTaken(groups, {}, entries, 0, 1);
    assert TakesAt(groups, {}, entries, 0);
  }

  /** The run gives the row of "b" to "a" and makes a new row for "b". */
  method SeedMisplaced() returns (seeder: Seeder)
    ensures fresh(seeder)
    ensures 1 in seeder.groups && MISPLACED_DB.groups[1].code == "b" && seeder.groups[1].code == "a"
    ensures exists id :: id in seeder.groups && id !in MISPLACED_DB.groups && seeder.groups[id].code == "b"
  {
    TwoMenusOk();
    MisplacedWouldRename();
    seeder := new Seeder(MISPLACED_DB);
    var _ := seeder.SeedMenuTree(TWO_MENUS);
    LostCodeMoves(MISPLACED_DB, seeder.State(), TWO_MENUS, 1);
  }
}
