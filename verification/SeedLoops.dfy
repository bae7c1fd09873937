/** The steps of the two loops of the seed, and what a run from nothing settled amounts to. */
module SeedLoops {
  import opened Base
  import opened PermissionTables
  import opened SeedModel
  import opened SeedSteps
  import opened SeedRuns
  import opened SeedRenames

  // -------------------------------------------------------------- repeated runs

  /** The tables already hold these menus, with the seed's data, under this parent. */
  ghost predicate AlreadySettled(db: Db, menus: seq<MenuSeed>, parentId: Option<nat>) {
    exists at :: AllSettled(db, at, menus, parentId)
  }

  /** Upserting a settled menu finds its row by code and writes back what is there. */
  lemma SettledGroupUnchanged(db: Db, db': Db, at: Placement, menu: MenuSeed, parentId: Option<nat>, id: nat)
    requires Valid(db) && GroupUpserted(db, db', menu, parentId, id) && Settled(db, at, menu, parentId)
    ensures db' == db && id == at.groups[menu.code]
  {
    assert db.groups[at.groups[menu.code]].code == menu.code;
    assert HasCode(db, menu.code);
  }

  lemma SettledPermissionUnchanged(db: Db, db': Db, at: Placement, seed: PermissionSeed, groupId: nat, id: nat)
    requires Valid(db) && PermissionUpserted(db, db', seed, groupId, id) && PermissionSettled(db, at, seed, groupId)
    ensures db' == db
  {
    assert db.permissions[at.permissions[seed.code]].code == seed.code;
    assert HasPermissionCode(db, seed.code);
  }

  // ------------------------------------------------------- steps of the two loops

  ghost predicate PermissionsReady(db: Db, at: Placement, seeds: seq<PermissionSeed>, groupId: nat) {
    && Valid(db) && Placed(db, at) && groupId in at.groups.Values
    && NoDuplicates(PermissionCodes(seeds)) && PermissionPlacesDistinct(seeds)
    && Elements(PermissionCodes(seeds)) !! at.permissions.Keys
    && (forall c :: c in at.permissions ==> db.permissions[at.permissions[c]].groupId != groupId)
  }

  ghost predicate PermissionPresent(db: Db, seed: PermissionSeed, groupId: nat) {
    exists at :: PermissionSettled(db, at, seed, groupId)
  }

  ghost predicate PermissionsPresent(db: Db, seeds: seq<PermissionSeed>, groupId: nat) {
    forall p :: p in seeds ==> PermissionPresent(db, p, groupId)
  }

  /** Every permission settled since is the row of one of the first i seeds. */
  ghost predicate RowsOfSeeds(db: Db, at: Placement, at': Placement, seeds: seq<PermissionSeed>, i: nat, groupId: nat)
    requires i <= |seeds|
  {
    forall c :: c in at'.permissions && c !in at.permissions ==>
      at'.permissions[c] in db.permissions && RowOfSeed(db.permissions[at'.permissions[c]], seeds, i, groupId)
  }

  ghost predicate RowOfSeed(row: Permission, seeds: seq<PermissionSeed>, i: nat, groupId: nat)
    requires i <= |seeds|
  {
    exists j :: 0 <= j < i && PermissionMatches(row, seeds[j], groupId)
  }

  ghost predicate PermissionsUpTo(db: Db, at: Placement, db': Db, at': Placement, seeds: seq<PermissionSeed>, i: nat,
                                  groupId: nat, ids: seq<nat>)
  {
    && i <= |seeds|
    && PermissionsReady(db, at, seeds, groupId)
    && PermissionsWritten(db, at, db', at', seeds[..i], groupId, ids)
    && RowsOfSeeds(db', at, at', seeds, i, groupId)
    && (PermissionsPresent(db, seeds, groupId) ==> db' == db)
  }

  lemma EmptyPrefix<T>(s: seq<T>)
    ensures s[..0] == [] && s[0..] == s
  {
  }

  lemma WholePrefix<T>(s: seq<T>)
    ensures s[..|s|] == s
  {
  }

  lemma PermissionsStart(db: Db, at: Placement, seeds: seq<PermissionSeed>, groupId: nat)
    requires PermissionsReady(db, at, seeds, groupId)
    ensures PermissionsUpTo(db, at, db, at, seeds, 0, groupId, [])
  {
    EmptyPrefix(seeds);
    NoPermissionsWritten(db, at, groupId);
  }

  lemma NoPermissionsWritten(db: Db, at: Placement, groupId: nat)
    requires Valid(db) && Placed(db, at)
    ensures PermissionsWritten(db, at, db, at, [], groupId, [])
  {
  }

  lemma PermissionsDone(db: Db, at: Placement, db': Db, at': Placement, seeds: seq<PermissionSeed>, groupId: nat,
                        ids: seq<nat>)
    requires PermissionsUpTo(db, at, db', at', seeds, |seeds|, groupId, ids)
    ensures PermissionsWritten(db, at, db', at', seeds, groupId, ids)
    ensures PermissionsPresent(db, seeds, groupId) ==> db' == db
  {
    WholePrefix(seeds);
  }

  /** The next permission of the loop has a free code and a free place. */
  lemma PermissionStepReady(db: Db, at: Placement, db1: Db, at1: Placement, seeds: seq<PermissionSeed>, i: nat,
                            groupId: nat, ids: seq<nat>)
    requires i < |seeds| && PermissionsUpTo(db, at, db1, at1, seeds, i, groupId, ids)
    ensures seeds[i].code !in at1.permissions && PermissionPlaceFree(db1, at1, seeds[i], groupId)
  {
    PermissionCodesAt(seeds);
    PermissionCodesAt(seeds[..i]);
    assert seeds[i].code !in PermissionCodes(seeds[..i]) by {
      forall k | 0 <= k < i
        ensures PermissionCodes(seeds[..i])[k] != seeds[i].code
      {
        assert PermissionCodes(seeds)[k] != PermissionCodes(seeds)[i];
      }
    }
    assert PermissionCodes(seeds)[i] in Elements(PermissionCodes(seeds));
    forall c | c in at1.permissions
      ensures !AtPlace(db1.permissions[at1.permissions[c]], seeds[i], groupId)
    {
      if c in at.permissions {
        assert db1.permissions[at1.permissions[c]] == db.permissions[at.permissions[c]];
      } else {
        assert RowOfSeed(db1.permissions[at1.permissions[c]], seeds, i, groupId);
      }
    }
  }

  lemma RowsOfMoreSeeds(db1: Db, at: Placement, at1: Placement, db2: Db, seeds: seq<PermissionSeed>, i: nat,
                        groupId: nat, id: nat)
    requires i < |seeds| && RowsOfSeeds(db1, at, at1, seeds, i, groupId)
    requires PermissionUpserted(db1, db2, seeds[i], groupId, id) && id !in at1.permissions.Values
    ensures RowsOfSeeds(db2, at, WithPermission(at1, seeds[i].code, id), seeds, i + 1, groupId)
  {
    var at2 := WithPermission(at1, seeds[i].code, id);
    forall c | c in at2.permissions && c !in at.permissions
      ensures at2.permissions[c] in db2.permissions
      ensures RowOfSeed(db2.permissions[at2.permissions[c]], seeds, i + 1, groupId)
    {
      if c != seeds[i].code {
        assert at1.permissions[c] in at1.permissions.Values;
        assert RowOfSeed(db1.permissions[at1.permissions[c]], seeds, i, groupId);
      }
    }
  }

  lemma PermissionStepTakesFree(db: Db, at: Placement, db1: Db, at1: Placement, db2: Db, seeds: seq<PermissionSeed>,
                                i: nat, groupId: nat, ids: seq<nat>, id: nat)
    requires i < |seeds| && PermissionsUpTo(db, at, db1, at1, seeds, i, groupId, ids)
    requires PermissionUpserted(db1, db2, seeds[i], groupId, id)
    ensures seeds[i].code !in at1.permissions && id !in at1.permissions.Values
  {
    PermissionStepReady(db, at, db1, at1, seeds, i, groupId, ids);
    PermissionUpsertTakesNoSettledRow(db1, at1, db2, seeds[i], groupId, id);
  }

  lemma OneMore<T>(s: seq<T>, i: nat)
    requires i < |s|
    ensures s[..i + 1] == s[..i] + [s[i]]
  {
  }

  lemma PermissionStepWritten(db: Db, at: Placement, db1: Db, at1: Placement, db2: Db, seeds: seq<PermissionSeed>,
                              i: nat, groupId: nat, ids: seq<nat>, id: nat)
    requires i < |seeds| && PermissionsUpTo(db, at, db1, at1, seeds, i, groupId, ids)
    requires Valid(db2) && PermissionUpserted(db1, db2, seeds[i], groupId, id)
    ensures id !in at1.permissions.Values
    ensures PermissionsWritten(db, at, db2, WithPermission(at1, seeds[i].code, id), seeds[..i + 1], groupId, ids + [id])
  {
    PermissionStepTakesFree(db, at, db1, at1, db2, seeds, i, groupId, ids, id);
    var init, seed := seeds[..i], seeds[i];
    OneMore(seeds, i);
    PermissionWritten(db, at, db1, at1, db2, init, seed, groupId, ids, id);
  }

  lemma PermissionStep(db: Db, at: Placement, db1: Db, at1: Placement, db2: Db, seeds: seq<PermissionSeed>, i: nat,
                       groupId: nat, ids: seq<nat>, id: nat)
    requires i < |seeds| && PermissionsUpTo(db, at, db1, at1, seeds, i, groupId, ids)
    requires Valid(db2) && PermissionUpserted(db1, db2, seeds[i], groupId, id)
    ensures PermissionsUpTo(db, at, db2, WithPermission(at1, seeds[i].code, id), seeds, i + 1, groupId, ids + [id])
  {
    PermissionStepWritten(db, at, db1, at1, db2, seeds, i, groupId, ids, id);
    RowsOfMoreSeeds(db1, at, at1, db2, seeds, i, groupId, id);
    if PermissionsPresent(db, seeds, groupId) {
      PresentUnchanged(db, db2, seeds, i, groupId, id);
    }
  }

  lemma PresentUnchanged(db: Db, db': Db, seeds: seq<PermissionSeed>, i: nat, groupId: nat, id: nat)
    requires i < |seeds| && Valid(db) && PermissionsPresent(db, seeds, groupId)
    requires PermissionUpserted(db, db', seeds[i], groupId, id)
    ensures db' == db
  {
    assert PermissionPresent(db, seeds[i], groupId);
    var prior :| PermissionSettled(db, prior, seeds[i], groupId);
    SettledPermissionUnchanged(db, db', prior, seeds[i], groupId, id);
  }

  lemma PermissionsReadyUnder(db: Db, at: Placement, db1: Db, menu: MenuSeed, parentId: Option<nat>, id: nat)
    requires Ready(db, at, [menu], parentId)
    requires Valid(db1) && GroupUpserted(db, db1, menu, parentId, id) && id !in at.groups.Values
    ensures PermissionsReady(db1, WithGroup(at, menu.code, id), menu.permissions, id)
  {
    RootNotSettled(db, at, menu, parentId);
    GroupUpsertPlaced(db, at, db1, menu, parentId, id);
    TreeCodes(menu);
    TreeOk(menu);
    ElementsConcat(PermissionCodes(menu.permissions), AllPermissionCodes(menu.children));
    forall c | c in at.permissions
      ensures db1.permissions[at.permissions[c]].groupId != id
    {
      assert db.permissions[at.permissions[c]].groupId in at.groups.Values;
    }
  }

  lemma SettledHead(db: Db, menus: seq<MenuSeed>, i: nat, parentId: Option<nat>)
    requires i < |menus|
    ensures AlreadySettled(db, menus, parentId) ==> AlreadySettled(db, [menus[i]], parentId)
  {
    if at :| AllSettled(db, at, menus, parentId) {
      assert menus[i] in menus;
      assert AllSettled(db, at, [menus[i]], parentId);
    }
  }

  /** If the subtree is already there, the group row stays, and its permissions and children are already there. */
  lemma TreeUnchanged(db: Db, db1: Db, menu: MenuSeed, parentId: Option<nat>, id: nat)
    requires Valid(db) && GroupUpserted(db, db1, menu, parentId, id)
    ensures AlreadySettled(db, [menu], parentId) ==>
      db1 == db && PermissionsPresent(db, menu.permissions, id) && AlreadySettled(db, menu.children, Some(id))
  {
    if at :| AllSettled(db, at, [menu], parentId) {
      assert menu in [menu];
      assert Settled(db, at, menu, parentId);
      SettledGroupUnchanged(db, db1, at, menu, parentId, id);
      forall p | p in menu.permissions
        ensures PermissionPresent(db, p, id)
      {
        assert PermissionSettled(db, at, p, id);
      }
      assert AllSettled(db, at, menu.children, Some(id));
    }
  }

  // ------------------------------------------------------------- the whole seed

  ghost predicate OneRow(groups: map<nat, Group>, code: string) {
    exists id :: id in groups && groups[id].code == code
      && forall other :: other in groups && groups[other].code == code ==> other == id
  }

  /** Every group code of the seed has exactly one row; only rows found or created for the seed changed. */
  ghost predicate GroupsWritten(groups: map<nat, Group>, groups': map<nat, Group>, codes: seq<string>) {
    && (forall c :: c in codes ==> OneRow(groups', c))
    && (forall id :: id in groups ==>
          id in groups' && (groups'[id] == groups[id]
            || (groups'[id].code in codes && FoundGroup(groups[id], groups'[id]))))
    && (forall id :: id in groups' && id !in groups ==> groups'[id].code in codes)
  }

  ghost predicate PermissionRowsWritten(rows: map<nat, Permission>, rows': map<nat, Permission>, codes: seq<string>) {
    && (forall id :: id in rows ==>
          id in rows' && (rows'[id] == rows[id] || (rows'[id].code in codes && FoundPermission(rows[id], rows'[id]))))
    && (forall id :: id in rows' && id !in rows ==> rows'[id].code in codes)
  }

  ghost predicate SeedWritten(db: Db, db': Db, menus: seq<MenuSeed>) {
    && GroupsWritten(db.groups, db'.groups, GroupCodes(menus))
    && PermissionRowsWritten(db.permissions, db'.permissions, AllPermissionCodes(menus))
  }

  /** One id per code, in order, no id twice. */
  ghost predicate PermissionList(db: Db, codes: seq<string>, ids: seq<nat>) {
    && |ids| == |codes| && NoDuplicates(ids)
    && (forall i :: 0 <= i < |codes| ==> ids[i] in db.permissions && db.permissions[ids[i]].code == codes[i])
  }

  lemma PermissionListUnique(db: Db, codes: seq<string>, ids: seq<nat>, ids': seq<nat>)
    requires Valid(db) && PermissionList(db, codes, ids) && PermissionList(db, codes, ids')
    ensures ids == ids'
  {
  }

  lemma PlacedIsOneRow(groups: map<nat, Group>, id: nat)
    requires UniqueGroupCodes(groups) && id in groups
    ensures OneRow(groups, groups[id].code)
  {
  }

  lemma GroupsFromNothing(groups: map<nat, Group>, groups': map<nat, Group>, at: map<string, nat>, codes: seq<string>)
    requires UniqueGroupCodes(groups') && GroupsProgress(groups, map[], groups', at)
    requires at.Keys == Elements(codes)
    requires forall c :: c in at ==> at[c] in groups' && groups'[at[c]].code == c
    ensures GroupsWritten(groups, groups', codes)
  {
    forall c | c in codes
      ensures OneRow(groups', c)
    {
      assert c in at;
      PlacedIsOneRow(groups', at[c]);
    }
    ChangedIsSeed(groups, groups', at, codes);
  }

  lemma ChangedIsSeed(groups: map<nat, Group>, groups': map<nat, Group>, at: map<string, nat>, codes: seq<string>)
    requires GroupsProgress(groups, map[], groups', at) && at.Keys == Elements(codes)
    ensures forall id :: id in groups ==>
      id in groups' && (groups'[id] == groups[id]
        || (groups'[id].code in codes && FoundGroup(groups[id], groups'[id])))
    ensures forall id :: id in groups' && id !in groups ==> groups'[id].code in codes
  {
    forall id | id in groups' && NewlyPlaced(map[], at, groups'[id].code, id)
      ensures groups'[id].code in codes
    {
      assert groups'[id].code in at.Keys;
    }
  }

  lemma PermissionsFromNothing(db: Db, db': Db, at: Placement, codes: seq<string>, ids: seq<nat>)
    requires Placed(db', at) && at.permissions.Keys == Elements(codes)
    requires PermissionsProgress(db.permissions, map[], db'.permissions, at.permissions)
    requires NoDuplicates(codes) && Lists(at, ids, codes)
    ensures PermissionRowsWritten(db.permissions, db'.permissions, codes)
    ensures PermissionList(db', codes, ids)
  {
    forall i | 0 <= i < |codes|
      ensures ids[i] in db'.permissions && db'.permissions[ids[i]].code == codes[i]
    {
      assert codes[i] in at.permissions;
    }
  }

  lemma GroupRowsFromNothing(db: Db, db': Db, at: Placement, menus: seq<MenuSeed>, ids: seq<nat>)
    requires Written(db, Placement(map[], map[]), db', at, menus, None, ids)
    ensures GroupsWritten(db.groups, db'.groups, GroupCodes(menus))
  {
    GroupsFromNothing(db.groups, db'.groups, at.groups, GroupCodes(menus));
  }

  lemma WrittenFromNothing(db: Db, db': Db, at: Placement, menus: seq<MenuSeed>, ids: seq<nat>)
    requires SeedOk(menus) && Written(db, Placement(map[], map[]), db', at, menus, None, ids)
    ensures SeedWritten(db, db', menus)
    ensures PermissionList(db', AllPermissionCodes(menus), ids)
  {
    GroupRowsFromNothing(db, db', at, menus, ids);
    PermissionsFromNothing(db, db', at, AllPermissionCodes(menus), ids);
  }

  /** This row is the menu's, column by column, under its parent's row, and its permissions are in the tables. */
  ghost predicate MenuInTables(db: Db, entry: Entry, id: nat) {
    && id in db.groups
    && db.groups[id].code == entry.menu.code
    && db.groups[id].name == entry.menu.name
    && db.groups[id].path == entry.menu.path
    && db.groups[id].sort == entry.menu.sort
    && db.groups[id].visible == (if entry.menu.visible.Some? then entry.menu.visible.value else true)
    && (entry.menu.icon.Some? ==> db.groups[id].icon == entry.menu.icon)
    && SitsUnder(db.groups, db.groups[id], entry.parent)
    && (forall p :: p in entry.menu.permissions ==> exists row :: PermissionInTables(db, p, id, row))
  }

  /** This row is the permission's, column by column, in this group. */
  ghost predicate PermissionInTables(db: Db, seed: PermissionSeed, groupId: nat, row: nat) {
    && row in db.permissions
    && db.permissions[row].code == seed.code
    && db.permissions[row].name == seed.name
    && db.permissions[row].action == seed.action
    && db.permissions[row].path == seed.path
    && db.permissions[row].groupId == groupId
  }

  /** Every menu of the tree, at every depth, with every permission of it. */
  ghost predicate TreeInTables(db: Db, menus: seq<MenuSeed>) {
    forall e :: e in Entries(menus, None) ==> exists id :: MenuInTables(db, e, id)
  }

  lemma SettledMenuInTables(db: Db, at: Placement, menu: MenuSeed, parentId: Option<nat>)
    requires Valid(db) && Settled(db, at, menu, parentId)
    ensures MenuInTables(db, Entry(menu, ParentCode(db.groups, parentId)), at.groups[menu.code])
  {
    var id := at.groups[menu.code];
    SitsUnderExactly(db, id, parentId);
    forall p | p in menu.permissions
      ensures exists row :: PermissionInTables(db, p, id, row)
    {
      assert PermissionSettled(db, at, p, id);
      assert PermissionInTables(db, p, id, at.permissions[p.code]);
    }
  }

  lemma {:induction false} SettledInTables(db: Db, at: Placement, menus: seq<MenuSeed>, parentId: Option<nat>, e: Entry)
    requires Valid(db) && AllSettled(db, at, menus, parentId)
    requires e in Entries(menus, ParentCode(db.groups, parentId))
    ensures exists id :: MenuInTables(db, e, id)
    decreases menus
  {
    var menu, rest, parent := menus[0], menus[1..], ParentCode(db.groups, parentId);
    assert menu in menus && Settled(db, at, menu, parentId);
    var id := at.groups[menu.code];
    assert Entries(menus, parent) == [Entry(menu, parent)] + Entries(menu.children, Some(menu.code)) + Entries(rest, parent);
    if e == Entry(menu, parent) {
      SettledMenuInTables(db, at, menu, parentId);
    } else if e in Entries(menu.children, Some(menu.code)) {
      assert ParentCode(db.groups, Some(id)) == Some(menu.code);
      SettledInTables(db, at, menu.children, Some(id), e);
    } else {
      SettledInTables(db, at, rest, parentId, e);
    }
  }

  /** Settled tables hold the whole tree. */
  lemma AlreadySettledInTables(db: Db, menus: seq<MenuSeed>)
    requires Valid(db) && AlreadySettled(db, menus, None)
    ensures TreeInTables(db, menus)
  {
    var at :| AllSettled(db, at, menus, None);
    forall e | e in Entries(menus, None)
      ensures exists id :: MenuInTables(db, e, id)
    {
      SettledInTables(db, at, menus, None, e);
    }
  }

  lemma SeedStart(db: Db, menus: seq<MenuSeed>)
    requires Valid(db) && SeedOk(menus)
    ensures Ready(db, Placement(map[], map[]), menus, None)
  {
  }

  lemma SeedDone(db: Db, db': Db, at: Placement, menus: seq<MenuSeed>, ids: seq<nat>)
    requires SeedOk(menus) && Written(db, Placement(map[], map[]), db', at, menus, None, ids)
    requires Foreseen(db, Placement(map[], map[]), db', menus, None)
    ensures Valid(db') && AlreadySettled(db', menus, None) && SeedWritten(db, db', menus)
    ensures PermissionList(db', AllPermissionCodes(menus), ids)
    ensures WouldRename(db.groups, menus) <==> SomeRenamed(db.groups, db'.groups)
  {
    WrittenFromNothing(db, db', at, menus, ids);
    SettledFromNothing(db, db', at, menus, ids);
    ForeseenFromNothing(db, db', menus);
  }

  lemma SettledFromNothing(db: Db, db': Db, at: Placement, menus: seq<MenuSeed>, ids: seq<nat>)
    requires Written(db, Placement(map[], map[]), db', at, menus, None, ids)
    ensures Valid(db') && AlreadySettled(db', menus, None)
  {
  }

  lemma ForeseenFromNothing(db: Db, db': Db, menus: seq<MenuSeed>)
    requires Foreseen(db, Placement(map[], map[]), db', menus, None)
    ensures WouldRename(db.groups, menus) <==> SomeRenamed(db.groups, db'.groups)
  {
    var none: map<string, nat> := map[];
    assert none.Keys == {};
  }

  // ------------------------------------------------------ steps of the menu loop

  ghost predicate MenusUpTo(db: Db, at: Placement, db': Db, at': Placement, menus: seq<MenuSeed>, i: nat,
                            parentId: Option<nat>, ids: seq<nat>)
  {
    && i <= |menus|
    && Written(db, at, db', at', menus[..i], parentId, ids)
    && Ready(db', at', menus[i..], parentId)
    && Foreseen(db, at, db', menus[..i], parentId)
    && (AlreadySettled(db, menus, parentId) ==> db' == db)
  }

  lemma MenusStart(db: Db, at: Placement, menus: seq<MenuSeed>, parentId: Option<nat>)
    requires Ready(db, at, menus, parentId)
    ensures MenusUpTo(db, at, db, at, menus, 0, parentId, [])
  {
    EmptyPrefix(menus);
    NothingWritten(db, at, parentId);
    NothingForeseen(db, at, parentId);
  }

  lemma MenusDone(db: Db, at: Placement, db': Db, at': Placement, menus: seq<MenuSeed>, parentId: Option<nat>,
                  ids: seq<nat>)
    requires MenusUpTo(db, at, db', at', menus, |menus|, parentId, ids)
    ensures Written(db, at, db', at', menus, parentId, ids) && Foreseen(db, at, db', menus, parentId)
    ensures AlreadySettled(db, menus, parentId) ==> db' == db
  {
    WholePrefix(menus);
  }

  lemma MenusStepReady(db: Db, at: Placement, menus: seq<MenuSeed>, i: nat, parentId: Option<nat>)
    requires i < |menus| && Ready(db, at, menus[i..], parentId)
    ensures Ready(db, at, [menus[i]], parentId)
  {
    FirstAndRest(menus, i);
    ReadyFirst(db, at, menus[i..], menus[i], menus[i + 1..], parentId);
  }

  lemma ReadyFirst(db: Db, at: Placement, menus: seq<MenuSeed>, first: MenuSeed, rest: seq<MenuSeed>,
                   parentId: Option<nat>)
    requires Ready(db, at, menus, parentId) && menus == [first] + rest
    ensures Ready(db, at, [first], parentId)
  {
    ReadySplit(db, at, [first], rest, parentId);
  }

  lemma MenusStepWritten(db: Db, at: Placement, db1: Db, at1: Placement, db2: Db, at2: Placement, menus: seq<MenuSeed>,
                         i: nat, parentId: Option<nat>, ids: seq<nat>, more: seq<nat>)
    requires i < |menus| && Written(db, at, db1, at1, menus[..i], parentId, ids)
    requires Written(db1, at1, db2, at2, [menus[i]], parentId, more)
    ensures Written(db, at, db2, at2, menus[..i + 1], parentId, ids + more)
  {
    OneMore(menus, i);
    WrittenConcat(db, at, db1, at1, db2, at2, menus[..i], [menus[i]], parentId, ids, more);
  }

  lemma MenusStepStillReady(db1: Db, at1: Placement, db2: Db, at2: Placement, menus: seq<MenuSeed>,
                            i: nat, parentId: Option<nat>, more: seq<nat>)
    requires i < |menus| && Ready(db1, at1, menus[i..], parentId)
    requires Written(db1, at1, db2, at2, [menus[i]], parentId, more)
    ensures Ready(db2, at2, menus[i + 1..], parentId)
  {
    var first, rest := menus[i], menus[i + 1..];
    FirstAndRest(menus, i);
    StillReady(db1, at1, db2, at2, menus[i..], first, rest, parentId, more);
  }

  lemma FirstAndRest<T>(s: seq<T>, i: nat)
    requires i < |s|
    ensures s[i..] == [s[i]] + s[i + 1..]
  {
  }

  lemma StillReady(db1: Db, at1: Placement, db2: Db, at2: Placement, menus: seq<MenuSeed>, first: MenuSeed,
                   rest: seq<MenuSeed>, parentId: Option<nat>, more: seq<nat>)
    requires Ready(db1, at1, menus, parentId) && menus == [first] + rest
    requires Written(db1, at1, db2, at2, [first], parentId, more)
    ensures Ready(db2, at2, rest, parentId)
  {
    ReadyAfter(db1, at1, db2, at2, [first], rest, parentId, more);
  }

  lemma MenusStep(db: Db, at: Placement, db1: Db, at1: Placement, db2: Db, at2: Placement, menus: seq<MenuSeed>,
                  i: nat, parentId: Option<nat>, ids: seq<nat>, more: seq<nat>)
    requires Ready(db, at, menus, parentId)
    requires i < |menus| && MenusUpTo(db, at, db1, at1, menus, i, parentId, ids)
    requires Written(db1, at1, db2, at2, [menus[i]], parentId, more) && Foreseen(db1, at1, db2, [menus[i]], parentId)
    requires AlreadySettled(db1, [menus[i]], parentId) ==> db2 == db1
    ensures MenusUpTo(db, at, db2, at2, menus, i + 1, parentId, ids + more)
  {
    SettledHead(db1, menus, i, parentId);
    MenusStepWritten(db, at, db1, at1, db2, at2, menus, i, parentId, ids, more);
    MenusStepStillReady(db1, at1, db2, at2, menus, i, parentId, more);
    MenusStepForeseen(db, at, db1, at1, db2, at2, menus, i, parentId, ids, more);
  }

  lemma MenusStepForeseen(db: Db, at: Placement, db1: Db, at1: Placement, db2: Db, at2: Placement,
                          menus: seq<MenuSeed>, i: nat, parentId: Option<nat>, ids: seq<nat>, more: seq<nat>)
    requires Ready(db, at, menus, parentId)
    requires i < |menus| && MenusUpTo(db, at, db1, at1, menus, i, parentId, ids)
    requires Written(db1, at1, db2, at2, [menus[i]], parentId, more) && Foreseen(db1, at1, db2, [menus[i]], parentId)
    ensures Foreseen(db, at, db2, menus[..i + 1], parentId)
  {
    var done, menu := menus[..i], menus[i];
    MenusStepReady(db1, at1, menus, i, parentId);
    OneMore(menus, i);
    MenusForeseen(db, at, db1, at1, db2, at2, done, menu, parentId);
  }
}
