/** One upserted row: what is written, and that the run never takes back a row it has settled. */
module SeedSteps {
  import opened Base
  import opened PermissionTables
  import opened SeedModel

  // ------------------------------------------------------------- one group row

  ghost predicate HasCode(db: Db, code: string) {
    exists id :: id in db.groups && db.groups[id].code == code
  }

  ghost predicate HasPlace(db: Db, path: string, parentId: Option<nat>) {
    exists id :: id in db.groups && db.groups[id].path == path && db.groups[id].parentId == parentId
  }

  /**
   The row used is the one with the code, else one at the place, else a new one; only it is written.
   An icon the seed leaves out is left as it is.
  */
  ghost predicate GroupUpserted(db: Db, db': Db, menu: MenuSeed, parentId: Option<nat>, id: nat) {
    && db' == db.(groups := db'.groups, nextGroup := db'.nextGroup)
    && if id in db.groups then
         && db'.nextGroup == db.nextGroup
         && db'.groups == db.groups[id := Group(
              menu.code, menu.name, menu.path, if menu.icon.Some? then menu.icon else db.groups[id].icon, menu.sort,
              if menu.visible.Some? then menu.visible.value else true, parentId)]
         && (db.groups[id].code == menu.code
             || (!HasCode(db, menu.code) && db.groups[id].path == menu.path && db.groups[id].parentId == parentId))
       else
         && id == db.nextGroup && db'.nextGroup == id + 1
         && db'.groups == db.groups[id := Group(
              menu.code, menu.name, menu.path, menu.icon, menu.sort,
              if menu.visible.Some? then menu.visible.value else true, parentId)]
         && !HasCode(db, menu.code) && !HasPlace(db, menu.path, parentId)
  }

  /** No settled row sits where this menu would be looked up by path and parent. */
  ghost predicate PlaceFree(db: Db, at: Placement, path: string, parentId: Option<nat>)
    requires Placed(db, at)
  {
    forall c :: c in at.groups && db.groups[at.groups[c]].parentId == parentId ==> db.groups[at.groups[c]].path != path
  }

  function WithGroup(at: Placement, code: string, id: nat): Placement {
    at.(groups := at.groups[code := id])
  }

  lemma GroupUpsertKeepsValid(db: Db, db': Db, menu: MenuSeed, parentId: Option<nat>, id: nat)
    requires Valid(db) && GroupUpserted(db, db', menu, parentId, id)
    requires parentId.Some? ==> parentId.value in db.groups
    ensures Valid(db')
  {
  }

  /** The row an upsert writes is never one the run has settled: no row is taken away from its code. */
  lemma UpsertTakesNoSettledRow(db: Db, at: Placement, db': Db, menu: MenuSeed, parentId: Option<nat>, id: nat)
    requires Valid(db) && Placed(db, at) && GroupUpserted(db, db', menu, parentId, id)
    requires menu.code !in at.groups && PlaceFree(db, at, menu.path, parentId)
    ensures id !in at.groups.Values
  {
    forall c | c in at.groups
      ensures at.groups[c] != id
    {
      assert db.groups[at.groups[c]].code == c;
    }
  }

  lemma GroupUpsertPlaced(db: Db, at: Placement, db': Db, menu: MenuSeed, parentId: Option<nat>, id: nat)
    requires Placed(db, at) && GroupUpserted(db, db', menu, parentId, id)
    requires menu.code !in at.groups && id !in at.groups.Values
    requires parentId.Some? ==> parentId.value in at.groups.Values
    ensures Placed(db', WithGroup(at, menu.code, id))
    ensures WithGroup(at, menu.code, id).groups.Values == at.groups.Values + {id}
  {
    var at' := WithGroup(at, menu.code, id);
    assert at'.groups[menu.code] == id;
    forall x | x in at.groups.Values
      ensures x in at'.groups.Values
    {
      var c :| c in at.groups && at.groups[c] == x;
      assert at'.groups[c] == x;
    }
    assert at'.groups.Values == at.groups.Values + {id};
  }

  lemma GroupUpsertProgress(db: Db, at: Placement, db': Db, menu: MenuSeed, parentId: Option<nat>, id: nat)
    requires Placed(db, at) && GroupUpserted(db, db', menu, parentId, id)
    requires menu.code !in at.groups && id !in at.groups.Values
    ensures Progress(db, at, db', WithGroup(at, menu.code, id))
  {
    var at' := at.groups[menu.code := id];
    forall c | c in at.groups
      ensures at'[c] == at.groups[c] && db'.groups[at.groups[c]] == db.groups[at.groups[c]]
    {
      assert at.groups[c] in at.groups.Values;
    }
    assert NewlyPlaced(at.groups, at', menu.code, id);
    assert GroupsProgress(db.groups, at.groups, db'.groups, at');
  }

  // -------------------------------------------------------- one permission row

  ghost predicate HasPermissionCode(db: Db, code: string) {
    exists id :: id in db.permissions && db.permissions[id].code == code
  }

  ghost predicate HasPermissionPlace(db: Db, seed: PermissionSeed, groupId: nat) {
    exists id :: id in db.permissions && db.permissions[id].action == seed.action
                 && db.permissions[id].path == seed.path && db.permissions[id].groupId == groupId
  }

  ghost predicate PermissionUpserted(db: Db, db': Db, seed: PermissionSeed, groupId: nat, id: nat) {
    && db' == db.(permissions := db'.permissions, nextPermission := db'.nextPermission)
    && db'.permissions == db.permissions[id := Permission(seed.code, seed.name, seed.action, seed.path, groupId)]
    && if id in db.permissions then
         && db'.nextPermission == db.nextPermission
         && (db.permissions[id].code == seed.code
             || (!HasPermissionCode(db, seed.code) && db.permissions[id].action == seed.action
                 && db.permissions[id].path == seed.path && db.permissions[id].groupId == groupId))
       else
         && id == db.nextPermission && db'.nextPermission == id + 1
         && !HasPermissionCode(db, seed.code) && !HasPermissionPlace(db, seed, groupId)
  }

  ghost predicate PermissionPlaceFree(db: Db, at: Placement, seed: PermissionSeed, groupId: nat)
    requires Placed(db, at)
  {
    forall c :: c in at.permissions ==> !AtPlace(db.permissions[at.permissions[c]], seed, groupId)
  }

  predicate AtPlace(row: Permission, seed: PermissionSeed, groupId: nat) {
    row.groupId == groupId && row.action == seed.action && row.path == seed.path
  }

  function WithPermission(at: Placement, code: string, id: nat): Placement {
    at.(permissions := at.permissions[code := id])
  }

  lemma PermissionUpsertKeepsValid(db: Db, db': Db, seed: PermissionSeed, groupId: nat, id: nat)
    requires Valid(db) && PermissionUpserted(db, db', seed, groupId, id)
    ensures Valid(db')
  {
  }

  lemma PermissionUpsertTakesNoSettledRow(db: Db, at: Placement, db': Db, seed: PermissionSeed, groupId: nat, id: nat)
    requires Valid(db) && Placed(db, at) && PermissionUpserted(db, db', seed, groupId, id)
    requires seed.code !in at.permissions && PermissionPlaceFree(db, at, seed, groupId)
    ensures id !in at.permissions.Values
  {
    forall c | c in at.permissions
      ensures at.permissions[c] != id
    {
      assert db.permissions[at.permissions[c]].code == c;
      assert !AtPlace(db.permissions[at.permissions[c]], seed, groupId);
    }
  }

  lemma PermissionUpsertPlaced(db: Db, at: Placement, db': Db, seed: PermissionSeed, groupId: nat, id: nat)
    requires Placed(db, at) && PermissionUpserted(db, db', seed, groupId, id)
    requires seed.code !in at.permissions && id !in at.permissions.Values && groupId in at.groups.Values
    ensures Placed(db', WithPermission(at, seed.code, id))
    ensures PermissionSettled(db', WithPermission(at, seed.code, id), seed, groupId)
  {
  }

  lemma PermissionUpsertProgress(db: Db, at: Placement, db': Db, seed: PermissionSeed, groupId: nat, id: nat)
    requires Placed(db, at) && PermissionUpserted(db, db', seed, groupId, id)
    requires seed.code !in at.permissions && id !in at.permissions.Values
    ensures Progress(db, at, db', WithPermission(at, seed.code, id))
  {
    var at' := at.permissions[seed.code := id];
    forall c | c in at.permissions
      ensures at'[c] == at.permissions[c] && db'.permissions[at.permissions[c]] == db.permissions[at.permissions[c]]
    {
      assert at.permissions[c] in at.permissions.Values;
    }
    assert NewlyPlaced(at.permissions, at', seed.code, id);
    assert PermissionsProgress(db.permissions, at.permissions, db'.permissions, at');
  }

  // ---------------------------------------------------------------- lists of codes

  lemma NoDuplicatesSplit<T>(a: seq<T>, b: seq<T>)
    requires NoDuplicates(a + b)
    ensures NoDuplicates(a) && NoDuplicates(b) && Elements(a) !! Elements(b)
  {
    forall i, j | 0 <= i < j < |a| ensures a[i] != a[j] { assert (a + b)[i] != (a + b)[j]; }
    forall i, j | 0 <= i < j < |b| ensures b[i] != b[j] { assert (a + b)[|a| + i] != (a + b)[|a| + j]; }
    forall i, j | 0 <= i < |a| && 0 <= j < |b| ensures a[i] != b[j] { assert (a + b)[i] != (a + b)[|a| + j]; }
  }

  lemma ElementsConcat<T>(a: seq<T>, b: seq<T>)
    ensures Elements(a + b) == Elements(a) + Elements(b)
  {
  }

  lemma ListsConcat(at: Placement, a: seq<nat>, x: seq<string>, b: seq<nat>, y: seq<string>)
    requires Lists(at, a, x) && Lists(at, b, y)
    ensures Lists(at, a + b, x + y)
  {
  }

  lemma ListsStays(db: Db, at: Placement, db': Db, at': Placement, ids: seq<nat>, codes: seq<string>)
    requires Progress(db, at, db', at') && Lists(at, ids, codes)
    ensures Lists(at', ids, codes)
  {
    forall i | 0 <= i < |codes|
      ensures codes[i] in at'.permissions && at'.permissions[codes[i]] == ids[i]
    {
      assert codes[i] in at.permissions;
    }
  }
}
