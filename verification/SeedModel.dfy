/** The menu seed, the two tables it is written to, and what it means that it has been written. */
module SeedModel {
  import opened Base
  import opened PermissionTables

  datatype PermissionSeed = PermissionSeed(code: string, name: string, action: string, path: string)

  datatype MenuSeed = MenuSeed(
    code: string, name: string, path: string, icon: Option<string>, sort: int, visible: Option<bool>,
    permissions: seq<PermissionSeed>, children: seq<MenuSeed>)

  datatype Db = Db(groups: map<nat, Group>, nextGroup: nat, permissions: map<nat, Permission>, nextPermission: nat)

  // ------------------------------------------------------------ the seed's own codes

  function PermissionCodes(seeds: seq<PermissionSeed>): seq<string> {
    if seeds == [] then [] else [seeds[0].code] + PermissionCodes(seeds[1..])
  }

  /** All group codes of the menus, each menu before its children. */
  function GroupCodes(menus: seq<MenuSeed>): seq<string> {
    if menus == [] then []
    else [menus[0].code] + GroupCodes(menus[0].children) + GroupCodes(menus[1..])
  }

  /** All permission codes of the menus in the order the upsert visits them. */
  function AllPermissionCodes(menus: seq<MenuSeed>): seq<string> {
    if menus == [] then []
    else PermissionCodes(menus[0].permissions) + AllPermissionCodes(menus[0].children) + AllPermissionCodes(menus[1..])
  }

  /** Siblings have different paths, and the permissions of one group different (action, path) pairs. */
  predicate PlacesDistinct(menus: seq<MenuSeed>) {
    && (forall i, j :: 0 <= i < j < |menus| ==> menus[i].path != menus[j].path)
    && (forall i :: 0 <= i < |menus| ==>
          PermissionPlacesDistinct(menus[i].permissions) && PlacesDistinct(menus[i].children))
  }

  predicate PermissionPlacesDistinct(seeds: seq<PermissionSeed>) {
    forall i, j :: 0 <= i < j < |seeds| ==> seeds[i].action != seeds[j].action || seeds[i].path != seeds[j].path
  }

  /** What the seed must satisfy: codes are unique over the whole tree, places among their neighbours. */
  predicate SeedOk(menus: seq<MenuSeed>) {
    NoDuplicates(GroupCodes(menus)) && NoDuplicates(AllPermissionCodes(menus)) && PlacesDistinct(menus)
  }

  // --------------------------------------------------------------------- rows

  /** The row carries the permission's data in this group. */
  predicate PermissionMatches(row: Permission, seed: PermissionSeed, groupId: nat) {
    && row.code == seed.code && row.name == seed.name && row.action == seed.action && row.path == seed.path
    && row.groupId == groupId
  }

  /** The row carries the seed's data under this parent. */
  predicate GroupMatches(row: Group, menu: MenuSeed, parentId: Option<nat>) {
    && row.code == menu.code && row.name == menu.name && row.path == menu.path && row.sort == menu.sort
    && (menu.icon.Some? ==> row.icon == menu.icon)
    && row.visible == (menu.visible.Some? ==> menu.visible.value)
    && row.parentId == parentId
  }

  // ----------------------------------------------------- table constraints

  ghost predicate UniqueGroupCodes(groups: map<nat, Group>) {
    forall a, b :: a in groups && b in groups && groups[a].code == groups[b].code ==> a == b
  }

  ghost predicate UniquePermissionCodes(permissions: map<nat, Permission>) {
    forall a, b :: a in permissions && b in permissions && permissions[a].code == permissions[b].code ==> a == b
  }

  /** Every parent reference points to a row. */
  ghost predicate ParentsExist(groups: map<nat, Group>) {
    forall id :: id in groups && groups[id].parentId.Some? ==> groups[id].parentId.value in groups
  }

  /** Codes are unique columns, parents are foreign keys, and new ids come from the counters. */
  ghost predicate Valid(db: Db) {
    && (forall id :: id in db.groups ==> id < db.nextGroup)
    && (forall id :: id in db.permissions ==> id < db.nextPermission)
    && UniqueGroupCodes(db.groups)
    && UniquePermissionCodes(db.permissions)
    && ParentsExist(db.groups)
  }

  // --------------------------------------------------------------- placements

  /** The rows a run has settled so far, by code. */
  datatype Placement = Placement(groups: map<string, nat>, permissions: map<string, nat>)

  ghost predicate Placed(db: Db, at: Placement) {
    && (forall c :: c in at.groups ==> at.groups[c] in db.groups && db.groups[at.groups[c]].code == c)
    && (forall c :: c in at.groups && db.groups[at.groups[c]].parentId.Some? ==>
          db.groups[at.groups[c]].parentId.value in at.groups.Values)
    && (forall c :: c in at.permissions ==>
          at.permissions[c] in db.permissions && db.permissions[at.permissions[c]].code == c)
    && (forall c :: c in at.permissions ==> db.permissions[at.permissions[c]].groupId in at.groups.Values)
  }

  predicate PermissionSettled(db: Db, at: Placement, seed: PermissionSeed, groupId: nat) {
    && seed.code in at.permissions
    && at.permissions[seed.code] in db.permissions
    && PermissionMatches(db.permissions[at.permissions[seed.code]], seed, groupId)
  }

  /** The subtree of this menu is in the tables: data, parents and groups are the seed's. */
  ghost predicate Settled(db: Db, at: Placement, menu: MenuSeed, parentId: Option<nat>) {
    && menu.code in at.groups
    && at.groups[menu.code] in db.groups
    && GroupMatches(db.groups[at.groups[menu.code]], menu, parentId)
    && (forall p :: p in menu.permissions ==> PermissionSettled(db, at, p, at.groups[menu.code]))
    && (forall c :: c in menu.children ==> Settled(db, at, c, Some(at.groups[menu.code])))
  }

  ghost predicate AllSettled(db: Db, at: Placement, menus: seq<MenuSeed>, parentId: Option<nat>) {
    forall m :: m in menus ==> Settled(db, at, m, parentId)
  }

  /** The returned list names the rows of these permission codes, in this order. */
  predicate Lists(at: Placement, ids: seq<nat>, codes: seq<string>) {
    && |ids| == |codes|
    && (forall i :: 0 <= i < |codes| ==> codes[i] in at.permissions && at.permissions[codes[i]] == ids[i])
  }

  // ----------------------------------------------------------------- progress

  /** A row the run took over was found by its code or by its place. */
  predicate FoundGroup(before: Group, after: Group) {
    before.code == after.code || (before.path == after.path && before.parentId == after.parentId)
  }

  predicate FoundPermission(before: Permission, after: Permission) {
    || before.code == after.code
    || (before.action == after.action && before.path == after.path && before.groupId == after.groupId)
  }

  predicate NewlyPlaced(at: map<string, nat>, at': map<string, nat>, code: string, id: nat) {
    code in at' && code !in at && at'[code] == id
  }

  ghost predicate GroupsProgress(groups: map<nat, Group>, at: map<string, nat>, groups': map<nat, Group>, at': map<string, nat>) {
    && (forall c :: c in at ==>
          c in at' && at'[c] == at[c] && at[c] in groups && at[c] in groups' && groups'[at[c]] == groups[at[c]])
    && (forall id :: id in groups ==>
          id in groups' && (groups'[id] == groups[id]
            || (NewlyPlaced(at, at', groups'[id].code, id) && FoundGroup(groups[id], groups'[id]))))
    && (forall id :: id in groups' && id !in groups ==> NewlyPlaced(at, at', groups'[id].code, id))
  }

  ghost predicate PermissionsProgress(rows: map<nat, Permission>, at: map<string, nat>, rows': map<nat, Permission>, at': map<string, nat>) {
    && (forall c :: c in at ==>
          c in at' && at'[c] == at[c] && at[c] in rows && at[c] in rows' && rows'[at[c]] == rows[at[c]])
    && (forall id :: id in rows ==>
          id in rows' && (rows'[id] == rows[id]
            || (NewlyPlaced(at, at', rows'[id].code, id) && FoundPermission(rows[id], rows'[id]))))
    && (forall id :: id in rows' && id !in rows ==> NewlyPlaced(at, at', rows'[id].code, id))
  }

  /**
   From one point of a run to a later one: rows already settled stay as they are, every row
   that changed was found by code or place and is now settled, every new row is settled,
   and nothing is deleted.
  */
  ghost predicate Progress(db: Db, at: Placement, db': Db, at': Placement) {
    && GroupsProgress(db.groups, at.groups, db'.groups, at'.groups)
    && PermissionsProgress(db.permissions, at.permissions, db'.permissions, at'.permissions)
  }

  lemma GroupsProgressTransitive(g0: map<nat, Group>, a0: map<string, nat>, g1: map<nat, Group>, a1: map<string, nat>,
                                 g2: map<nat, Group>, a2: map<string, nat>)
    requires GroupsProgress(g0, a0, g1, a1) && GroupsProgress(g1, a1, g2, a2)
    ensures GroupsProgress(g0, a0, g2, a2)
  {
  }

  lemma PermissionsProgressTransitive(p0: map<nat, Permission>, a0: map<string, nat>, p1: map<nat, Permission>,
                                      a1: map<string, nat>, p2: map<nat, Permission>, a2: map<string, nat>)
    requires PermissionsProgress(p0, a0, p1, a1) && PermissionsProgress(p1, a1, p2, a2)
    ensures PermissionsProgress(p0, a0, p2, a2)
  {
  }

  lemma ProgressTransitive(d0: Db, a0: Placement, d1: Db, a1: Placement, d2: Db, a2: Placement)
    requires Progress(d0, a0, d1, a1) && Progress(d1, a1, d2, a2)
    ensures Progress(d0, a0, d2, a2)
  {
    GroupsProgressTransitive(d0.groups, a0.groups, d1.groups, a1.groups, d2.groups, a2.groups);
    PermissionsProgressTransitive(d0.permissions, a0.permissions, d1.permissions, a1.permissions,
                                  d2.permissions, a2.permissions);
  }

  /** What is settled stays settled as the run goes on. */
  lemma {:induction false} SettledStays(db: Db, at: Placement, db': Db, at': Placement, menu: MenuSeed, parentId: Option<nat>)
    requires Progress(db, at, db', at') && Settled(db, at, menu, parentId)
    ensures Settled(db', at', menu, parentId)
    decreases menu
  {
    var id := at.groups[menu.code];
    forall c | c in menu.children
      ensures Settled(db', at', c, Some(id))
    {
      SettledStays(db, at, db', at', c, Some(id));
    }
    forall p | p in menu.permissions
      ensures PermissionSettled(db', at', p, id)
    {
      assert PermissionSettled(db, at, p, id);
    }
  }
}
