/** Which runs of the seed change a row's code: an earlier menu takes over the row of a later one, or a foreign one. */
module SeedRenames {
  import opened Base
  import opened PermissionTables
  import opened SeedModel
  import opened SeedSteps
  import opened SeedRuns

  type Groups = map<nat, Group>

  /** Some row has another code afterwards. */
  ghost predicate SomeRenamed(groups: Groups, groups': Groups) {
    exists row :: row in groups && row in groups' && groups'[row].code != groups[row].code
  }

  /** An upsert changes some row's code exactly when no row carries the menu's code and one sits at its place. */
  lemma RenamesExactly(db: Db, db': Db, menu: MenuSeed, parentId: Option<nat>, id: nat)
    requires Valid(db) && GroupUpserted(db, db', menu, parentId, id)
    ensures SomeRenamed(db.groups, db'.groups) <==> !HasCode(db, menu.code) && HasPlace(db, menu.path, parentId)
  {
    if !HasCode(db, menu.code) && HasPlace(db, menu.path, parentId) {
      assert id in db.groups && db'.groups[id].code != db.groups[id].code;
    }
  }

  /** The same for an upsert of one permission. */
  lemma PermissionRenamesExactly(db: Db, db': Db, seed: PermissionSeed, groupId: nat, id: nat)
    requires Valid(db) && PermissionUpserted(db, db', seed, groupId, id)
    ensures (exists row :: row in db.permissions && db'.permissions[row].code != db.permissions[row].code) <==>
      !HasPermissionCode(db, seed.code) && HasPermissionPlace(db, seed, groupId)
  {
    if !HasPermissionCode(db, seed.code) && HasPermissionPlace(db, seed, groupId) {
      assert id in db.permissions && db'.permissions[id].code != db.permissions[id].code;
    }
  }

  // ---------------------------------------------------- the seed as a list of menus

  /** A menu of the seed and the code of the menu above it. */
  datatype Entry = Entry(menu: MenuSeed, parent: Option<string>)

  /** The menus in the order in which they are written. */
  function Entries(menus: seq<MenuSeed>, parent: Option<string>): seq<Entry> {
    if menus == [] then []
    else [Entry(menus[0], parent)] + Entries(menus[0].children, Some(menus[0].code)) + Entries(menus[1..], parent)
  }

  lemma {:induction false} EntriesConcat(a: seq<MenuSeed>, b: seq<MenuSeed>, parent: Option<string>)
    ensures Entries(a + b, parent) == Entries(a, parent) + Entries(b, parent)
  {
    if a == [] {
      assert a + b == b;
    } else {
      var head := [Entry(a[0], parent)] + Entries(a[0].children, Some(a[0].code));
      EntriesConcat(a[1..], b, parent);
      assert (a + b)[0] == a[0] && (a + b)[1..] == a[1..] + b;
      Associative(head, Entries(a[1..], parent), Entries(b, parent));
    }
  }

  lemma TreeEntries(menu: MenuSeed, parent: Option<string>)
    ensures Entries([menu], parent) == [Entry(menu, parent)] + Entries(menu.children, Some(menu.code))
  {
    assert [menu][1..] == [];
  }

  function EntryCodes(entries: seq<Entry>): set<string> {
    set e | e in entries :: e.menu.code
  }

  lemma {:induction false} CodesOfEntries(menus: seq<MenuSeed>, parent: Option<string>)
    ensures EntryCodes(Entries(menus, parent)) == Elements(GroupCodes(menus))
  {
    if menus == [] {
    } else {
      var m, rest := menus[0], menus[1..];
      CodesOfEntries(m.children, Some(m.code));
      CodesOfEntries(rest, parent);
      CodesConcat([Entry(m, parent)] + Entries(m.children, Some(m.code)), Entries(rest, parent));
      CodesConcat([Entry(m, parent)], Entries(m.children, Some(m.code)));
      ElementsConcat([m.code] + GroupCodes(m.children), GroupCodes(rest));
      ElementsConcat([m.code], GroupCodes(m.children));
      assert EntryCodes([Entry(m, parent)]) == {m.code};
    }
  }

  lemma CodesConcat(a: seq<Entry>, b: seq<Entry>)
    ensures EntryCodes(a + b) == EntryCodes(a) + EntryCodes(b)
  {
    forall c | c in EntryCodes(a) + EntryCodes(b)
      ensures c in EntryCodes(a + b)
    {
      var e :| (e in a || e in b) && e.menu.code == c;
      assert e in a + b;
    }
  }

  // ------------------------------------------------------- the condition, told from the tables

  ghost predicate CodeIn(groups: Groups, code: string) {
    exists id :: id in groups && groups[id].code == code
  }

  /** The row hangs under the row with this code, or is at the top. */
  ghost predicate SitsUnder(groups: Groups, row: Group, parent: Option<string>) {
    match parent
    case None => row.parentId.None?
    case Some(code) => row.parentId.Some? && row.parentId.value in groups && groups[row.parentId.value].code == code
  }

  /** The row sits where the i-th menu is looked up, and its code is none that was written before. */
  ghost predicate CanBeTaken(groups: Groups, before: set<string>, entries: seq<Entry>, i: nat, row: nat)
    requires i < |entries|
  {
    && row in groups
    && groups[row].path == entries[i].menu.path
    && SitsUnder(groups, groups[row], entries[i].parent)
    && groups[row].code !in before
    && groups[row].code !in EntryCodes(entries[..i])
  }

  ghost predicate TakesAt(groups: Groups, before: set<string>, entries: seq<Entry>, i: nat)
    requires i < |entries|
  {
    !CodeIn(groups, entries[i].menu.code) && exists row :: CanBeTaken(groups, before, entries, i, row)
  }

  ghost predicate Takes(groups: Groups, before: set<string>, entries: seq<Entry>) {
    exists i :: 0 <= i < |entries| && TakesAt(groups, before, entries, i)
  }

  /**
   The run will change a row's code: for some menu of the seed no row has the code, but a row sits
   at its path under its parent's row that does not carry the code of an earlier menu.
  */
  ghost predicate WouldRename(groups: Groups, menus: seq<MenuSeed>) {
    Takes(groups, {}, Entries(menus, None))
  }

  lemma TakesAtFirst(groups: Groups, before: set<string>, a: seq<Entry>, b: seq<Entry>, i: nat)
    requires i < |a|
    ensures TakesAt(groups, before, a + b, i) <==> TakesAt(groups, before, a, i)
  {
    var all := a + b;
    assert all[..i] == a[..i] && all[i] == a[i];
    assert forall row :: CanBeTaken(groups, before, all, i, row) <==> CanBeTaken(groups, before, a, i, row);
  }

  lemma TakesAtShifted(groups: Groups, before: set<string>, a: seq<Entry>, b: seq<Entry>, i: nat)
    requires i < |b|
    ensures TakesAt(groups, before, a + b, |a| + i) <==> TakesAt(groups, before + EntryCodes(a), b, i)
  {
    var all, k, more := a + b, |a| + i, before + EntryCodes(a);
    assert all[..k] == a + b[..i] && all[k] == b[i];
    CodesConcat(a, b[..i]);
    forall row
      ensures CanBeTaken(groups, before, all, k, row) <==> CanBeTaken(groups, more, b, i, row)
    {
    }
  }

  lemma TakesConcat(groups: Groups, before: set<string>, a: seq<Entry>, b: seq<Entry>)
    ensures Takes(groups, before, a + b) <==>
      Takes(groups, before, a) || Takes(groups, before + EntryCodes(a), b)
  {
    var all := a + b;
    if i :| 0 <= i < |a| && TakesAt(groups, before, a, i) {
      TakesAtFirst(groups, before, a, b, i);
      assert TakesAt(groups, before, all, i);
    }
    if i :| 0 <= i < |b| && TakesAt(groups, before + EntryCodes(a), b, i) {
      TakesAtShifted(groups, before, a, b, i);
      assert TakesAt(groups, before, all, |a| + i);
    }
    if i :| 0 <= i < |all| && TakesAt(groups, before, all, i) {
      if i < |a| {
        TakesAtFirst(groups, before, a, b, i);
      } else {
        TakesAtShifted(groups, before, a, b, i - |a|);
      }
    }
  }

  // ------------------------------------------------------------ parts of a run

  /** No code has changed, the rows whose code is not in `before` are the same, and no other code is new. */
  ghost predicate SameOutside(groups: Groups, groups': Groups, before: set<string>) {
    && (forall id :: id in groups ==> id in groups' && groups'[id].code == groups[id].code)
    && (forall id :: id in groups && groups[id].code !in before ==> groups'[id] == groups[id])
    && (forall id :: id in groups' && id !in groups ==> groups'[id].code in before)
  }

  lemma TakesOutside(groups: Groups, groups': Groups, before: set<string>, entries: seq<Entry>)
    requires SameOutside(groups, groups', before) && ParentsExist(groups)
    requires EntryCodes(entries) !! before
    ensures Takes(groups', before, entries) <==> Takes(groups, before, entries)
  {
    forall i | 0 <= i < |entries|
      ensures TakesAt(groups', before, entries, i) <==> TakesAt(groups, before, entries, i)
    {
      var code := entries[i].menu.code;
      assert code in EntryCodes(entries);
      if id :| id in groups && groups[id].code == code { assert id in groups' && groups'[id].code == code; }
      forall row
        ensures CanBeTaken(groups', before, entries, i, row) <==> CanBeTaken(groups, before, entries, i, row)
      {
        if row in groups && groups[row].code !in before && groups[row].parentId.Some? {
          assert groups[row].parentId.value in groups;
        }
      }
    }
  }

  lemma ProgressIsSameOutside(groups: Groups, at: map<string, nat>, groups': Groups, at': map<string, nat>)
    requires GroupsProgress(groups, at, groups', at') && !SomeRenamed(groups, groups')
    ensures SameOutside(groups, groups', at'.Keys)
  {
    forall id | id in groups
      ensures id in groups' && groups'[id].code == groups[id].code
      ensures groups[id].code !in at'.Keys ==> groups'[id] == groups[id]
    {
    }
  }

  /** A row renamed by one part of a run stays renamed: the run has settled it. */
  lemma RenamesAddUp(g0: Groups, a0: map<string, nat>, g1: Groups, a1: map<string, nat>, g2: Groups,
                     a2: map<string, nat>)
    requires GroupsProgress(g0, a0, g1, a1) && GroupsProgress(g1, a1, g2, a2)
    ensures SomeRenamed(g0, g2) <==> SomeRenamed(g0, g1) || SomeRenamed(g1, g2)
  {
    forall row | row in g1 && (row !in g0 || g1[row] != g0[row])
      ensures row in g2 && g2[row] == g1[row]
    {
      assert NewlyPlaced(a0, a1, g1[row].code, row);
    }
  }

  /** What a part of a run does to codes is what the condition said before it. */
  ghost predicate RenamesForeseen(groups: Groups, at: map<string, nat>, groups': Groups, entries: seq<Entry>) {
    SomeRenamed(groups, groups') <==> Takes(groups, at.Keys, entries)
  }

  lemma ForeseenConcat(g0: Groups, a0: map<string, nat>, g1: Groups, a1: map<string, nat>, g2: Groups,
                       a2: map<string, nat>, a: seq<Entry>, b: seq<Entry>)
    requires GroupsProgress(g0, a0, g1, a1) && GroupsProgress(g1, a1, g2, a2) && ParentsExist(g0)
    requires a1.Keys == a0.Keys + EntryCodes(a) && EntryCodes(b) !! a1.Keys
    requires RenamesForeseen(g0, a0, g1, a) && RenamesForeseen(g1, a1, g2, b)
    ensures RenamesForeseen(g0, a0, g2, a + b)
  {
    RenamesAddUp(g0, a0, g1, a1, g2, a2);
    TakesConcat(g0, a0.Keys, a, b);
    if !SomeRenamed(g0, g1) {
      ProgressIsSameOutside(g0, a0, g1, a1);
      TakesOutside(g0, g1, a1.Keys, b);
    }
  }

  // ------------------------------------------------------------------- one menu

  /** The code of the row with this id. */
  ghost function ParentCode(groups: Groups, parentId: Option<nat>): Option<string> {
    if parentId.Some? && parentId.value in groups then Some(groups[parentId.value].code) else None
  }

  /** Writing these menus under this parent changes codes exactly when the condition held before. */
  ghost predicate Foreseen(db: Db, at: Placement, db': Db, menus: seq<MenuSeed>, parentId: Option<nat>) {
    RenamesForeseen(db.groups, at.groups, db'.groups, Entries(menus, ParentCode(db.groups, parentId)))
  }

  lemma SitsUnderExactly(db: Db, row: nat, parentId: Option<nat>)
    requires Valid(db) && row in db.groups && (parentId.Some? ==> parentId.value in db.groups)
    ensures SitsUnder(db.groups, db.groups[row], ParentCode(db.groups, parentId))
            <==> db.groups[row].parentId == parentId
  {
  }

  lemma RootCanBeTaken(db: Db, at: Placement, menu: MenuSeed, parentId: Option<nat>, row: nat)
    requires Valid(db) && Placed(db, at) && PlaceFree(db, at, menu.path, parentId)
    requires (parentId.Some? ==> parentId.value in db.groups) && row in db.groups
    ensures CanBeTaken(db.groups, at.groups.Keys, [Entry(menu, ParentCode(db.groups, parentId))], 0, row) <==>
            db.groups[row].path == menu.path && db.groups[row].parentId == parentId
  {
    var entries := [Entry(menu, ParentCode(db.groups, parentId))];
    assert entries[..0] == [];
    SitsUnderExactly(db, row, parentId);
    if db.groups[row].code in at.groups {
      assert at.groups[db.groups[row].code] == row;
    }
  }

  lemma TakesOne(groups: Groups, before: set<string>, entry: Entry)
    ensures Takes(groups, before, [entry]) <==> TakesAt(groups, before, [entry], 0)
  {
  }

  lemma RootForeseen(db: Db, at: Placement, db1: Db, menu: MenuSeed, parentId: Option<nat>, id: nat)
    requires Ready(db, at, [menu], parentId) && (parentId.Some? ==> parentId.value in db.groups)
    requires GroupUpserted(db, db1, menu, parentId, id)
    ensures RenamesForeseen(db.groups, at.groups, db1.groups, [Entry(menu, ParentCode(db.groups, parentId))])
  {
    var entry := Entry(menu, ParentCode(db.groups, parentId));
    RenamesExactly(db, db1, menu, parentId, id);
    RootNotSettled(db, at, menu, parentId);
    forall row | row in db.groups
      ensures CanBeTaken(db.groups, at.groups.Keys, [entry], 0, row) <==>
              db.groups[row].path == menu.path && db.groups[row].parentId == parentId
    {
      RootCanBeTaken(db, at, menu, parentId, row);
    }
    TakesOne(db.groups, at.groups.Keys, entry);
  }

  // ------------------------------------------------------- subtrees and lists of menus

  lemma NothingForeseen(db: Db, at: Placement, parentId: Option<nat>)
    ensures Foreseen(db, at, db, [], parentId)
  {
  }

  lemma TreeEntryCodes(db: Db, at: Placement, menu: MenuSeed, parentId: Option<nat>)
    requires Ready(db, at, [menu], parentId)
    ensures var parent := ParentCode(db.groups, parentId);
      && Entries([menu], parent) == [Entry(menu, parent)] + Entries(menu.children, Some(menu.code))
      && EntryCodes([Entry(menu, parent)]) == {menu.code}
      && EntryCodes(Entries(menu.children, Some(menu.code))) !! at.groups.Keys + {menu.code}
  {
    var parent := ParentCode(db.groups, parentId);
    TreeEntries(menu, parent);
    TreeCodes(menu);
    TreeOk(menu);
    CodesOfEntries(menu.children, Some(menu.code));
    ElementsConcat([menu.code], GroupCodes(menu.children));
    assert EntryCodes([Entry(menu, parent)]) == {menu.code};
  }

  /** The group row and the children together. */
  lemma TreeForeseen(db: Db, at: Placement, db1: Db, db2: Db, at2: Placement, db3: Db, at3: Placement,
                     menu: MenuSeed, parentId: Option<nat>, id: nat)
    requires Ready(db, at, [menu], parentId) && GroupUpserted(db, db1, menu, parentId, id)
    requires id !in at.groups.Values
    requires db2.groups == db1.groups && at2.groups == at.groups[menu.code := id]
    requires Progress(db2, at2, db3, at3)
    requires Foreseen(db2, at2, db3, menu.children, Some(id))
    ensures Foreseen(db, at, db3, [menu], parentId)
  {
    var parent := ParentCode(db.groups, parentId);
    RootNotSettled(db, at, menu, parentId);
    RootForeseen(db, at, db1, menu, parentId, id);
    GroupUpsertProgress(db, at, db1, menu, parentId, id);
    TreeEntryCodes(db, at, menu, parentId);
    ForeseenConcat(db.groups, at.groups, db1.groups, at2.groups, db3.groups, at3.groups,
                   [Entry(menu, parent)], Entries(menu.children, Some(menu.code)));
  }

  lemma SameParentCode(db: Db, at: Placement, db1: Db, at1: Placement, parentId: Option<nat>)
    requires Placed(db, at) && Progress(db, at, db1, at1)
    requires parentId.Some? ==> parentId.value in at.groups.Values
    ensures ParentCode(db1.groups, parentId) == ParentCode(db.groups, parentId)
  {
    if parentId.Some? {
      var c :| c in at.groups && at.groups[c] == parentId.value;
      assert db1.groups[at.groups[c]] == db.groups[at.groups[c]];
    }
  }

  /** One more menu after those already written. */
  lemma MenusForeseen(db: Db, at: Placement, db1: Db, at1: Placement, db2: Db, at2: Placement,
                      done: seq<MenuSeed>, menu: MenuSeed, parentId: Option<nat>)
    requires Valid(db) && Placed(db, at) && (parentId.Some? ==> parentId.value in at.groups.Values)
    requires Progress(db, at, db1, at1) && Progress(db1, at1, db2, at2) && KeysGrown(at, at1, done)
    requires Elements(GroupCodes([menu])) !! at1.groups.Keys
    requires Foreseen(db, at, db1, done, parentId) && Foreseen(db1, at1, db2, [menu], parentId)
    ensures Foreseen(db, at, db2, done + [menu], parentId)
  {
    var parent := ParentCode(db.groups, parentId);
    SameParentCode(db, at, db1, at1, parentId);
    CodesOfEntries(done, parent);
    CodesOfEntries([menu], parent);
    EntriesConcat(done, [menu], parent);
    ForeseenConcat(db.groups, at.groups, db1.groups, at1.groups, db2.groups, at2.groups,
                   Entries(done, parent), Entries([menu], parent));
  }

  // ---------------------------------------------------------------- consequences

  /** When every menu of the seed already has its row, no row is renamed, whatever the tree. */
  lemma NoRenameWhenPresent(groups: Groups, menus: seq<MenuSeed>)
    requires forall c :: c in GroupCodes(menus) ==> CodeIn(groups, c)
    ensures !WouldRename(groups, menus)
  {
    var entries := Entries(menus, None);
    CodesOfEntries(menus, None);
    forall i | 0 <= i < |entries|
      ensures !TakesAt(groups, {}, entries, i)
    {
      assert entries[i].menu.code in EntryCodes(entries);
    }
  }

  /** On empty tables nothing is renamed either. */
  lemma NoRenameWhenEmpty(menus: seq<MenuSeed>)
    ensures !WouldRename(map[], menus)
  {
  }
}
