/** Merging legacy permission rows into the permissions that replaced them. */
module LegacyAliases {
  import opened Base

  datatype Alias = Alias(legacy: string, target: string)

  /** The permission rows by id, and the join table: (permission id, role id). */
  datatype Store = Store(codes: map<nat, string>, grants: set<(nat, nat)>)

  ghost predicate Valid(s: Store) {
    && (forall a, b :: a in s.codes && b in s.codes && s.codes[a] == s.codes[b] ==> a == b)
    && (forall g :: g in s.grants ==> g.0 in s.codes)
  }

  predicate Has(s: Store, code: string) {
    exists id :: id in s.codes && s.codes[id] == code
  }

  /** The role holds the permission with this code. */
  predicate Holds(s: Store, role: nat, code: string) {
    exists id :: id in s.codes && s.codes[id] == code && (id, role) in s.grants
  }

  // ---------------------------------------------------------------- one alias

  /** INSERT ... SELECT ... ON CONFLICT DO NOTHING, then the delete with its cascade. */
  function MergeRow(s: Store, legacy: nat, target: nat): Store {
    var copied := set g | g in s.grants && g.0 == legacy :: (target, g.1);
    Store(map id | id in s.codes && id != legacy :: s.codes[id],
          set g | g in s.grants + copied && g.0 != legacy)
  }

  // -------------------------------------------------------------- the whole list

  /** No code is both a legacy name and a target, and none is a legacy name twice. */
  ghost predicate AliasesOk(aliases: seq<Alias>) {
    && (forall i, j :: 0 <= i < j < |aliases| ==> aliases[i].legacy != aliases[j].legacy)
    && (forall i, j :: 0 <= i < |aliases| && 0 <= j < |aliases| ==> aliases[i].legacy != aliases[j].target)
  }

  /** The alias applies: both its rows exist. */
  ghost predicate Applies(s: Store, alias: Alias) {
    Has(s, alias.legacy) && Has(s, alias.target)
  }

  /** The code's row is merged away by some alias that applies. */
  ghost predicate Merged(s: Store, aliases: seq<Alias>, code: string) {
    exists a :: a in aliases && a.legacy == code && Applies(s, a)
  }

  /** The role holds some legacy code whose alias to this target applies. */
  ghost predicate Inherits(s: Store, aliases: seq<Alias>, role: nat, code: string) {
    exists a :: a in aliases && a.target == code && Applies(s, a) && Holds(s, role, a.legacy)
  }

  /** What the merge promises for one code: its row, and who holds it. */
  ghost predicate Conserved(s: Store, s': Store, aliases: seq<Alias>, code: string) {
    && (Has(s', code) <==> Has(s, code) && !Merged(s, aliases, code))
    && (forall role :: Holds(s', role, code) <==>
          !Merged(s, aliases, code) && (Holds(s, role, code) || Inherits(s, aliases, role, code)))
  }

  /** The promise for every code; the rows that remain keep their ids. */
  ghost predicate Migrated(s: Store, s': Store, aliases: seq<Alias>) {
    && Valid(s')
    && (forall id :: id in s'.codes ==> id in s.codes && s'.codes[id] == s.codes[id])
    && (forall code :: Conserved(s, s', aliases, code))
  }

  lemma MergeRowValid(s: Store, legacy: nat, target: nat)
    requires Valid(s) && legacy in s.codes && target in s.codes && legacy != target
    ensures Valid(MergeRow(s, legacy, target))
  {
  }

  /** One merge: the legacy row goes, the target gains its holders, every other code is untouched. */
  lemma MergeRowEffect(s: Store, legacy: nat, target: nat, code: string)
    requires Valid(s) && legacy in s.codes && target in s.codes && legacy != target
    ensures var s' := MergeRow(s, legacy, target);
      && (Has(s', code) <==> Has(s, code) && code != s.codes[legacy])
      && (forall role :: Holds(s', role, code) <==>
            code != s.codes[legacy]
            && (Holds(s, role, code) || (code == s.codes[target] && Holds(s, role, s.codes[legacy]))))
  {
    var s' := MergeRow(s, legacy, target);
    if Has(s, code) && code != s.codes[legacy] {
      var id :| id in s.codes && s.codes[id] == code;
      assert id in s'.codes && s'.codes[id] == code;
    }
    if Has(s', code) {
      var id :| id in s'.codes && s'.codes[id] == code;
      assert id in s.codes && s.codes[id] == code;
    }
    forall role
      ensures Holds(s', role, code) <==>
        code != s.codes[legacy]
        && (Holds(s, role, code) || (code == s.codes[target] && Holds(s, role, s.codes[legacy])))
    {
      MergeRowHolds(s, legacy, target, code, role);
    }
  }

  lemma MergeRowHolds(s: Store, legacy: nat, target: nat, code: string, role: nat)
    requires Valid(s) && legacy in s.codes && target in s.codes && legacy != target
    ensures Holds(MergeRow(s, legacy, target), role, code) <==>
      code != s.codes[legacy]
      && (Holds(s, role, code) || (code == s.codes[target] && Holds(s, role, s.codes[legacy])))
  {
    var s' := MergeRow(s, legacy, target);
    if Holds(s', role, code) {
      var id :| id in s'.codes && s'.codes[id] == code && (id, role) in s'.grants;
      if (id, role) !in s.grants {
        assert (legacy, role) in s.grants;
      }
    }
    if code != s.codes[legacy] && Holds(s, role, code) {
      var id :| id in s.codes && s.codes[id] == code && (id, role) in s.grants;
      assert id in s'.codes && s'.codes[id] == code && (id, role) in s'.grants;
    }
    if code == s.codes[target] && Holds(s, role, s.codes[legacy]) {
      assert (legacy, role) in s.grants;
      assert (target, role) in s'.grants && s'.codes[target] == code;
    }
  }

  /** Rows of aliases not reached yet are as they were: no earlier alias removes or feeds them. */
  lemma NextAliasUntouched(s: Store, s1: Store, aliases: seq<Alias>, i: nat)
    requires i < |aliases| && AliasesOk(aliases) && Migrated(s, s1, aliases[..i])
    ensures Has(s1, aliases[i].legacy) <==> Has(s, aliases[i].legacy)
    ensures Has(s1, aliases[i].target) <==> Has(s, aliases[i].target)
    ensures forall role :: Holds(s1, role, aliases[i].legacy) <==> Holds(s, role, aliases[i].legacy)
  {
    assert Conserved(s, s1, aliases[..i], aliases[i].legacy);
    assert Conserved(s, s1, aliases[..i], aliases[i].target);
    forall a | a in aliases[..i]
      ensures a.legacy != aliases[i].legacy && a.legacy != aliases[i].target && a.target != aliases[i].legacy
    {
      var j :| 0 <= j < i && aliases[j] == a;
    }
  }

  lemma SkippedAlias(s: Store, s1: Store, aliases: seq<Alias>, i: nat)
    requires i < |aliases| && AliasesOk(aliases) && Migrated(s, s1, aliases[..i])
    requires !Applies(s, aliases[i])
    ensures Migrated(s, s1, aliases[..i + 1])
  {
    var longer := aliases[..i + 1];
    forall code
      ensures Conserved(s, s1, longer, code)
    {
      assert Conserved(s, s1, aliases[..i], code);
      PrefixGrows(s, aliases, i, code);
    }
  }

  lemma PrefixGrows(s: Store, aliases: seq<Alias>, i: nat, code: string)
    requires i < |aliases|
    ensures Merged(s, aliases[..i + 1], code) <==>
      Merged(s, aliases[..i], code) || (aliases[i].legacy == code && Applies(s, aliases[i]))
    ensures forall role :: Inherits(s, aliases[..i + 1], role, code) <==>
      Inherits(s, aliases[..i], role, code)
      || (aliases[i].target == code && Applies(s, aliases[i]) && Holds(s, role, aliases[i].legacy))
  {
    var longer := aliases[..i + 1];
    assert longer == aliases[..i] + [aliases[i]];
    assert forall a :: a in longer <==> a in aliases[..i] || a == aliases[i];
  }

  lemma MergedAlias(s: Store, s1: Store, aliases: seq<Alias>, i: nat, legacy: nat, target: nat)
    requires i < |aliases| && AliasesOk(aliases) && Migrated(s, s1, aliases[..i])
    requires legacy in s1.codes && s1.codes[legacy] == aliases[i].legacy
    requires target in s1.codes && s1.codes[target] == aliases[i].target
    ensures Migrated(s, MergeRow(s1, legacy, target), aliases[..i + 1])
  {
    assert aliases[i].legacy != aliases[i].target;
    NextAliasUntouched(s, s1, aliases, i);
    MergeRowValid(s1, legacy, target);
    var after, longer := MergeRow(s1, legacy, target), aliases[..i + 1];
    forall code
      ensures Conserved(s, after, longer, code)
    {
      MergedAliasCode(s, s1, aliases, i, legacy, target, code);
    }
  }

  lemma MergedAliasCode(s: Store, s1: Store, aliases: seq<Alias>, i: nat, legacy: nat, target: nat, code: string)
    requires i < |aliases| && AliasesOk(aliases) && Migrated(s, s1, aliases[..i])
    requires legacy in s1.codes && s1.codes[legacy] == aliases[i].legacy
    requires target in s1.codes && s1.codes[target] == aliases[i].target && legacy != target
    ensures Conserved(s, MergeRow(s1, legacy, target), aliases[..i + 1], code)
  {
    assert Conserved(s, s1, aliases[..i], code);
    assert Has(s1, aliases[i].legacy) && Has(s1, aliases[i].target);
    NextAliasUntouched(s, s1, aliases, i);
    MergeRowEffect(s1, legacy, target, code);
    PrefixGrows(s, aliases, i, code);
    if code == aliases[i].target {
      NotMerged(s, aliases, i);
    }
  }

  lemma NotMerged(s: Store, aliases: seq<Alias>, i: nat)
    requires i < |aliases| && AliasesOk(aliases)
    ensures !Merged(s, aliases[..i + 1], aliases[i].target)
  {
    forall a | a in aliases[..i + 1]
      ensures a.legacy != aliases[i].target
    {
      var j :| 0 <= j <= i && aliases[j] == a;
    }
  }

  lemma NothingMigrated(s: Store)
    requires Valid(s)
    ensures Migrated(s, s, [])
  {
    forall code
      ensures Conserved(s, s, [], code)
    {
    }
  }

  class PermissionStore {
    var codes: map<nat, string>
    var grants: set<(nat, nat)>

    constructor (s: Store)
      ensures State() == s
    {
      codes, grants := s.codes, s.grants;
    }

    function State(): Store
      reads this
    {
      Store(codes, grants)
    }

    method FindUnique(code: string) returns (found: Option<nat>)
      ensures found.Some? ==> found.value in codes && codes[found.value] == code
      ensures found.None? ==> !Has(State(), code)
    {
      if id :| id in codes && codes[id] == code {
        return Some(id);
      }
      return None;
    }

    method MigrateLegacyPermissionAliases(aliases: seq<Alias>)
      requires Valid(State()) && AliasesOk(aliases)
      modifies this
      ensures Migrated(old(State()), State(), aliases)
    {
      NothingMigrated(State());
      assert aliases[..0] == [];
      for i := 0 to |aliases|
        invariant Migrated(old(State()), State(), aliases[..i])
      {
        NextAliasUntouched(old(State()), State(), aliases, i);
        var legacyPermission := FindUnique(aliases[i].legacy);
        var targetPermission := FindUnique(aliases[i].target);
        if legacyPermission.None? || targetPermission.None? {
          SkippedAlias(old(State()), State(), aliases, i);
          continue;
        }
        var legacy, target := legacyPermission.value, targetPermission.value;
        MergedAlias(old(State()), State(), aliases, i, legacy, target);
        ghost var before := State();
        grants := grants + set g | g in grants && g.0 == legacy :: (target, g.1);
        codes := map id | id in codes && id != legacy :: codes[id];
        grants := set g | g in grants && g.0 != legacy;
        assert State() == MergeRow(before, legacy, target);
      }
      assert aliases[..|aliases|] == aliases;
    }
  }

  // --------------------------------------------------------- the shipped list

  const LEGACY_PERMISSION_ALIASES: seq<Alias> := [
    Alias("patch_users_id_3", "auth.users.update"),
    Alias("patch_roles_id_7", "auth.roles.update"),
    Alias("patch_permissions_id_11", "auth.permissions.update"),
    Alias("patch_menus_id_15", "auth.menus.update"),
    Alias("get_system_log_export_23", "system.logs.export"),
    Alias("delete_system_log_clear_24", "system.logs.delete"),
    Alias("get_system_log_25", "system.logs.view"),
    Alias("get_system_log_id_26", "system.logs.detail"),
    Alias("system.logs.audit", "system.logs.view")]

  /** A key that tells the nine legacy codes and their targets apart: the length and two letters. */
  function Fingerprint(s: string): (int, char, char) {
    (|s|, if |s| > 6 then s[6] else ' ', if |s| > 12 then s[12] else ' ')
  }

  const LEGACY_FINGERPRINTS := [
    (16, 'u', 'i'), (16, 'r', 'i'), (23, 'p', 's'), (17, 'm', 'i'), (24, 's', 'o'), (26, '_', 'm'),
    (17, 's', 'o'), (20, 's', 'o'), (17, '.', 'a')]

  const TARGET_FINGERPRINTS := [
    (17, 's', 'p'), (17, 'o', 'p'), (23, 'e', 'i'), (17, 'e', 'p'), (18, '.', 'e'), (18, '.', 'd'),
    (16, '.', 'v'), (18, '.', 'd'), (16, '.', 'v')]

  lemma FingerprintsOk(i: nat)
    requires i < 9
    ensures |LEGACY_PERMISSION_ALIASES| == 9
    ensures Fingerprint(LEGACY_PERMISSION_ALIASES[i].legacy) == LEGACY_FINGERPRINTS[i]
    ensures Fingerprint(LEGACY_PERMISSION_ALIASES[i].target) == TARGET_FINGERPRINTS[i]
  {
  }

  /** The list in the seed never names a code both as legacy and as target, nor a legacy code twice. */
  lemma ShippedAliasesOk()
    ensures AliasesOk(LEGACY_PERMISSION_ALIASES)
  {
    var list := LEGACY_PERMISSION_ALIASES;
    forall i, j | 0 <= i < j < |list|
      ensures list[i].legacy != list[j].legacy
    {
      FingerprintsOk(i);
      FingerprintsOk(j);
    }
    forall i, j | 0 <= i < |list| && 0 <= j < |list|
      ensures list[i].legacy != list[j].target
    {
      FingerprintsOk(i);
      FingerprintsOk(j);
    }
  }
}
