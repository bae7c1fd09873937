/** When creating and updating a group succeed and what they write, column by column. */
module MenuEffects {
  import opened Base
  import opened PermissionTables
  import opened CodeBuilder
  import opened MenuOperations

  /** A body's parent, when it names one, is an existing row. */
  ghost predicate ParentKnown(s: Store, parent: ParentField) {
    parent.Given? ==> parent.id in s.groups
  }

  /** No other row has this code. */
  ghost predicate CodeFree(s: Store, code: string, id: nat) {
    forall x :: x in s.groups && x != id ==> s.groups[x].code != code
  }

  /** Exactly the listed permissions have moved to the group. */
  ghost predicate PermissionsMoved(s: Store, s': Store, permissions: seq<nat>, id: nat) {
    && s'.members.Keys == s.members.Keys
    && (forall p :: p in s.members && p in permissions ==> s'.members[p] == id)
    && (forall p :: p in s.members && p !in permissions ==> s'.members[p] == s.members[p])
  }

  /** The code made from a path: its lower-cased words, joined by dots. */
  function CodeOfPath(path: string): string {
    Join(Words(Lower(path)))
  }

  /** Creating: when it succeeds, and every column of the new row. */
  lemma CreateExactly(s: Store, dto: CreateDto)
    requires Valid(s)
    ensures var (s', outcome) := Create(s, dto);
      var code := if dto.code.Some? then dto.code.value else CodeOfPath(dto.path);
      && (outcome == Done <==>
            && ParentKnown(s, dto.parent) && CodeFree(s, code, s.nextId)
            && (forall p :: p in dto.permissions ==> p in s.members))
      && (outcome == Conflict <==> ParentKnown(s, dto.parent) && !CodeFree(s, code, s.nextId))
      && (outcome != Done ==> s' == s)
      && (outcome == Done ==>
            && s'.groups == s.groups[s.nextId := Group(
                 code, dto.name, dto.path, dto.icon,
                 if dto.sort.Some? then dto.sort.value else 0,
                 if dto.visible.Some? then dto.visible.value else true,
                 if dto.parent.Given? then Some(dto.parent.id) else None)]
            && s'.order == s.order + [s.nextId] && s'.nextId == s.nextId + 1
            && PermissionsMoved(s, s', dto.permissions, s.nextId))
  {
    BuildCodeJoinsWords(dto.path);
  }

  /** The code an update gives the row. */
  function CodeAfter(row: Group, dto: UpdateDto): string {
    if dto.path.Some? && dto.path.value != "" && (dto.code.None? || dto.code.value == "") then CodeOfPath(dto.path.value)
    else if dto.code.Some? then dto.code.value
    else row.code
  }

  lemma UpdatedColumns(row: Group, dto: UpdateDto)
    ensures UpdatedRow(row, dto) == Group(
      CodeAfter(row, dto),
      if dto.name.Some? then dto.name.value else row.name,
      if dto.path.Some? then dto.path.value else row.path,
      if dto.icon.Some? then dto.icon else row.icon,
      if dto.sort.Some? then dto.sort.value else row.sort,
      if dto.visible.Some? then dto.visible.value else row.visible,
      if dto.parent.Unset? then row.parentId else if dto.parent.Null? then None else Some(dto.parent.id))
  {
    if dto.path.Some? { BuildCodeJoinsWords(dto.path.value); }
  }

  lemma FreeIsNotTaken(s: Store, code: string, id: nat)
    ensures CodeFree(s, code, id) <==> !CodeTaken(s.groups, code, Some(id))
  {
  }

  /** Updating: when it succeeds, every column of the row, and that nothing else changes. */
  lemma UpdateExactly(s: Store, id: nat, dto: UpdateDto)
    requires Valid(s)
    ensures var (s', outcome) := Update(s, id, dto);
      && (outcome == Done <==>
            && id in s.groups && s.groups[id].code !in SYSTEM_MANAGED_CODES
            && ParentKnown(s, dto.parent) && CodeFree(s, CodeAfter(s.groups[id], dto), id)
            && (forall p :: p in dto.permissions ==> p in s.members))
      && (outcome == SystemManagedRow <==> id in s.groups && s.groups[id].code in SYSTEM_MANAGED_CODES)
      && (outcome == Conflict <==>
            && id in s.groups && s.groups[id].code !in SYSTEM_MANAGED_CODES
            && ParentKnown(s, dto.parent) && !CodeFree(s, CodeAfter(s.groups[id], dto), id))
      && (outcome != Done ==> s' == s)
      && (outcome == Done ==>
            var row := s.groups[id];
            && s'.groups == s.groups[id := Group(
                 CodeAfter(row, dto),
                 if dto.name.Some? then dto.name.value else row.name,
                 if dto.path.Some? then dto.path.value else row.path,
                 if dto.icon.Some? then dto.icon else row.icon,
                 if dto.sort.Some? then dto.sort.value else row.sort,
                 if dto.visible.Some? then dto.visible.value else row.visible,
                 if dto.parent.Unset? then row.parentId else if dto.parent.Null? then None else Some(dto.parent.id))]
            && s'.order == s.order && s'.nextId == s.nextId
            && PermissionsMoved(s, s', dto.permissions, id))
  {
    if id in s.groups {
      UpdatedColumns(s.groups[id], dto);
      FreeIsNotTaken(s, CodeAfter(s.groups[id], dto), id);
    }
  }
}
