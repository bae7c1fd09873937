/** The rows of the permission-group table (the menu tree) and of the permission table. */
module PermissionTables {
  import opened Base

  datatype Group = Group(
    code: string, name: string, path: string, icon: Option<string>, sort: int, visible: bool, parentId: Option<nat>)

  datatype Permission = Permission(code: string, name: string, action: string, path: string, groupId: nat)
}
