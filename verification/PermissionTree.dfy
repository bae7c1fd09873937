/** The permission tree of the role editor: groups with their permissions as sorted leaves. */
module PermissionTree {
  import opened Base
  import opened Ordering

  datatype Permission = Permission(id: nat, code: string, name: string, action: string, path: string)

  datatype Group = Group(id: nat, name: string, permissions: seq<Permission>, children: seq<Group>)

  datatype TreeNode =
    | Branch(key: string, title: string, children: seq<TreeNode>)
    | Leaf(key: string, title: string, permissionId: nat, code: string, action: string, path: string)

  // ------------------------------------------------------------------- sorting

  function UpperChar(c: char): char {
    if 'a' <= c <= 'z' then (c as int - 'a' as int + 'A' as int) as char else c
  }

  function Upper(s: string): string {
    if s == "" then "" else [UpperChar(s[0])] + Upper(s[1..])
  }

  function ActionRank(action: string): int {
    var a := Upper(action);
    if a == "GET" then 10
    else if a == "POST" then 20
    else if a == "PUT" || a == "PATCH" then 30
    else if a == "DELETE" then 40
    else 99
  }

  /** comparePermissionsForTree: negative, zero or positive like a JavaScript comparator. */
  function ComparePermissions(left: Permission, right: Permission): int {
    if ActionRank(left.action) != ActionRank(right.action)
    then ActionRank(left.action) - ActionRank(right.action)
    else left.id - right.id
  }

  function KeyOf(p: Permission): SortKey {
    (ActionRank(p.action), p.id)
  }

  function KeysOf(ps: seq<Permission>): seq<SortKey> {
    if ps == [] then [] else [KeyOf(ps[0])] + KeysOf(ps[1..])
  }

  /** The comparator is the total order on (action rank, id); it calls two permissions equal only when both agree. */
  lemma ComparatorIsTotalOrder(a: Permission, b: Permission, c: Permission)
    ensures ComparePermissions(a, b) < 0 <==> Less(KeyOf(a), KeyOf(b))
    ensures ComparePermissions(a, b) > 0 <==> ComparePermissions(b, a) < 0
    ensures ComparePermissions(a, b) == 0 <==> KeyOf(a) == KeyOf(b)
    ensures ComparePermissions(a, b) <= 0 && ComparePermissions(b, c) <= 0 ==> ComparePermissions(a, c) <= 0
  {
    LessTotal(KeyOf(a), KeyOf(b), KeyOf(c));
  }

  /** Upper-casing keeps every character but the small letters, which move to the capital ones. */
  lemma {:induction false} UpperAt(s: string, i: nat)
    requires i < |s|
    ensures |Upper(s)| == |s|
    ensures Upper(s)[i] == if 'a' <= s[i] <= 'z' then (s[i] as int - 32) as char else s[i]
  {
    if |s| == 1 {
    } else {
      UpperAt(s[1..], if i == 0 then 0 else i - 1);
    }
  }

  /** Where an action stands among the others. */
  function Place(action: string): int {
    if action == "GET" then 1
    else if action == "POST" then 2
    else if action in {"PUT", "PATCH"} then 3
    else if action == "DELETE" then 4
    else 5
  }

  /** GET before POST before PUT and PATCH before DELETE before the rest, whatever the case; then by id. */
  lemma ActionOrder(a: Permission, b: Permission)
    ensures ComparePermissions(a, b) < 0 <==>
      || Place(Upper(a.action)) < Place(Upper(b.action))
      || (Place(Upper(a.action)) == Place(Upper(b.action)) && a.id < b.id)
  {
  }

  /** Inserts before the first element that compares greater, as a stable sort does. */
  function InsertSorted(p: Permission, ps: seq<Permission>): seq<Permission> {
    if ps == [] then [p]
    else if ComparePermissions(p, ps[0]) < 0 then [p] + ps
    else [ps[0]] + InsertSorted(p, ps[1..])
  }

  function SortPermissions(ps: seq<Permission>): seq<Permission> {
    if ps == [] then [] else InsertSorted(ps[|ps| - 1], SortPermissions(ps[..|ps| - 1]))
  }

  predicate Sorted(ps: seq<Permission>) {
    forall i, j :: 0 <= i < j < |ps| ==> ComparePermissions(ps[i], ps[j]) <= 0
  }

  lemma {:induction false} InsertKeepsAll(p: Permission, ps: seq<Permission>)
    ensures multiset(InsertSorted(p, ps)) == multiset(ps) + multiset{p}
  {
    if ps == [] {
    } else {
      assert ps == [ps[0]] + ps[1..];
      InsertKeepsAll(p, ps[1..]);
    }
  }

  /** The permission compares lower than or equal to all of these. */
  ghost predicate Before(p: Permission, ps: seq<Permission>) {
    forall i :: 0 <= i < |ps| ==> ComparePermissions(p, ps[i]) <= 0
  }

  lemma SortedCons(p: Permission, ps: seq<Permission>)
    ensures Sorted([p] + ps) <==> Before(p, ps) && Sorted(ps)
  {
    var all := [p] + ps;
    assert forall i :: 0 <= i < |ps| ==> ps[i] == all[i + 1];
    if Sorted(all) {
      forall i | 0 <= i < |ps| ensures ComparePermissions(p, ps[i]) <= 0 {
        assert ComparePermissions(all[0], all[i + 1]) <= 0;
      }
      forall i, j | 0 <= i < j < |ps| ensures ComparePermissions(ps[i], ps[j]) <= 0 {
        assert ComparePermissions(all[i + 1], all[j + 1]) <= 0;
      }
    }
  }

  lemma BeforeAll(p: Permission, q: Permission, ps: seq<Permission>)
    requires ComparePermissions(p, q) <= 0 && Before(q, ps)
    ensures Before(p, ps)
  {
    forall i | 0 <= i < |ps| ensures ComparePermissions(p, ps[i]) <= 0 {
      ComparatorIsTotalOrder(p, q, ps[i]);
    }
  }

  lemma {:induction false} BeforeInserted(q: Permission, p: Permission, ps: seq<Permission>)
    requires ComparePermissions(q, p) <= 0 && Before(q, ps)
    ensures Before(q, InsertSorted(p, ps))
  {
    if ps != [] && ComparePermissions(p, ps[0]) >= 0 {
      assert forall i :: 0 <= i < |ps[1..]| ==> ps[1..][i] == ps[i + 1];
      BeforeInserted(q, p, ps[1..]);
    }
  }

  lemma {:induction false} InsertSortedExact(p: Permission, ps: seq<Permission>)
    requires Sorted(ps)
    ensures Sorted(InsertSorted(p, ps))
    ensures multiset(InsertSorted(p, ps)) == multiset(ps) + multiset{p}
  {
    InsertKeepsAll(p, ps);
    if ps != [] {
      var rest := ps[1..];
      assert ps == [ps[0]] + rest;
      SortedCons(ps[0], rest);
      ComparatorIsTotalOrder(p, ps[0], ps[0]);
      if ComparePermissions(p, ps[0]) < 0 {
        BeforeAll(p, ps[0], rest);
        assert Before(p, ps);
        SortedCons(p, ps);
      } else {
        InsertSortedExact(p, rest);
        BeforeInserted(ps[0], p, rest);
        SortedCons(ps[0], InsertSorted(p, rest));
      }
    }
  }

  /** The result is sorted and has exactly the permissions given. */
  lemma {:induction false} SortExact(ps: seq<Permission>)
    ensures Sorted(SortPermissions(ps))
    ensures multiset(SortPermissions(ps)) == multiset(ps)
  {
    if ps == [] {
    } else {
      var init := ps[..|ps| - 1];
      assert ps == init + [ps[|ps| - 1]];
      SortExact(init);
      InsertSortedExact(ps[|ps| - 1], SortPermissions(init));
    }
  }

  // ----------------------------------------------------------- the projection

  const GROUP_PREFIX := "group:"
  const PERMISSION_PREFIX := "permission:"

  function GroupKey(id: nat): string {
    GROUP_PREFIX + Decimal(id)
  }

  function PermissionKey(id: nat): string {
    PERMISSION_PREFIX + Decimal(id)
  }

  function LeafOf(p: Permission): TreeNode {
    Leaf(PermissionKey(p.id), p.name, p.id, p.code, p.action, p.path)
  }

  function LeavesOf(ps: seq<Permission>): seq<TreeNode> {
    if ps == [] then [] else [LeafOf(ps[0])] + LeavesOf(ps[1..])
  }

  function ToPermissionTreeNode(group: Group): TreeNode {
    Branch(GroupKey(group.id), group.name, ToNodes(group.children) + LeavesOf(SortPermissions(group.permissions)))
  }

  function ToNodes(groups: seq<Group>): seq<TreeNode> {
    if groups == [] then [] else [ToPermissionTreeNode(groups[0])] + ToNodes(groups[1..])
  }

  /** The columns of the two kinds of nodes. */
  lemma NodeColumns(group: Group, p: Permission)
    ensures ToPermissionTreeNode(group).Branch?
    ensures ToPermissionTreeNode(group).key == "group:" + Decimal(group.id)
    ensures ToPermissionTreeNode(group).title == group.name
    ensures LeafOf(p) == Leaf("permission:" + Decimal(p.id), p.name, p.id, p.code, p.action, p.path)
  {
  }

  // ----------------------------------------------------------- conservation

  /** Each permission of the forest with the key of the group it belongs to. */
  ghost function Memberships(groups: seq<Group>): multiset<(string, Permission)> {
    if groups == [] then multiset{}
    else Owned(GroupKey(groups[0].id), groups[0].permissions) + Memberships(groups[0].children) + Memberships(groups[1..])
  }

  ghost function Owned(key: string, ps: seq<Permission>): multiset<(string, Permission)> {
    if ps == [] then multiset{} else multiset{(key, ps[0])} + Owned(key, ps[1..])
  }

  /** Each leaf of the projected forest with the key of the branch directly above it. */
  ghost function LeafPlaces(key: string, nodes: seq<TreeNode>): multiset<(string, TreeNode)>
    decreases nodes
  {
    if nodes == [] then multiset{}
    else
      (match nodes[0]
       case Leaf(_, _, _, _, _, _) => multiset{(key, nodes[0])}
       case Branch(k, _, children) => LeafPlaces(k, children))
      + LeafPlaces(key, nodes[1..])
  }

  /** The permission a leaf shows. */
  function Shown(node: TreeNode): Permission
    requires node.Leaf?
  {
    Permission(node.permissionId, node.code, node.title, node.action, node.path)
  }

  lemma {:induction false} LeafPlacesConcat(key: string, a: seq<TreeNode>, b: seq<TreeNode>)
    ensures LeafPlaces(key, a + b) == LeafPlaces(key, a) + LeafPlaces(key, b)
  {
    if a == [] {
      assert a + b == b;
    } else {
      assert (a + b)[1..] == a[1..] + b;
      LeafPlacesConcat(key, a[1..], b);
    }
  }

  lemma LeafOfInjective(p: Permission, q: Permission)
    ensures LeafOf(p) == LeafOf(q) <==> p == q
    ensures Shown(LeafOf(p)) == p
  {
  }

  lemma LeavesUnfold(key: string, p: Permission, ps: seq<Permission>)
    ensures LeafPlaces(key, LeavesOf([p] + ps)) == multiset{(key, LeafOf(p))} + LeafPlaces(key, LeavesOf(ps))
  {
    assert ([p] + ps)[1..] == ps;
    assert LeavesOf([p] + ps) == [LeafOf(p)] + LeavesOf(ps);
    assert LeavesOf([p] + ps)[1..] == LeavesOf(ps);
  }

  lemma {:induction false} LeavesPlaced(key: string, ps: seq<Permission>, k: string, p: Permission)
    ensures LeafPlaces(key, LeavesOf(ps))[(k, LeafOf(p))] == if k == key then multiset(ps)[p] else 0
  {
    if ps == [] {
    } else {
      var first, rest := ps[0], ps[1..];
      LeavesPlaced(key, rest, k, p);
      LeafOfInjective(p, first);
      LeavesUnfold(key, first, rest);
      assert ps == [first] + rest;
    }
  }

  lemma {:induction false} OwnedCount(key: string, ps: seq<Permission>, k: string, p: Permission)
    ensures Owned(key, ps)[(k, p)] == if k == key then multiset(ps)[p] else 0
  {
    if ps == [] {
    } else {
      OwnedCount(key, ps[1..], k, p);
      assert ps == [ps[0]] + ps[1..];
    }
  }

  lemma PlacesUnfold(key: string, g: Group, rest: seq<Group>)
    ensures LeafPlaces(key, ToNodes([g] + rest)) ==
      LeafPlaces(GroupKey(g.id), ToNodes(g.children))
      + LeafPlaces(GroupKey(g.id), LeavesOf(SortPermissions(g.permissions)))
      + LeafPlaces(key, ToNodes(rest))
  {
    var nodes := ToNodes([g] + rest);
    assert ([g] + rest)[1..] == rest;
    assert nodes == [ToPermissionTreeNode(g)] + ToNodes(rest);
    assert nodes[0] == ToPermissionTreeNode(g) && nodes[1..] == ToNodes(rest);
    LeafPlacesConcat(GroupKey(g.id), ToNodes(g.children), LeavesOf(SortPermissions(g.permissions)));
  }

  lemma MembershipsUnfold(g: Group, rest: seq<Group>)
    ensures Memberships([g] + rest) ==
      Owned(GroupKey(g.id), g.permissions) + Memberships(g.children) + Memberships(rest)
  {
    assert ([g] + rest)[1..] == rest;
  }

  /**
   Every permission of the group forest is shown by exactly as many leaves, with all its columns
   and directly under its own group, as it has places in the forest: none is lost, doubled or moved.
  */
  lemma {:induction false} ProjectionConserves(key: string, groups: seq<Group>, k: string, p: Permission)
    ensures LeafPlaces(key, ToNodes(groups))[(k, LeafOf(p))] == Memberships(groups)[(k, p)]
    decreases groups
  {
    if groups == [] {
    } else {
      var g, rest := groups[0], groups[1..];
      ProjectionConserves(key, rest, k, p);
      ProjectionConserves(GroupKey(g.id), g.children, k, p);
      LeavesPlaced(GroupKey(g.id), SortPermissions(g.permissions), k, p);
      SortExact(g.permissions);
      OwnedCount(GroupKey(g.id), g.permissions, k, p);
      PlacesUnfold(key, g, rest);
      MembershipsUnfold(g, rest);
      assert groups == [g] + rest;
    }
  }

  // ------------------------------------------------------- hierarchy and order

  /** Each group of the forest: the key of the group above it, its own key, its name. */
  ghost function GroupPlaces(key: string, groups: seq<Group>): multiset<(string, string, string)>
    decreases groups
  {
    if groups == [] then multiset{}
    else
      multiset{(key, GroupKey(groups[0].id), groups[0].name)}
      + GroupPlaces(GroupKey(groups[0].id), groups[0].children) + GroupPlaces(key, groups[1..])
  }

  /** Each branch of the projected forest: the key of the branch above it, its own key, its title. */
  ghost function BranchPlaces(key: string, nodes: seq<TreeNode>): multiset<(string, string, string)>
    decreases nodes
  {
    if nodes == [] then multiset{}
    else
      (match nodes[0]
       case Leaf(_, _, _, _, _, _) => multiset{}
       case Branch(k, title, children) => multiset{(key, k, title)} + BranchPlaces(k, children))
      + BranchPlaces(key, nodes[1..])
  }

  lemma {:induction false} BranchPlacesConcat(key: string, a: seq<TreeNode>, b: seq<TreeNode>)
    ensures BranchPlaces(key, a + b) == BranchPlaces(key, a) + BranchPlaces(key, b)
  {
    if a == [] {
      assert a + b == b;
    } else {
      assert (a + b)[1..] == a[1..] + b;
      BranchPlacesConcat(key, a[1..], b);
    }
  }

  lemma {:induction false} LeavesAreNoBranches(key: string, ps: seq<Permission>)
    ensures BranchPlaces(key, LeavesOf(ps)) == multiset{}
  {
    if ps == [] {
    } else {
      LeavesAreNoBranches(key, ps[1..]);
      assert LeavesOf(ps)[1..] == LeavesOf(ps[1..]);
    }
  }

  /** Every group becomes one branch, with its name, under the branch of its own parent. */
  lemma {:induction false} HierarchyConserved(key: string, groups: seq<Group>)
    ensures BranchPlaces(key, ToNodes(groups)) == GroupPlaces(key, groups)
    decreases groups
  {
    if groups == [] {
    } else {
      var g, rest := groups[0], groups[1..];
      var leaves := LeavesOf(SortPermissions(g.permissions));
      HierarchyConserved(key, rest);
      HierarchyConserved(GroupKey(g.id), g.children);
      LeavesAreNoBranches(GroupKey(g.id), SortPermissions(g.permissions));
      BranchPlacesConcat(GroupKey(g.id), ToNodes(g.children), leaves);
      assert ToNodes(groups)[0] == ToPermissionTreeNode(g) && ToNodes(groups)[1..] == ToNodes(rest);
    }
  }

  /** A leaf is never followed by a branch nor by a leaf that sorts lower. */
  ghost predicate InOrder(nodes: seq<TreeNode>) {
    forall i, j :: 0 <= i < j < |nodes| && nodes[i].Leaf? ==>
      nodes[j].Leaf? && ComparePermissions(Shown(nodes[i]), Shown(nodes[j])) <= 0
  }

  ghost predicate InOrderBelow(nodes: seq<TreeNode>) {
    forall n :: n in nodes && n.Branch? ==> InOrder(n.children) && InOrderBelow(n.children)
  }

  lemma {:induction false} LeavesAt(ps: seq<Permission>)
    ensures |LeavesOf(ps)| == |ps|
    ensures forall i :: 0 <= i < |ps| ==> LeavesOf(ps)[i] == LeafOf(ps[i])
  {
    if ps != [] { LeavesAt(ps[1..]); }
  }

  lemma {:induction false} NodesAreBranches(groups: seq<Group>)
    ensures forall n :: n in ToNodes(groups) ==> n.Branch?
  {
    if groups != [] { NodesAreBranches(groups[1..]); }
  }

  lemma ChildrenInOrder(g: Group)
    ensures InOrder(ToPermissionTreeNode(g).children)
  {
    var branches, sorted := ToNodes(g.children), SortPermissions(g.permissions);
    var children := ToPermissionTreeNode(g).children;
    SortExact(g.permissions);
    LeavesAt(sorted);
    NodesAreBranches(g.children);
    forall i, j | 0 <= i < j < |children| && children[i].Leaf?
      ensures children[j].Leaf? && ComparePermissions(Shown(children[i]), Shown(children[j])) <= 0
    {
      assert forall k :: 0 <= k < |branches| ==> children[k] == branches[k] && branches[k] in branches;
      var a, b := i - |branches|, j - |branches|;
      assert children[i] == LeafOf(sorted[a]) && children[j] == LeafOf(sorted[b]);
      LeafOfInjective(sorted[a], sorted[b]);
      LeafOfInjective(sorted[b], sorted[a]);
    }
  }

  /** Everywhere in the projected forest the leaves come after the branches, by action rank and id. */
  lemma {:induction false} LeavesSortedEverywhere(groups: seq<Group>)
    ensures InOrderBelow(ToNodes(groups))
  {
    if groups == [] {
    } else {
      var g, rest := groups[0], groups[1..];
      LeavesSortedEverywhere(rest);
      LeavesSortedEverywhere(g.children);
      ChildrenInOrder(g);
      LeavesAt(SortPermissions(g.permissions));
      forall n | n in ToPermissionTreeNode(g).children && n.Branch?
        ensures n in ToNodes(g.children)
      {
      }
    }
  }

  // ------------------------------------------------------------ distinct keys

  /** All keys of the projected forest, with repetitions. */
  ghost function NodeKeys(nodes: seq<TreeNode>): multiset<string> {
    if nodes == [] then multiset{}
    else
      multiset{nodes[0].key}
      + (if nodes[0].Branch? then NodeKeys(nodes[0].children) else multiset{})
      + NodeKeys(nodes[1..])
  }

  ghost function GroupIds(groups: seq<Group>): multiset<nat> {
    if groups == [] then multiset{}
    else multiset{groups[0].id} + GroupIds(groups[0].children) + GroupIds(groups[1..])
  }

  ghost function IdsOf(ps: seq<Permission>): multiset<nat> {
    if ps == [] then multiset{} else multiset{ps[0].id} + IdsOf(ps[1..])
  }

  ghost function PermissionIds(groups: seq<Group>): multiset<nat> {
    if groups == [] then multiset{}
    else IdsOf(groups[0].permissions) + PermissionIds(groups[0].children) + PermissionIds(groups[1..])
  }

  lemma KeysApart(a: nat, b: nat)
    ensures GroupKey(a) == GroupKey(b) <==> a == b
    ensures PermissionKey(a) == PermissionKey(b) <==> a == b
    ensures GroupKey(a) != PermissionKey(b)
  {
    DecimalInjective(a, b);
    assert GroupKey(a)[|GROUP_PREFIX|..] == Decimal(a) && GroupKey(b)[|GROUP_PREFIX|..] == Decimal(b);
    assert PermissionKey(a)[|PERMISSION_PREFIX|..] == Decimal(a);
    assert PermissionKey(b)[|PERMISSION_PREFIX|..] == Decimal(b);
    assert GroupKey(a)[0] == 'g' && PermissionKey(b)[0] == 'p';
  }

  lemma {:induction false} NodeKeysConcat(a: seq<TreeNode>, b: seq<TreeNode>)
    ensures NodeKeys(a + b) == NodeKeys(a) + NodeKeys(b)
  {
    if a == [] {
      assert a + b == b;
    } else {
      assert (a + b)[1..] == a[1..] + b;
      NodeKeysConcat(a[1..], b);
    }
  }

  /** How often a key can occur: as often as the id it spells does. */
  ghost predicate KeyCounts(keys: multiset<string>, groupIds: multiset<nat>, permissionIds: multiset<nat>) {
    && (forall n: nat :: keys[GroupKey(n)] == groupIds[n])
    && (forall n: nat :: keys[PermissionKey(n)] == permissionIds[n])
    && (forall k :: k in keys ==> exists n: nat :: k == GroupKey(n) || k == PermissionKey(n))
  }

  lemma KeyCountsAdd(k1: multiset<string>, g1: multiset<nat>, p1: multiset<nat>,
                     k2: multiset<string>, g2: multiset<nat>, p2: multiset<nat>)
    requires KeyCounts(k1, g1, p1) && KeyCounts(k2, g2, p2)
    ensures KeyCounts(k1 + k2, g1 + g2, p1 + p2)
  {
  }

  lemma OneGroupKey(id: nat)
    ensures KeyCounts(multiset{GroupKey(id)}, multiset{id}, multiset{})
  {
    forall n: nat
      ensures GroupKey(n) == GroupKey(id) <==> n == id
      ensures PermissionKey(n) != GroupKey(id)
    {
      KeysApart(n, id);
      KeysApart(id, n);
    }
  }

  lemma OnePermissionKey(id: nat)
    ensures KeyCounts(multiset{PermissionKey(id)}, multiset{}, multiset{id})
  {
    forall n: nat
      ensures PermissionKey(n) == PermissionKey(id) <==> n == id
      ensures GroupKey(n) != PermissionKey(id)
    {
      KeysApart(n, id);
    }
  }

  lemma PermissionKeyCounts(id: nat, keys: multiset<string>, ids: multiset<nat>)
    requires KeyCounts(keys, multiset{}, ids)
    ensures KeyCounts(multiset{PermissionKey(id)} + keys, multiset{}, multiset{id} + ids)
  {
    OnePermissionKey(id);
    KeyCountsAdd(multiset{PermissionKey(id)}, multiset{}, multiset{id}, keys, multiset{}, ids);
    var none: multiset<nat> := multiset{};
    assert none + none == none;
  }

  lemma {:induction false} LeafKeyCounts(ps: seq<Permission>)
    ensures KeyCounts(NodeKeys(LeavesOf(ps)), multiset{}, IdsOf(ps))
  {
    if ps == [] {
    } else {
      var p, rest := ps[0], ps[1..];
      LeafKeyCounts(rest);
      PermissionKeyCounts(p.id, NodeKeys(LeavesOf(rest)), IdsOf(rest));
      LeafKeysUnfold(p, rest);
      assert ps == [p] + rest;
    }
  }

  lemma LeafKeysUnfold(p: Permission, ps: seq<Permission>)
    ensures NodeKeys(LeavesOf([p] + ps)) == multiset{PermissionKey(p.id)} + NodeKeys(LeavesOf(ps))
    ensures IdsOf([p] + ps) == multiset{p.id} + IdsOf(ps)
  {
    assert ([p] + ps)[1..] == ps;
    assert LeavesOf([p] + ps) == [LeafOf(p)] + LeavesOf(ps);
    assert LeavesOf([p] + ps)[1..] == LeavesOf(ps);
  }

  lemma {:induction false} IdsOfConcat(a: seq<Permission>, b: seq<Permission>)
    ensures IdsOf(a + b) == IdsOf(a) + IdsOf(b)
  {
    if a == [] {
      assert a + b == b;
    } else {
      assert (a + b)[1..] == a[1..] + b;
      IdsOfConcat(a[1..], b);
    }
  }

  lemma {:induction false} InsertKeepsIds(p: Permission, ps: seq<Permission>)
    ensures IdsOf(InsertSorted(p, ps)) == IdsOf(ps) + multiset{p.id}
  {
    if ps == [] {
      assert [p][1..] == [];
    } else if ComparePermissions(p, ps[0]) < 0 {
      assert ([p] + ps)[1..] == ps;
    } else {
      InsertKeepsIds(p, ps[1..]);
      assert ([ps[0]] + InsertSorted(p, ps[1..]))[1..] == InsertSorted(p, ps[1..]);
    }
  }

  lemma {:induction false} SortKeepsIds(ps: seq<Permission>)
    ensures IdsOf(SortPermissions(ps)) == IdsOf(ps)
  {
    if ps == [] {
    } else {
      var init, last := ps[..|ps| - 1], ps[|ps| - 1];
      assert ps == init + [last];
      SortKeepsIds(init);
      InsertKeepsIds(last, SortPermissions(init));
      IdsOfConcat(init, [last]);
      assert IdsOf([last]) == multiset{last.id} by { assert [last][1..] == []; }
    }
  }

  /** In the projected forest every key occurs exactly as often as the id it spells occurs in its table. */
  lemma {:induction false} NodeKeysExact(groups: seq<Group>)
    ensures KeyCounts(NodeKeys(ToNodes(groups)), GroupIds(groups), PermissionIds(groups))
  {
    if groups == [] {
    } else {
      var g, rest := groups[0], groups[1..];
      var leaves := LeavesOf(SortPermissions(g.permissions));
      assert ToNodes(groups)[1..] == ToNodes(rest);
      NodeKeysExact(rest);
      NodeKeysExact(g.children);
      LeafKeyCounts(SortPermissions(g.permissions));
      SortKeepsIds(g.permissions);
      OneGroupKey(g.id);
      NodeKeysConcat(ToNodes(g.children), leaves);
      KeyCountsAdd(NodeKeys(ToNodes(g.children)), GroupIds(g.children), PermissionIds(g.children),
                   NodeKeys(leaves), multiset{}, IdsOf(g.permissions));
      KeyCountsAdd(multiset{GroupKey(g.id)}, multiset{g.id}, multiset{},
                   NodeKeys(ToNodes(g.children) + leaves), GroupIds(g.children) + multiset{},
                   PermissionIds(g.children) + IdsOf(g.permissions));
      KeyCountsAdd(multiset{GroupKey(g.id)} + NodeKeys(ToNodes(g.children) + leaves),
                   multiset{g.id} + (GroupIds(g.children) + multiset{}),
                   multiset{} + (PermissionIds(g.children) + IdsOf(g.permissions)),
                   NodeKeys(ToNodes(rest)), GroupIds(rest), PermissionIds(rest));
      SameCounts(g, rest);
    }
  }

  lemma SameCounts(g: Group, rest: seq<Group>)
    ensures multiset{g.id} + (GroupIds(g.children) + multiset{}) + GroupIds(rest) == GroupIds([g] + rest)
    ensures multiset{} + (PermissionIds(g.children) + IdsOf(g.permissions)) + PermissionIds(rest)
         == PermissionIds([g] + rest)
  {
    assert ([g] + rest)[1..] == rest;
  }

  /** When ids are unique within each table, all keys of the projected forest are different. */
  lemma KeysDistinct(groups: seq<Group>)
    requires forall n: nat :: GroupIds(groups)[n] <= 1
    requires forall n: nat :: PermissionIds(groups)[n] <= 1
    ensures forall k :: NodeKeys(ToNodes(groups))[k] <= 1
  {
    NodeKeysExact(groups);
  }

  /** With unique ids the leaves of a group come in the one order by (action rank, id) there is. */
  lemma SortIsTheOnly(ps: seq<Permission>, other: seq<Permission>)
    requires forall i, j :: 0 <= i < j < |ps| ==> KeyOf(ps[i]) != KeyOf(ps[j])
    requires Sorted(other) && multiset(other) == multiset(ps)
    ensures other == SortPermissions(ps)
  {
    SortExact(ps);
    KeysStrict(other, ps);
    KeysStrict(SortPermissions(ps), ps);
    KeysMultiset(other, SortPermissions(ps));
    SortedUnique(KeysOf(other), KeysOf(SortPermissions(ps)));
    SameRows(other, SortPermissions(ps), ps);
  }

  lemma SameRows(a: seq<Permission>, b: seq<Permission>, ps: seq<Permission>)
    requires forall i, j :: 0 <= i < j < |ps| ==> KeyOf(ps[i]) != KeyOf(ps[j])
    requires multiset(a) == multiset(ps) && multiset(b) == multiset(ps)
    requires KeysOf(a) == KeysOf(b)
    ensures a == b
  {
    KeysAt(a);
    KeysAt(b);
    forall i | 0 <= i < |a| ensures a[i] == b[i] {
      assert a[i] in multiset(ps) && b[i] in multiset(ps);
      assert KeyOf(a[i]) == KeysOf(a)[i] == KeyOf(b[i]);
    }
  }

  lemma {:induction false} KeysAt(ps: seq<Permission>)
    ensures |KeysOf(ps)| == |ps|
    ensures forall i :: 0 <= i < |ps| ==> KeysOf(ps)[i] == KeyOf(ps[i])
  {
    if ps != [] { KeysAt(ps[1..]); }
  }

  /** Rearranging permissions with different keys leaves the keys different. */
  lemma KeysStrict(sorted: seq<Permission>, ps: seq<Permission>)
    requires Sorted(sorted) && multiset(sorted) == multiset(ps)
    requires forall i, j :: 0 <= i < j < |ps| ==> KeyOf(ps[i]) != KeyOf(ps[j])
    ensures StrictlySorted(KeysOf(sorted))
  {
    KeysAt(sorted);
    forall i, j | 0 <= i < j < |sorted|
      ensures KeyOf(sorted[i]) != KeyOf(sorted[j])
    {
      DifferentKeys(sorted, ps, i, j);
    }
    forall i, j | 0 <= i < j < |sorted|
      ensures Less(KeysOf(sorted)[i], KeysOf(sorted)[j])
    {
      ComparatorIsTotalOrder(sorted[i], sorted[j], sorted[j]);
    }
  }

  lemma DifferentKeys(sorted: seq<Permission>, ps: seq<Permission>, i: nat, j: nat)
    requires multiset(sorted) == multiset(ps) && i < j < |sorted|
    requires forall a, b :: 0 <= a < b < |ps| ==> KeyOf(ps[a]) != KeyOf(ps[b])
    ensures KeyOf(sorted[i]) != KeyOf(sorted[j])
  {
    var p, q := sorted[i], sorted[j];
    assert p in multiset(ps) && q in multiset(ps);
    if p == q {
      assert sorted == sorted[..i] + [p] + sorted[i + 1..j] + [q] + sorted[j + 1..];
      assert multiset(sorted)[p] >= 2;
      CountAtMostOne(ps, p);
    }
  }

  lemma {:induction false} CountAtMostOne(ps: seq<Permission>, p: Permission)
    requires forall a, b :: 0 <= a < b < |ps| ==> ps[a] != ps[b]
    ensures multiset(ps)[p] <= 1
  {
    if ps == [] {
    } else {
      var rest := ps[1..];
      assert ps == [ps[0]] + rest;
      assert forall i :: 0 <= i < |rest| ==> rest[i] == ps[i + 1];
      CountAtMostOne(rest, p);
      if ps[0] == p {
        assert p !in rest;
        assert p !in multiset(rest);
      }
    }
  }

  lemma {:induction false} KeysMultiset(a: seq<Permission>, b: seq<Permission>)
    requires multiset(a) == multiset(b)
    ensures multiset(KeysOf(a)) == multiset(KeysOf(b))
  {
    if a == [] {
      assert |multiset(b)| == 0;
      assert b == [];
    } else {
      var i := MatchHead(a, b);
      KeysMultiset(a[1..], b[..i] + b[i + 1..]);
      KeysCons(a[0], a[1..]);
      assert a == [a[0]] + a[1..];
      KeysTakeOut(b, i);
    }
  }

  /** Where the first permission of one list stands in a rearrangement of it. */
  lemma MatchHead(a: seq<Permission>, b: seq<Permission>) returns (i: nat)
    requires multiset(a) == multiset(b) && a != []
    ensures i < |b| && b[i] == a[0]
    ensures multiset(a[1..]) == multiset(b[..i] + b[i + 1..])
  {
    assert a[0] in multiset(a);
    i :| 0 <= i < |b| && b[i] == a[0];
    TakeOut(a, 0);
    TakeOut(b, i);
    assert a[..0] + a[1..] == a[1..];
    Remainder(a[1..], b[..i] + b[i + 1..], a[0], multiset(a));
  }

  lemma Remainder(a: seq<Permission>, b: seq<Permission>, p: Permission, all: multiset<Permission>)
    requires all == multiset(a) + multiset{p}
    requires all == multiset(b) + multiset{p}
    ensures multiset(a) == multiset(b)
  {
    assert multiset(a) == all - multiset{p};
    assert multiset(b) == all - multiset{p};
  }

  lemma TakeOut(ps: seq<Permission>, i: nat)
    requires i < |ps|
    ensures multiset(ps) == multiset(ps[..i] + ps[i + 1..]) + multiset{ps[i]}
  {
    assert ps == ps[..i] + [ps[i]] + ps[i + 1..];
  }

  lemma AroundItem(ps: seq<Permission>, i: nat)
    requires i < |ps|
    ensures ps == ps[..i] + ([ps[i]] + ps[i + 1..])
  {
  }

  lemma KeysTakeOut(ps: seq<Permission>, i: nat)
    requires i < |ps|
    ensures multiset(KeysOf(ps)) == multiset(KeysOf(ps[..i] + ps[i + 1..])) + multiset{KeyOf(ps[i])}
  {
    var head, tail := ps[..i], ps[i + 1..];
    AroundItem(ps, i);
    KeysConcat(head, [ps[i]] + tail);
    KeysConcat(head, tail);
    KeysCons(ps[i], tail);
    MoveToEnd(KeysOf(head), KeyOf(ps[i]), KeysOf(tail));
  }

  lemma KeysCons(p: Permission, ps: seq<Permission>)
    ensures KeysOf([p] + ps) == [KeyOf(p)] + KeysOf(ps)
  {
    assert ([p] + ps)[1..] == ps;
  }

  lemma MoveToEnd(head: seq<SortKey>, key: SortKey, tail: seq<SortKey>)
    ensures multiset(head + ([key] + tail)) == multiset(head + tail) + multiset{key}
  {
  }

  lemma {:induction false} KeysConcat(a: seq<Permission>, b: seq<Permission>)
    ensures KeysOf(a + b) == KeysOf(a) + KeysOf(b)
  {
    if a == [] {
      assert a + b == b;
    } else {
      assert (a + b)[1..] == a[1..] + b;
      KeysConcat(a[1..], b);
    }
  }
}
