/** Pruning the navigation tree to the menus a user may see. */
module MenuFilter {

  /** `data` stands for all columns the pruning copies; a Bare menu was loaded without its children. */
  datatype Menu = Node(id: nat, data: string, children: seq<Menu>) | Bare(id: nat, data: string)

  /** filterMenusByIds. */
  function FilterMenusByIds(menus: seq<Menu>, ids: set<nat>): seq<Menu> {
    if menus == [] then []
    else
      var menu, rest := menus[0], FilterMenusByIds(menus[1..], ids);
      if menu.id in ids || (menu.Node? && |FilterMenusByIds(menu.children, ids)| > 0)
      then [Node(menu.id, menu.data, if menu.Node? then FilterMenusByIds(menu.children, ids) else [])] + rest
      else rest
  }

  // ------------------------------------------------------- reference definition

  function Kids(menu: Menu): seq<Menu> {
    if menu.Node? then menu.children else []
  }

  /** All menus of a forest, each before its own children. */
  ghost function Flatten(menus: seq<Menu>): seq<Menu> {
    if menus == [] then []
    else [menus[0]] + (if menus[0].Node? then Flatten(menus[0].children) else []) + Flatten(menus[1..])
  }

  /** The subtree of this menu contains a wanted id. */
  ghost predicate LeadsTo(menu: Menu, ids: set<nat>) {
    exists m :: m in Flatten([menu]) && m.id in ids
  }

  datatype Entry = Entry(depth: nat, menu: Menu)

  /** The forest as an indented list: all menus in preorder, each with its depth. */
  ghost function Outline(menus: seq<Menu>, depth: nat): seq<Entry> {
    if menus == [] then []
    else [Entry(depth, menus[0])] + (if menus[0].Node? then Outline(menus[0].children, depth + 1) else [])
         + Outline(menus[1..], depth)
  }

  ghost function Select(entries: seq<Entry>, ids: set<nat>): seq<Entry> {
    if entries == [] then []
    else (if LeadsTo(entries[0].menu, ids) then [entries[0]] else []) + Select(entries[1..], ids)
  }

  /** What such a list shows of the menus: depth, id and columns. */
  ghost function Labels(entries: seq<Entry>): seq<(nat, nat, string)> {
    if entries == [] then []
    else [(entries[0].depth, entries[0].menu.id, entries[0].menu.data)] + Labels(entries[1..])
  }

  lemma FlattenOne(menu: Menu)
    ensures Flatten([menu]) == [menu] + Flatten(Kids(menu))
  {
    assert [menu][1..] == [];
  }

  lemma LeadsToByKids(menu: Menu, ids: set<nat>)
    ensures LeadsTo(menu, ids) <==> menu.id in ids || exists m :: m in Flatten(Kids(menu)) && m.id in ids
  {
    FlattenOne(menu);
    if m :| m in Flatten(Kids(menu)) && m.id in ids { assert m in Flatten([menu]); }
    if menu.id in ids { assert menu in Flatten([menu]); }
  }

  /** Some menu of the forest is wanted exactly when the filtered forest is not empty. */
  lemma {:induction false} NonEmptyExactly(menus: seq<Menu>, ids: set<nat>)
    ensures FilterMenusByIds(menus, ids) != [] <==> exists m :: m in Flatten(menus) && m.id in ids
  {
    if menus == [] {
    } else {
      NonEmptyExactly(menus[1..], ids);
      KeptExactly(menus[0], ids);
      LeadsToByKids(menus[0], ids);
      var head, inner, rest := [menus[0]], Flatten(Kids(menus[0])), Flatten(menus[1..]);
      assert Flatten(menus) == head + inner + rest;
      assert forall m :: m in Flatten(menus) <==> m == menus[0] || m in inner || m in rest;
    }
  }

  /** The code keeps a menu exactly when its subtree contains a wanted id. */
  lemma {:induction false} KeptExactly(menu: Menu, ids: set<nat>)
    ensures (menu.id in ids || (menu.Node? && |FilterMenusByIds(menu.children, ids)| > 0))
            <==> LeadsTo(menu, ids)
  {
    LeadsToByKids(menu, ids);
    if menu.Node? {
      NonEmptyExactly(menu.children, ids);
    }
  }

  lemma {:induction false} LabelsConcat(a: seq<Entry>, b: seq<Entry>)
    ensures Labels(a + b) == Labels(a) + Labels(b)
  {
    if a == [] {
      assert a + b == b;
    } else {
      assert (a + b)[1..] == a[1..] + b;
      LabelsConcat(a[1..], b);
    }
  }

  lemma HeadFirst<T>(a: seq<T>, b: seq<T>)
    requires a != []
    ensures a == [a[0]] + a[1..] && a + b == [a[0]] + (a[1..] + b)
  {
  }

  lemma SelectCons(entry: Entry, entries: seq<Entry>, ids: set<nat>)
    ensures Select([entry] + entries, ids) == (if LeadsTo(entry.menu, ids) then [entry] else []) + Select(entries, ids)
  {
    assert ([entry] + entries)[1..] == entries;
  }

  lemma {:induction false} SelectConcat(a: seq<Entry>, b: seq<Entry>, ids: set<nat>)
    ensures Select(a + b, ids) == Select(a, ids) + Select(b, ids)
  {
    if a == [] {
      assert a + b == b;
    } else {
      var rest := a[1..];
      SelectConcat(rest, b, ids);
      SelectCons(a[0], rest + b, ids);
      SelectCons(a[0], rest, ids);
      HeadFirst(a, b);
    }
  }

  /** Nothing below a menu that leads nowhere leads anywhere. */
  lemma {:induction false} SelectNone(entries: seq<Entry>, ids: set<nat>)
    requires forall e :: e in entries ==> !LeadsTo(e.menu, ids)
    ensures Select(entries, ids) == []
  {
    if entries == [] {
    } else {
      assert entries[0] in entries;
      SelectNone(entries[1..], ids);
    }
  }

  lemma {:induction false} OutlineMenus(menus: seq<Menu>, depth: nat, e: Entry)
    requires e in Outline(menus, depth)
    ensures e.menu in Flatten(menus)
  {
    var menu, rest := menus[0], menus[1..];
    var inner := if menu.Node? then Outline(menu.children, depth + 1) else [];
    assert Outline(menus, depth) == [Entry(depth, menu)] + inner + Outline(rest, depth);
    assert Flatten(menus) == [menu] + Flatten(Kids(menu)) + Flatten(rest);
    if e in inner {
      OutlineMenus(menu.children, depth + 1, e);
    } else if e in Outline(rest, depth) {
      OutlineMenus(rest, depth, e);
    }
  }

  lemma {:induction false} FlattenClosed(menus: seq<Menu>, m: Menu, n: Menu)
    requires m in Flatten(menus) && n in Flatten([m])
    ensures n in Flatten(menus)
  {
    var head, inner, rest := [menus[0]], Flatten(Kids(menus[0])), Flatten(menus[1..]);
    assert Flatten(menus) == head + inner + rest;
    if m == menus[0] {
      FlattenOne(m);
    } else if m in inner {
      FlattenClosed(menus[0].children, m, n);
    } else {
      FlattenClosed(menus[1..], m, n);
    }
  }

  lemma DeadSubtree(menu: Menu, depth: nat, ids: set<nat>)
    requires !LeadsTo(menu, ids)
    ensures Select(Outline(Kids(menu), depth), ids) == []
  {
    FlattenOne(menu);
    forall e | e in Outline(Kids(menu), depth)
      ensures !LeadsTo(e.menu, ids)
    {
      OutlineMenus(Kids(menu), depth, e);
      forall n | n in Flatten([e.menu])
        ensures n.id !in ids
      {
        FlattenClosed(Kids(menu), e.menu, n);
        assert n in Flatten([menu]);
      }
    }
    SelectNone(Outline(Kids(menu), depth), ids);
  }

  lemma OutlineOf(menu: Menu, rest: seq<Menu>, depth: nat)
    ensures Outline([menu] + rest, depth)
         == [Entry(depth, menu)] + Outline(Kids(menu), depth + 1) + Outline(rest, depth)
  {
    assert ([menu] + rest)[1..] == rest;
  }

  lemma SelectedOutline(menu: Menu, rest: seq<Menu>, depth: nat, ids: set<nat>)
    ensures Select(Outline([menu] + rest, depth), ids) ==
      (if LeadsTo(menu, ids) then [Entry(depth, menu)] + Select(Outline(Kids(menu), depth + 1), ids) else [])
      + Select(Outline(rest, depth), ids)
  {
    var head, inner := [Entry(depth, menu)], Outline(Kids(menu), depth + 1);
    OutlineOf(menu, rest, depth);
    SelectConcat(head + inner, Outline(rest, depth), ids);
    SelectCons(head[0], inner, ids);
    if !LeadsTo(menu, ids) { DeadSubtree(menu, depth + 1, ids); }
  }

  lemma FilteredHead(menu: Menu, rest: seq<Menu>, ids: set<nat>)
    ensures FilterMenusByIds([menu] + rest, ids) ==
      (if LeadsTo(menu, ids) then [Node(menu.id, menu.data, FilterMenusByIds(Kids(menu), ids))] else [])
      + FilterMenusByIds(rest, ids)
  {
    KeptExactly(menu, ids);
    assert ([menu] + rest)[1..] == rest;
  }

  /**
   As an indented list, the filtered forest is the original with exactly the menus left out whose
   subtree contains no wanted id. So depth, order and columns are kept, no child loses its parent,
   and every ancestor of a kept menu is kept.
  */
  lemma {:induction false} FilterKeepsOutline(menus: seq<Menu>, depth: nat, ids: set<nat>)
    ensures Labels(Outline(FilterMenusByIds(menus, ids), depth)) == Labels(Select(Outline(menus, depth), ids))
  {
    if menus == [] {
    } else {
      var menu, rest := menus[0], menus[1..];
      assert menus == [menu] + rest;
      FilterKeepsOutline(rest, depth, ids);
      if menu.Node? { FilterKeepsOutline(menu.children, depth + 1, ids); }
      SelectedOutline(menu, rest, depth, ids);
      FilteredHead(menu, rest, ids);
      if LeadsTo(menu, ids) {
        var kept, others := Node(menu.id, menu.data, FilterMenusByIds(Kids(menu), ids)), FilterMenusByIds(rest, ids);
        OutlineOf(kept, others, depth);
        LabelsThree(Entry(depth, kept), Outline(kept.children, depth + 1), Outline(others, depth));
        LabelsThree(Entry(depth, menu), Select(Outline(Kids(menu), depth + 1), ids), Select(Outline(rest, depth), ids));
      } else {
        assert FilterMenusByIds(menus, ids) == FilterMenusByIds(rest, ids);
        assert Select(Outline(menus, depth), ids) == Select(Outline(rest, depth), ids);
      }
    }
  }

  lemma LabelsThree(e: Entry, b: seq<Entry>, c: seq<Entry>)
    ensures Labels([e] + b + c) == [(e.depth, e.menu.id, e.menu.data)] + Labels(b) + Labels(c)
  {
    LabelsConcat([e] + b, c);
    assert ([e] + b)[1..] == b;
  }

  // ------------------------------------------------------------------ absorption

  /** Filtering to fewer ids after filtering to more is filtering to the fewer at once. */
  lemma {:induction false} FilterAbsorbs(menus: seq<Menu>, more: set<nat>, fewer: set<nat>)
    requires fewer <= more
    ensures FilterMenusByIds(FilterMenusByIds(menus, more), fewer) == FilterMenusByIds(menus, fewer)
  {
    if menus == [] {
    } else {
      var menu, rest := menus[0], menus[1..];
      var kids := Kids(menu);
      FilterAbsorbs(rest, more, fewer);
      if menu.Node? { FilterAbsorbs(menu.children, more, fewer); }
      KeptExactly(menu, more);
      KeptExactly(menu, fewer);
      if LeadsTo(menu, more) {
        var kept := Node(menu.id, menu.data, FilterMenusByIds(kids, more));
        var once := FilterMenusByIds(menus, more);
        assert once == [kept] + FilterMenusByIds(rest, more);
        assert once[0] == kept && once[1..] == FilterMenusByIds(rest, more);
      } else {
        assert !LeadsTo(menu, fewer);
      }
    }
  }

  /** Filtering twice is filtering once, and more ids keep at least as much. */
  lemma FilterTwice(menus: seq<Menu>, ids: set<nat>, more: set<nat>)
    requires ids <= more
    ensures FilterMenusByIds(FilterMenusByIds(menus, ids), ids) == FilterMenusByIds(menus, ids)
    ensures forall m :: m in Flatten(menus) && LeadsTo(m, ids) ==> LeadsTo(m, more)
    ensures |FilterMenusByIds(menus, ids)| <= |FilterMenusByIds(menus, more)|
  {
    FilterAbsorbs(menus, ids, ids);
    FilterAbsorbs(menus, more, ids);
    FilterShrinks(FilterMenusByIds(menus, more), ids);
  }

  lemma {:induction false} FilterShrinks(menus: seq<Menu>, ids: set<nat>)
    ensures |FilterMenusByIds(menus, ids)| <= |menus|
  {
    if menus == [] {
    } else {
      FilterShrinks(menus[1..], ids);
    }
  }
}
