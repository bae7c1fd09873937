/** Collecting the ids below a menu: the recursive walk with its shared accumulator. */
module MenuWalk {
  import opened Base
  import opened Forest

  /** The physical order in which the database returns rows: every row once. */
  ghost predicate IsOrder(t: Groups, order: seq<nat>) {
    Enumerates(order, t.Keys)
  }

  /** findMany({ where: { parentId } }): the children's ids in row order. */
  function Children(t: Groups, order: seq<nat>, parent: nat): seq<nat> {
    if order == [] then []
    else (if order[0] in t && t[order[0]].parentId == Some(parent) then [order[0]] else [])
         + Children(t, order[1..], parent)
  }

  ghost predicate AllChildren(t: Groups, p: nat, kids: seq<nat>) {
    forall i :: 0 <= i < |kids| ==> IsChild(t, p, kids[i])
  }

  lemma {:induction false} ChildrenExact(t: Groups, order: seq<nat>, p: nat)
    requires NoDuplicates(order)
    ensures NoDuplicates(Children(t, order, p)) && AllChildren(t, p, Children(t, order, p))
    ensures forall c :: c in Children(t, order, p) <==> c in order && IsChild(t, p, c)
  {
    if order == [] {
    } else {
      var rest := order[1..];
      assert forall i :: 0 <= i < |rest| ==> rest[i] == order[i + 1];
      ChildrenExact(t, rest, p);
      assert order == [order[0]] + rest;
    }
  }

  // ---------------------------------------------------------------- preorder

  /** The strict descendants of p in preorder. */
  ghost function Preorder(t: Groups, order: seq<nat>, p: nat): seq<nat>
    requires NoDuplicates(order) && AcyclicBelow(t, p)
    decreases |Descendants(t, p)|, 1, 0
  {
    ChildrenExact(t, order, p);
    PreorderOf(t, order, p, Children(t, order, p))
  }

  /** Each of these children of p, followed by its own descendants. */
  ghost function PreorderOf(t: Groups, order: seq<nat>, p: nat, kids: seq<nat>): seq<nat>
    requires NoDuplicates(order) && AcyclicBelow(t, p) && AllChildren(t, p, kids)
    decreases |Descendants(t, p)|, 0, |kids|
  {
    if kids == [] then []
    else
      assert IsChild(t, p, kids[0]);
      AcyclicBelowChild(t, p, kids[0]);
      [kids[0]] + Preorder(t, order, kids[0]) + PreorderOf(t, order, p, kids[1..])
  }

  /** The block stands in the list right after position i. */
  ghost predicate FollowedBy(list: seq<nat>, i: nat, block: seq<nat>) {
    i + 1 + |block| <= |list| && list[i + 1..i + 1 + |block|] == block
  }

  lemma FollowedFirst(first: nat, inner: seq<nat>, others: seq<nat>)
    ensures FollowedBy([first] + inner + others, 0, inner)
  {
  }

  lemma FollowedInner(first: nat, inner: seq<nat>, others: seq<nat>, i: nat, block: seq<nat>)
    requires i < |inner| && FollowedBy(inner, i, block)
    ensures ([first] + inner + others)[i + 1] == inner[i]
    ensures FollowedBy([first] + inner + others, i + 1, block)
  {
    var all := [first] + inner + others;
    assert all[i + 2..i + 2 + |block|] == inner[i + 1..i + 1 + |block|];
  }

  lemma FollowedOthers(first: nat, inner: seq<nat>, others: seq<nat>, i: nat, block: seq<nat>)
    requires i < |others| && FollowedBy(others, i, block)
    ensures ([first] + inner + others)[|inner| + 1 + i] == others[i]
    ensures FollowedBy([first] + inner + others, |inner| + 1 + i, block)
  {
    var all, k := [first] + inner + others, |inner| + 1 + i;
    assert all[k + 1..k + 1 + |block|] == others[i + 1..i + 1 + |block|];
  }

  /** In the collected list every id is followed at once by all the ids below it, in their own preorder. */
  lemma {:induction false} SubtreesAreBlocks(t: Groups, order: seq<nat>, p: nat, i: nat)
    requires NoDuplicates(order) && AcyclicBelow(t, p) && i < |Preorder(t, order, p)|
    ensures AcyclicBelow(t, Preorder(t, order, p)[i])
    ensures FollowedBy(Preorder(t, order, p), i, Preorder(t, order, Preorder(t, order, p)[i]))
    decreases |Descendants(t, p)|, 1, 0
  {
    ChildrenExact(t, order, p);
    SubtreesAreBlocksOf(t, order, p, Children(t, order, p), i);
  }

  lemma {:induction false} SubtreesAreBlocksOf(t: Groups, order: seq<nat>, p: nat, kids: seq<nat>, i: nat)
    requires NoDuplicates(order) && AcyclicBelow(t, p) && AllChildren(t, p, kids)
    requires i < |PreorderOf(t, order, p, kids)|
    ensures AcyclicBelow(t, PreorderOf(t, order, p, kids)[i])
    ensures FollowedBy(PreorderOf(t, order, p, kids), i, Preorder(t, order, PreorderOf(t, order, p, kids)[i]))
    decreases |Descendants(t, p)|, 0, |kids|
  {
    var first, rest := kids[0], kids[1..];
    assert IsChild(t, p, first);
    AcyclicBelowChild(t, p, first);
    var inner, others := Preorder(t, order, first), PreorderOf(t, order, p, rest);
    if i == 0 {
      FollowedFirst(first, inner, others);
    } else if i <= |inner| {
      SubtreesAreBlocks(t, order, first, i - 1);
      FollowedInner(first, inner, others, i - 1, Preorder(t, order, inner[i - 1]));
    } else {
      var j := i - 1 - |inner|;
      SubtreesAreBlocksOf(t, order, p, rest, j);
      FollowedOthers(first, inner, others, j, Preorder(t, order, others[j]));
    }
  }

  /** Siblings come in row order. */
  lemma {:induction false} ChildrenInRowOrder(t: Groups, order: seq<nat>, p: nat, i: nat, j: nat)
    requires i < j < |Children(t, order, p)|
    ensures exists a, b :: 0 <= a < b < |order| && order[a] == Children(t, order, p)[i]
                           && order[b] == Children(t, order, p)[j]
    decreases |order|
  {
    var rest, kids := order[1..], Children(t, order, p);
    var skipped := |kids| - |Children(t, rest, p)|;
    if i >= skipped {
      ChildrenInRowOrder(t, rest, p, i - skipped, j - skipped);
      var a, b :| 0 <= a < b < |rest| && rest[a] == kids[i] && rest[b] == kids[j];
      assert order[a + 1] == kids[i] && order[b + 1] == kids[j];
    } else {
      ChildrenAreRows(t, rest, p, j - 1);
      var b :| 0 <= b < |rest| && rest[b] == kids[j];
      assert order[0] == kids[i] && order[b + 1] == kids[j];
    }
  }

  lemma {:induction false} ChildrenAreRows(t: Groups, order: seq<nat>, p: nat, i: nat)
    requires i < |Children(t, order, p)|
    ensures Children(t, order, p)[i] in order
  {
    var rest := order[1..];
    var skipped := |Children(t, order, p)| - |Children(t, rest, p)|;
    if i >= skipped { ChildrenAreRows(t, rest, p, i - skipped); }
  }

  /** The rows of the subtrees of these children. */
  ghost predicate InSubtrees(t: Groups, kids: seq<nat>, y: nat) {
    exists i :: 0 <= i < |kids| && (y == kids[i] || Below(t, kids[i], y))
  }

  lemma {:induction false} PreorderExact(t: Groups, order: seq<nat>, p: nat)
    requires IsOrder(t, order) && AcyclicBelow(t, p)
    ensures Elements(Preorder(t, order, p)) == Descendants(t, p)
    ensures NoDuplicates(Preorder(t, order, p))
    decreases |Descendants(t, p)|, 1, 0
  {
    ChildrenExact(t, order, p);
    var kids := Children(t, order, p);
    PreorderOfExact(t, order, p, kids);
    forall y
      ensures InSubtrees(t, kids, y) <==> y in Descendants(t, p)
    {
      BelowByChild(t, p, y);
      if y in Descendants(t, p) {
        var c :| IsChild(t, p, c) && (y == c || Below(t, c, y));
        assert c in kids;
        var i :| 0 <= i < |kids| && kids[i] == c;
      }
      if InSubtrees(t, kids, y) {
        var i :| 0 <= i < |kids| && (y == kids[i] || Below(t, kids[i], y));
        assert IsChild(t, p, kids[i]);
        BelowIsRow(t, p, y);
      }
    }
  }

  lemma {:induction false} PreorderOfExact(t: Groups, order: seq<nat>, p: nat, kids: seq<nat>)
    requires IsOrder(t, order) && AcyclicBelow(t, p) && AllChildren(t, p, kids) && NoDuplicates(kids)
    ensures forall y :: y in PreorderOf(t, order, p, kids) <==> InSubtrees(t, kids, y)
    ensures NoDuplicates(PreorderOf(t, order, p, kids))
    decreases |Descendants(t, p)|, 0, |kids|
  {
    if kids == [] {
    } else {
      var first, rest := kids[0], kids[1..];
      assert forall i :: 0 <= i < |rest| ==> rest[i] == kids[i + 1];
      assert IsChild(t, p, first);
      AcyclicBelowChild(t, p, first);
      PreorderExact(t, order, first);
      PreorderOfExact(t, order, p, rest);
      var inner, others := Preorder(t, order, first), PreorderOf(t, order, p, rest);
      forall y
        ensures y in inner <==> Below(t, first, y)
      {
        assert y in inner <==> y in Elements(inner);
        if Below(t, first, y) { BelowIsRow(t, first, y); }
      }
      forall y
        ensures InSubtrees(t, kids, y) <==> y == first || Below(t, first, y) || InSubtrees(t, rest, y)
      {
        InSubtreesHead(t, kids, y);
      }
      forall y | y in others
        ensures y != first && !Below(t, first, y)
      {
        OthersApart(t, p, kids, y);
      }
      DistinctConcat(first, inner, others);
    }
  }

  lemma InSubtreesHead(t: Groups, kids: seq<nat>, y: nat)
    requires kids != []
    ensures InSubtrees(t, kids, y) <==> y == kids[0] || Below(t, kids[0], y) || InSubtrees(t, kids[1..], y)
  {
    var rest := kids[1..];
    if i :| 0 <= i < |kids| && (y == kids[i] || Below(t, kids[i], y)) {
      if i > 0 { assert rest[i - 1] == kids[i]; }
    }
    if i :| 0 <= i < |rest| && (y == rest[i] || Below(t, rest[i], y)) {
      assert kids[i + 1] == rest[i];
    }
  }

  lemma OthersApart(t: Groups, p: nat, kids: seq<nat>, y: nat)
    requires AcyclicBelow(t, p) && AllChildren(t, p, kids) && NoDuplicates(kids) && kids != []
    requires InSubtrees(t, kids[1..], y)
    ensures y != kids[0] && !Below(t, kids[0], y)
  {
    var rest := kids[1..];
    var i :| 0 <= i < |rest| && (y == rest[i] || Below(t, rest[i], y));
    assert rest[i] == kids[i + 1];
    assert IsChild(t, p, kids[0]) && IsChild(t, p, kids[i + 1]);
    SiblingsApart(t, p, kids[0], kids[i + 1], y);
  }

  lemma DistinctConcat(first: nat, inner: seq<nat>, others: seq<nat>)
    requires NoDuplicates(inner) && NoDuplicates(others) && first !in inner && first !in others
    requires forall y :: y in others ==> y !in inner
    ensures NoDuplicates([first] + inner + others)
  {
    var all := [first] + inner + others;
    forall i, j | 0 <= i < j < |all|
      ensures all[i] != all[j]
    {
      if j <= |inner| {
        assert all[j] == inner[j - 1] && (i > 0 ==> all[i] == inner[i - 1]);
      } else {
        assert all[j] == others[j - 1 - |inner|] && all[j] in others;
        if 0 < i <= |inner| { assert all[i] == inner[i - 1] && all[i] in inner; }
        if i > |inner| { assert all[i] == others[i - 1 - |inner|]; }
      }
    }
  }

  // -------------------------------------------------- when the walk comes back

  /** The recursion of the walk cut off at a depth; None when it would go deeper. */
  function Walk(t: Groups, order: seq<nat>, p: nat, depth: nat): Option<seq<nat>>
    decreases depth, 1, 0
  {
    if depth == 0 then None else WalkKids(t, order, Children(t, order, p), depth - 1)
  }

  function WalkKids(t: Groups, order: seq<nat>, kids: seq<nat>, depth: nat): Option<seq<nat>>
    decreases depth, 2, |kids|
  {
    if kids == [] then Some([])
    else
      var inner, others := Walk(t, order, kids[0], depth), WalkKids(t, order, kids[1..], depth);
      if inner.Some? && others.Some? then Some([kids[0]] + inner.value + others.value) else None
  }

  lemma {:induction false} WalkIsPreorder(t: Groups, order: seq<nat>, p: nat, depth: nat)
    requires NoDuplicates(order) && AcyclicBelow(t, p) && depth > |Descendants(t, p)|
    ensures Walk(t, order, p, depth) == Some(Preorder(t, order, p))
    decreases |Descendants(t, p)|, 1, 0
  {
    ChildrenExact(t, order, p);
    WalkKidsIsPreorder(t, order, p, Children(t, order, p), depth - 1);
  }

  lemma {:induction false} WalkKidsIsPreorder(t: Groups, order: seq<nat>, p: nat, kids: seq<nat>, depth: nat)
    requires NoDuplicates(order) && AcyclicBelow(t, p) && AllChildren(t, p, kids) && depth >= |Descendants(t, p)|
    ensures WalkKids(t, order, kids, depth) == Some(PreorderOf(t, order, p, kids))
    decreases |Descendants(t, p)|, 0, |kids|
  {
    if kids == [] {
    } else {
      assert IsChild(t, p, kids[0]);
      AcyclicBelowChild(t, p, kids[0]);
      WalkIsPreorder(t, order, kids[0], depth);
      assert forall i :: 0 <= i < |kids[1..]| ==> kids[1..][i] == kids[i + 1];
      WalkKidsIsPreorder(t, order, p, kids[1..], depth);
    }
  }

  /** Below a row from which a cycle can be reached there is a child from which one can. */
  lemma CycleBelowChild(t: Groups, p: nat) returns (c: nat)
    requires !AcyclicBelow(t, p)
    ensures IsChild(t, p, c) && !AcyclicBelow(t, c)
  {
    var y := p;
    if !Below(t, p, p) {
      y :| Below(t, p, y) && Below(t, y, y);
    }
    assert Below(t, p, y) && Below(t, y, y);
    BelowByChild(t, p, y);
    c :| IsChild(t, p, c) && (y == c || Below(t, c, y));
  }

  lemma StuckChild(t: Groups, order: seq<nat>, p: nat) returns (c: nat)
    requires IsOrder(t, order) && !AcyclicBelow(t, p)
    ensures c in Children(t, order, p) && !AcyclicBelow(t, c)
  {
    c := CycleBelowChild(t, p);
    ChildrenExact(t, order, p);
  }

  lemma {:induction false} WalkNeverReturns(t: Groups, order: seq<nat>, p: nat, depth: nat)
    requires IsOrder(t, order) && !AcyclicBelow(t, p)
    ensures Walk(t, order, p, depth) == None
    decreases depth, 0, 0
  {
    if depth > 0 {
      var c := StuckChild(t, order, p);
      WalkKidsStuck(t, order, Children(t, order, p), c, depth - 1);
    }
  }

  lemma {:induction false} WalkKidsStuck(t: Groups, order: seq<nat>, kids: seq<nat>, c: nat, depth: nat)
    requires IsOrder(t, order) && c in kids && !AcyclicBelow(t, c)
    ensures WalkKids(t, order, kids, depth) == None
    decreases depth, 1, |kids|
  {
    if kids[0] == c {
      WalkNeverReturns(t, order, c, depth);
    } else {
      assert c in kids[1..];
      WalkKidsStuck(t, order, kids[1..], c, depth);
    }
  }

  /** The walk from p comes back, at some depth, exactly when no cycle can be reached below p. */
  lemma WalkTerminatesExactly(t: Groups, order: seq<nat>, p: nat)
    requires IsOrder(t, order)
    ensures (exists depth :: Walk(t, order, p, depth).Some?) <==> AcyclicBelow(t, p)
  {
    if AcyclicBelow(t, p) {
      WalkIsPreorder(t, order, p, |Descendants(t, p)| + 1);
    } else {
      forall depth ensures Walk(t, order, p, depth) == None {
        WalkNeverReturns(t, order, p, depth);
      }
    }
  }
}
