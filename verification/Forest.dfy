/** The parent relation of the group table: ancestors, descendants, cycles. */
module Forest {
  import opened Base
  import opened PermissionTables

  type Groups = map<nat, Group>

  /** The k-th ancestor; row 0 steps up is the row itself. */
  function Up(t: Groups, x: nat, k: nat): Option<nat>
    decreases k
  {
    if k == 0 then Some(x)
    else if x in t && t[x].parentId.Some? then Up(t, t[x].parentId.value, k - 1)
    else None
  }

  /** y lies strictly below x. */
  ghost predicate Below(t: Groups, x: nat, y: nat) {
    exists k: nat :: k > 0 && Up(t, y, k) == Some(x)
  }

  ghost predicate IsChild(t: Groups, x: nat, c: nat) {
    c in t && t[c].parentId == Some(x)
  }

  ghost function Descendants(t: Groups, x: nat): set<nat> {
    set y | y in t && Below(t, x, y)
  }

  ghost function Subtree(t: Groups, x: nat): set<nat> {
    {x} + Descendants(t, x)
  }

  ghost predicate Acyclic(t: Groups) {
    forall x :: x in t ==> !Below(t, x, x)
  }

  /** No cycle can be reached by going down from x. */
  ghost predicate AcyclicBelow(t: Groups, x: nat) {
    !Below(t, x, x) && forall y :: Below(t, x, y) ==> !Below(t, y, y)
  }

  /** Every parent reference points to a row. */
  ghost predicate WellParented(t: Groups) {
    forall x :: x in t && t[x].parentId.Some? ==> t[x].parentId.value in t
  }

  // ------------------------------------------------------------ climbing

  lemma {:induction false} UpAdds(t: Groups, x: nat, j: nat, k: nat)
    requires Up(t, x, j).Some?
    ensures Up(t, x, j + k) == Up(t, Up(t, x, j).value, k)
    decreases j
  {
    if j > 0 {
      UpAdds(t, t[x].parentId.value, j - 1, k);
    }
  }

  lemma {:induction false} UpDefined(t: Groups, x: nat, j: nat, k: nat)
    requires j <= k && Up(t, x, k).Some?
    ensures Up(t, x, j).Some?
    decreases j
  {
    if j > 0 {
      UpDefined(t, t[x].parentId.value, j - 1, k - 1);
    }
  }

  lemma ChildIsBelow(t: Groups, x: nat, c: nat)
    requires IsChild(t, x, c)
    ensures Below(t, x, c)
  {
    assert Up(t, x, 0) == Some(x);
    assert Up(t, c, 1) == Some(x);
  }

  lemma BelowTransitive(t: Groups, x: nat, y: nat, z: nat)
    requires Below(t, x, y) && Below(t, y, z)
    ensures Below(t, x, z)
  {
    var j: nat :| j > 0 && Up(t, z, j) == Some(y);
    var k: nat :| k > 0 && Up(t, y, k) == Some(x);
    UpAdds(t, z, j, k);
  }

  lemma BelowIsRow(t: Groups, x: nat, y: nat)
    requires Below(t, x, y)
    ensures y in t
  {
  }

  /** y lies below x exactly when it is a child of x or lies below one. */
  lemma BelowByChild(t: Groups, x: nat, y: nat)
    ensures Below(t, x, y) <==> exists c :: IsChild(t, x, c) && (y == c || Below(t, c, y))
  {
    if Below(t, x, y) {
      var k: nat :| k > 0 && Up(t, y, k) == Some(x);
      UpDefined(t, y, k - 1, k);
      var c := Up(t, y, k - 1).value;
      UpAdds(t, y, k - 1, 1);
      assert Up(t, c, 1) == Some(x);
      assert IsChild(t, x, c);
    }
    if c :| IsChild(t, x, c) && (y == c || Below(t, c, y)) {
      ChildIsBelow(t, x, c);
      if y != c {
        BelowTransitive(t, x, c, y);
      }
    }
  }

  lemma AcyclicBelowChild(t: Groups, x: nat, c: nat)
    requires AcyclicBelow(t, x) && IsChild(t, x, c)
    ensures AcyclicBelow(t, c)
    ensures Descendants(t, c) < Descendants(t, x)
    ensures |Descendants(t, c)| < |Descendants(t, x)|
  {
    ChildIsBelow(t, x, c);
    forall y | Below(t, c, y)
      ensures Below(t, x, y)
    {
      BelowTransitive(t, x, c, y);
    }
    assert c in Descendants(t, x) && c !in Descendants(t, c);
    assert Descendants(t, c) <= Descendants(t, x) - {c};
    SubsetSize(Descendants(t, c), Descendants(t, x) - {c});
  }

  lemma {:induction false} SubsetSize(a: set<nat>, b: set<nat>)
    requires a <= b
    ensures |a| <= |b|
    decreases a
  {
    if a != {} {
      var x :| x in a;
      SubsetSize(a - {x}, b - {x});
    }
  }

  /** In an acyclic table every part is. */
  lemma AcyclicEverywhere(t: Groups, x: nat)
    requires Acyclic(t)
    ensures AcyclicBelow(t, x)
  {
    if Below(t, x, x) { BelowIsRow(t, x, x); }
    forall y | Below(t, x, y) ensures !Below(t, y, y) { BelowIsRow(t, x, y); }
  }

  /** Two children of one row have no common descendant, and neither lies below the other. */
  lemma SiblingsApart(t: Groups, p: nat, c: nat, d: nat, y: nat)
    requires AcyclicBelow(t, p) && IsChild(t, p, c) && IsChild(t, p, d) && c != d
    ensures !((y == c || Below(t, c, y)) && (y == d || Below(t, d, y)))
  {
    if (y == c || Below(t, c, y)) && (y == d || Below(t, d, y)) {
      var j: nat :| Up(t, y, j) == Some(c) by {
        if y == c { assert Up(t, y, 0) == Some(c); }
      }
      var k: nat :| Up(t, y, k) == Some(d) by {
        if y == d { assert Up(t, y, 0) == Some(d); }
      }
      if j < k {
        OnOnePath(t, p, c, d, y, j, k);
      } else {
        assert j != k;
        OnOnePath(t, p, d, c, y, k, j);
      }
    }
  }

  lemma OnOnePath(t: Groups, p: nat, c: nat, d: nat, y: nat, j: nat, k: nat)
    requires IsChild(t, p, c) && IsChild(t, p, d)
    requires j < k && Up(t, y, j) == Some(c) && Up(t, y, k) == Some(d)
    ensures Below(t, p, p)
  {
    UpAdds(t, y, j, k - j);
    assert Up(t, c, k - j) == Some(d);
    assert Up(t, p, k - j - 1) == Some(d);
    UpAdds(t, p, k - j - 1, 1);
    assert Up(t, p, 0) == Some(p);
    assert Up(t, d, 1) == Some(p);
    assert Up(t, p, k - j) == Some(p);
  }

  // ------------------------------------------------------------ taking rows away

  /** The rows below a row of `gone` are gone too. */
  ghost predicate DownClosed(t: Groups, gone: set<nat>) {
    forall y :: y in t && t[y].parentId.Some? && t[y].parentId.value in gone ==> y in gone
  }

  lemma SubtreeDownClosed(t: Groups, x: nat)
    ensures DownClosed(t, Subtree(t, x))
    ensures DownClosed(t, Descendants(t, x))
  {
    forall y | y in t && t[y].parentId.Some? && t[y].parentId.value in Subtree(t, x)
      ensures Below(t, x, y)
    {
      ChildIsBelow(t, t[y].parentId.value, y);
      if t[y].parentId.value != x {
        BelowTransitive(t, x, t[y].parentId.value, y);
      }
    }
  }

  /** The ancestors of a row that stays all stay. */
  lemma {:induction false} UpAfterRemoval(t: Groups, gone: set<nat>, y: nat, k: nat)
    requires DownClosed(t, gone) && y !in gone
    ensures Up(t - gone, y, k) == Up(t, y, k)
    ensures Up(t, y, k).Some? ==> Up(t, y, k).value !in gone
    decreases k
  {
    if k > 0 && y in t && t[y].parentId.Some? {
      UpAfterRemoval(t, gone, t[y].parentId.value, k - 1);
    }
  }

  lemma BelowAfterRemoval(t: Groups, gone: set<nat>, x: nat, y: nat)
    requires DownClosed(t, gone)
    ensures Below(t - gone, x, y) <==> Below(t, x, y) && y !in gone
  {
    if y !in gone {
      forall k: nat ensures Up(t - gone, y, k) == Up(t, y, k) {
        UpAfterRemoval(t, gone, y, k);
      }
    }
  }

  lemma RemovalKeepsForest(t: Groups, gone: set<nat>)
    requires DownClosed(t, gone)
    ensures WellParented(t) ==> WellParented(t - gone)
    ensures Acyclic(t) ==> Acyclic(t - gone)
    ensures forall x :: AcyclicBelow(t, x) ==> AcyclicBelow(t - gone, x)
  {
    forall x, y
      ensures Below(t - gone, x, y) ==> Below(t, x, y)
    {
      BelowAfterRemoval(t, gone, x, y);
    }
  }

  lemma DescendantsAfterRemoval(t: Groups, gone: set<nat>, x: nat)
    requires DownClosed(t, gone)
    ensures Descendants(t - gone, x) == Descendants(t, x) - gone
  {
    forall y
      ensures y in Descendants(t - gone, x) <==> y in Descendants(t, x) - gone
    {
      BelowAfterRemoval(t, gone, x, y);
    }
  }

  // ----------------------------------------------------------- adding a row

  lemma {:induction false} UpAfterInsert(t: Groups, id: nat, row: Group, y: nat, k: nat)
    requires WellParented(t) && id !in t && y in t
    ensures Up(t[id := row], y, k) == Up(t, y, k)
    ensures Up(t, y, k).Some? ==> Up(t, y, k).value in t
    decreases k
  {
    if k > 0 && t[y].parentId.Some? {
      UpAfterInsert(t, id, row, t[y].parentId.value, k - 1);
    }
  }

  /** A new row under an existing parent, or at the top, keeps the table a forest. */
  lemma InsertKeepsForest(t: Groups, id: nat, row: Group)
    requires WellParented(t) && Acyclic(t) && id !in t
    requires row.parentId.Some? ==> row.parentId.value in t
    ensures WellParented(t[id := row]) && Acyclic(t[id := row])
  {
    var t' := t[id := row];
    forall x | x in t'
      ensures !Below(t', x, x)
    {
      forall k: nat | k > 0
        ensures Up(t', x, k) != Some(x)
      {
        if x in t {
          UpAfterInsert(t, id, row, x, k);
        } else if row.parentId.Some? {
          UpAfterInsert(t, id, row, row.parentId.value, k - 1);
        }
      }
    }
  }

  // ----------------------------------------------------------- moving a row

  lemma {:induction false} PathMissesRow(t: Groups, id: nat, row: Group, y: nat, k: nat)
    requires y != id && !Below(t, id, y)
    ensures Up(t[id := row], y, k) == Up(t, y, k)
    ensures Up(t, y, k) != Some(id)
    decreases k
  {
    if k > 0 && y in t && t[y].parentId.Some? {
      var p := t[y].parentId.value;
      ChildIsBelow(t, p, y);
      if p != id && Below(t, id, p) { BelowTransitive(t, id, p, y); }
      PathMissesRow(t, id, row, p, k - 1);
    }
  }

  /** A walk that never meets the changed row is the same before and after. */
  lemma {:induction false} SameWalk(t: Groups, t': Groups, id: nat, row: Group, y: nat, k: nat)
    requires t' == t[id := row]
    requires forall j: nat :: j < k ==> Up(t', y, j) != Some(id)
    ensures Up(t', y, k) == Up(t, y, k)
    decreases k
  {
    if k > 0 {
      assert Up(t', y, 0) == Some(y);
      if y in t && t[y].parentId.Some? {
        var p := t[y].parentId.value;
        forall j: nat | j < k - 1
          ensures Up(t', p, j) != Some(id)
        {
          assert Up(t', y, j + 1) == Up(t', p, j);
        }
        SameWalk(t, t', id, row, p, k - 1);
      }
    }
  }

  lemma {:induction false} StillBelow(t: Groups, id: nat, row: Group, y: nat, k: nat)
    requires y != id && Up(t, y, k) == Some(id)
    ensures Below(t[id := row], id, y)
    decreases k
  {
    var t' := t[id := row];
    var p := t[y].parentId.value;
    assert IsChild(t', p, y);
    ChildIsBelow(t', p, y);
    if p != id {
      StillBelow(t, id, row, p, k - 1);
      BelowTransitive(t', id, p, y);
    }
  }

  /** Moving a row under a new parent keeps the table acyclic exactly when the parent is outside the row's subtree. */
  lemma MoveKeepsAcyclicExactly(t: Groups, id: nat, row: Group, parent: nat)
    requires Acyclic(t) && id in t && row.parentId == Some(parent)
    ensures Acyclic(t[id := row]) <==> parent !in {id} && !Below(t, id, parent)
  {
    var t' := t[id := row];
    assert IsChild(t', parent, id);
    ChildIsBelow(t', parent, id);
    if parent == id {
      assert !Acyclic(t');
    } else if Below(t, id, parent) {
      var k: nat :| k > 0 && Up(t, parent, k) == Some(id);
      StillBelow(t, id, row, parent, k);
      BelowTransitive(t', id, parent, id);
      assert !Acyclic(t');
    } else {
      MoveAcyclic(t, id, row, parent);
    }
  }

  lemma MoveAcyclic(t: Groups, id: nat, row: Group, parent: nat)
    requires Acyclic(t) && id in t && row.parentId == Some(parent)
    requires parent != id && !Below(t, id, parent)
    ensures Acyclic(t[id := row])
  {
    var t' := t[id := row];
    forall k: nat | k > 0
      ensures Up(t', id, k) != Some(id)
    {
      PathMissesRow(t, id, row, parent, k - 1);
    }
    forall x | x in t'
      ensures !Below(t', x, x)
    {
      if k: nat :| k > 0 && Up(t', x, k) == Some(x) {
        if j: nat :| j < k && Up(t', x, j) == Some(id) {
          UpAdds(t', x, j, k - j);
          UpAdds(t', id, k - j, j);
          assert false;
        } else {
          SameWalk(t, t', id, row, x, k);
          assert Below(t, x, x);
        }
      }
    }
  }

  lemma NothingAboveTop(t: Groups, id: nat, n: nat)
    requires id in t && t[id].parentId == None && n > 0
    ensures Up(t, id, n) == None
  {
  }

  /** Moving a row to the top always keeps the table acyclic. */
  lemma TopKeepsAcyclic(t: Groups, id: nat, row: Group)
    requires Acyclic(t) && id in t && row.parentId == None
    ensures Acyclic(t[id := row])
  {
    var t' := t[id := row];
    forall x | x in t'
      ensures !Below(t', x, x)
    {
      if k: nat :| k > 0 && Up(t', x, k) == Some(x) {
        if j: nat :| j < k && Up(t', x, j) == Some(id) {
          UpAdds(t', x, j, k - j);
          NothingAboveTop(t', id, k - j);
        } else {
          SameWalk(t, t', id, row, x, k);
          assert Below(t, x, x);
        }
      }
    }
  }
}
