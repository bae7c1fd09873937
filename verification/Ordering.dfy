/** Ordering rows by a pair of numbers, the second being their unique id. */
module Ordering {

  type SortKey = (int, int)

  predicate Less(a: SortKey, b: SortKey) {
    a.0 < b.0 || (a.0 == b.0 && a.1 < b.1)
  }

  predicate StrictlySorted(keys: seq<SortKey>) {
    forall i, j :: 0 <= i < j < |keys| ==> Less(keys[i], keys[j])
  }

  /** The key ordering is total: of two different keys exactly one is less. */
  lemma LessTotal(a: SortKey, b: SortKey, c: SortKey)
    ensures Less(a, b) || Less(b, a) <==> a != b
    ensures !(Less(a, b) && Less(b, a))
    ensures Less(a, b) && Less(b, c) ==> Less(a, c)
  {
  }

  lemma SameHead(a: seq<SortKey>, b: seq<SortKey>)
    requires StrictlySorted(a) && StrictlySorted(b) && a != [] && b != []
    requires a[0] in b && b[0] in a
    ensures a[0] == b[0]
  {
    var i :| 0 <= i < |b| && b[i] == a[0];
    var j :| 0 <= j < |a| && a[j] == b[0];
    assert i == 0 || Less(b[0], b[i]);
    assert j == 0 || Less(a[0], a[j]);
  }

  lemma TailMultiset(a: seq<SortKey>)
    requires a != []
    ensures multiset(a[1..]) == multiset(a) - multiset{a[0]}
  {
    assert a == [a[0]] + a[1..];
  }

  /** Two strictly sorted lists of the same keys are equal: the order leaves the database no choice. */
  lemma {:induction false} SortedUnique(a: seq<SortKey>, b: seq<SortKey>)
    requires StrictlySorted(a) && StrictlySorted(b) && multiset(a) == multiset(b)
    ensures a == b
  {
    assert |a| == |multiset(a)| == |multiset(b)| == |b|;
    if a != [] {
      assert a[0] in multiset(a) && b[0] in multiset(b);
      SameHead(a, b);
      TailMultiset(a);
      TailMultiset(b);
      SortedUnique(a[1..], b[1..]);
      assert a == [a[0]] + a[1..] && b == [b[0]] + b[1..];
    }
  }
}
