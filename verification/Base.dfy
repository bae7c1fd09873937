/** Values shared by the models of several services. */
module Base {

  datatype Option<+T> = None | Some(value: T)

  /** A JavaScript string counts as true when it is present and not empty. */
  predicate Truthy(s: Option<string>) {
    s.Some? && s.value != ""
  }

  /** A JavaScript number counts as true when it is present and not zero. */
  predicate NonZero(n: Option<nat>) {
    n.Some? && n.value != 0
  }

  function Digit(d: nat): char
    requires d < 10
  {
    ('0' as int + d) as char
  }

  /** String(n) for the non-negative integer n. */
  function Decimal(n: nat): string {
    if n < 10 then [Digit(n)] else Decimal(n / 10) + [Digit(n % 10)]
  }

  /** The number a decimal numeral denotes. */
  function DecimalValue(s: string): int {
    if s == "" then 0
    else 10 * DecimalValue(s[..|s| - 1]) + (s[|s| - 1] as int - '0' as int)
  }

  lemma {:induction false} DecimalRoundTrip(n: nat)
    ensures DecimalValue(Decimal(n)) == n
  {
    if n < 10 {
      assert Decimal(n)[..0] == "";
    } else {
      DecimalRoundTrip(n / 10);
      assert Decimal(n)[..|Decimal(n)| - 1] == Decimal(n / 10);
    }
  }

  lemma DecimalInjective(a: nat, b: nat)
    ensures Decimal(a) == Decimal(b) <==> a == b
  {
    DecimalRoundTrip(a);
    DecimalRoundTrip(b);
  }

  predicate NoDuplicates<T(==)>(s: seq<T>) {
    forall i, j :: 0 <= i < j < |s| ==> s[i] != s[j]
  }

  ghost function Elements<T>(s: seq<T>): set<T> {
    set x | x in s
  }

  /** The sequence lists every element of the set once. */
  ghost predicate Enumerates<T(!new)>(s: seq<T>, elements: set<T>) {
    && (forall i, j :: 0 <= i < j < |s| ==> s[i] != s[j])
    && (forall x :: x in s <==> x in elements)
  }

  lemma {:induction false} EnumerationLength<T(!new)>(s: seq<T>, elements: set<T>)
    requires Enumerates(s, elements)
    ensures |s| == |elements|
  {
    if s == [] {
      assert elements == {};
    } else {
      var x := s[0];
      forall y ensures y in s[1..] <==> y in elements - {x} {
        if y in s[1..] {
          var i :| 0 <= i < |s[1..]| && s[1..][i] == y;
          assert s[i + 1] == y;
        }
        if y in elements - {x} {
          assert y in s;
        }
      }
      assert x in s;
      EnumerationLength(s[1..], elements - {x});
    }
  }

  /** The consecutive numbers low, low + 1, ... low + size - 1. */
  ghost function Block(low: nat, size: nat): (s: set<nat>)
    ensures |s| == size
    ensures forall k :: k in s <==> low <= k < low + size
  {
    if size == 0 then {} else Block(low, size - 1) + {low + size - 1}
  }
}
