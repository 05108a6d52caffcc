/** The order Python's sorted() gives strings, and sorted lists of distinct strings. */
module Ordering {

  /** a <= b in code point order. */
  predicate Leq(a: string, b: string) {
    a == [] || (b != [] && (a[0] < b[0] || (a[0] == b[0] && Leq(a[1..], b[1..]))))
  }

  predicate Less(a: string, b: string) {
    a != b && Leq(a, b)
  }

  lemma {:induction false} LeqReflexive(a: string)
    ensures Leq(a, a)
  {
    if a != [] { LeqReflexive(a[1..]); }
  }

  lemma {:induction false} LeqAntisymmetric(a: string, b: string)
    requires Leq(a, b) && Leq(b, a)
    ensures a == b
  {
    if a != [] {
      LeqAntisymmetric(a[1..], b[1..]);
      assert a == [a[0]] + a[1..] && b == [b[0]] + b[1..];
    }
  }

  lemma {:induction false} LeqTransitive(a: string, b: string, c: string)
    requires Leq(a, b) && Leq(b, c)
    ensures Leq(a, c)
  {
    if a != [] && a[0] == b[0] == c[0] { LeqTransitive(a[1..], b[1..], c[1..]); }
  }

  lemma {:induction false} LeqTotal(a: string, b: string)
    ensures Leq(a, b) || Leq(b, a)
  {
    if a != [] && b != [] && a[0] == b[0] { LeqTotal(a[1..], b[1..]); }
  }

  /** Strictly ascending: sorted, and without duplicates. */
  predicate Ascending(s: seq<string>) {
    forall i, j :: 0 <= i < j < |s| ==> Less(s[i], s[j])
  }

  predicate IsLeast(x: string, s: set<string>) {
    x in s && forall y :: y in s ==> Leq(x, y)
  }

  lemma {:induction false} LeastExists(s: set<string>)
    requires s != {}
    ensures exists x :: IsLeast(x, s)
  {
    var x :| x in s;
    LeqReflexive(x);
    if s == {x} {
      assert IsLeast(x, s);
    } else {
      LeastExists(s - {x});
      var y :| IsLeast(y, s - {x});
      LeqTotal(x, y);
      LeqReflexive(y);
      var least := if Leq(x, y) then x else y;
      forall z | z in s ensures Leq(least, z) {
        if z != x && Leq(x, y) { LeqTransitive(x, y, z); }
      }
      assert IsLeast(least, s);
    }
  }

  /** min(s). */
  function Least(s: set<string>): (x: string)
    requires s != {}
    ensures IsLeast(x, s)
  {
    LeastExists(s);
    assert forall x, y | IsLeast(x, s) && IsLeast(y, s) :: x == y by {
      forall x, y | IsLeast(x, s) && IsLeast(y, s) ensures x == y { LeqAntisymmetric(x, y); }
    }
    var x :| IsLeast(x, s);
    x
  }

  /** sorted(s) for a set of strings. */
  function Sorted(s: set<string>): (r: seq<string>)
    ensures Ascending(r)
    ensures forall x :: x in r <==> x in s
    ensures |r| == |s|
  {
    if s == {} then [] else [Least(s)] + Sorted(s - {Least(s)})
  }

  /** A set has one strictly ascending enumeration. */
  lemma {:induction false} AscendingUnique(a: seq<string>, b: seq<string>)
    requires Ascending(a) && Ascending(b)
    requires forall x :: x in a <==> x in b
    ensures a == b
  {
    assert (a != [] ==> a[0] in a) && (b != [] ==> b[0] in b);
    if a != [] {
      if a[0] != b[0] {
        var i :| 0 <= i < |b| && b[i] == a[0];
        var j :| 0 <= j < |a| && a[j] == b[0];
        assert Less(b[0], b[i]) && Less(a[0], a[j]);
        LeqAntisymmetric(a[0], b[0]);
      }
      forall x ensures x in a[1..] <==> x in b[1..] {
        if x in a[1..] {
          var i :| 1 <= i < |a| && a[i] == x;
          assert x in b && Less(a[0], a[i]);
        }
        if x in b[1..] {
          var i :| 1 <= i < |b| && b[i] == x;
          assert x in a && Less(b[0], b[i]);
        }
      }
      AscendingUnique(a[1..], b[1..]);
      assert a == [a[0]] + a[1..] && b == [b[0]] + b[1..];
    }
  }
}
