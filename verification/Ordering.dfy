/** Strict total orders and the ordered listing of a finite set. */
module Ordering {

  ghost predicate StrictTotal<K(!new)>(less: (K, K) -> bool) {
    && (forall a :: !less(a, a))
    && (forall a, b, c :: less(a, b) && less(b, c) ==> less(a, c))
    && (forall a, b :: less(a, b) || a == b || less(b, a))
  }

  ghost predicate Ascending<K>(xs: seq<K>, less: (K, K) -> bool) {
    forall i, j :: 0 <= i < j < |xs| ==> less(xs[i], xs[j])
  }

  function Insert<K(==)>(x: K, xs: seq<K>, less: (K, K) -> bool): (r: seq<K>) {
    if xs == [] || less(x, xs[0]) then [x] + xs else [xs[0]] + Insert(x, xs[1..], less)
  }

  lemma TailAscending<K(!new)>(xs: seq<K>, less: (K, K) -> bool)
    requires StrictTotal(less) && Ascending(xs, less) && xs != []
    ensures Ascending(xs[1..], less)
    ensures forall x :: x in xs[1..] ==> less(xs[0], x)
    ensures forall x :: x in xs[1..] <==> x in xs && x != xs[0]
  {
    forall x | x in xs[1..]
      ensures less(xs[0], x) && x in xs && x != xs[0]
    {
      var i :| 0 <= i < |xs[1..]| && xs[1..][i] == x;
      assert xs[i + 1] == x;
    }
    forall x | x in xs && x != xs[0]
      ensures x in xs[1..]
    {
      var i :| 0 <= i < |xs| && xs[i] == x;
      assert xs[1..][i - 1] == x;
    }
  }

  lemma {:induction false} InsertAscending<K(!new)>(x: K, xs: seq<K>, less: (K, K) -> bool)
    requires StrictTotal(less) && Ascending(xs, less) && x !in xs
    ensures Ascending(Insert(x, xs, less), less)
    ensures forall y :: y in Insert(x, xs, less) <==> y == x || y in xs
    ensures |Insert(x, xs, less)| == |xs| + 1
  {
    if xs == [] {
    } else if less(x, xs[0]) {
      TailAscending(xs, less);
      forall y | y in xs
        ensures less(x, y)
      {
        assert y == xs[0] || y in xs[1..];
      }
    } else {
      TailAscending(xs, less);
      InsertAscending(x, xs[1..], less);
      var rest := Insert(x, xs[1..], less);
      assert less(xs[0], x) by {
        assert xs[0] in xs;
      }
      assert forall y :: y in rest ==> less(xs[0], y);
      assert forall y :: y in xs <==> y == xs[0] || y in xs[1..];
    }
  }

  /** An ascending list is determined by its members. */
  lemma {:induction false} AscendingUnique<K(!new)>(a: seq<K>, b: seq<K>, less: (K, K) -> bool)
    requires StrictTotal(less) && Ascending(a, less) && Ascending(b, less)
    requires forall x :: x in a <==> x in b
    ensures a == b
  {
    if a != [] && b != [] {
      TailAscending(a, less);
      TailAscending(b, less);
      HeadsAgree(a, b, less);
      AscendingUnique(a[1..], b[1..], less);
      assert a == [a[0]] + a[1..] && b == [b[0]] + b[1..];
    } else {
      HasMember(a);
      HasMember(b);
    }
  }

  lemma HasMember<K(!new)>(xs: seq<K>)
    ensures xs == [] <==> forall x :: x !in xs
  {
    if xs != [] {
      assert xs[0] in xs;
    }
  }

  lemma HeadsAgree<K(!new)>(a: seq<K>, b: seq<K>, less: (K, K) -> bool)
    requires StrictTotal(less) && Ascending(a, less) && Ascending(b, less) && a != [] && b != []
    requires forall x :: x in a <==> x in b
    ensures a[0] == b[0]
  {
    assert a[0] in b && b[0] in a;
    var j :| 0 <= j < |b| && b[j] == a[0];
    var i :| 0 <= i < |a| && a[i] == b[0];
  }

  /** List a set in order, as iterating an ordered map or set does. */
  method SortedList<K(!new, ==)>(s: set<K>, less: (K, K) -> bool) returns (xs: seq<K>)
    requires StrictTotal(less)
    ensures Ascending(xs, less)
    ensures forall x :: x in xs <==> x in s
    ensures |xs| == |s|
  {
    xs := [];
    var rest := s;
    while rest != {}
      invariant rest <= s
      invariant Ascending(xs, less)
      invariant forall x :: x in xs <==> x in s && x !in rest
      invariant |xs| + |rest| == |s|
      decreases rest
    {
      var x :| x in rest;
      InsertAscending(x, xs, less);
      xs := Insert(x, xs, less);
      rest := rest - {x};
    }
  }
}
