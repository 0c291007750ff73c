/**
 * Lists of records addressed by a digest.
 *
 * A SHA-256 digest is modelled by its 256-bit value: all digests have the same
 * textual length, so comparing their lower-case hexadecimal forms as strings is
 * comparing these numbers.
 */
module DigestOrder {
  import opened FiniteSets

  type Digest = nat

  function Elems<T>(es: seq<T>): (s: set<T>) {
    set e | e in es
  }

  /** Strictly increasing in the digest: the canonical inventory order. */
  ghost predicate Ordered<T>(es: seq<T>, key: T -> Digest) {
    forall i, j :: 0 <= i < j < |es| ==> key(es[i]) < key(es[j])
  }

  /** The check the source makes: every adjacent pair increases. */
  predicate AdjacentOrdered<T>(es: seq<T>, key: T -> Digest) {
    forall i :: 0 < i < |es| ==> key(es[i - 1]) < key(es[i])
  }

  ghost predicate DistinctKeys<T>(es: seq<T>, key: T -> Digest) {
    forall i, j :: 0 <= i < j < |es| ==> key(es[i]) != key(es[j])
  }

  /** One slot per digest: the content-addressed directory holds no two records under one name. */
  ghost predicate Keyed<T(!new)>(s: set<T>, key: T -> Digest) {
    forall a, b :: a in s && b in s && key(a) == key(b) ==> a == b
  }

  function Insert<T>(e: T, es: seq<T>, key: T -> Digest): (r: seq<T>) {
    if es == [] || key(e) <= key(es[0]) then [e] + es
    else [es[0]] + Insert(e, es[1..], key)
  }

  /** Stable sort by digest. */
  function Sort<T>(es: seq<T>, key: T -> Digest): (r: seq<T>) {
    if es == [] then [] else Insert(es[0], Sort(es[1..], key), key)
  }

  lemma AdjacentIsOrdered<T>(es: seq<T>, key: T -> Digest)
    requires AdjacentOrdered(es, key)
    ensures Ordered(es, key)
  {
    forall i, j | 0 <= i < j < |es|
      ensures key(es[i]) < key(es[j])
    {
      AdjacentChain(es, key, i, j);
    }
  }

  lemma {:induction false} AdjacentChain<T>(es: seq<T>, key: T -> Digest, i: nat, j: nat)
    requires AdjacentOrdered(es, key)
    requires i < j < |es|
    ensures key(es[i]) < key(es[j])
    decreases j
  {
    if i < j - 1 {
      AdjacentChain(es, key, i, j - 1);
    }
  }

  lemma ElemsEmpty<T>(es: seq<T>)
    ensures es == [] <==> Elems(es) == {}
  {
    if es != [] {
      assert es[0] in Elems(es);
    }
  }

  /** An ordered list is determined by the set of records it lists. */
  lemma {:induction false} OrderedUnique<T>(a: seq<T>, b: seq<T>, key: T -> Digest)
    requires Ordered(a, key) && Ordered(b, key)
    requires Elems(a) == Elems(b)
    ensures a == b
  {
    if a == [] {
      ElemsEmpty(b);
    } else {
      assert a[0] in Elems(a);
      var j :| 0 <= j < |b| && b[j] == a[0];
      assert b[0] in Elems(b);
      var i :| 0 <= i < |a| && a[i] == b[0];
      assert j == 0;
      TailElems(a, key);
      TailElems(b, key);
      OrderedUnique(a[1..], b[1..], key);
      assert a == [a[0]] + a[1..] && b == [b[0]] + b[1..];
    }
  }

  lemma TailElems<T>(a: seq<T>, key: T -> Digest)
    requires Ordered(a, key) && a != []
    ensures Ordered(a[1..], key)
    ensures Elems(a[1..]) == Elems(a) - {a[0]}
  {
    forall e | e in Elems(a) && e != a[0]
      ensures e in a[1..]
    {
      var i :| 0 <= i < |a| && a[i] == e;
      assert a[1..][i - 1] == e;
    }
  }

  lemma {:induction false} InsertSound<T>(e: T, es: seq<T>, key: T -> Digest)
    requires Ordered(es, key)
    requires forall x :: x in es ==> key(x) != key(e)
    ensures Ordered(Insert(e, es, key), key)
    ensures Elems(Insert(e, es, key)) == Elems(es) + {e}
    ensures |Insert(e, es, key)| == |es| + 1
  {
    if es == [] || key(e) <= key(es[0]) {
    } else {
      TailElems(es, key);
      InsertSound(e, es[1..], key);
      var rest := Insert(e, es[1..], key);
      forall x | x in rest
        ensures key(es[0]) < key(x)
      {
        assert x in Elems(es[1..]) + {e};
      }
      assert Elems([es[0]] + rest) == {es[0]} + Elems(rest);
    }
  }

  /** Sorting a list without repeated digests yields the canonical list of the same records. */
  lemma {:induction false} SortSound<T>(es: seq<T>, key: T -> Digest)
    requires DistinctKeys(es, key)
    ensures Ordered(Sort(es, key), key)
    ensures Elems(Sort(es, key)) == Elems(es)
    ensures |Sort(es, key)| == |es|
  {
    if es != [] {
      assert forall i, j :: 0 <= i < j < |es[1..]| ==> es[1..][i] == es[i + 1] && es[1..][j] == es[j + 1];
      SortSound(es[1..], key);
      var rest := Sort(es[1..], key);
      forall x | x in rest
        ensures key(x) != key(es[0])
      {
        assert x in Elems(rest);
        assert x in es[1..];
      }
      InsertSound(es[0], rest, key);
      assert Elems(es) == Elems(es[1..]) + {es[0]};
    }
  }

  lemma {:induction false} InsertElems<T>(e: T, es: seq<T>, key: T -> Digest)
    ensures Elems(Insert(e, es, key)) == Elems(es) + {e}
  {
    if es == [] || key(e) <= key(es[0]) {
      assert Elems([e] + es) == Elems(es) + {e};
    } else {
      InsertElems(e, es[1..], key);
      var rest := Insert(e, es[1..], key);
      assert Elems([es[0]] + rest) == {es[0]} + Elems(rest);
      assert Elems(es) == {es[0]} + Elems(es[1..]);
    }
  }

  lemma {:induction false} SortElems<T>(es: seq<T>, key: T -> Digest)
    ensures Elems(Sort(es, key)) == Elems(es)
  {
    if es != [] {
      SortElems(es[1..], key);
      InsertElems(es[0], Sort(es[1..], key), key);
      assert es == [es[0]] + es[1..];
    }
  }

  /** An insertion is in order only into an ordered list without the new digest. */
  lemma {:induction false} InsertNeeds<T>(e: T, es: seq<T>, key: T -> Digest)
    requires Ordered(Insert(e, es, key), key)
    ensures Ordered(es, key) && forall x :: x in es ==> key(x) != key(e)
  {
    if es == [] {
    } else if key(e) <= key(es[0]) {
      TailElems([e] + es, key);
      assert ([e] + es)[1..] == es;
      forall x | x in es
        ensures key(x) != key(e)
      {
        HeadBelow([e] + es, x, key);
      }
    } else {
      var rest := Insert(e, es[1..], key);
      TailElems([es[0]] + rest, key);
      assert ([es[0]] + rest)[1..] == rest;
      InsertNeeds(e, es[1..], key);
      InsertElems(e, es[1..], key);
      forall x | x in es[1..]
        ensures key(es[0]) < key(x)
      {
        HeadBelow([es[0]] + rest, x, key);
      }
      assert es == [es[0]] + es[1..];
    }
  }

  lemma HeadBelow<T>(es: seq<T>, x: T, key: T -> Digest)
    requires es != [] && Ordered(es, key) && x in Elems(es[1..])
    ensures key(es[0]) < key(x)
  {
    var i :| 0 <= i < |es[1..]| && es[1..][i] == x;
  }

  /** Sorting gives a canonical list exactly when no digest is repeated. */
  lemma {:induction false} SortOrderedIff<T>(es: seq<T>, key: T -> Digest)
    ensures AdjacentOrdered(Sort(es, key), key) <==> DistinctKeys(es, key)
  {
    if DistinctKeys(es, key) {
      SortSound(es, key);
    }
    if AdjacentOrdered(Sort(es, key), key) && es != [] {
      AdjacentIsOrdered(Sort(es, key), key);
      InsertNeeds(es[0], Sort(es[1..], key), key);
      SortOrderedIff(es[1..], key);
      SortElems(es[1..], key);
      TailDistinct(es, key);
    }
  }

  lemma TailDistinct<T>(es: seq<T>, key: T -> Digest)
    requires es != [] && DistinctKeys(es[1..], key)
    requires forall x :: x in Sort(es[1..], key) ==> key(x) != key(es[0])
    ensures DistinctKeys(es, key)
  {
    SortElems(es[1..], key);
    forall i, j | 0 <= i < j < |es|
      ensures key(es[i]) != key(es[j])
    {
      assert es[j] == es[1..][j - 1];
      assert es[j] in Elems(es[1..]);
      if i > 0 {
        assert es[i] == es[1..][i - 1];
      } else {
        assert es[j] in Sort(es[1..], key);
      }
    }
  }

  function KeysOf<T>(es: seq<T>, key: T -> Digest): seq<Digest> {
    seq(|es|, i requires 0 <= i < |es| => key(es[i]))
  }

  /** Whether a digest is repeated does not depend on the order of the list. */
  lemma DistinctKeysAlike<T>(a: seq<T>, b: seq<T>, key: T -> Digest)
    requires |a| == |b| && Elems(a) == Elems(b)
    ensures DistinctKeys(a, key) <==> DistinctKeys(b, key)
  {
    forall k
      ensures k in KeysOf(a, key) <==> k in KeysOf(b, key)
    {
      SameKeys(a, b, key, k);
      SameKeys(b, a, key, k);
    }
    DistinctAlike(KeysOf(a, key), KeysOf(b, key));
    DistinctByKeys(a, key);
    DistinctByKeys(b, key);
  }

  lemma DistinctByKeys<T>(es: seq<T>, key: T -> Digest)
    ensures Distinct(KeysOf(es, key)) <==> DistinctKeys(es, key)
  {
    var ks := KeysOf(es, key);
    assert forall i :: 0 <= i < |es| ==> ks[i] == key(es[i]);
    if Distinct(ks) {
      forall i, j | 0 <= i < j < |es|
        ensures key(es[i]) != key(es[j])
      {
        assert ks[i] != ks[j];
      }
    }
  }

  lemma SameKeys<T>(a: seq<T>, b: seq<T>, key: T -> Digest, k: Digest)
    requires Elems(a) <= Elems(b)
    ensures k in KeysOf(a, key) ==> k in KeysOf(b, key)
  {
    if k in KeysOf(a, key) {
      var i :| 0 <= i < |a| && key(a[i]) == k;
      assert a[i] in Elems(b);
      var j :| 0 <= j < |b| && b[j] == a[i];
      assert KeysOf(b, key)[j] == k;
    }
  }

  lemma OrderedIsKeyed<T(!new)>(es: seq<T>, key: T -> Digest)
    requires Ordered(es, key)
    ensures Keyed(Elems(es), key) && DistinctKeys(es, key)
  {
    forall a, b | a in Elems(es) && b in Elems(es) && key(a) == key(b)
      ensures a == b
    {
      var i :| 0 <= i < |es| && es[i] == a;
      var j :| 0 <= j < |es| && es[j] == b;
      assert i == j;
    }
  }

  /** Reading a content-addressed directory yields its records in canonical order. */
  method List<T(!new, ==)>(s: set<T>, key: T -> Digest) returns (es: seq<T>)
    requires Keyed(s, key)
    ensures Ordered(es, key)
    ensures Elems(es) == s
    ensures |es| == |s|
  {
    es := [];
    var rest := s;
    while rest != {}
      invariant rest <= s
      invariant Ordered(es, key)
      invariant Elems(es) == s - rest
      invariant |es| + |rest| == |s|
      decreases rest
    {
      var e :| e in rest;
      forall x | x in es
        ensures key(x) != key(e)
      {
        assert x in Elems(es);
      }
      InsertSound(e, es, key);
      es := Insert(e, es, key);
      rest := rest - {e};
    }
  }
}
