/** Counting facts about finite sets. */
module FiniteSets {

  lemma {:induction false} SubsetSize<T>(a: set<T>, b: set<T>)
    requires a <= b
    ensures |a| <= |b|
    decreases a
  {
    if x :| x in a {
      SubsetSize(a - {x}, b - {x});
    }
  }

  ghost predicate Distinct<T>(xs: seq<T>) {
    forall i, j :: 0 <= i < j < |xs| ==> xs[i] != xs[j]
  }

  lemma {:induction false} DistinctSize<T>(xs: seq<T>)
    requires Distinct(xs)
    ensures |set x | x in xs| == |xs|
  {
    if xs == [] {
      assert (set x | x in xs) == {};
    } else {
      var front, last := xs[..|xs| - 1], xs[|xs| - 1];
      DistinctSize(front);
      assert (set x | x in xs) == (set x | x in front) + {last};
      assert last !in front;
    }
  }

  /** More places than values: some value repeats. */
  lemma Pigeonhole<T>(xs: seq<T>, universe: set<T>) returns (i: nat, j: nat)
    requires forall x :: x in xs ==> x in universe
    requires |xs| > |universe|
    ensures i < j < |xs| && xs[i] == xs[j]
  {
    if Distinct(xs) {
      DistinctSize(xs);
      SubsetSize((set x | x in xs), universe);
      assert false;
    } else {
      i, j :| i < j < |xs| && xs[i] == xs[j];
    }
  }

  lemma {:induction false} FullSizeIsDistinct<T>(xs: seq<T>)
    ensures |set x | x in xs| <= |xs|
    ensures |set x | x in xs| == |xs| ==> Distinct(xs)
  {
    if xs == [] {
      assert (set x | x in xs) == {};
    } else {
      var front, last := xs[..|xs| - 1], xs[|xs| - 1];
      FullSizeIsDistinct(front);
      assert (set x | x in xs) == (set x | x in front) + {last};
    }
  }

  /** Two lists of one length with the same members repeat something both or neither. */
  lemma DistinctAlike<T(!new)>(xs: seq<T>, ys: seq<T>)
    requires |xs| == |ys| && forall x :: x in xs <==> x in ys
    ensures Distinct(xs) <==> Distinct(ys)
  {
    assert (set x | x in xs) == (set y | y in ys);
    if Distinct(xs) {
      DistinctSize(xs);
    }
    if Distinct(ys) {
      DistinctSize(ys);
    }
    FullSizeIsDistinct(xs);
    FullSizeIsDistinct(ys);
  }

  lemma SameSizeSubset<T>(a: set<T>, b: set<T>)
    requires a <= b && |a| == |b|
    ensures a == b
  {
    if x :| x in b && x !in a {
      SubsetSize(a, b - {x});
    }
  }

  lemma LargerHasMore<T>(a: set<T>, b: set<T>)
    requires |a| < |b|
    ensures b - a != {}
  {
    if b - a == {} {
      forall x | x in b
        ensures x in a
      {
        assert x !in b - a;
      }
      SubsetSize(b, a);
    }
  }

  lemma DistinctLast<T>(xs: seq<T>, i: nat)
    requires Distinct(xs) && i < |xs|
    ensures xs[i] !in xs[..i]
  {}
}
