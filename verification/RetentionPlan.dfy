/** The reviewed inventory partition that destructive catalog retention applies. */
module RetentionPlan {
  import opened Outcomes
  import opened DigestOrder

  const MAX_RECORDS: nat := 4096

  datatype Entry = Entry(digest: Digest, generation: nat, revision: nat)

  /** A collision-free digest is modelled by the canonical value it was taken of. */
  datatype InventoryDigest = InventoryDigest(entries: seq<Entry>)

  datatype PlanDigest = PlanDigest(plan: Plan)

  datatype Plan = Plan(
    installation: nat,
    beforeCount: nat,
    beforeDigest: InventoryDigest,
    remove: seq<Entry>,
    retain: seq<Entry>)

  function DigestOf(e: Entry): Digest { e.digest }

  /** The canonical digest of an inventory split in two. */
  function PartsDigest(remove: seq<Entry>, retain: seq<Entry>): InventoryDigest {
    InventoryDigest(Sort(remove + retain, DigestOf))
  }

  predicate ValidPlan(p: Plan) {
    && p.beforeCount <= MAX_RECORDS
    && |p.remove| + |p.retain| == p.beforeCount
    && AdjacentOrdered(p.remove, DigestOf)
    && AdjacentOrdered(p.retain, DigestOf)
    && (forall i, j :: 0 <= i < |p.remove| && 0 <= j < |p.retain| ==> p.remove[i].digest != p.retain[j].digest)
    && (p.beforeCount > 0 ==> p.retain != [])
    && AdjacentOrdered(Sort(p.remove + p.retain, DigestOf), DigestOf)
  }

  /** The reviewed inventory is exactly the current one. */
  predicate SamePartition(current: seq<Entry>, p: Plan) {
    Sort(p.remove + p.retain, DigestOf) == current
  }

  /** What the store holds once the first `i` removals of the plan have been made. */
  ghost function Held(p: Plan, i: nat): (s: set<Entry>)
    requires i <= |p.remove|
  {
    Elems(p.remove[i..]) + Elems(p.retain)
  }

  function Select(es: seq<Entry>, digests: set<Digest>, keep: bool): (r: seq<Entry>) {
    if es == [] then []
    else (if (es[0].digest in digests) == keep then [es[0]] else []) + Select(es[1..], digests, keep)
  }

  function Digests(es: seq<Entry>): set<Digest> {
    set e | e in es :: e.digest
  }

  function Partition(installation: nat, entries: seq<Entry>, protect: set<Digest>): (p: Plan) {
    var retain := Select(entries, protect, true);
    var remove := Select(entries, protect, false);
    Plan(installation, |retain| + |remove|, PartsDigest(remove, retain), remove, retain)
  }

  function BuildPlan(installation: nat, entries: seq<Entry>, protect: set<Digest>): (r: Result<Plan>) {
    if |entries| > MAX_RECORDS then Err(Invalid)
    else if entries != [] && protect == {} then Err(Invalid)
    else if !(protect <= Digests(entries)) then Err(Stale)
    else if !ValidPlan(Partition(installation, entries, protect)) then Err(Invalid)
    else Ok(Partition(installation, entries, protect))
  }

  ghost function Chosen(es: seq<Entry>, digests: set<Digest>, keep: bool): set<Entry> {
    set e | e in es && (e.digest in digests) == keep
  }

  lemma {:induction false} SelectCount(es: seq<Entry>, digests: set<Digest>)
    ensures |Select(es, digests, true)| + |Select(es, digests, false)| == |es|
  {
    if es != [] {
      SelectCount(es[1..], digests);
    }
  }

  lemma {:induction false} SelectElems(es: seq<Entry>, digests: set<Digest>, keep: bool)
    ensures Elems(Select(es, digests, keep)) == Chosen(es, digests, keep)
  {
    if es != [] {
      SelectElems(es[1..], digests, keep);
      var rest := Select(es[1..], digests, keep);
      forall e
        ensures e in Elems(Select(es, digests, keep)) <==> e in Chosen(es, digests, keep)
      {
        assert e in rest <==> e in Elems(rest);
        assert e in rest <==> e in Chosen(es[1..], digests, keep);
        assert e in es <==> e == es[0] || e in es[1..];
      }
    }
  }

  lemma {:induction false} SelectSound(es: seq<Entry>, digests: set<Digest>, keep: bool)
    requires Ordered(es, DigestOf)
    ensures Ordered(Select(es, digests, keep), DigestOf)
    ensures Elems(Select(es, digests, keep)) == Chosen(es, digests, keep)
  {
    SelectElems(es, digests, keep);
    if es != [] {
      TailOrdered(es, 1);
      SelectSound(es[1..], digests, keep);
      var rest := Select(es[1..], digests, keep);
      forall x | x in rest
        ensures DigestOf(es[0]) < DigestOf(x)
      {
        assert x in Elems(rest);
        var i :| 0 <= i < |es[1..]| && es[1..][i] == x;
      }
    }
  }

  lemma OrderedIsAdjacent(es: seq<Entry>)
    requires Ordered(es, DigestOf)
    ensures AdjacentOrdered(es, DigestOf)
  {}

  /** The two halves of a valid plan are disjoint and jointly name every record once. */
  lemma ValidPlanParts(p: Plan)
    requires ValidPlan(p)
    ensures Ordered(p.remove, DigestOf) && Ordered(p.retain, DigestOf)
    ensures DistinctKeys(p.remove + p.retain, DigestOf)
    ensures Elems(p.remove) !! Elems(p.retain)
  {
    AdjacentIsOrdered(p.remove, DigestOf);
    AdjacentIsOrdered(p.retain, DigestOf);
  }

  /** The inventory a checkpoint expects, as the list that is compared with the directory. */
  function Expected(p: Plan, i: nat): (r: seq<Entry>)
    requires i <= |p.remove|
  {
    Sort(p.remove[i..] + p.retain, DigestOf)
  }

  /** Comparing the sorted listings decides whether the directory holds exactly the expected records. */
  lemma ExpectedDecides(p: Plan, i: nat, current: seq<Entry>)
    requires ValidPlan(p) && i <= |p.remove| && Ordered(current, DigestOf)
    ensures Ordered(Expected(p, i), DigestOf) && Elems(Expected(p, i)) == Held(p, i)
    ensures current == Expected(p, i) <==> Elems(current) == Held(p, i)
  {
    ValidPlanParts(p);
    var es := p.remove[i..] + p.retain;
    forall a, b | 0 <= a < b < |es|
      ensures DigestOf(es[a]) != DigestOf(es[b])
    {
      assert es[a] == (p.remove + p.retain)[a + i] && es[b] == (p.remove + p.retain)[b + i];
    }
    SortSound(es, DigestOf);
    assert Elems(es) == Held(p, i);
    if Elems(current) == Held(p, i) {
      OrderedUnique(current, Expected(p, i), DigestOf);
    }
  }

  /** Each further removal takes exactly its own record out, and never a retained one. */
  lemma HeldStep(p: Plan, i: nat)
    requires ValidPlan(p) && i < |p.remove|
    ensures p.remove[i] in Held(p, i)
    ensures Held(p, i + 1) == Held(p, i) - {p.remove[i]}
    ensures Elems(p.retain) <= Held(p, i + 1)
    ensures Held(p, i) != Held(p, i + 1)
  {
    ValidPlanParts(p);
    TailOrdered(p.remove, i);
    TailElems(p.remove[i..], DigestOf);
    assert p.remove[i..][1..] == p.remove[i + 1..];
    assert p.remove[i] == p.remove[i..][0];
    assert p.remove[i] in Elems(p.remove[i..]) && p.remove[i] in Elems(p.remove);
  }

  lemma TailOrdered(es: seq<Entry>, i: nat)
    requires Ordered(es, DigestOf) && i <= |es|
    ensures Ordered(es[i..], DigestOf)
  {}

  lemma HeldBounds(p: Plan, i: nat)
    requires ValidPlan(p) && i <= |p.remove|
    ensures Elems(p.retain) <= Held(p, i) <= Held(p, 0)
    ensures Held(p, |p.remove|) == Elems(p.retain)
    ensures Keyed(Held(p, i), DigestOf)
  {
    var e := Expected(p, 0);
    AdjacentIsOrdered(e, DigestOf);
    ExpectedDecides(p, 0, e);
    OrderedIsKeyed(e, DigestOf);
    assert p.remove[0..] == p.remove;
    assert forall x :: x in p.remove[i..] ==> x in p.remove;
  }

  /** The two parts of a split share no digest. */
  lemma SplitApart(entries: seq<Entry>, protect: set<Digest>)
    requires Ordered(entries, DigestOf)
    ensures var retain, remove := Select(entries, protect, true), Select(entries, protect, false);
            forall i, j :: 0 <= i < |remove| && 0 <= j < |retain| ==> remove[i].digest != retain[j].digest
  {
    var retain, remove := Select(entries, protect, true), Select(entries, protect, false);
    SelectSound(entries, protect, true);
    SelectSound(entries, protect, false);
    forall i, j | 0 <= i < |remove| && 0 <= j < |retain|
      ensures remove[i].digest != retain[j].digest
    {
      assert remove[i] in Elems(remove) && retain[j] in Elems(retain);
    }
  }

  /** Merging two lists without a common digest in order gives back what they were split from. */
  lemma MergeSorts(entries: seq<Entry>, remove: seq<Entry>, retain: seq<Entry>)
    requires Ordered(entries, DigestOf) && Ordered(remove, DigestOf) && Ordered(retain, DigestOf)
    requires forall i, j :: 0 <= i < |remove| && 0 <= j < |retain| ==> remove[i].digest != retain[j].digest
    requires Elems(remove) + Elems(retain) == Elems(entries)
    ensures Sort(remove + retain, DigestOf) == entries
  {
    var all := remove + retain;
    SortSound(all, DigestOf);
    assert forall e :: e in all <==> e in Elems(remove) || e in Elems(retain);
    OrderedUnique(Sort(all, DigestOf), entries, DigestOf);
  }

  /** Splitting a listing by a protected set gives a valid partition of it. */
  lemma SplitSound(entries: seq<Entry>, protect: set<Digest>)
    requires Ordered(entries, DigestOf)
    ensures var retain, remove := Select(entries, protect, true), Select(entries, protect, false);
            && AdjacentOrdered(retain, DigestOf) && AdjacentOrdered(remove, DigestOf)
            && (forall i, j :: 0 <= i < |remove| && 0 <= j < |retain| ==> remove[i].digest != retain[j].digest)
            && Sort(remove + retain, DigestOf) == entries
            && AdjacentOrdered(entries, DigestOf)
            && Elems(remove) + Elems(retain) == Elems(entries)
  {
    var retain, remove := Select(entries, protect, true), Select(entries, protect, false);
    SelectSound(entries, protect, true);
    SelectSound(entries, protect, false);
    OrderedIsAdjacent(retain);
    OrderedIsAdjacent(remove);
    OrderedIsAdjacent(entries);
    SplitApart(entries, protect);
    MergeSorts(entries, remove, retain);
  }

  ghost predicate Plannable(entries: seq<Entry>, protect: set<Digest>) {
    && |entries| <= MAX_RECORDS
    && (entries == [] || protect != {})
    && protect <= Digests(entries)
  }

  /**
   * Planning succeeds exactly when the inventory is within its bound, something is
   * protected whenever anything is stored, and every protected digest is stored; the
   * plan then protects exactly the requested records and removes exactly the others.
   */
  lemma BuildPlanExact(installation: nat, entries: seq<Entry>, protect: set<Digest>)
    requires Ordered(entries, DigestOf)
    ensures BuildPlan(installation, entries, protect).Ok? <==> Plannable(entries, protect)
    ensures BuildPlan(installation, entries, protect).Ok? ==>
              var p := BuildPlan(installation, entries, protect).value;
              && ValidPlan(p)
              && SamePartition(entries, p)
              && p.beforeDigest == InventoryDigest(entries)
              && p.beforeCount == |entries|
              && Held(p, 0) == Elems(entries)
              && Elems(p.retain) == Chosen(entries, protect, true)
              && Elems(p.remove) == Chosen(entries, protect, false)
  {
    if Plannable(entries, protect) {
      PartitionValid(installation, entries, protect);
      SelectElems(entries, protect, true);
      SelectElems(entries, protect, false);
    }
  }

  /** The partition of a plannable inventory passes plan validation and holds exactly that inventory. */
  lemma PartitionValid(installation: nat, entries: seq<Entry>, protect: set<Digest>)
    requires Ordered(entries, DigestOf) && Plannable(entries, protect)
    ensures var p := Partition(installation, entries, protect);
            && ValidPlan(p) && SamePartition(entries, p)
            && p.beforeDigest == InventoryDigest(entries) && p.beforeCount == |entries|
            && Held(p, 0) == Elems(entries)
  {
    SplitSound(entries, protect);
    SelectCount(entries, protect);
    if entries != [] {
      SomethingRetained(entries, protect);
    }
    var p := Partition(installation, entries, protect);
    assert p.remove[0..] == p.remove;
  }

  lemma SomethingRetained(entries: seq<Entry>, protect: set<Digest>)
    requires Ordered(entries, DigestOf) && Plannable(entries, protect) && entries != []
    ensures Select(entries, protect, true) != []
  {
    SelectSound(entries, protect, true);
    var d :| d in protect;
    assert d in Digests(entries);
    var e :| e in entries && e.digest == d;
    assert e in Elems(Select(entries, protect, true));
  }

  /** What a plan must be, in terms of its records alone. */
  ghost predicate Splits(p: Plan) {
    && p.beforeCount == |p.remove| + |p.retain| <= MAX_RECORDS
    && Ordered(p.remove, DigestOf) && Ordered(p.retain, DigestOf)
    && (forall e, f :: e in p.remove && f in p.retain ==> e.digest != f.digest)
    && (p.retain == [] ==> p.remove == [])
  }

  /** Validation accepts exactly the bounded ordered splits that retain something of a non-empty inventory. */
  lemma ValidPlanIff(p: Plan)
    ensures ValidPlan(p) <==> Splits(p)
  {
    if ValidPlan(p) {
      ValidPlanParts(p);
    }
    if Splits(p) {
      OrderedIsAdjacent(p.remove);
      OrderedIsAdjacent(p.retain);
      var all := p.remove + p.retain;
      assert forall i, j :: 0 <= i < |p.remove| && 0 <= j < |p.retain| ==>
        p.remove[i] in p.remove && p.retain[j] in p.retain;
      SortSound(all, DigestOf);
      OrderedIsAdjacent(Sort(all, DigestOf));
    }
  }

  /** A plan with its own inventory digest is valid exactly if some inventory and protected set give it. */
  lemma ValidPlanIsBuilt(p: Plan)
    requires p.beforeDigest == PartsDigest(p.remove, p.retain)
    ensures ValidPlan(p) <==>
              exists entries, protect ::
                Ordered(entries, DigestOf) && BuildPlan(p.installation, entries, protect) == Ok(p)
  {
    if ValidPlan(p) {
      var entries := Expected(p, 0);
      ExpectedDecides(p, 0, []);
      assert p.remove[0..] == p.remove;
      SplitAgain(p, entries);
      assert Ordered(entries, DigestOf) && BuildPlan(p.installation, entries, Digests(p.retain)) == Ok(p);
    }
    if entries, protect :| Ordered(entries, DigestOf) && BuildPlan(p.installation, entries, protect) == Ok(p) {
      BuildPlanExact(p.installation, entries, protect);
    }
  }

  /** The digests of the retained records tell them from the removed ones. */
  lemma ProtectsRetained(p: Plan, entries: seq<Entry>)
    requires ValidPlan(p) && Elems(entries) == Elems(p.remove) + Elems(p.retain)
    ensures Chosen(entries, Digests(p.retain), true) == Elems(p.retain)
    ensures Chosen(entries, Digests(p.retain), false) == Elems(p.remove)
  {
    ValidPlanIff(p);
    forall e
      ensures e in entries <==> e in p.remove || e in p.retain
    {
      assert e in entries <==> e in Elems(entries);
    }
    forall e | e in p.remove
      ensures e.digest !in Digests(p.retain)
    {
    }
  }

  lemma SplitAgain(p: Plan, entries: seq<Entry>)
    requires ValidPlan(p) && p.beforeDigest == PartsDigest(p.remove, p.retain)
    requires Ordered(entries, DigestOf) && Elems(entries) == Elems(p.remove) + Elems(p.retain)
    ensures BuildPlan(p.installation, entries, Digests(p.retain)) == Ok(p)
  {
    var protect := Digests(p.retain);
    ValidPlanParts(p);
    ProtectsRetained(p, entries);
    SelectSound(entries, protect, true);
    SelectSound(entries, protect, false);
    OrderedUnique(Select(entries, protect, true), p.retain, DigestOf);
    OrderedUnique(Select(entries, protect, false), p.remove, DigestOf);
    SelectCount(entries, protect);
    assert p.retain != [] ==> p.retain[0].digest in protect;
    forall d | d in protect
      ensures d in Digests(entries)
    {
      var f :| f in p.retain && f.digest == d;
      assert f in Elems(entries);
    }
    assert Partition(p.installation, entries, protect) == p;
  }
}
