/** Accumulating durable artifact references, and the zero-reference proof before deletion. */
module ArtifactReferences {
  import opened Outcomes
  import opened MapSums

  const MAX_FACTS: nat := 1_000_000
  const U64_MAX: nat := 0xffff_ffff_ffff_ffff

  datatype ArtifactKind = Blob | ExpandedPackage

  datatype Source =
    | RegistryObservation | InstallationSnapshot | CurrentReceipt | RetainedReceipt | PendingPackageGraph
    | PluginLifecycleOperation | RuntimePlanPayload | ControlCommittedGeneration | ControlNonterminalOperation

  datatype Artifact = Artifact(kind: ArtifactKind, digest: nat)

  datatype Owner = Owner(artifact: Artifact, source: Source, installation: Option<nat>)

  datatype Fact = Fact(owner: Owner, bytes: Option<nat>, files: Option<nat>)

  datatype Expectation = Expectation(bytes: Option<nat>, files: Option<nat>)

  datatype ReferenceEntry = ReferenceEntry(bytes: Option<nat>, files: Option<nat>, count: nat)

  /** Expectations are positive, a blob has no file count, and all but the registry name an installation. */
  ghost predicate ValidFact(f: Fact) {
    && f.bytes != Some(0) && f.files != Some(0)
    && (f.owner.artifact.kind == Blob ==> f.files.None?)
    && (f.owner.source == RegistryObservation <==> f.owner.installation.None?)
  }

  /** Accepts exactly the valid facts. */
  method ValidateFact(f: Fact) returns (ok: bool)
    ensures ok <==> ValidFact(f)
  {
    if f.bytes == Some(0) || f.files == Some(0) || (f.owner.artifact.kind == Blob && f.files.Some?) {
      return false;
    }
    if f.owner.source == RegistryObservation {
      return f.owner.installation.None?;
    }
    ok := f.owner.installation.Some?;
  }

  function Merge(current: Option<nat>, candidate: Option<nat>): (r: Result<Option<nat>>) {
    if current.Some? && candidate.Some? && current != candidate then Err(Invalid)
    else if current.Some? then Ok(current)
    else Ok(candidate)
  }

  // ---- What a list of facts says ----

  datatype Aspect = Bytes | Files

  function Expected(f: Fact, x: Aspect): Option<nat> {
    if x == Bytes then f.bytes else f.files
  }

  ghost predicate Agree(f: Fact, g: Fact) {
    f.owner.artifact == g.owner.artifact ==>
      forall x :: Expected(f, x).Some? && Expected(g, x).Some? ==> Expected(f, x) == Expected(g, x)
  }

  ghost predicate Acceptable(facts: seq<Fact>) {
    && |facts| <= MAX_FACTS
    && (forall f :: f in facts ==> ValidFact(f))
    && (forall f, g :: f in facts && g in facts ==> Agree(f, g))
  }

  /** The expectation about an artifact, from whichever facts state one. */
  ghost function Merged(facts: seq<Fact>, a: Artifact, x: Aspect): (r: Option<nat>) {
    if facts == [] then None
    else
      var f := facts[|facts| - 1];
      var rest := Merged(facts[..|facts| - 1], a, x);
      if rest.None? && f.owner.artifact == a then Expected(f, x) else rest
  }

  ghost function Count(facts: seq<Fact>, o: Owner): (n: nat) {
    if facts == [] then 0
    else Count(facts[..|facts| - 1], o) + if facts[|facts| - 1].owner == o then 1 else 0
  }

  ghost function Owners(facts: seq<Fact>): set<Owner> {
    set f | f in facts :: f.owner
  }

  ghost function EntryOf(facts: seq<Fact>, o: Owner): ReferenceEntry {
    ReferenceEntry(Merged(facts, o.artifact, Bytes), Merged(facts, o.artifact, Files), Count(facts, o))
  }

  /** The finished inventory: one entry per owner, counted, with the merged expectation. */
  ghost function Inventory(facts: seq<Fact>): map<Owner, ReferenceEntry> {
    map o | o in Owners(facts) :: EntryOf(facts, o)
  }

  /** A merged expectation is exactly what some fact about the artifact states. */
  lemma {:induction false} MergedExact(facts: seq<Fact>, a: Artifact, x: Aspect, v: nat)
    requires forall f, g :: f in facts && g in facts ==> Agree(f, g)
    ensures Merged(facts, a, x) == Some(v) <==>
              exists f :: f in facts && f.owner.artifact == a && Expected(f, x) == Some(v)
  {
    if facts != [] {
      var front, last := facts[..|facts| - 1], facts[|facts| - 1];
      assert facts == front + [last];
      MergedExact(front, a, x, v);
      var rest := Merged(front, a, x);
      if rest.Some? {
        MergedExact(front, a, x, rest.value);
        var g :| g in front && g.owner.artifact == a && Expected(g, x) == rest;
        assert Agree(g, last) && g in facts && last in facts;
      }
      assert forall f :: f in facts <==> f in front || f == last;
    }
  }

  // ---- One more fact ----


  lemma CountOne(facts: seq<Fact>, f: Fact, o: Owner)
    ensures Count(facts + [f], o) == Count(facts, o) + if f.owner == o then 1 else 0
  {
    assert (facts + [f])[..|facts|] == facts;
  }


  /** Merging a fact's expectation fails exactly when an earlier fact disagrees with it. */
  lemma MergeDecides(facts: seq<Fact>, f: Fact, x: Aspect)
    requires Acceptable(facts)
    ensures var a := f.owner.artifact;
            var r := Merge(Merged(facts, a, x), Expected(f, x));
            && (r.Ok? <==> forall g ::
                             g in facts && g.owner.artifact == a && Expected(g, x).Some? && Expected(f, x).Some?
                             ==> Expected(g, x) == Expected(f, x))
            && (r.Ok? ==> r.value == Merged(facts + [f], a, x))
  {
    var a := f.owner.artifact;
    var m := Merged(facts, a, x);
    if m.Some? {
      MergedExact(facts, a, x, m.value);
      var g :| g in facts && g.owner.artifact == a && Expected(g, x) == m;
      forall h | h in facts && h.owner.artifact == a && Expected(h, x).Some?
        ensures Expected(h, x) == m
      {
        assert Agree(g, h);
      }
    } else {
      forall h | h in facts && h.owner.artifact == a
        ensures Expected(h, x).None?
      {
        if Expected(h, x).Some? {
          MergedExact(facts, a, x, Expected(h, x).value);
        }
      }
    }
  }

  lemma AgreementDecides(facts: seq<Fact>, f: Fact)
    requires Acceptable(facts)
    ensures var a := f.owner.artifact;
            (Merge(Merged(facts, a, Bytes), f.bytes).Ok? && Merge(Merged(facts, a, Files), f.files).Ok?) <==>
            forall g :: g in facts ==> Agree(g, f)
  {
    MergeDecides(facts, f, Bytes);
    MergeDecides(facts, f, Files);
    assert Expected(f, Bytes) == f.bytes && Expected(f, Files) == f.files;
    if forall g :: g in facts ==> Agree(g, f) {
      forall g, x | g in facts && g.owner.artifact == f.owner.artifact && Expected(g, x).Some? && Expected(f, x).Some?
        ensures Expected(g, x) == Expected(f, x)
      {
        assert Agree(g, f);
      }
    }
  }

  /** One more fact is accepted exactly if it is valid, fits, and merges with what is expected so far. */
  lemma ObserveDecides(facts: seq<Fact>, f: Fact)
    requires Acceptable(facts)
    ensures var a := f.owner.artifact;
            var bytes, files := Merge(Merged(facts, a, Bytes), f.bytes), Merge(Merged(facts, a, Files), f.files);
            && (Acceptable(facts + [f]) <==> ValidFact(f) && |facts| + 1 <= MAX_FACTS && bytes.Ok? && files.Ok?)
            && (bytes.Ok? ==> bytes.value == Merged(facts + [f], a, Bytes))
            && (files.Ok? ==> files.value == Merged(facts + [f], a, Files))
  {
    AgreementDecides(facts, f);
    MergeDecides(facts, f, Bytes);
    MergeDecides(facts, f, Files);
  }

  // ---- Order independence ----

  lemma {:induction false} CountConcat(a: seq<Fact>, b: seq<Fact>, o: Owner)
    ensures Count(a + b, o) == Count(a, o) + Count(b, o)
    decreases |b|
  {
    if b == [] {
      assert a + b == a;
    } else {
      var n := |b| - 1;
      assert (a + b)[..|a + b| - 1] == a + b[..n];
      CountConcat(a, b[..n], o);
    }
  }

  lemma CountTake(facts: seq<Fact>, i: nat, o: Owner)
    requires i < |facts|
    ensures Count(facts, o) == Count(facts[..i] + facts[i + 1..], o) + if facts[i].owner == o then 1 else 0
  {
    var front, mid, back := facts[..i], [facts[i]], facts[i + 1..];
    assert facts == front + (mid + back);
    CountConcat(front, mid + back, o);
    CountConcat(mid, back, o);
    CountConcat(front, back, o);
    assert Count(mid[..0], o) == 0;
  }

  lemma {:induction false} CountOrderFree(a: seq<Fact>, b: seq<Fact>, o: Owner)
    requires multiset(a) == multiset(b)
    ensures Count(a, o) == Count(b, o)
    decreases |a|
  {
    if a == [] {
      assert |multiset(b)| == 0;
    } else {
      var front, last := a[..|a| - 1], a[|a| - 1];
      assert a == front + [last];
      assert last in multiset(b);
      var i :| 0 <= i < |b| && b[i] == last;
      var rest := b[..i] + b[i + 1..];
      assert b == b[..i] + [last] + b[i + 1..];
      assert multiset(rest) == multiset(b) - multiset{last};
      CountOrderFree(front, rest, o);
      CountTake(b, i, o);
    }
  }

  lemma SameMembers(a: seq<Fact>, b: seq<Fact>)
    requires multiset(a) == multiset(b)
    ensures forall f :: f in a <==> f in b
    ensures |a| == |b|
  {
    assert forall f :: f in a <==> f in multiset(a);
    assert forall f :: f in b <==> f in multiset(b);
    assert |a| == |multiset(a)| && |b| == |multiset(b)|;
  }

  lemma MergedOrderFree(a: seq<Fact>, b: seq<Fact>, k: Artifact, x: Aspect)
    requires multiset(a) == multiset(b) && Acceptable(a) && Acceptable(b)
    ensures Merged(a, k, x) == Merged(b, k, x)
  {
    SameMembers(a, b);
    if Merged(a, k, x).Some? {
      var v := Merged(a, k, x).value;
      MergedExact(a, k, x, v);
      MergedExact(b, k, x, v);
    } else if Merged(b, k, x).Some? {
      var v := Merged(b, k, x).value;
      MergedExact(a, k, x, v);
      MergedExact(b, k, x, v);
    }
  }

  /** Acceptance and the finished inventory depend only on which facts were observed, not on their order. */
  lemma InventoryOrderFree(a: seq<Fact>, b: seq<Fact>)
    requires multiset(a) == multiset(b)
    ensures Acceptable(a) <==> Acceptable(b)
    ensures Acceptable(a) ==> Inventory(a) == Inventory(b)
  {
    SameMembers(a, b);
    if Acceptable(a) {
      assert Owners(a) == Owners(b);
      forall o | o in Owners(a)
        ensures EntryOf(a, o) == EntryOf(b, o)
      {
        CountOrderFree(a, b, o);
        MergedOrderFree(a, b, o.artifact, Bytes);
        MergedOrderFree(a, b, o.artifact, Files);
      }
    }
  }

  // ---- The accumulator ----

  class ReferenceAccumulator {
    var entries: map<Owner, ReferenceEntry>
    var expectations: map<Artifact, Expectation>
    var facts: nat
    /** The facts observed so far. */
    ghost var seen: seq<Fact>

    ghost predicate Valid()
      reads this
    {
      && Acceptable(seen)
      && facts == |seen|
      && entries.Keys == Owners(seen)
      && (forall o :: o in entries ==> entries[o].count == Count(seen, o))
      && (forall a :: a in expectations <==> exists f :: f in seen && f.owner.artifact == a)
      && (forall a :: a in expectations ==>
            expectations[a] == Expectation(Merged(seen, a, Bytes), Merged(seen, a, Files)))
    }

    constructor ()
      ensures Valid() && seen == []
    {
      entries, expectations, facts, seen := map[], map[], 0, [];
    }

    /** Observe one fact; it is rejected exactly when the facts so far and it are not acceptable together. */
    method Observe(f: Fact) returns (r: Result<nat>)
      requires Valid()
      modifies this
      ensures r.Ok? <==> Acceptable(old(seen) + [f])
      ensures r.Ok? ==> Valid() && seen == old(seen) + [f] && r.value == |seen|
    {
      ObserveDecides(seen, f);
      var ok := ValidateFact(f);
      if !ok {
        return Err(Invalid);
      }
      facts := facts + 1;
      if facts > MAX_FACTS {
        return Err(LimitExceeded);
      }
      var a := f.owner.artifact;
      var e := if a in expectations then expectations[a] else Expectation(None, None);
      NoneYet(seen, a);
      var bytes := Merge(e.bytes, f.bytes);
      if bytes.Err? {
        return Err(bytes.error);
      }
      var files := Merge(e.files, f.files);
      if files.Err? {
        return Err(files.error);
      }
      expectations := expectations[a := Expectation(bytes.value, files.value)];
      entries := entries[f.owner :=
        if f.owner in entries then entries[f.owner].(count := entries[f.owner].count + 1)
        else ReferenceEntry(f.bytes, f.files, 1)];
      KeepValid(seen, f, old(entries), entries, old(expectations), expectations);
      seen := seen + [f];
      r := Ok(facts);
    }

    /** Give every entry the expectation merged across all sources. */
    method Finish() returns (inventory: map<Owner, ReferenceEntry>)
      requires Valid()
      ensures inventory == Inventory(seen)
    {
      inventory := map o | o in entries ::
        entries[o].(bytes := expectations[o.artifact].bytes, files := expectations[o.artifact].files);
    }
  }

  lemma NoneYet(facts: seq<Fact>, a: Artifact)
    ensures (forall f :: f in facts ==> f.owner.artifact != a) ==>
              Merged(facts, a, Bytes) == None && Merged(facts, a, Files) == None
  {
    if forall f :: f in facts ==> f.owner.artifact != a {
      NoneMerged(facts, a, Bytes);
      NoneMerged(facts, a, Files);
    }
  }

  lemma {:induction false} NoneMerged(facts: seq<Fact>, a: Artifact, x: Aspect)
    requires forall f :: f in facts ==> f.owner.artifact != a
    ensures Merged(facts, a, x) == None
  {
    if facts != [] {
      NoneMerged(facts[..|facts| - 1], a, x);
    }
  }

  lemma {:induction false} NotCounted(facts: seq<Fact>, o: Owner)
    ensures Count(facts, o) > 0 <==> o in Owners(facts)
  {
    if facts != [] {
      var front, last := facts[..|facts| - 1], facts[|facts| - 1];
      assert facts == front + [last];
      NotCounted(front, o);
      assert Owners(facts) == Owners(front) + {last.owner};
    }
  }

  /** The two maps stay in step with the facts. */
  lemma KeepValid(
    facts: seq<Fact>, f: Fact,
    entries: map<Owner, ReferenceEntry>, entries': map<Owner, ReferenceEntry>,
    expectations: map<Artifact, Expectation>, expectations': map<Artifact, Expectation>)
    requires entries.Keys == Owners(facts)
    requires forall o :: o in entries ==> entries[o].count == Count(facts, o)
    requires forall a :: a in expectations <==> exists g :: g in facts && g.owner.artifact == a
    requires forall a :: a in expectations ==>
               expectations[a] == Expectation(Merged(facts, a, Bytes), Merged(facts, a, Files))
    requires f.owner in entries'
    requires entries'[f.owner].count == (if f.owner in entries then entries[f.owner].count else 0) + 1
    requires entries' == entries[f.owner := entries'[f.owner]]
    requires var a := f.owner.artifact;
             expectations' ==
             expectations[a := Expectation(Merged(facts + [f], a, Bytes), Merged(facts + [f], a, Files))]
    ensures entries'.Keys == Owners(facts + [f])
    ensures forall o :: o in entries' ==> entries'[o].count == Count(facts + [f], o)
    ensures forall a :: a in expectations' <==> exists g :: g in facts + [f] && g.owner.artifact == a
    ensures forall a :: a in expectations' ==>
              expectations'[a] == Expectation(Merged(facts + [f], a, Bytes), Merged(facts + [f], a, Files))
  {
    assert Owners(facts + [f]) == Owners(facts) + {f.owner};
    forall o | o in entries'
      ensures entries'[o].count == Count(facts + [f], o)
    {
      CountOne(facts, f, o);
      NotCounted(facts, o);
    }
    forall a
      ensures a in expectations' <==> exists g :: g in facts + [f] && g.owner.artifact == a
    {
      if a in expectations {
        var g :| g in facts && g.owner.artifact == a;
        assert g in facts + [f];
      }
      assert f in facts + [f];
    }
  }

  /**
   * Fold a list of facts. It succeeds exactly on acceptable lists, and yields their
   * inventory.
   */
  method Accumulate(list: seq<Fact>) returns (r: Result<map<Owner, ReferenceEntry>>)
    ensures r.Ok? <==> Acceptable(list)
    ensures r.Ok? ==> r.value == Inventory(list)
  {
    var acc := new ReferenceAccumulator();
    for i := 0 to |list|
      invariant acc.Valid() && acc.seen == list[..i]
      invariant fresh(acc)
    {
      assert list[..i + 1] == list[..i] + [list[i]];
      var step := acc.Observe(list[i]);
      if step.Err? {
        assert forall f :: f in list[..i + 1] ==> f in list;
        return Err(step.error);
      }
    }
    assert list[..|list|] == list;
    var inventory := acc.Finish();
    r := Ok(inventory);
  }

  // ---- Targets ----

  /** How many facts name a target. */
  ghost function Naming(facts: seq<Fact>, targets: set<Artifact>): (n: nat)
    ensures n <= |facts|
  {
    if facts == [] then 0
    else Naming(facts[..|facts| - 1], targets) + if facts[|facts| - 1].owner.artifact in targets then 1 else 0
  }

  /** The counts of the owners that name a target. */
  ghost function TargetCounts(inventory: map<Owner, ReferenceEntry>, targets: set<Artifact>): map<Owner, nat> {
    map o | o in inventory && o.artifact in targets :: inventory[o].count
  }

  /** Grouping facts by owner loses none of them and invents none. */
  lemma {:induction false} CountsAreConserved(facts: seq<Fact>, targets: set<Artifact>)
    ensures Sum(TargetCounts(Inventory(facts), targets)) == Naming(facts, targets)
  {
    if facts == [] {
      assert TargetCounts(Inventory(facts), targets) == map[];
    } else {
      var front, last := facts[..|facts| - 1], facts[|facts| - 1];
      assert facts == front + [last];
      CountsAreConserved(front, targets);
      var before, after := TargetCounts(Inventory(front), targets), TargetCounts(Inventory(facts), targets);
      CountsGrow(front, last, targets);
      if last.owner.artifact in targets {
        SumPut(before, last.owner, Count(facts, last.owner));
      }
    }
  }

  lemma CountsGrow(front: seq<Fact>, last: Fact, targets: set<Artifact>)
    ensures var before := TargetCounts(Inventory(front), targets);
            var after := TargetCounts(Inventory(front + [last]), targets);
            && after == (if last.owner.artifact in targets
                         then before[last.owner := Count(front + [last], last.owner)]
                         else before)
            && (last.owner.artifact in targets ==>
                  Count(front + [last], last.owner) == (if last.owner in before then before[last.owner] else 0) + 1)
  {
    assert Owners(front + [last]) == Owners(front) + {last.owner};
    forall o
      ensures Count(front + [last], o) == Count(front, o) + if last.owner == o then 1 else 0
    {
      CountOne(front, last, o);
    }
    NotCounted(front, last.owner);
  }

  /** Every fact is counted exactly once. */
  lemma TotalIsFactCount(facts: seq<Fact>, targets: set<Artifact>)
    requires forall f :: f in facts ==> f.owner.artifact in targets
    ensures Sum(TargetCounts(Inventory(facts), targets)) == |facts|
  {
    CountsAreConserved(facts, targets);
    AllNamed(facts, targets);
  }

  lemma {:induction false} AllNamed(facts: seq<Fact>, targets: set<Artifact>)
    requires forall f :: f in facts ==> f.owner.artifact in targets
    ensures Naming(facts, targets) == |facts|
  {
    if facts != [] {
      AllNamed(facts[..|facts| - 1], targets);
    }
  }

  lemma {:induction false} NoneNamed(facts: seq<Fact>, targets: set<Artifact>)
    ensures Naming(facts, targets) == 0 <==> forall f :: f in facts ==> f.owner.artifact !in targets
  {
    if facts != [] {
      var front, last := facts[..|facts| - 1], facts[|facts| - 1];
      assert facts == front + [last];
      NoneNamed(front, targets);
    }
  }
}
