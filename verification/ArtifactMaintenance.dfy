/** Reference-aware deletion: the zero-reference proof and the collection it gates. */
module ArtifactMaintenance {
  import opened Outcomes
  import opened MapSums
  import opened ArtifactReferences

  datatype Summary = Summary(referenceCount: nat, ownerGroups: nat, referencedTargets: nat)

  ghost function NamedTargets(facts: seq<Fact>, targets: set<Artifact>): set<Artifact> {
    set f | f in facts && f.owner.artifact in targets :: f.owner.artifact
  }

  /** What the summary must say about the raw facts. */
  ghost predicate Summarizes(s: Summary, facts: seq<Fact>, targets: set<Artifact>) {
    && s.referenceCount == Naming(facts, targets)
    && s.ownerGroups == |set o | o in Owners(facts) && o.artifact in targets|
    && s.referencedTargets == |NamedTargets(facts, targets)|
  }

  ghost function Artifacts(owners: set<Owner>): set<Artifact> {
    set o | o in owners :: o.artifact
  }

  lemma {:induction false} ImageSize(owners: set<Owner>)
    ensures |Artifacts(owners)| <= |owners|
    decreases owners
  {
    if owners == {} {
      assert Artifacts(owners) == {};
    } else {
      var o :| o in owners;
      ImageSize(owners - {o});
      assert Artifacts(owners) == Artifacts(owners - {o}) + {o.artifact};
    }
  }

  /** Referenced targets, owner groups and references are ordered as their grouping says. */
  lemma SummaryOrdered(s: Summary, facts: seq<Fact>, targets: set<Artifact>)
    requires Summarizes(s, facts, targets)
    ensures s.referencedTargets <= s.ownerGroups <= s.referenceCount <= |facts|
    ensures s.referenceCount == 0 <==> forall f :: f in facts ==> f.owner.artifact !in targets
  {
    var counts := TargetCounts(Inventory(facts), targets);
    var owners := set o | o in Owners(facts) && o.artifact in targets;
    assert counts.Keys == owners;
    forall o | o in counts
      ensures counts[o] >= 1
    {
      NotCounted(facts, o);
    }
    SumBound(counts);
    CountsAreConserved(facts, targets);
    ImageSize(owners);
    assert Artifacts(owners) == NamedTargets(facts, targets);
    NoneNamed(facts, targets);
  }

  /** Counters while the inventory is walked: exactly what the owners walked so far contribute. */
  ghost predicate Walked(done: map<Owner, nat>, count: nat, groups: nat, referenced: set<Artifact>) {
    count == Sum(done) && groups == |done| && referenced == Artifacts(done.Keys)
  }

  lemma WalkOne(done: map<Owner, nat>, o: Owner, n: nat, count: nat, groups: nat, referenced: set<Artifact>)
    requires Walked(done, count, groups, referenced) && o !in done
    ensures Walked(done[o := n], count + n, groups + 1, referenced + {o.artifact})
  {
    SumAdd(done, o, n);
    assert done[o := n].Keys == done.Keys + {o};
  }

  lemma WalkedAll(facts: seq<Fact>, targets: set<Artifact>, count: nat, groups: nat, referenced: set<Artifact>)
    requires Walked(TargetCounts(Inventory(facts), targets), count, groups, referenced)
    ensures Summarizes(Summary(count, groups, |referenced|), facts, targets)
  {
    var all := TargetCounts(Inventory(facts), targets);
    CountsAreConserved(facts, targets);
    assert all.Keys == set o | o in Owners(facts) && o.artifact in targets;
    assert |all| == |all.Keys|;
    assert Artifacts(all.Keys) == NamedTargets(facts, targets);
  }

  /** The counters stay within the number of facts. */
  lemma WalkedBound(facts: seq<Fact>, targets: set<Artifact>, rest: set<Owner>, done: map<Owner, nat>)
    requires Acceptable(facts) && Walking(Inventory(facts), targets, rest, done)
    ensures Sum(done) <= MAX_FACTS
  {
    SumSubmap(done, TargetCounts(Inventory(facts), targets));
    CountsAreConserved(facts, targets);
  }

  /**
   * Summarize the references to a set of targets. For every list of raw facts the reference
   * count is exactly the number of facts that name a target, and no counter overflows.
   */
  method TargetSummary(inventory: map<Owner, ReferenceEntry>, targets: set<Artifact>, ghost facts: seq<Fact>)
    returns (r: Result<Summary>)
    requires Acceptable(facts) && inventory == Inventory(facts)
    ensures r.Ok? && Summarizes(r.value, facts, targets)
  {
    var count: nat, groups: nat, referenced: set<Artifact> := 0, 0, {};
    var rest := inventory.Keys;
    ghost var done: map<Owner, nat> := map[];
    while rest != {}
      invariant Walking(inventory, targets, rest, done) && Walked(done, count, groups, referenced)
      decreases rest
    {
      var o :| o in rest;
      WalkOn(inventory, targets, rest, done, o);
      if o.artifact in targets {
        WalkOne(done, o, inventory[o].count, count, groups, referenced);
        done := done[o := inventory[o].count];
        WalkedBound(facts, targets, rest - {o}, done);
        assert count + inventory[o].count <= U64_MAX;
        count := count + inventory[o].count;
        groups := groups + 1;
        referenced := referenced + {o.artifact};
      }
      rest := rest - {o};
    }
    WalkedOut(inventory, targets, done);
    WalkedAll(facts, targets, count, groups, referenced);
    r := Ok(Summary(count, groups, |referenced|));
  }

  /** The owners of targets are walked or still to come, never both. */
  ghost predicate Walking(
    inventory: map<Owner, ReferenceEntry>, targets: set<Artifact>, rest: set<Owner>, done: map<Owner, nat>)
  {
    var all := TargetCounts(inventory, targets);
    && rest <= inventory.Keys && rest !! done.Keys
    && done.Keys <= all.Keys && (forall o :: o in done ==> done[o] == all[o])
    && (forall o :: o in all ==> o in done || o in rest)
  }

  lemma WalkOn(
    inventory: map<Owner, ReferenceEntry>, targets: set<Artifact>, rest: set<Owner>, done: map<Owner, nat>, o: Owner)
    requires Walking(inventory, targets, rest, done) && o in rest
    ensures o !in done
    ensures Walking(inventory, targets, rest - {o},
                    if o.artifact in targets then done[o := inventory[o].count] else done)
  {}

  lemma WalkedOut(inventory: map<Owner, ReferenceEntry>, targets: set<Artifact>, done: map<Owner, nat>)
    requires Walking(inventory, targets, {}, done)
    ensures done == TargetCounts(inventory, targets)
  {}

  /** A deletion plan is confirmed by its digest, here the plan itself. */
  datatype CollectionPlan = CollectionPlan(targets: set<Artifact>)

  class ArtifactStore {
    var contents: set<Artifact>
    /** Durably completed collections and what they removed. */
    var completed: map<CollectionPlan, set<Artifact>>

    constructor (contents: set<Artifact>)
      ensures this.contents == contents && completed == map[]
    {
      this.contents, completed := contents, map[];
    }

    method RequireUnreferenced(targets: set<Artifact>, facts: seq<Fact>) returns (r: Result<nat>)
      ensures r.Ok? <==> Acceptable(facts) && forall f :: f in facts ==> f.owner.artifact !in targets
    {
      var inventory := Accumulate(facts);
      if inventory.Err? {
        return Err(inventory.error);
      }
      var summary := TargetSummary(inventory.value, targets, facts);
      SummaryOrdered(summary.value, facts, targets);
      if summary.value.referenceCount != 0 {
        return Err(Referenced);
      }
      r := Ok(0);
    }

    /** Plan a collection: only targets without any durable owner. */
    method PlanCollection(targets: set<Artifact>, facts: seq<Fact>) returns (r: Result<CollectionPlan>)
      ensures r.Ok? <==> Acceptable(facts) && forall f :: f in facts ==> f.owner.artifact !in targets
      ensures r.Ok? ==> r.value == CollectionPlan(targets)
    {
      var proof := RequireUnreferenced(targets, facts);
      r := if proof.Ok? then Ok(CollectionPlan(targets)) else Err(proof.error);
    }

    /**
     * Apply a confirmed plan under the collection guard, with the facts as they are now. A
     * completed plan is replayed whatever the facts say and nothing is touched; otherwise
     * deletion happens only when no fact names any target, so no artifact that a fact
     * names is ever deleted.
     */
    method ApplyCollection(targets: set<Artifact>, expected: CollectionPlan, facts: seq<Fact>)
      returns (r: Result<set<Artifact>>)
      modifies this
      ensures expected in old(completed) && expected.targets == targets ==>
                r == Ok(old(completed)[expected]) && contents == old(contents) && completed == old(completed)
      ensures !(expected in old(completed) && expected.targets == targets) ==>
                && (r.Ok? <==>
                      && Acceptable(facts) && (forall f :: f in facts ==> f.owner.artifact !in targets)
                      && expected == CollectionPlan(targets))
                && (r.Ok? ==> r.value == old(contents) * targets
                              && contents == old(contents) - targets
                              && completed == old(completed)[expected := r.value])
      ensures r.Err? ==> contents == old(contents) && completed == old(completed)
      ensures forall f :: f in facts && f.owner.artifact in old(contents) ==> f.owner.artifact in contents
    {
      if expected in completed && expected.targets == targets {
        return Ok(completed[expected]);
      }
      var proof := RequireUnreferenced(targets, facts);
      if proof.Err? {
        return Err(proof.error);
      }
      if expected != CollectionPlan(targets) {
        return Err(Stale);
      }
      var removed := contents * targets;
      contents := contents - targets;
      completed := completed[expected := removed];
      r := Ok(removed);
    }
  }
}
