/** The catalog store: publication, reads, planning and the retention loop, over one directory. */
module CatalogRetention {
  import opened Outcomes
  import opened DigestOrder
  import opened RetentionPlan
  import opened RetentionJournal
  import opened RetentionProtocol

  datatype Outcome = Outcome(changed: bool, removed: seq<Entry>, retainedCount: nat)

  function Without(es: seq<Entry>, d: Digest): (r: seq<Entry>) {
    if es == [] then []
    else if es[0].digest == d then Without(es[1..], d)
    else [es[0]] + Without(es[1..], d)
  }

  lemma {:induction false} WithoutSound(es: seq<Entry>, d: Digest)
    requires Ordered(es, DigestOf)
    ensures Ordered(Without(es, d), DigestOf)
    ensures forall e :: e in Without(es, d) <==> e in es && e.digest != d
  {
    if es != [] {
      TailOrdered(es, 1);
      WithoutSound(es[1..], d);
      assert forall e :: e in es <==> e == es[0] || e in es[1..];
      HeadIsLeast(es);
      if es[0].digest != d {
        PrependOrdered(es[0], Without(es[1..], d));
      }
    }
  }

  lemma HeadIsLeast(es: seq<Entry>)
    requires Ordered(es, DigestOf) && es != []
    ensures forall e :: e in es[1..] ==> DigestOf(es[0]) < DigestOf(e)
  {
    forall e | e in es[1..]
      ensures DigestOf(es[0]) < DigestOf(e)
    {
      var i :| 0 <= i < |es[1..]| && es[1..][i] == e;
    }
  }

  lemma PrependOrdered(x: Entry, es: seq<Entry>)
    requires Ordered(es, DigestOf) && forall e :: e in es ==> DigestOf(x) < DigestOf(e)
    ensures Ordered([x] + es, DigestOf)
  {}

  /** The listing expected once the announced unlink has happened is the next checkpoint's. */
  lemma AfterInFlight(p: Plan, i: nat)
    requires ValidPlan(p) && i < |p.remove|
    ensures Without(Expected(p, i), p.remove[i].digest) == Expected(p, i + 1)
  {
    var now, next := Expected(p, i), Expected(p, i + 1);
    ExpectedDecides(p, i, []);
    ExpectedDecides(p, i + 1, []);
    WithoutSound(now, p.remove[i].digest);
    HeldStep(p, i);
    HeldBounds(p, i);
    var w := Without(now, p.remove[i].digest);
    forall e
      ensures e in Elems(w) <==> e in Elems(next)
    {
      assert e in now <==> e in Elems(now);
    }
    OrderedUnique(w, next, DigestOf);
  }

  /** A plan as reviewed: valid, for this installation, confirmed by its own digest. */
  predicate Confirmed(plan: Plan, digest: PlanDigest, installation: nat) {
    ValidPlan(plan) && plan.installation == installation && digest == PlanDigest(plan)
  }

  /** The plan was reviewed against exactly this inventory. */
  ghost predicate Reviewed(plan: Plan, held: set<Entry>) {
    held == Held(plan, 0) && plan.beforeDigest == PartsDigest(plan.remove, plan.retain)
  }

  /** The outcome of comparing the journal's progress with the directory listing. */
  datatype Verdict = InStep | UnlinkUnrecorded | Differs(error: Error)

  function Compare(p: Progress, current: seq<Entry>): (v: Verdict)
    requires p.removedCount <= |p.plan.remove|
    requires p.inFlight.Some? ==> p.inFlight.value < |p.plan.remove|
  {
    if p.completed then
      if current != p.plan.retain then Differs(OutcomeUnknown) else InStep
    else if p.inFlight.Some? then
      if current == Expected(p.plan, p.removedCount) then InStep
      else if current == Without(Expected(p.plan, p.removedCount), p.plan.remove[p.inFlight.value].digest)
      then UnlinkUnrecorded
      else Differs(OutcomeUnknown)
    else if current != Expected(p.plan, p.removedCount) then
      Differs(if p.removedCount == 0 then Stale else OutcomeUnknown)
    else InStep
  }

  /** Progress as some journal means it. */
  ghost predicate Coherent(p: Progress) {
    && ValidPlan(p.plan) && p.removedCount <= |p.plan.remove|
    && (p.inFlight.Some? ==> p.inFlight.value == p.removedCount < |p.plan.remove|)
    && (p.completed ==> p.removedCount == |p.plan.remove| && p.inFlight.None?)
  }

  /**
   * The verdict tells exactly which of the two agreeing inventories the directory holds, or
   * that it holds neither; that nothing has been removed yet makes a difference a stale plan.
   */
  lemma CompareExact(p: Progress, current: seq<Entry>)
    requires Coherent(p) && Ordered(current, DigestOf)
    ensures Compare(p, current) == InStep <==> Elems(current) == Held(p.plan, p.removedCount)
    ensures Compare(p, current) == UnlinkUnrecorded <==>
              p.inFlight.Some? && Elems(current) == Held(p.plan, p.removedCount + 1)
    ensures Compare(p, current).Differs? <==> !Agrees(Elems(current), p)
    ensures Compare(p, current) == Differs(Stale) <==>
              !Agrees(Elems(current), p) && !p.completed && p.inFlight.None? && p.removedCount == 0
    ensures Compare(p, current).Differs? ==>
              Compare(p, current).error == Stale || Compare(p, current).error == OutcomeUnknown
  {
    ExpectedDecides(p.plan, p.removedCount, current);
    if p.completed {
      ValidPlanParts(p.plan);
      HeldBounds(p.plan, p.removedCount);
      if Elems(current) == Elems(p.plan.retain) {
        OrderedUnique(current, p.plan.retain, DigestOf);
      }
    } else if p.inFlight.Some? {
      AfterInFlight(p.plan, p.removedCount);
      ExpectedDecides(p.plan, p.removedCount + 1, current);
      HeldStep(p.plan, p.removedCount);
    }
  }

  class CatalogStore {
    const installation: nat
    var held: set<Entry>
    var journal: Option<Journal>
    /** Every state the directory has been in. */
    ghost var history: seq<Store>

    ghost function Current(): Store
      reads this
    {
      Store(held, journal)
    }

    ghost predicate Valid()
      reads this
    {
      && Inv(Current())
      && history != []
      && history[|history| - 1] == Current()
      && IsRun(history)
    }

    constructor (installation: nat)
      ensures Valid()
      ensures Current() == Store({}, None) && history == [Current()]
      ensures this.installation == installation
    {
      this.installation := installation;
      held, journal := {}, None;
      history := [Store({}, None)];
    }

    method MoveTo(next: Store, ghost step: Step)
      requires Valid() && NextStep(Current(), next, step)
      modifies this
      ensures Valid() && Current() == next && history == old(history) + [next]
    {
      InvStep(Current(), next, step);
      held, journal := next.held, next.journal;
      history := history + [next];
      forall i: nat | i + 1 < |history|
        ensures StepAt(history, i)
      {
        if i + 2 < |history| {
          assert StepAt(old(history), i);
        }
      }
    }

    /** Write the next record: the file passes through a torn and an unterminated tail. */
    method AppendRecord()
      requires Valid() && journal.Some? && journal.value.tail.Whole?
      requires journal.value.records < LogLength(journal.value.plan)
      requires held == Held(journal.value.plan, journal.value.records / 2)
      modifies this
      ensures Valid() && old(history) <= history
      ensures held == old(held)
      ensures journal == Some(old(journal).value.(records := old(journal).value.records + 1))
    {
      var j := journal.value;
      MoveTo(Store(held, Some(j.(tail := Torn))), WriteTail(Torn));
      MoveTo(Store(held, Some(j.(tail := Bare))), WriteTail(Bare));
      MoveTo(Store(held, Some(Journal(j.plan, j.records + 1, Whole))), FinishRecord);
    }

    /** Reopen the journal, cutting off or completing a torn tail. */
    method LoadJournal() returns (r: Result<Option<Progress>>)
      requires Valid()
      modifies this
      ensures Valid() && old(history) <= history && held == old(held)
      ensures journal.None? <==> old(journal).None?
      ensures old(journal).None? ==> r == Ok(None) && history == old(history)
      ensures old(journal).Some? && Readable(old(journal).value) == 0 ==> r == Err(Invalid) && history == old(history)
      ensures old(journal).Some? && Readable(old(journal).value) > 0 ==>
                && journal == Some(Journal(old(journal).value.plan, Readable(old(journal).value), Whole))
                && r == Ok(Some(ProgressAt(journal.value.plan, journal.value.records)))
    {
      if journal.None? {
        return Ok(None);
      }
      var j := journal.value;
      if Readable(j) == 0 {
        return Err(Invalid);
      }
      if j.tail.Torn? {
        MoveTo(Store(held, Some(j.(tail := Whole))), Repair);
      } else if j.tail.Bare? {
        MoveTo(Store(held, Some(Journal(j.plan, j.records + 1, Whole))), FinishRecord);
      }
      r := Ok(Some(ProgressAt(journal.value.plan, journal.value.records)));
    }

    /** The journal is open, with this progress. */
    ghost predicate Open(p: Progress)
      reads this
    {
      && journal.Some? && journal.value.tail.Whole?
      && 1 <= journal.value.records <= LogLength(journal.value.plan)
      && p == ProgressAt(journal.value.plan, journal.value.records)
    }

    /** Compare the journal with the directory; record an unlink that was interrupted before its record. */
    method Reconcile(p: Progress, current: seq<Entry>) returns (r: Result<Progress>)
      requires Valid() && Open(p)
      requires Ordered(current, DigestOf) && Elems(current) == held
      modifies this
      ensures Valid() && old(history) <= history && held == old(held)
      ensures r.Ok? && Open(r.value) && r.value.plan == p.plan
      ensures journal.value.records >= old(journal).value.records
      ensures r.value.removedCount <= |p.plan.remove| && held == Held(p.plan, r.value.removedCount)
    {
      JournalAgrees(held, journal.value);
      CompareExact(p, current);
      match Compare(p, current) {
        case InStep => r := Ok(p);
        case UnlinkUnrecorded =>
          AppendRecord();
          r := Ok(ProgressAt(p.plan, journal.value.records));
        case Differs(_) => assert false;
      }
    }

    /** Unlink the announced record and record it as done. */
    method UnlinkAnnounced(entry: Entry) returns (r: Result<Progress>)
      requires Valid() && journal.Some? && journal.value.tail.Whole? && InFlight(journal.value)
      requires held == Held(journal.value.plan, Done(journal.value))
      requires entry == journal.value.plan.remove[Done(journal.value)]
      modifies this
      ensures Valid() && old(history) <= history
      ensures r.Ok? && Open(r.value) && r.value.plan == old(journal).value.plan
      ensures journal.value.records == old(journal).value.records + 1
    {
      HeldStep(journal.value.plan, Done(journal.value));
      if entry !in held {
        return Err(OutcomeUnknown);
      }
      MoveTo(Store(held - {entry}, journal), Unlink);
      AppendRecord();
      r := Ok(ProgressAt(journal.value.plan, journal.value.records));
    }

    /** Announce the next removal unless it is announced already, then make it. */
    method RemoveNext(p: Progress) returns (r: Result<Progress>)
      requires Valid() && Open(p) && !p.completed
      requires p.removedCount < |p.plan.remove| && held == Held(p.plan, p.removedCount)
      modifies this
      ensures Valid() && old(history) <= history
      ensures r.Ok? && Open(r.value) && r.value.plan == p.plan
      ensures journal.value.records > old(journal).value.records
    {
      JournalMeans(journal.value);
      var index := if p.inFlight.Some? then p.inFlight.value else p.removedCount;
      var entry := p.plan.remove[index];
      HeldStep(p.plan, index);
      if entry !in held {
        return Err(Stale);
      }
      Announce(p);
      r := UnlinkAnnounced(entry);
    }

    /** Announce the next removal unless it is announced already. */
    method Announce(p: Progress)
      requires Valid() && Open(p) && !p.completed
      requires p.removedCount < |p.plan.remove| && held == Held(p.plan, p.removedCount)
      modifies this
      ensures Valid() && old(history) <= history && held == old(held)
      ensures journal.Some? && journal.value.tail.Whole? && InFlight(journal.value) && journal.value.plan == p.plan
      ensures Done(journal.value) == p.removedCount && journal.value.records >= old(journal).value.records
    {
      JournalMeans(journal.value);
      if p.inFlight.None? {
        AppendRecord();
      }
    }

    /** All removals are recorded: write the terminal checkpoint and retire the journal. */
    method Finish(p: Progress, retainedCount: nat) returns (r: Result<Outcome>)
      requires Valid() && Open(p)
      requires p.removedCount == |p.plan.remove| && held == Elems(p.plan.retain)
      modifies this
      ensures Valid() && old(history) <= history
      ensures r == Ok(Outcome(p.plan.remove != [], p.plan.remove, retainedCount))
      ensures Current() == Store(Elems(p.plan.retain), None)
    {
      HeldBounds(p.plan, p.removedCount);
      assert p.plan.remove[..p.removedCount] == p.plan.remove;
      if !p.completed {
        AppendRecord();
      }
      var removed := p.plan.remove[..p.removedCount];
      MoveTo(Store(held, None), Retire);
      r := Ok(Outcome(removed != [], removed, retainedCount));
    }

    /** One round of recovery: reconcile, then either finish or make one more removal. */
    method Round(p: Progress) returns (r: Option<Result<Outcome>>, next: Progress)
      requires Valid() && Open(p)
      modifies this
      ensures Valid() && old(history) <= history
      ensures r.None? ==> Open(next) && next.plan == p.plan && journal.value.records > old(journal).value.records
      ensures r.Some? ==>
                && r.value == Ok(Outcome(p.plan.remove != [], p.plan.remove, |p.plan.retain|))
                && Current() == Store(Elems(p.plan.retain), None)
    {
      var current := List(held, DigestOf);
      var reconciled := Reconcile(p, current);
      next := reconciled.value;
      if next.completed || next.removedCount >= |p.plan.remove| {
        IsRetained(p.plan, current);
        var outcome := Finish(next, |current|);
        r := Some(outcome);
      } else {
        var removal := RemoveNext(next);
        r, next := None, removal.value;
      }
    }

    /** The recovery loop over an open journal. */
    method Drain(start: Progress) returns (r: Result<Outcome>)
      requires Valid() && Open(start)
      modifies this
      ensures Valid() && old(history) <= history
      ensures r == Ok(Outcome(start.plan.remove != [], start.plan.remove, |start.plan.retain|))
      ensures Current() == Store(Elems(start.plan.retain), None)
    {
      var p := start;
      var outcome: Option<Result<Outcome>>;
      outcome, p := Round(p);
      while outcome.None?
        invariant Valid() && old(history) <= history
        invariant outcome.None? ==> Open(p) && p.plan == start.plan
        invariant outcome.Some? ==>
                    && outcome.value == Ok(Outcome(start.plan.remove != [], start.plan.remove, |start.plan.retain|))
                    && Current() == Store(Elems(start.plan.retain), None)
        decreases outcome.None?, if journal.Some? then LogLength(start.plan) - journal.value.records else 0
      {
        outcome, p := Round(p);
      }
      r := outcome.value;
    }

    /** Apply a valid plan to a store without a journal. */
    method StartRetention(plan: Plan) returns (r: Result<Outcome>)
      requires Valid() && journal.None? && ValidPlan(plan)
      modifies this
      ensures Valid() && old(history) <= history
      ensures old(held) == Elems(plan.retain) ==>
                r == Ok(Outcome(false, [], |plan.retain|)) && history == old(history)
      ensures old(held) != Elems(plan.retain) ==>
                if Reviewed(plan, old(held))
                  then && r == Ok(Outcome(true, plan.remove, |plan.retain|))
                       && Current() == Store(Elems(plan.retain), None)
                else r == Err(Stale) && history == old(history)
    {
      var current := List(held, DigestOf);
      FreshTests(plan, current);
      if current == plan.retain {
        return Ok(Outcome(false, [], |current|));
      }
      if InventoryDigest(current) != plan.beforeDigest || |current| != plan.beforeCount
         || !SamePartition(current, plan)
      {
        return Err(Stale);
      }
      SomethingToRemove(plan, held);
      MoveTo(Store(held, Some(Journal(plan, 0, Whole))), CreateJournal(plan));
      AppendRecord();
      r := Drain(ProgressAt(plan, 1));
    }

    /**
     * Apply a confirmed plan. Without a journal it does nothing if the store is already the
     * retained set, removes exactly the plan's removals if the store is the reviewed
     * inventory, and otherwise refuses. With the journal of this very plan it completes the
     * interrupted removal from wherever it stopped. Every directory state on the way is a
     * step of the protocol.
     */
    method ApplyRetention(plan: Plan, digest: PlanDigest) returns (r: Result<Outcome>)
      requires Valid()
      modifies this
      ensures Valid() && old(history) <= history
      ensures !Confirmed(plan, digest, installation) ==> r.Err? && history == old(history)
      ensures Confirmed(plan, digest, installation) && old(journal).None? && old(held) == Elems(plan.retain) ==>
                r == Ok(Outcome(false, [], |plan.retain|)) && history == old(history)
      ensures Confirmed(plan, digest, installation) && old(journal).None? && old(held) != Elems(plan.retain) ==>
                if Reviewed(plan, old(held))
                  then && r == Ok(Outcome(true, plan.remove, |plan.retain|))
                       && Current() == Store(Elems(plan.retain), None)
                else r == Err(Stale) && history == old(history)
      ensures Confirmed(plan, digest, installation) && old(journal).Some? && Readable(old(journal).value) == 0 ==>
                r == Err(Invalid) && history == old(history)
      ensures Confirmed(plan, digest, installation) && old(journal).Some? && Readable(old(journal).value) > 0 ==>
                if old(journal).value.plan == plan
                  then && r == Ok(Outcome(plan.remove != [], plan.remove, |plan.retain|))
                       && Current() == Store(Elems(plan.retain), None)
                else r == Err(Stale) && held == old(held)
    {
      if !ValidPlan(plan) || plan.installation != installation {
        return Err(Invalid);
      }
      if digest != PlanDigest(plan) {
        return Err(Stale);
      }
      var loaded := LoadJournal();
      if loaded.Err? {
        return Err(loaded.error);
      }
      if loaded.value.None? {
        r := StartRetention(plan);
      } else if loaded.value.value.plan != plan {
        r := Err(Stale);
      } else {
        r := Drain(loaded.value.value);
      }
    }

    /** Resume whatever plan an interrupted process left in the journal. */
    method RecoverRetention() returns (r: Result<Option<Outcome>>)
      requires Valid()
      modifies this
      ensures Valid() && old(history) <= history
      ensures old(journal).None? ==> r == Ok(None) && history == old(history)
      ensures old(journal).Some? ==>
                (r.Ok? <==> Readable(old(journal).value) > 0 && old(journal).value.plan.installation == installation)
      ensures r.Err? ==> held == old(held)
      ensures old(journal).Some? && r.Ok? ==>
                var p := old(journal).value.plan;
                && r.value == Some(Outcome(p.remove != [], p.remove, |p.retain|))
                && Current() == Store(Elems(p.retain), None)
    {
      var loaded := LoadJournal();
      if loaded.Err? {
        return Err(loaded.error);
      }
      if loaded.value.None? {
        return Ok(None);
      }
      var plan := loaded.value.value.plan;
      var outcome := ApplyRetention(plan, PlanDigest(plan));
      r := if outcome.Ok? then Ok(Some(outcome.value)) else Err(outcome.error);
    }

    /** Publish one record; refused while a retention journal exists, idempotent otherwise. */
    method Publish(e: Entry) returns (r: Result<Entry>)
      requires Valid()
      modifies this
      ensures Valid() && old(history) <= history
      ensures old(journal).Some? ==> r.Err? && held == old(held)
      ensures old(journal).None? ==> journal.None? && held == old(held) + (if r.Ok? then {e} else {})
      ensures r.Ok? ==> r.value == e
      ensures old(journal).None? && e in old(held) ==> r.Ok? && history == old(history)
      ensures old(journal).None? && e !in old(held) ==>
                (r.Ok? <==> |old(held)| < MAX_RECORDS && forall x :: x in old(held) ==> x.digest != e.digest)
    {
      var loaded := LoadJournal();
      if loaded.Err? {
        return Err(loaded.error);
      }
      if loaded.value.Some? {
        return Err(Stale);
      }
      if x :| x in held && x.digest == e.digest {
        return if x == e then Ok(e) else Err(Conflict);
      }
      if |held| >= MAX_RECORDS {
        return Err(Invalid);
      }
      MoveTo(Store(held + {e}, None), RetentionProtocol.Publish(e));
      r := Ok(e);
    }

    /** Read one record; refused while a retention journal exists. */
    method Get(d: Digest) returns (r: Result<Option<Entry>>)
      requires Valid()
      modifies this
      ensures Valid() && old(history) <= history && held == old(held)
      ensures old(journal).Some? ==> r.Err?
      ensures old(journal).None? ==>
                && history == old(history) && r.Ok?
                && (r.value.Some? ==> r.value.value in held && r.value.value.digest == d)
                && (r.value.None? ==> forall x :: x in held ==> x.digest != d)
    {
      var loaded := LoadJournal();
      if loaded.Err? {
        return Err(loaded.error);
      }
      if loaded.value.Some? {
        return Err(Stale);
      }
      if x :| x in held && x.digest == d {
        return Ok(Some(x));
      }
      r := Ok(None);
    }

    /** Review a partition of the current inventory; refused while a retention journal exists. */
    method PlanRetention(protect: set<Digest>) returns (r: Result<Plan>)
      requires Valid()
      modifies this
      ensures Valid() && old(history) <= history && held == old(held)
      ensures old(journal).Some? ==> r.Err?
      ensures old(journal).None? ==>
                (r.Ok? <==>
                   && |held| <= MAX_RECORDS
                   && (held == {} || protect != {})
                   && forall d :: d in protect ==> exists e :: e in held && e.digest == d)
      ensures old(journal).None? && r.Ok? ==>
                && Confirmed(r.value, PlanDigest(r.value), installation)
                && Reviewed(r.value, held)
                && (forall e :: e in r.value.retain <==> e in held && e.digest in protect)
    {
      var current := List(held, DigestOf);
      var loaded := LoadJournal();
      if loaded.Err? {
        return Err(loaded.error);
      }
      if loaded.value.Some? {
        return Err(Stale);
      }
      r := BuildPlan(installation, current, protect);
      BuildPlanExact(installation, current, protect);
      PlannableStore(held, current, protect);
      if r.Ok? {
        assert forall e :: e in r.value.retain <==> e in Elems(r.value.retain);
        assert forall e :: e in current <==> e in Elems(current);
      }
    }
  }

  /** What the number of records says, and what their progress says, about a journal that is not complete. */
  lemma JournalMeans(j: Journal)
    requires 1 <= j.records < LogLength(j.plan)
    ensures var p := ProgressAt(j.plan, j.records);
            && Done(j) == p.removedCount && !p.completed
            && (InFlight(j) <==> p.inFlight.Some?)
            && (p.inFlight.Some? ==> p.inFlight.value == p.removedCount)
  {}

  /** A listing of the reviewed inventory has the reviewed length. */
  lemma ListedCount(plan: Plan, current: seq<Entry>)
    requires ValidPlan(plan)
    ensures SamePartition(current, plan) ==> |current| == plan.beforeCount
  {
    ValidPlanParts(plan);
    SortSound(plan.remove + plan.retain, DigestOf);
  }

  lemma PlannableStore(held: set<Entry>, current: seq<Entry>, protect: set<Digest>)
    requires Elems(current) == held && |current| == |held|
    ensures Plannable(current, protect) <==>
              && |held| <= MAX_RECORDS
              && (held == {} || protect != {})
              && forall d :: d in protect ==> exists e :: e in held && e.digest == d
  {
    assert forall e :: e in current <==> e in Elems(current);
    if protect <= Digests(current) {
      forall d | d in protect
        ensures exists e :: e in held && e.digest == d
      {
        assert d in Digests(current);
      }
    }
  }

  lemma IsRetained(plan: Plan, current: seq<Entry>)
    requires ValidPlan(plan) && Ordered(current, DigestOf) && Elems(current) == Held(plan, |plan.remove|)
    ensures current == plan.retain && Elems(current) == Elems(plan.retain)
  {
    HeldBounds(plan, |plan.remove|);
    ValidPlanParts(plan);
    OrderedUnique(current, plan.retain, DigestOf);
  }

  /** The two inventory tests of a fresh apply, decided. */
  lemma FreshTests(plan: Plan, current: seq<Entry>)
    requires ValidPlan(plan) && Ordered(current, DigestOf)
    ensures current == plan.retain <==> Elems(current) == Elems(plan.retain)
    ensures (&& InventoryDigest(current) == plan.beforeDigest
             && |current| == plan.beforeCount
             && SamePartition(current, plan)) <==> Reviewed(plan, Elems(current))
  {
    ValidPlanParts(plan);
    if Elems(current) == Elems(plan.retain) {
      OrderedUnique(current, plan.retain, DigestOf);
    }
    ExpectedDecides(plan, 0, current);
    assert plan.remove[0..] == plan.remove;
    ListedCount(plan, current);
  }

  lemma SomethingToRemove(plan: Plan, held: set<Entry>)
    requires ValidPlan(plan) && held == Held(plan, 0) && held != Elems(plan.retain)
    ensures plan.remove != []
  {
    HeldBounds(plan, 0);
  }
}
