/**
 * The records of completed restores over the life of an installation.
 *
 * Each completed restore leaves its record in an operation directory of its own. To every
 * other plan that record is a live file like any other: a restore whose backup does not
 * hold it removes it and leaves the directory behind, empty.
 */
module StateRestoreHistory {
  import opened Outcomes
  import opened FiniteSets
  import opened StateRestorePlan
  import opened StateRestoreReview
  import opened StateRestoreRollback
  import opened StateRestoreProtocol
  import opened StateRestoreSafety
  import opened StateRestoreRoundTrip
  import opened InstallationRestore

  const MAX_OPERATIONS: nat := 64

  /** The live files, and the record path of every operation directory. */
  datatype World = World(files: Files, records: set<Key>)

  /** The record path that a plan's digest names. */
  type Naming = Plan -> Key

  datatype Event =
    | Restored(plan: Plan, record: Evidence)
    | Changed(files: Files)

  /** Every operation directory still holds its record. */
  predicate Intact(w: World) {
    forall k :: k in w.records ==> k in w.files
  }

  /** A new operation can begin, and have its reviewed files still there when it publishes. */
  predicate Open(w: World) {
    Intact(w) && |w.records| < MAX_OPERATIONS
  }

  /** The history as a new restore reads it: one directory after the other. */
  method LoadHistory(w: World) returns (r: Result<nat>)
    ensures r.Ok? <==> Intact(w) && |w.records| <= MAX_OPERATIONS
    ensures r.Ok? ==> r.value == |w.records|
  {
    if |w.records| > MAX_OPERATIONS {
      return Err(Invalid);
    }
    var rest, n := w.records, 0;
    while rest != {}
      invariant rest <= w.records && n + |rest| == |w.records|
      invariant forall k :: k in w.records - rest ==> k in w.files
      decreases rest
    {
      var k :| k in rest;
      if k !in w.files {
        return Err(Invalid);
      }
      rest, n := rest - {k}, n + 1;
    }
    r := Ok(n);
  }

  /** A plan carried to its end over a world, or any other change, which leaves the records alone. */
  ghost predicate EventStep(layout: Layout, name: Naming, w: World, x: World, ev: Event) {
    match ev
    case Restored(p, e) =>
      && ValidPlan(layout, p) && p.status == Required
      && Open(w) && name(p) !in w.records && name(p) !in w.files
      && LiveIs(w.files, p.actions, Before)
      && (exists d :: Finished(d, p.actions) && name(p) !in d.live && x.files == d.live[name(p) := e])
      && w.records + {name(p)} <= x.records
      && (forall k :: k in x.records && k !in w.records ==> k in x.files)
    case Changed(files) =>
      && x == w.(files := files)
      && forall k :: k in w.records ==> FileAt(files, k) == FileAt(w.files, k)
  }

  ghost predicate Life(layout: Layout, name: Naming, run: seq<World>, events: seq<Event>) {
    && |run| == |events| + 1
    && forall i :: 0 <= i < |events| ==> EventStep(layout, name, run[i], run[i + 1], events[i])
  }

  /** The plan removes the record of another operation. */
  predicate Forgets(w: World, ev: Event) {
    && ev.Restored?
    && var acts := ev.plan.actions;
       exists i :: 0 <= i < |acts| && acts[i].kind == Remove && acts[i].key in w.records
  }

  /** What a completed restore leaves: the backup's files and its own record. */
  lemma RestoredFiles(layout: Layout, name: Naming, w: World, x: World, ev: Event)
    requires EventStep(layout, name, w, x, ev) && ev.Restored?
    ensures name(ev.plan) !in FilesOf(ev.plan.backup.entries)
    ensures x.files == FilesOf(ev.plan.backup.entries)[name(ev.plan) := ev.record]
  {
    var d :| Finished(d, ev.plan.actions) && name(ev.plan) !in d.live && x.files == d.live[name(ev.plan) := ev.record];
    FinishedIsBackup(layout, ev.plan, d);
  }

  /** A record is removed exactly if the backup does not hold it. */
  lemma ForgetsIff(layout: Layout, name: Naming, w: World, x: World, ev: Event)
    requires EventStep(layout, name, w, x, ev) && ev.Restored?
    ensures Forgets(w, ev) <==> exists k :: k in w.records && k !in FilesOf(ev.plan.backup.entries)
  {
    var after := FilesOf(ev.plan.backup.entries);
    LiveIsInventory(after, ev.plan.actions, After);
    RemovesIff(w.files, after, ev.plan.actions, w.records);
  }

  lemma RemovesIff(before: Files, after: Files, acts: seq<Action>, records: set<Key>)
    requires Kinds(acts) && LiveIs(before, acts, Before) && LiveIs(after, acts, After)
    requires forall k :: k in records ==> k in before
    ensures (exists i :: 0 <= i < |acts| && acts[i].kind == Remove && acts[i].key in records) <==>
            exists k :: k in records && k !in after
  {
    if k :| k in records && k !in after {
      var i :| 0 <= i < |acts| && acts[i].key == k;
      assert KindOf(acts[i].before, acts[i].after) == Some(acts[i].kind);
      assert FileAt(before, acts[i].key) == acts[i].before;
      assert FileAt(after, acts[i].key) == acts[i].after;
    }
    if i :| 0 <= i < |acts| && acts[i].kind == Remove && acts[i].key in records {
      assert KindOf(acts[i].before, acts[i].after) == Some(acts[i].kind);
      assert FileAt(after, acts[i].key) == acts[i].after;
    }
  }

  lemma IntactStep(layout: Layout, name: Naming, w: World, x: World, ev: Event)
    requires EventStep(layout, name, w, x, ev)
    ensures Intact(x) <==> Intact(w) && !Forgets(w, ev)
    ensures w.records <= x.records
  {
    match ev {
      case Restored(p, e) =>
        RestoredFiles(layout, name, w, x, ev);
        ForgetsIff(layout, name, w, x, ev);
      case Changed(files) =>
        assert forall k :: k in w.records ==> (k in files <==> FileAt(files, k).Some?);
    }
  }

  /**
   * Over the whole life of an installation: a later restore can still begin exactly if no
   * plan applied so far has removed the record of another operation.
   */
  lemma {:induction false} IntactIff(layout: Layout, name: Naming, run: seq<World>, events: seq<Event>, i: nat)
    requires Life(layout, name, run, events) && Intact(run[0]) && i < |run|
    ensures Intact(run[i]) <==> forall j :: 0 <= j < i ==> !Forgets(run[j], events[j])
  {
    if i > 0 {
      IntactIff(layout, name, run, events, i - 1);
      IntactStep(layout, name, run[i - 1], run[i], events[i - 1]);
    }
  }

  lemma {:induction false} RecordsStay(
      layout: Layout, name: Naming, run: seq<World>, events: seq<Event>, i: nat, k: nat)
    requires Life(layout, name, run, events) && i <= k < |run|
    ensures run[i].records <= run[k].records
    ensures Intact(run[k]) ==> Intact(run[i])
    decreases k
  {
    if i < k {
      RecordsStay(layout, name, run, events, i, k - 1);
      IntactStep(layout, name, run[k - 1], run[k], events[k - 1]);
    }
  }

  /**
   * A restore from a backup without the record of an earlier restore is the last one ever:
   * the rollback of that restore, or its own backup once more.
   */
  lemma LastRestore(layout: Layout, name: Naming, run: seq<World>, events: seq<Event>, i: nat, j: nat, k: nat)
    requires Life(layout, name, run, events) && i < j < k < |events|
    requires events[i].Restored? && events[j].Restored?
    requires name(events[i].plan) !in FilesOf(events[j].plan.backup.entries)
    ensures !events[k].Restored?
  {
    assert EventStep(layout, name, run[i], run[i + 1], events[i]);
    RecordsStay(layout, name, run, events, i + 1, j);
    assert name(events[i].plan) in run[j].records;
    ForgetsIff(layout, name, run[j], run[j + 1], events[j]);
    IntactStep(layout, name, run[j], run[j + 1], events[j]);
    RecordsStay(layout, name, run, events, j + 1, k);
    assert EventStep(layout, name, run[k], run[k + 1], events[k]);
  }

  /** A rollback is such a restore. */
  lemma RollbackIsLast(layout: Layout, name: Naming, run: seq<World>, events: seq<Event>, i: nat, j: nat, k: nat)
    requires Life(layout, name, run, events) && i < j < k < |events|
    requires events[i].Restored? && events[j].Restored?
    requires RollbackFor(layout, events[j].plan.backup, events[i].plan)
    ensures !events[k].Restored?
  {
    var p := events[i].plan;
    assert EventStep(layout, name, run[i], run[i + 1], events[i]);
    LiveIsInventory(run[i].files, p.actions, Before);
    LastRestore(layout, name, run, events, i, j, k);
  }

  function Restores(events: seq<Event>, n: nat): (c: nat)
    requires n <= |events|
  {
    if n == 0 then 0 else Restores(events, n - 1) + if events[n - 1].Restored? then 1 else 0
  }

  /** Each restore takes a place in the history for good, and the history has 64. */
  lemma {:induction false} LifetimeBound(layout: Layout, name: Naming, run: seq<World>, events: seq<Event>, n: nat)
    requires Life(layout, name, run, events) && n <= |events|
    ensures |run[0].records| + Restores(events, n) <= |run[n].records|
    ensures Restores(events, n) > 0 ==> |run[0].records| + Restores(events, n) <= MAX_OPERATIONS
  {
    if n > 0 {
      LifetimeBound(layout, name, run, events, n - 1);
      var w, x := run[n - 1], run[n];
      IntactStep(layout, name, w, x, events[n - 1]);
      SubsetSize(w.records, x.records);
      if events[n - 1].Restored? {
        SubsetSize(w.records + {name(events[n - 1].plan)}, x.records);
      }
    }
  }
}
