/** From a reviewed plan to the restored installation, and back again. */
module StateRestoreRoundTrip {
  import opened Outcomes
  import opened StateRestorePlan
  import opened StateRestoreDiff
  import opened StateRestoreReview
  import opened StateRestoreRollback
  import opened StateRestoreProtocol
  import opened StateRestoreSafety
  import opened StateRestoreReach
  import opened StateRestoreRecovery
  import opened InstallationRestore

  /** A reviewed plan can be started exactly on the files it was reviewed against. */
  lemma StartsOnReviewedFiles(layout: Layout, p: Plan, live: Files)
    requires ValidPlan(layout, p)
    ensures LiveIs(live, p.actions, Before) <==> live == FilesOf(p.before.entries)
  {
    LiveIsInventory(live, p.actions, Before);
  }

  /** A finished restore leaves exactly the files of the reviewed backup. */
  lemma FinishedIsBackup(layout: Layout, p: Plan, d: Disk)
    requires ValidPlan(layout, p) && Finished(d, p.actions)
    ensures d.live == FilesOf(p.backup.entries)
  {
    LiveIsInventory(d.live, p.actions, After);
  }

  /** The files of an inventory with one more entry. */
  lemma FilesWith(live: seq<Entry>, es: seq<Entry>, r: Entry)
    requires With(live, es, r) && Sorted(es, |es|) && forall e :: e in es ==> e.key != r.key
    ensures FilesOf(live) == FilesOf(es)[r.key := r.evidence]
  {
    var files := FilesOf(es)[r.key := r.evidence];
    forall k
      ensures FileAt(FilesOf(live), k) == FileAt(files, k)
    {
      ContentsAt(live, |live|, k);
      ContentsAt(es, |es|, k);
      FindWith(live, es, r, k);
    }
    assert forall k :: k in FilesOf(live) <==> FileAt(FilesOf(live), k).Some?;
  }

  lemma FindWith(live: seq<Entry>, es: seq<Entry>, r: Entry, k: Key)
    requires With(live, es, r) && Sorted(es, |es|)
    ensures Find(live, |live|, k) == if k == r.key then Some(r) else Find(es, |es|, k)
  {
    FindSorted(live, r);
    var x, y := Find(live, |live|, k), Find(es, |es|, k);
    if x.Some? && k != r.key {
      FindSorted(es, x.value);
    }
    if y.Some? && k != r.key {
      FindSorted(live, y.value);
    }
  }

  /**
   * Restoring and then restoring the rollback backup is the identity: the plan for the
   * rollback starts on what the first restore left, its record included, and its end is the
   * original installation. The bare inverse of the first plan can never be started there.
   */
  lemma RollbackRoundTrip(
      layout: Layout, p: Plan, m: Manifest, r: Entry, restored: Disk, live: seq<Entry>, back: Plan, returned: Disk)
    requires ValidPlan(layout, p) && RollbackFor(layout, m, p)
    requires Untouched(p.actions, r.key) && r.family != Registry && r.family != Grants && RecordFits(layout, p, r)
    requires Finished(restored, p.actions) && With(live, p.backup.entries, r)
    requires back == PlanOf(m, live, p.authority) && Finished(returned, back.actions)
    ensures ValidPlan(layout, back)
    ensures LiveIs(restored.live[r.key := r.evidence], back.actions, Before)
    ensures returned.live == FilesOf(p.before.entries)
    ensures !LiveIs(restored.live[r.key := r.evidence], InvertedAll(p.actions), Before)
  {
    RollbackPlannableIff(layout, m, p, r, live);
    PlanIsValid(layout, m, live, p.authority);
    RestoredWith(layout, p, r, restored, live);
    StartsOnReviewedFiles(layout, back, restored.live[r.key := r.evidence]);
    FinishedIsBackup(layout, back, returned);
    NotInverse(restored.live, p.actions, r);
  }

  lemma RestoredWith(layout: Layout, p: Plan, r: Entry, restored: Disk, live: seq<Entry>)
    requires ValidPlan(layout, p) && Untouched(p.actions, r.key)
    requires Finished(restored, p.actions) && With(live, p.backup.entries, r)
    ensures restored.live[r.key := r.evidence] == FilesOf(live)
  {
    FinishedIsBackup(layout, p, restored);
    UntouchedEntries(p.actions, r.key);
    FilesWith(live, p.backup.entries, r);
  }

  lemma NotInverse(files: Files, acts: seq<Action>, r: Entry)
    requires Untouched(acts, r.key)
    ensures !LiveIs(files[r.key := r.evidence], InvertedAll(acts), Before)
  {
    assert forall i :: 0 <= i < |acts| ==> InvertedAll(acts)[i].key != r.key;
    assert r.key in files[r.key := r.evidence];
  }

  /**
   * The rollback can be carried to its end exactly if the restore has put no file below a
   * path that the plan knows as another file.
   */
  lemma RollbackFinishableIff(p: Plan, m: Manifest, r: Entry, live: seq<Entry>, files: Files)
    requires InOrder(p.actions) && Kinds(p.actions) && Untouched(p.actions, r.key)
    requires m.entries == Whole(p.actions, Before) && With(live, Whole(p.actions, After), r)
    requires Start(files, PlanOf(m, live, p.authority).actions)
    requires forall i :: 0 <= i < |p.actions| ==>
               p.actions[i].key !in Ancestors(r.key) && r.key !in Ancestors(p.actions[i].key)
    ensures var back := PlanOf(m, live, p.authority).actions;
            (exists d :: Reachable(d, back) && Finished(d, back)) <==>
            (forall i, j :: 0 <= i < |p.actions| && 0 <= j < |p.actions| && p.actions[j].after.Some? ==>
               p.actions[i].key !in Ancestors(p.actions[j].key))
  {
    var n := RollbackReturns(m, p, r, live);
    FinishableIff(files, PlanOf(m, live, p.authority).actions);
    MergedUnobstructed(p.actions, n, r);
  }

  lemma NotAbove(k: Key)
    ensures k !in Ancestors(k)
  {
    if k in Ancestors(k) {
      AncestorLess(k, k);
      KeyOrder();
    }
  }

  lemma MergedUnobstructed(acts: seq<Action>, n: nat, r: Entry)
    requires n <= |acts|
    requires forall i :: 0 <= i < |acts| ==> acts[i].key !in Ancestors(r.key) && r.key !in Ancestors(acts[i].key)
    ensures Unobstructed(Merged(InvertedAll(acts), n, Removal(r))) <==>
              forall i, j :: 0 <= i < |acts| && 0 <= j < |acts| && acts[j].after.Some? ==>
                acts[i].key !in Ancestors(acts[j].key)
  {
    var all := Merged(InvertedAll(acts), n, Removal(r));
    NotAbove(r.key);
    assert forall i :: 0 <= i < |all| ==>
      all[i] == if i < n then Inverted(acts[i]) else if i == n then Removal(r) else Inverted(acts[i - 1]);
    if Unobstructed(all) {
      forall i, j | 0 <= i < |acts| && 0 <= j < |acts| && acts[j].after.Some?
        ensures acts[i].key !in Ancestors(acts[j].key)
      {
        var x, y := if i < n then i else i + 1, if j < n then j else j + 1;
        assert all[x] == Inverted(acts[i]) && all[y] == Inverted(acts[j]);
        assert !Obstructs(all, x);
      }
    }
  }
}
