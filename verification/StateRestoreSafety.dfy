/** What holds over every run of a whole-installation restore, with kills at any step. */
module StateRestoreSafety {
  import opened Outcomes
  import opened StateRestorePlan
  import opened StateRestoreDiff
  import opened StateRestoreProtocol

  // ---- The status only moves forward ----

  lemma JournalStatus(d: Disk, e: Disk, acts: seq<Action>, step: Step)
    requires ScratchInv(d) && JournalStep(d, e, acts, step)
    ensures Level(d.journal) <= Level(e.journal) <= Level(d.journal) + 1
  {}

  lemma StatusStep(d: Disk, e: Disk, acts: seq<Action>)
    requires ScratchInv(d) && Next(d, e, acts)
    ensures Level(d.journal) <= Level(e.journal) <= Level(d.journal) + 1
  {
    var step :| NextStep(d, e, acts, step);
    if JournalStep(d, e, acts, step) {
      JournalStatus(d, e, acts, step);
    } else {
      assert e.journal == d.journal;
    }
  }

  /** Over any run the status passes through its values in order and never goes back. */
  lemma {:induction false} StatusOnlyAdvances(run: seq<Disk>, i: nat, k: nat, acts: seq<Action>)
    requires Proper(acts) && IsRun(run, acts) && i <= k < |run| && Inv(run[0], acts)
    ensures Level(run[i].journal) <= Level(run[k].journal) <= Level(run[i].journal) + (k - i)
    decreases k
  {
    if i < k {
      StatusOnlyAdvances(run, i, k - 1, acts);
      InvRun(run, k - 1, acts);
      assert StepAt(run, k - 1, acts);
      StatusStep(run[k - 1], run[k], acts);
    }
  }

  // ---- What is live ----

  /** The files of an inventory. */
  ghost function Contents(es: seq<Entry>, n: nat): Files
    requires n <= |es|
  {
    if n == 0 then map[] else Contents(es, n - 1)[es[n - 1].key := es[n - 1].evidence]
  }

  ghost function FilesOf(es: seq<Entry>): Files {
    Contents(es, |es|)
  }

  lemma {:induction false} ContentsAt(es: seq<Entry>, n: nat, k: Key)
    requires n <= |es|
    ensures FileAt(Contents(es, n), k) == EvidenceOf(Find(es, n, k))
  {
    if n > 0 {
      ContentsAt(es, n - 1, k);
    }
  }

  lemma SideFile(acts: seq<Action>, s: Side, i: nat)
    requires InOrder(acts) && i < |acts|
    ensures FileAt(FilesOf(Whole(acts, s)), acts[i].key) == On(acts[i], s)
  {
    var es := Whole(acts, s);
    ContentsAt(es, |es|, acts[i].key);
    FindOnSide(acts, i, s);
  }

  lemma SideCovered(acts: seq<Action>, s: Side)
    ensures Covered(FilesOf(Whole(acts, s)), acts)
  {
    var es := Whole(acts, s);
    forall k | k in FilesOf(es)
      ensures exists i :: 0 <= i < |acts| && acts[i].key == k
    {
      ContentsAt(es, |es|, k);
      var j :| 0 <= j < |es| && es[j].key == k;
      SideMembers(acts, |acts|, s, es[j]);
    }
  }

  /** Being on one side of the plan path by path is having exactly that side's inventory. */
  lemma LiveIsInventory(files: Files, acts: seq<Action>, s: Side)
    requires InOrder(acts) && Kinds(acts)
    ensures LiveIs(files, acts, s) <==> files == FilesOf(Whole(acts, s))
  {
    var side := FilesOf(Whole(acts, s));
    SideCovered(acts, s);
    forall i | 0 <= i < |acts|
      ensures FileAt(side, acts[i].key) == On(acts[i], s)
    {
      SideFile(acts, s, i);
    }
  }


  /** What is live, by how far the journal has come. */
  ghost predicate Promised(d: Disk, acts: seq<Action>) {
    && (d.marker && Level(d.journal) < 3 ==>
          d.live == FilesOf(Whole(acts, Before)) - if d.history.Pruned? then {d.history.record} else {})
    && (Level(d.journal) == 3 ==> exists p :: 0 <= p <= |acts| && ProgressAt(d, acts, p))
    && (3 < Level(d.journal) < 7 ==> d.live == FilesOf(Whole(acts, After)))
    && (!d.marker ==> NoCandidates(d) && (d.journal == Missing || d.journal == At(Completed)))
  }

  lemma ButInventory(files: Files, acts: seq<Action>, k: Key)
    requires InOrder(acts) && Kinds(acts) && LiveBut(files, acts, k)
    ensures files == FilesOf(Whole(acts, Before)) - {k}
  {
    var side := FilesOf(Whole(acts, Before));
    LiveIsInventory(side, acts, Before);
    forall x | x in files || x in side - {k}
      ensures FileAt(files, x) == FileAt(side - {k}, x)
    {
      var i :| 0 <= i < |acts| && acts[i].key == x;
      assert FileAt(files, acts[i].key) == if acts[i].key == k then None else acts[i].before;
      assert FileAt(side, acts[i].key) == acts[i].before;
    }
    assert forall x :: x in files <==> x in side - {k};
  }

  /**
   * The whole-run theorem. From before any marker exists: live files are as reviewed until
   * publication, but for the one record that starting with a full history removes; during
   * publication they are the backup's up to one action and the reviewed ones after it, with
   * that action's candidate kept until it is live; after publication they are exactly the
   * backup's, until the operation is complete.
   */
  lemma RestoreSafety(run: seq<Disk>, i: nat, acts: seq<Action>)
    requires Proper(acts) && IsRun(run, acts) && i < |run| && Initial(run[0])
    ensures Promised(run[i], acts)
  {
    InvRun(run, i, acts);
    InvPromised(run[i], acts);
  }

  lemma InvPromised(d: Disk, acts: seq<Action>)
    requires Proper(acts) && Inv(d, acts)
    ensures Promised(d, acts)
  {
    LiveIsInventory(d.live, acts, Before);
    LiveIsInventory(d.live, acts, After);
    if d.marker && Level(d.journal) < 3 && d.history.Pruned? {
      ButInventory(d.live, acts, d.history.record);
    }
  }

  /** The active marker disappears only when the live files are exactly the backup's. */
  lemma MarkerClearedAtBackup(d: Disk, e: Disk, acts: seq<Action>)
    requires InOrder(acts) && Kinds(acts) && Next(d, e, acts) && d.marker && !e.marker
    ensures d.journal == At(Completed) && d.roots == {}
    ensures e.live == d.live == FilesOf(Whole(acts, After))
  {
    var step :| NextStep(d, e, acts, step);
    assert step.Clear?;
    LiveIsInventory(d.live, acts, After);
  }

  /**
   * From the completion of staging to the end of publication, over any run, every file the
   * plan brings is live or still staged, and every file it retains is as it was (but for a
   * record that a full history has removed).
   */
  lemma NothingIsLost(run: seq<Disk>, i: nat, acts: seq<Action>, k: nat)
    requires Proper(acts) && IsRun(run, acts) && i < |run| && Initial(run[0])
    requires 2 <= Level(run[i].journal) <= 3 && k < |acts|
    ensures acts[k].after.Some? ==>
              || FileAt(run[i].live, acts[k].key) == acts[k].after
              || FileAt(run[i].staged, acts[k].key) == acts[k].after
              || run[i].history == Pruned(acts[k].key)
    ensures acts[k].kind == Retain ==>
              FileAt(run[i].live, acts[k].key) == acts[k].before || run[i].history == Pruned(acts[k].key)
  {
    InvRun(run, i, acts);
    var d, a := run[i], acts[k];
    assert KindOf(a.before, a.after) == Some(a.kind);
    if d.journal == At(Publishing) {
      var p :| 0 <= p <= |acts| && ProgressAt(d, acts, p);
      assert k < p ==> CellOf(d, a.key) == Settled(a);
      assert Midway(a, CellOf(d, a.key));
    }
  }
}
