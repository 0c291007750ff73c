/** From which interrupted states a whole-installation restore can be resumed, and from which never. */
module StateRestoreRecovery {
  import opened Outcomes
  import opened StateRestorePlan
  import opened StateRestoreProtocol
  import opened StateRestoreReach
  import opened InstallationRestore

  /** Killed after a checkpoint file was created and before its first byte was written. */
  predicate EmptyCheckpoint(d: Disk) {
    d.scratch == EmptyScratch && !d.proc.writing
  }

  /** Killed in the middle of the first checkpoint, or that checkpoint has taken the journal's place. */
  predicate TornFirst(d: Disk) {
    d.journal == Torn || (d.journal == Missing && d.scratch == TornScratch && !d.proc.writing)
  }

  /** Completed, and then repeated over an installation that has changed since. */
  predicate Overtaken(d: Disk, acts: seq<Action>) {
    d.journal == At(Completed) && !LiveIs(d.live, acts, After)
  }

  /** Starting removes, or has removed, a record that the plan was reviewed with. */
  predicate Forgotten(d: Disk) {
    Level(d.journal) <= 2 && d.history != Room
  }

  /** A path that is still to be worked on is a directory. */
  predicate Blocked(d: Disk, acts: seq<Action>) {
    Level(d.journal) <= 3 && !Clearway(d.dirs, acts, d.proc.cursor)
  }

  /** No attempt gets past the journal. */
  predicate Window(d: Disk, acts: seq<Action>) {
    EmptyCheckpoint(d) || TornFirst(d) || Overtaken(d, acts)
  }

  predicate Doomed(d: Disk, acts: seq<Action>) {
    Window(d, acts) || Forgotten(d) || Blocked(d, acts)
  }

  /** A started restore whose process is gone. */
  ghost predicate Interrupted(d: Disk, acts: seq<Action>) {
    Proper(acts) && Reachable(d, acts) && d.marker && d.proc == Idle
  }

  /** The caller still has the archives that the progress made so far needs. */
  predicate Supplied(d: Disk, acts: seq<Action>, backup: Archive, rollback: Archive) {
    && backup != Different && rollback != Different
    && (d.journal == Missing && !d.scratch.Written? ==> backup == Matching && rollback == Matching)
    && (d.journal == At(Planned) || d.scratch == Written(Planned) ==> backup == Matching || CandidatesComplete(d, acts))
  }

  /**
   * A started restore, in whatever state it was interrupted, is completed by the next
   * attempt exactly if its journal can be read, no record it was reviewed with has to go,
   * no path of the plan is a directory, and the archives it still needs are there; from
   * staging on it needs none.
   */
  lemma RetryConverges(d: Disk, acts: seq<Action>, backup: Archive, rollback: Archive)
    requires Interrupted(d, acts)
    ensures Restorable(d, acts, backup, rollback) <==> !Doomed(d, acts) && Supplied(d, acts, backup, rollback)
  {
    ReachableInv(d, acts);
  }

  // ---- No way out ----

  /** Not a live file changes but the oldest record. */
  predicate OnlyForgets(d: Disk, e: Disk) {
    || (e.history == d.history && e.live == d.live)
    || (d.history.Full? && e.history == Pruned(d.history.oldest) && e.live == d.live - {d.history.oldest})
  }

  lemma ForgottenStep(d: Disk, e: Disk, acts: seq<Action>, step: Step)
    requires Inv(d, acts) && d.marker && Forgotten(d) && NextStep(d, e, acts, step)
    ensures Forgotten(e) && OnlyForgets(d, e)
  {
    if d.history.Pruned? && d.journal == At(Staged) {
      ButIsNotBefore(d.live, acts, d.history.record);
    }
  }

  lemma BlockedStep(d: Disk, e: Disk, acts: seq<Action>, step: Step)
    requires ScratchInv(d) && d.marker && Blocked(d, acts) && NextStep(d, e, acts, step)
    ensures Blocked(e, acts) || Forgotten(e)
  {
    var i :| d.proc.cursor <= i < |acts| && acts[i].key in d.dirs;
    assert step != Prune(e.dirs) ==> acts[i].key in e.dirs && e.proc.cursor <= i;
  }

  lemma WindowStep(d: Disk, e: Disk, acts: seq<Action>, step: Step)
    requires Inv(d, acts) && d.marker && Window(d, acts) && NextStep(d, e, acts, step)
    ensures Window(e, acts) && e.live == d.live
  {}

  /** Nothing leads out: over any run of later attempts the restore stays unfinished. */
  lemma {:induction false} DoomIsFinal(run: seq<Disk>, i: nat, acts: seq<Action>)
    requires IsRun(run, acts) && i < |run| && Interrupted(run[0], acts) && Doomed(run[0], acts)
    ensures Doomed(run[i], acts) && run[i].marker && !Finished(run[i], acts)
  {
    if i > 0 {
      DoomIsFinal(run, i - 1, acts);
      ReachableInv(run[0], acts);
      InvRun(run, i - 1, acts);
      assert StepAt(run, i - 1, acts);
      DoomStep(run[i - 1], run[i], acts);
    }
  }

  lemma DoomStep(d: Disk, e: Disk, acts: seq<Action>)
    requires Inv(d, acts) && d.marker && Doomed(d, acts) && Next(d, e, acts)
    ensures Doomed(e, acts) && e.marker
  {
    var step :| NextStep(d, e, acts, step);
    DoomedKeepsMarker(d, e, acts, step);
    if Window(d, acts) {
      WindowStep(d, e, acts, step);
    } else if Forgotten(d) {
      ForgottenNext(d, e, acts);
    } else {
      BlockedStep(d, e, acts, step);
    }
  }

  lemma DoomedKeepsMarker(d: Disk, e: Disk, acts: seq<Action>, step: Step)
    requires d.marker && Doomed(d, acts) && NextStep(d, e, acts, step)
    ensures e.marker
  {}

  /** In a window the live files stay exactly as the kill left them. */
  lemma {:induction false} WindowsKeepLive(run: seq<Disk>, i: nat, acts: seq<Action>)
    requires IsRun(run, acts) && i < |run| && Interrupted(run[0], acts) && Window(run[0], acts)
    ensures Window(run[i], acts) && run[i].live == run[0].live
  {
    if i > 0 {
      WindowsKeepLive(run, i - 1, acts);
      DoomIsFinal(run, i - 1, acts);
      ReachableInv(run[0], acts);
      InvRun(run, i - 1, acts);
      assert StepAt(run, i - 1, acts);
      var step :| NextStep(run[i - 1], run[i], acts, step);
      WindowStep(run[i - 1], run[i], acts, step);
    }
  }

  lemma ForgottenNext(d: Disk, e: Disk, acts: seq<Action>)
    requires Inv(d, acts) && d.marker && Forgotten(d) && Next(d, e, acts)
    ensures Forgotten(e) && OnlyForgets(d, e)
  {
    var step :| NextStep(d, e, acts, step);
    ForgottenStep(d, e, acts, step);
  }

  lemma {:induction false} ForgettingKeepsLive(run: seq<Disk>, i: nat, acts: seq<Action>)
    requires IsRun(run, acts) && i < |run| && Interrupted(run[0], acts) && Forgotten(run[0])
    ensures Forgotten(run[i]) && OnlyForgets(run[0], run[i])
  {
    if i > 0 {
      ForgettingKeepsLive(run, i - 1, acts);
      DoomIsFinal(run, i - 1, acts);
      ReachableInv(run[0], acts);
      InvRun(run, i - 1, acts);
      assert StepAt(run, i - 1, acts);
      ForgottenNext(run[i - 1], run[i], acts);
    }
  }

  // ---- All of them are reached ----

  lemma Killed(d: Disk, acts: seq<Action>) returns (e: Disk)
    requires Proper(acts) && Reachable(d, acts) && d.marker
    ensures Interrupted(e, acts) && e == d.(proc := Idle)
  {
    e := d.(proc := Idle);
    Extend(d, e, acts, Kill);
  }

  lemma EmptyAt(d: Disk, acts: seq<Action>) returns (e: Disk)
    requires Reachable(d, acts) && d.marker && d.scratch == NoScratch && May(d, acts)
    ensures Reachable(e, acts) && e == d.(scratch := EmptyScratch, proc := d.proc.(writing := true))
  {
    e := d.(scratch := EmptyScratch, proc := d.proc.(writing := true));
    Extend(d, e, acts, Scribble(EmptyScratch));
  }

  /** A kill in the middle of any checkpoint, in particular of the first, reaches its window. */
  lemma WindowsAreReachable(live: Files, acts: seq<Action>, next: Status)
    returns (empty: Disk, torn: Disk, lost: Disk)
    requires Start(live, acts) && (next in {Planned, Staged, Publishing} || Unobstructed(acts))
    ensures Interrupted(empty, acts) && EmptyCheckpoint(empty) && Successor(empty.journal) == Some(next)
    ensures Interrupted(torn, acts) && torn.journal == Missing && TornFirst(torn)
    ensures Interrupted(lost, acts) && lost.journal == Torn
  {
    var d := ReachMay(live, acts, next);
    var d1 := EmptyAt(d, acts);
    empty := Killed(d1, acts);
    var f := ReachMay(live, acts, Planned);
    var e := EmptyAt(f, acts);
    var t := e.(scratch := TornScratch);
    Extend(e, t, acts, Scribble(TornScratch));
    torn := Killed(t, acts);
    lost := Recovered(torn);
    Extend(torn, lost, acts, Recover);
  }

  /** With a full history every new restore is doomed as soon as its marker is there. */
  lemma FullHistoryDooms(live: Files, acts: seq<Action>, oldest: Key) returns (full: Disk, pruned: Disk)
    requires Start(live, acts) && oldest in live
    ensures Interrupted(full, acts) && Forgotten(full) && full.live == live
    ensures Interrupted(pruned, acts) && Forgotten(pruned) && pruned.live == live - {oldest}
  {
    full := Begun(live, Parents(live), map[], {}, Missing).(history := Full(oldest));
    var d := full.(marker := false);
    assert RunTo([d], d, acts);
    Extend(d, full, acts, Activate);
    var e := full.(live := live - {oldest}, history := Pruned(oldest), proc := Proc(true, 0));
    Extend(full, e, acts, Prune(full.dirs));
    pruned := Killed(e, acts);
  }

  /** A file to be removed, below whose path another is published: a kill in between is one too many. */
  lemma KillBlocks(live: Files, acts: seq<Action>, i: nat, n: nat) returns (d: Disk)
    requires Start(live, acts) && Unobstructed(acts)
    requires i < |acts| && n < |acts| && Publishes(acts[n]) && acts[i].key in Ancestors(acts[n].key)
    ensures Interrupted(d, acts) && d.journal == At(Publishing) && Blocked(d, acts)
  {
    var e := ReachPrepared(live, acts, n);
    d := Killed(e, acts);
    assert acts[i].key in d.dirs;
  }

  /** The directories above a path that is being published are made. */
  lemma ReachPrepared(live: Files, acts: seq<Action>, n: nat) returns (d: Disk)
    requires Start(live, acts) && Unobstructed(acts) && n < |acts| && Publishes(acts[n])
    ensures Reachable(d, acts) && d.marker && d.journal == At(Publishing) && Ancestors(acts[n].key) <= d.dirs
  {
    var e := ReachTrack(live, acts, n);
    d := Prepare(e, acts, n);
  }

  // ---- Plans that can be completed at all ----

  lemma ObstructedStep(d: Disk, e: Disk, acts: seq<Action>, j: nat)
    requires ScratchInv(d) && (d.journal == At(Publishing) ==> CursorInv(d, acts)) && Level(d.journal) <= 3
    requires Next(d, e, acts) && j < |acts| && Obstructs(acts, j)
    ensures Level(e.journal) <= 3
  {
    var step :| NextStep(d, e, acts, step);
    assert d.journal == At(Publishing) ==> d.proc.cursor < |acts|;
  }

  lemma {:induction false} ObstructedRun(run: seq<Disk>, i: nat, acts: seq<Action>, j: nat)
    requires Proper(acts) && IsRun(run, acts) && i < |run| && Initial(run[0]) && j < |acts| && Obstructs(acts, j)
    ensures Level(run[i].journal) <= 3
  {
    if i > 0 {
      ObstructedRun(run, i - 1, acts, j);
      InvRun(run, i - 1, acts);
      assert StepAt(run, i - 1, acts);
      ObstructedStep(run[i - 1], run[i], acts, j);
    }
  }

  lemma ObstructedNeverEnds(d: Disk, acts: seq<Action>, j: nat)
    requires Proper(acts) && Reachable(d, acts) && j < |acts| && Obstructs(acts, j)
    ensures Level(d.journal) <= 3 && !Finished(d, acts)
  {
    var run :| RunTo(run, d, acts);
    ObstructedRun(run, |run| - 1, acts, j);
  }

  lemma ReachFinished(live: Files, acts: seq<Action>) returns (d: Disk)
    requires Start(live, acts) && Unobstructed(acts)
    ensures Reachable(d, acts) && Finished(d, acts)
  {
    d := ReachCompleted(live, acts);
    ReachableInv(d, acts);
  }

  /** A plan can be carried to its end exactly if no path in it lies above a reviewed file. */
  lemma FinishableIff(live: Files, acts: seq<Action>)
    requires Start(live, acts)
    ensures (exists d :: Reachable(d, acts) && Finished(d, acts)) <==> Unobstructed(acts)
  {
    if Unobstructed(acts) {
      var d := ReachFinished(live, acts);
    } else {
      var j :| 0 <= j < |acts| && Obstructs(acts, j);
      forall d | Reachable(d, acts)
        ensures !Finished(d, acts)
      {
        ObstructedNeverEnds(d, acts, j);
      }
    }
  }
}
