/** Applying and resuming a reviewed whole-installation restore. */
module InstallationRestore {
  import opened Outcomes
  import opened StateRestorePlan
  import opened StateRestoreDiff
  import opened StateRestoreProtocol

  /** An archive named by the caller: not there, the reviewed one, or another one. */
  datatype Archive = Absent | Matching | Different

  /** The backup is what is live already. */
  ghost predicate SameSides(acts: seq<Action>) {
    Whole(acts, Before) == Whole(acts, After)
  }

  /** The journal can be read, after what an interrupted checkpoint left has been dealt with. */
  predicate Loadable(d: Disk) {
    && d.scratch != EmptyScratch
    && d.journal != Torn
    && !(d.journal == Missing && d.scratch == TornScratch)
  }

  /** What a new process finds: nothing of the previous one but the disk. */
  function Loaded(d: Disk): Disk {
    (if d.scratch == NoScratch then d else Recovered(d)).(proc := Idle)
  }

  /** No path that the plan works on, from action `n` on, is a directory. */
  predicate Clearway(dirs: set<Key>, acts: seq<Action>, n: nat) {
    forall i :: n <= i < |acts| ==> acts[i].key !in dirs
  }

  /** An operation at this status can be carried to its end. */
  predicate Continuable(d: Disk, acts: seq<Action>, backup: Archive) {
    && (d.journal == At(Planned) ==> backup == Matching || CandidatesComplete(d, acts))
    && (Level(d.journal) <= 2 ==> d.history == Room)
    && (Level(d.journal) <= 3 ==> Clearway(d.dirs, acts, 0))
    && (d.journal == At(Completed) ==> LiveIs(d.live, acts, After))
  }

  /** A new operation can be started and carried to its end. */
  predicate Startable(d: Disk, acts: seq<Action>) {
    LiveIs(d.live, acts, Before) && d.history == Room && Clearway(d.dirs, acts, 0)
  }

  /** Applying the plan to this disk succeeds. */
  ghost predicate Restorable(d: Disk, acts: seq<Action>, backup: Archive, rollback: Archive) {
    && Loadable(d)
    && var e := Loaded(d);
       if e.journal.At? then
         backup != Different && rollback != Different && Continuable(e, acts, backup)
       else if d.marker then
         backup == Matching && rollback == Matching && Startable(d, acts)
       else
         && backup == Matching && LiveIs(d.live, acts, Before)
         && (SameSides(acts) || (rollback != Different && Startable(d, acts)))
  }

  /** What a failed attempt does to the live files: at most the oldest record is gone. */
  predicate Unharmed(d: Disk, e: Disk) {
    || e.live == d.live
    || (d.journal == Missing && d.history.Full? && e.history == Pruned(d.history.oldest)
        && e.live == d.live - {d.history.oldest})
  }

  predicate Finished(d: Disk, acts: seq<Action>) {
    && !d.marker && d.journal == At(Completed) && d.scratch == NoScratch
    && NoCandidates(d) && LiveIs(d.live, acts, After)
  }

  class Installation {
    const acts: seq<Action>
    var disk: Disk
    /** Every state the installation has been in. */
    ghost var history: seq<Disk>

    ghost predicate Valid()
      reads this
    {
      && Proper(acts) && Inv(disk, acts)
      && history != [] && history[|history| - 1] == disk && IsRun(history, acts)
    }

    constructor (acts: seq<Action>, disk: Disk)
      requires Proper(acts) && Inv(disk, acts)
      ensures Valid() && this.acts == acts && this.disk == disk && history == [disk]
    {
      this.acts, this.disk := acts, disk;
      history := [disk];
    }

    method MoveTo(next: Disk, ghost step: Step)
      requires Valid() && NextStep(disk, next, acts, step)
      modifies this
      ensures Valid() && disk == next && old(history) <= history
    {
      InvStep(disk, next, acts, step);
      disk := next;
      history := history + [next];
      forall i: nat | i + 1 < |history|
        ensures StepAt(history, i, acts)
      {
        if i + 2 < |history| {
          assert StepAt(old(history), i, acts);
        }
      }
    }

    /** A new process reads the journal; what an interrupted checkpoint left is finished or discarded first. */
    method LoadJournal() returns (r: Result<Journal>)
      requires Valid()
      modifies this
      ensures Valid() && old(history) <= history && disk.live == old(disk).live
      ensures r.Ok? <==> Loadable(old(disk))
      ensures r.Ok? ==> disk == Loaded(old(disk)) && r.value == disk.journal
    {
      MoveTo(disk.(proc := Idle), Kill);
      if disk.scratch == EmptyScratch {
        return Err(Invalid);
      }
      if disk.scratch != NoScratch {
        MoveTo(Recovered(disk), Recover);
      }
      if disk.journal == Torn {
        return Err(Invalid);
      }
      r := Ok(disk.journal);
    }

    method Write(x: Scratch)
      requires Valid() && disk.marker && May(disk, acts) && Follows(disk, x) && (x == EmptyScratch || disk.proc.writing)
      modifies this
      ensures Valid() && old(history) <= history
      ensures disk == old(disk).(scratch := x, proc := old(disk).proc.(writing := true))
    {
      MoveTo(disk.(scratch := x, proc := disk.proc.(writing := true)), Scribble(x));
    }

    /** Write the next checkpoint: create, fill and activate its scratch file. */
    method Advance()
      requires Valid() && disk.marker && disk.scratch == NoScratch && May(disk, acts)
      modifies this
      ensures Valid() && old(history) <= history
      ensures Successor(old(disk).journal).Some?
      ensures disk == old(disk).(journal := At(Successor(old(disk).journal).value), proc := Idle)
    {
      var next := Successor(disk.journal).value;
      Write(EmptyScratch);
      Write(TornScratch);
      Write(Written(next));
      MoveTo(disk.(journal := At(next), scratch := NoScratch, proc := Idle), Commit);
    }

    /** Start the operation; if the history is full, its oldest record goes first. */
    method Begin()
      requires Valid() && disk.marker && disk.scratch == NoScratch && disk.journal == Missing && disk.proc == Idle
      requires LiveIs(disk.live, acts, Before)
      modifies this
      ensures Valid() && old(history) <= history && disk.journal == At(Planned)
      ensures old(disk).history == Room ==> disk == old(disk).(journal := At(Planned))
      ensures old(disk).history.Full? ==>
                && disk.history == Pruned(old(disk).history.oldest)
                && disk.live == old(disk).live - {old(disk).history.oldest}
                && disk.marker && disk.scratch == NoScratch && disk.proc == Idle
      ensures old(disk).history.Full? || old(disk).history == Room
    {
      StartedWithHistory(disk, acts);
      if disk.history.Full? {
        var k := disk.history.oldest;
        MoveTo(disk.(live := disk.live - {k}, history := Pruned(k), proc := Proc(true, 0)), Prune(disk.dirs));
      }
      Advance();
    }

    // ---- Staging ----

    method MakeRoots()
      requires Valid() && disk.marker && disk.scratch == NoScratch && disk.journal == At(Planned)
      modifies this
      ensures Valid() && old(history) <= history
      ensures disk == old(disk).(roots := Needed(acts))
    {
      var missing := Needed(acts) - disk.roots;
      while missing != {}
        invariant Valid() && old(history) <= history
        invariant disk == old(disk).(roots := disk.roots)
        invariant missing == Needed(acts) - disk.roots
        decreases missing
      {
        var r :| r in missing;
        MoveTo(disk.(roots := disk.roots + {r}), MakeRoot(r));
        missing := missing - {r};
      }
      assert disk.roots <= Needed(acts) && Needed(acts) <= disk.roots by {
        forall r | r in Needed(acts)
          ensures r in disk.roots
        {
          assert r !in missing;
        }
      }
    }

    /** Bring one candidate to its reviewed evidence, discarding a partial copy. */
    method StageOne(i: nat)
      requires Valid() && disk.marker && disk.scratch == NoScratch && disk.journal == At(Planned)
      requires i < |acts| && Publishes(acts[i]) && acts[i].key.root in disk.roots
      modifies this
      ensures Valid() && old(history) <= history
      ensures disk == old(disk).(staged := disk.staged, partial := old(disk).partial - {acts[i].key})
      ensures disk.staged == Put(old(disk).staged, acts[i].key, acts[i].after)
    {
      var k := acts[i].key;
      assert KindOf(acts[i].before, acts[i].after) == Some(acts[i].kind);
      if k in disk.staged {
        assert FileAt(disk.staged, acts[i].key) == Candidate(acts[i]);
        MoveTo(disk.(partial := disk.partial - {k}), DropPartial(k));
        assert disk.staged == disk.staged[k := acts[i].after.value];
        return;
      }
      MoveTo(disk.(partial := disk.partial - {k}), DropPartial(k));
      CopyOne(i);
    }

    /** Copy one candidate from the backup under a partial name. */
    method CopyOne(i: nat)
      requires Valid() && disk.marker && disk.scratch == NoScratch && disk.journal == At(Planned)
      requires i < |acts| && Publishes(acts[i]) && acts[i].after.Some? && acts[i].key.root in disk.roots
      requires acts[i].key !in disk.partial
      modifies this
      ensures Valid() && old(history) <= history
      ensures disk == old(disk).(staged := old(disk).staged[acts[i].key := acts[i].after.value])
    {
      var k := acts[i].key;
      MoveTo(disk.(partial := disk.partial + {k}), WritePartial(i));
      MoveTo(disk.(staged := disk.staged[k := acts[i].after.value], partial := disk.partial - {k}), StageFile(i));
    }

    ghost predicate StagedTo(n: nat)
      reads this
      requires n <= |acts|
    {
      forall j :: 0 <= j < n && Publishes(acts[j]) ==>
        FileAt(disk.staged, acts[j].key) == acts[j].after && acts[j].key !in disk.partial
    }

    method StageAll()
      requires Valid() && disk.marker && disk.scratch == NoScratch && disk.journal == At(Planned)
      requires disk.roots == Needed(acts)
      modifies this
      ensures Valid() && old(history) <= history
      ensures disk == old(disk).(staged := disk.staged, partial := disk.partial)
      ensures StagedTo(|acts|)
    {
      for i := 0 to |acts|
        invariant Valid() && old(history) <= history
        invariant disk == old(disk).(staged := disk.staged, partial := disk.partial)
        invariant StagedTo(i)
      {
        if Publishes(acts[i]) {
          ghost var before := disk;
          StageOne(i);
          KeepsStaged(acts, before, disk, i);
        }
      }
    }

    /** Stage every candidate from the backup, or accept candidates staged earlier. */
    method StageCandidates(backup: Archive) returns (r: Result<bool>)
      requires Valid() && disk.marker && disk.scratch == NoScratch && disk.journal == At(Planned)
      modifies this
      ensures Valid() && old(history) <= history
      ensures r.Ok? <==> backup == Matching || CandidatesComplete(old(disk), acts)
      ensures disk == old(disk).(staged := disk.staged, partial := disk.partial, roots := disk.roots)
      ensures r.Ok? ==> r.value && CandidatesComplete(disk, acts)
    {
      if backup == Matching {
        MakeRoots();
        StageAll();
        return Ok(true);
      }
      r := if CandidatesComplete(disk, acts) then Ok(true) else Err(Stale);
    }

    // ---- Publication ----

    /** The process has been through `n` actions. */
    ghost predicate Applied(n: nat)
      reads this
    {
      && n <= |acts| && disk.marker && disk.scratch == NoScratch && disk.journal == At(Publishing)
      && disk.proc == Proc(false, n)
    }

    /** At action `i`, with nothing in its way and its directories made. */
    ghost predicate Ready(i: nat)
      reads this
    {
      && i < |acts| && Applied(i) && acts[i].key !in disk.dirs
      && (Publishes(acts[i]) ==> Ancestors(acts[i].key) <= disk.dirs)
    }

    method Perform(i: nat, op: Op)
      requires Valid() && Ready(i) && Enabled(acts[i], CellOf(disk, acts[i].key), op)
      modifies this
      ensures Valid() && old(history) <= history && Ready(i) && disk.dirs == old(disk).dirs
      ensures CellOf(disk, acts[i].key) == Effect(acts[i], old(CellOf(disk, acts[i].key)), op)
    {
      var a := acts[i];
      var c := CellOf(disk, a.key);
      MoveTo(WithCell(disk, a.key, Effect(a, c, op)), Publish(op));
    }

    /** Unlink a live file, making it writable first if need be. */
    method RemoveLive(i: nat)
      requires Valid() && Ready(i)
      requires Replaceable(acts[i], CellOf(disk, acts[i].key)) && CellOf(disk, acts[i].key).live != acts[i].after
      modifies this
      ensures Valid() && old(history) <= history && Ready(i) && disk.dirs == old(disk).dirs
      ensures CellOf(disk, acts[i].key) == old(CellOf(disk, acts[i].key)).(live := None)
    {
      if CellOf(disk, acts[i].key).live.value.readOnly {
        Perform(i, Touch);
      }
      Perform(i, Unlink);
    }

    /** Publish one candidate, or accept it as already published. */
    method PublishCandidate(i: nat)
      requires Valid() && Ready(i) && Publishes(acts[i])
      modifies this
      ensures Valid() && old(history) <= history && Ready(i) && disk.dirs == old(disk).dirs
      ensures CellOf(disk, acts[i].key) == Settled(acts[i])
    {
      var a := acts[i];
      assert KindOf(a.before, a.after) == Some(a.kind);
      var c := CellOf(disk, a.key);
      MidwayAt(disk, acts, i);
      DuplicatesAreWritable(a, c);
      if c.live == a.after {
        if c.staged.Some? {
          Perform(i, DropDuplicate);
        }
        return;
      }
      if c.live.Some? {
        RemoveLive(i);
      }
      Perform(i, Rename);
    }

    /** Make the directories above a path that is to be published. */
    method EnsureDirectories(i: nat)
      requires Valid() && i < |acts| && Applied(i) && Publishes(acts[i])
      modifies this
      ensures Valid() && old(history) <= history && Applied(i) && Ancestors(acts[i].key) <= disk.dirs
      ensures disk.dirs == old(disk).dirs + Ancestors(acts[i].key)
    {
      var rest := Ancestors(acts[i].key);
      assert KindOf(acts[i].before, acts[i].after) == Some(acts[i].kind);
      while rest != {}
        invariant Valid() && old(history) <= history && Applied(i) && rest <= Ancestors(acts[i].key)
        invariant disk.dirs + rest == old(disk).dirs + Ancestors(acts[i].key)
        decreases rest
      {
        var k :| k in rest;
        NoFileAbove(disk, acts, i, k);
        MoveTo(disk.(dirs := disk.dirs + {k}), MakeDir(k));
        rest := rest - {k};
      }
    }

    method ChangeLive(i: nat)
      requires Valid() && Ready(i)
      modifies this
      ensures Valid() && old(history) <= history && Ready(i) && disk.dirs == old(disk).dirs
      ensures CellOf(disk, acts[i].key) == Settled(acts[i])
    {
      var a := acts[i];
      assert KindOf(a.before, a.after) == Some(a.kind);
      MidwayAt(disk, acts, i);
      if Publishes(a) {
        PublishCandidate(i);
      } else if a.kind == Remove && CellOf(disk, a.key).live.Some? {
        RemoveLive(i);
      }
    }

    /** Apply one action whose path must not be a directory. */
    method ApplyAction(i: nat) returns (r: Result<bool>)
      requires Valid() && i < |acts| && Applied(i)
      modifies this
      ensures Valid() && old(history) <= history
      ensures r.Ok? <==> acts[i].key !in old(disk).dirs
      ensures r.Ok? ==> r.value && Applied(i + 1)
      ensures r.Ok? ==> (Clearway(disk.dirs, acts, i + 1) <==> Clearway(old(disk).dirs, acts, i + 1))
    {
      var a := acts[i];
      if Publishes(a) {
        EnsureDirectories(i);
      }
      LaterClear(old(disk).dirs, acts, i);
      if a.key in disk.dirs {
        return Err(Invalid);
      }
      ChangeLive(i);
      MoveTo(disk.(proc := Proc(false, i + 1)), Pass);
      r := Ok(true);
    }

    /** Apply every action, up to the first whose path is a directory. */
    method ApplyActions() returns (r: Result<bool>)
      requires Valid() && Applied(0)
      modifies this
      ensures Valid() && old(history) <= history
      ensures r.Ok? <==> Clearway(old(disk).dirs, acts, 0)
      ensures r.Ok? ==> r.value && Applied(|acts|)
    {
      for i := 0 to |acts|
        invariant Valid() && old(history) <= history && Applied(i)
        invariant Clearway(disk.dirs, acts, i) <==> Clearway(old(disk).dirs, acts, 0)
      {
        r := ApplyAction(i);
        if r.Err? {
          return;
        }
      }
      r := Ok(true);
    }

    // ---- Cleanup and completion ----

    method RemoveCandidates()
      requires Valid() && disk.marker && disk.scratch == NoScratch && disk.journal == At(Published)
      modifies this
      ensures Valid() && old(history) <= history
      ensures disk == old(disk).(roots := {})
    {
      var rest := disk.roots;
      while rest != {}
        invariant Valid() && old(history) <= history
        invariant disk == old(disk).(roots := rest)
        decreases rest
      {
        var r :| r in rest;
        rest := rest - {r};
        MoveTo(disk.(roots := rest), RemoveRoot(r));
      }
    }

    /** Clear the marker of a completed operation, if the live files are the backup's. */
    method Complete() returns (r: Result<bool>)
      requires Valid() && disk.marker && disk.scratch == NoScratch && disk.journal == At(Completed)
      modifies this
      ensures Valid() && old(history) <= history && disk.live == old(disk).live
      ensures r.Ok? <==> LiveIs(old(disk).live, acts, After)
      ensures r.Ok? ==> r.value && Finished(disk, acts)
      ensures r.Err? ==> disk == old(disk)
    {
      if !Terminal(disk, acts) {
        return Err(Conflict);
      }
      MoveTo(disk.(marker := false), Clear);
      r := Ok(true);
    }

    /** From the end of publication to the end. */
    method FinishPublication()
      requires Valid() && disk.marker && disk.scratch == NoScratch && 3 < Level(disk.journal) < 7
      modifies this
      ensures Valid() && old(history) <= history
      ensures Finished(disk, acts)
    {
      if disk.journal == At(Published) {
        RemoveCandidates();
        Advance();
      }
      if disk.journal == At(CandidatesRemoved) {
        Advance();
      }
      Advance();
      var done := Complete();
    }

    /** Stage the candidates and check once more that the live files are the reviewed ones. */
    method Prepare(backup: Archive) returns (r: Result<bool>)
      requires Valid() && disk.marker && disk.scratch == NoScratch && 1 <= Level(disk.journal) <= 2 && disk.proc == Idle
      modifies this
      ensures Valid() && old(history) <= history && disk.live == old(disk).live && disk.dirs == old(disk).dirs
      ensures disk.history == old(disk).history
      ensures r.Ok? <==>
                && (old(disk).journal == At(Planned) ==> backup == Matching || CandidatesComplete(old(disk), acts))
                && old(disk).history == Room
      ensures r.Ok? ==>
                && r.value && disk.proc == Idle
                && disk.marker && disk.scratch == NoScratch && disk.journal == At(Publishing)
    {
      if disk.journal == At(Planned) {
        r := StageCandidates(backup);
        if r.Err? {
          return;
        }
        Advance();
      }
      RoomIffReviewed(disk, acts);
      if !LiveIs(disk.live, acts, Before) {
        return Err(Stale);
      }
      Advance();
      r := Ok(true);
    }

    /** Carry a loaded operation to its end from whatever status it has reached. */
    method Resume(backup: Archive) returns (r: Result<bool>)
      requires Valid() && disk.marker && disk.scratch == NoScratch && disk.journal.At? && disk.proc == Idle
      modifies this
      ensures Valid() && old(history) <= history
      ensures r.Ok? <==> Continuable(old(disk), acts, backup)
      ensures r.Ok? ==> r.value && Finished(disk, acts)
      ensures r.Err? ==>
                || (disk.live == old(disk).live && disk.history == old(disk).history)
                || (Level(old(disk).journal) <= 3 && !Clearway(old(disk).dirs, acts, 0) && old(disk).history == Room)
    {
      if disk.journal == At(Completed) {
        r := Complete();
        return;
      }
      if Level(disk.journal) <= 2 {
        r := Prepare(backup);
        if r.Err? {
          return;
        }
      }
      if disk.journal == At(Publishing) {
        r := ApplyActions();
        if r.Err? {
          return;
        }
        Advance();
      }
      FinishPublication();
      r := Ok(true);
    }

    /**
     * Apply a reviewed plan with its backup and its rollback backup. On every disk that
     * earlier attempts can have left, it succeeds exactly when the disk is restorable; the
     * live files are then the backup's, nothing is staged and the marker is gone. A failure
     * leaves every live file as it was, except that starting over a full history removes its
     * oldest record and that publication stops at a path that is a directory.
     */
    method ApplyRestore(backup: Archive, rollback: Archive) returns (r: Result<bool>)
      requires Valid()
      modifies this
      ensures Valid() && old(history) <= history
      ensures r.Ok? <==> Restorable(old(disk), acts, backup, rollback)
      ensures r.Ok? && r.value ==> Finished(disk, acts)
      ensures r.Ok? ==> LiveIs(disk.live, acts, After)
      ensures r.Ok? ==>
                (!r.value <==> !old(disk).marker && Loaded(old(disk)).journal == Missing && SameSides(acts))
      ensures r.Ok? && !r.value ==> disk == old(disk).(proc := Idle)
      ensures r.Err? ==>
                || Unharmed(old(disk), disk)
                || (Level(old(disk).journal) <= 3 && !Clearway(old(disk).dirs, acts, 0) && old(disk).history == Room)
    {
      var loaded := LoadJournal();
      if loaded.Err? {
        return Err(loaded.error);
      }
      if loaded.value.At? {
        r := Continue(backup, rollback);
        return;
      }
      if backup != Matching {
        return Err(Stale);
      }
      r := StartOver(rollback);
      if r.Err? || !r.value {
        return;
      }
      Begin();
      r := Resume(backup);
    }

    /** A journal that is there decides, together with what the caller still has. */
    method Continue(backup: Archive, rollback: Archive) returns (r: Result<bool>)
      requires Valid() && disk.journal.At? && disk.scratch == NoScratch && disk.proc == Idle
      modifies this
      ensures Valid() && old(history) <= history
      ensures r.Ok? <==> backup != Different && rollback != Different && Continuable(old(disk), acts, backup)
      ensures r.Ok? ==> r.value && Finished(disk, acts)
      ensures r.Err? ==>
                || disk.live == old(disk).live
                || (Level(old(disk).journal) <= 3 && !Clearway(old(disk).dirs, acts, 0) && old(disk).history == Room)
    {
      if backup == Different || rollback == Different {
        return Err(Conflict);
      }
      if !disk.marker {
        MoveTo(disk.(marker := true), Activate);
      }
      r := Resume(backup);
    }

    /** Without a journal the plan is rebuilt, which takes the files it was reviewed against. */
    method StartOver(rollback: Archive) returns (r: Result<bool>)
      requires Valid() && disk.journal == Missing && disk.scratch == NoScratch && disk.proc == Idle
      modifies this
      ensures Valid() && old(history) <= history
      ensures r.Ok? <==>
                && LiveIs(old(disk).live, acts, Before)
                && if old(disk).marker then rollback == Matching else SameSides(acts) || rollback != Different
      ensures r.Ok? && r.value ==> disk == old(disk).(marker := true)
      ensures r.Ok? ==> r.value == (old(disk).marker || !SameSides(acts))
      ensures r.Ok? && !r.value ==> LiveIs(disk.live, acts, After)
      ensures r.Err? || !r.value ==> disk == old(disk)
    {
      if !LiveIs(disk.live, acts, Before) {
        return Err(Stale);
      }
      if disk.marker {
        return if rollback != Matching then Err(Conflict) else Ok(true);
      }
      NothingToDo(acts, disk.live);
      if forall i :: 0 <= i < |acts| ==> acts[i].kind == Retain {
        return Ok(false);
      }
      if rollback == Different {
        return Err(Conflict);
      }
      MoveTo(disk.(marker := true), Activate);
      r := Ok(true);
    }
  }

  // ---- Frames ----

  lemma KeepsStaged(acts: seq<Action>, d: Disk, e: Disk, i: nat)
    requires Proper(acts) && i < |acts|
    requires e.staged == Put(d.staged, acts[i].key, acts[i].after) && e.partial == d.partial - {acts[i].key}
    requires forall j :: 0 <= j < i && Publishes(acts[j]) ==>
               FileAt(d.staged, acts[j].key) == acts[j].after && acts[j].key !in d.partial
    ensures forall j :: 0 <= j <= i && Publishes(acts[j]) ==>
              FileAt(e.staged, acts[j].key) == acts[j].after && acts[j].key !in e.partial
  {
    forall j | 0 <= j < i
      ensures acts[j].key != acts[i].key
    {
      Apart(acts, j, i);
    }
  }

  /** A plan retains everything exactly if its sides are equal, and either side is then the other. */
  lemma NothingToDo(acts: seq<Action>, live: Files)
    requires Proper(acts)
    ensures AllRetain(acts) <==> SameSides(acts)
    ensures SameSides(acts) && LiveIs(live, acts, Before) ==> LiveIs(live, acts, After)
  {
    NoChangeIffEqual(acts);
    if AllRetain(acts) {
      forall i | 0 <= i < |acts|
        ensures acts[i].before == acts[i].after
      {
        assert KindOf(acts[i].before, acts[i].after) == Some(Retain);
      }
    }
  }

  /** Making the directories above one action's path puts none in the way of it or a later one. */
  lemma LaterClear(dirs: set<Key>, acts: seq<Action>, i: nat)
    requires InOrder(acts) && i < |acts|
    ensures acts[i].key in dirs + Ancestors(acts[i].key) ==> acts[i].key in dirs
    ensures Clearway(dirs + Ancestors(acts[i].key), acts, i + 1) <==> Clearway(dirs, acts, i + 1)
  {
    forall k | k in Ancestors(acts[i].key)
      ensures forall j :: i <= j < |acts| ==> acts[j].key != k
    {
      LaterApart(acts, i, k);
    }
    assert forall j :: i <= j < |acts| ==> acts[j].key !in Ancestors(acts[i].key);
  }

  lemma RoomIffReviewed(d: Disk, acts: seq<Action>)
    requires Inv(d, acts) && 1 <= Level(d.journal) <= 2
    ensures LiveIs(d.live, acts, Before) <==> d.history == Room
  {
    if d.history.Pruned? {
      ButIsNotBefore(d.live, acts, d.history.record);
    }
  }

  lemma StartedWithHistory(d: Disk, acts: seq<Action>)
    requires Inv(d, acts) && d.journal == Missing && LiveIs(d.live, acts, Before)
    ensures d.history == Room || (d.history.Full? && d.history.oldest in d.live)
  {
    if d.history.Pruned? {
      ButIsNotBefore(d.live, acts, d.history.record);
    }
  }
}
