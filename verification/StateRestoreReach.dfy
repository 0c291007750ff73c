/**
 * States a restore really passes through: when live files can be seen at neither of their
 * reviewed sides, and how repeating a completed restore wedges the installation.
 */
module StateRestoreReach {
  import opened Outcomes
  import opened StateRestorePlan
  import opened StateRestoreProtocol

  ghost predicate RunTo(run: seq<Disk>, d: Disk, acts: seq<Action>) {
    IsRun(run, acts) && run != [] && Initial(run[0]) && run[|run| - 1] == d
  }

  ghost predicate Reachable(d: Disk, acts: seq<Action>) {
    exists run :: RunTo(run, d, acts)
  }

  lemma Extend(d: Disk, e: Disk, acts: seq<Action>, step: Step)
    requires Reachable(d, acts) && NextStep(d, e, acts, step)
    ensures Reachable(e, acts)
  {
    var run :| RunTo(run, d, acts);
    var longer := run + [e];
    forall i: nat | i + 1 < |longer|
      ensures StepAt(longer, i, acts)
    {
      if i + 1 < |run| {
        assert StepAt(run, i, acts);
      }
    }
    assert RunTo(longer, e, acts);
  }

  lemma Checkpoint(d: Disk, acts: seq<Action>)
    requires Reachable(d, acts) && d.marker && d.scratch == NoScratch && May(d, acts)
    ensures Successor(d.journal).Some?
    ensures Reachable(d.(journal := At(Successor(d.journal).value), proc := Idle), acts)
  {
    var t := Successor(d.journal).value;
    var d1 := d.(scratch := EmptyScratch, proc := d.proc.(writing := true));
    var d2 := d1.(scratch := Written(t));
    Extend(d, d1, acts, Scribble(EmptyScratch));
    Extend(d1, d2, acts, Scribble(Written(t)));
    Extend(d2, d.(journal := At(t), proc := Idle), acts, Commit);
  }

  // ---- Up to publication ----

  /** The directories that the files make necessary. */
  ghost function Parents(files: Files): set<Key> {
    set k, a | k in files && a in Ancestors(k) :: a
  }

  /** The reviewed files fill one directory tree; there is no other directory. */
  ghost predicate Start(live: Files, acts: seq<Action>) {
    Proper(acts) && LiveIs(live, acts, Before) && Tree(live, Parents(live))
  }

  function Begun(live: Files, dirs: set<Key>, staged: Files, roots: set<Root>, journal: Journal): Disk {
    Disk(live, staged, {}, roots, true, journal, NoScratch, dirs, Room, Idle)
  }

  lemma ReachActive(live: Files, acts: seq<Action>)
    requires Start(live, acts)
    ensures Reachable(Begun(live, Parents(live), map[], {}, Missing), acts)
  {
    var e := Begun(live, Parents(live), map[], {}, Missing);
    var d := e.(marker := false);
    assert RunTo([d], d, acts);
    Extend(d, e, acts, Activate);
  }

  lemma BothRoots(roots: set<Root>)
    ensures roots - {Data} - {State} == {}
  {
    forall r | r in roots
      ensures r == Data || r == State
    {}
  }

  lemma ReachPlanned(live: Files, acts: seq<Action>) returns (d: Disk)
    requires Start(live, acts)
    ensures Reachable(d, acts) && d == Begun(live, Parents(live), map[], {}, At(Planned))
  {
    ReachActive(live, acts);
    Checkpoint(Begun(live, Parents(live), map[], {}, Missing), acts);
    d := Begun(live, Parents(live), map[], {}, At(Planned));
  }

  lemma ReachRoots(live: Files, acts: seq<Action>)
    requires Start(live, acts)
    ensures Reachable(Begun(live, Parents(live), map[], Needed(acts), At(Planned)), acts)
  {
    var d := ReachPlanned(live, acts);
    var e := d;
    if Data in Needed(acts) {
      e := d.(roots := {Data});
      Extend(d, e, acts, MakeRoot(Data));
    }
    var f := e;
    if State in Needed(acts) {
      f := e.(roots := e.roots + {State});
      Extend(e, f, acts, MakeRoot(State));
    }
    BothRoots(Needed(acts) - f.roots);
    assert f.roots == Needed(acts);
  }

  /** The candidates of the first `n` actions. */
  ghost function StagedTo(acts: seq<Action>, n: nat): Files
    requires n <= |acts|
  {
    if n == 0 then map[]
    else if Candidate(acts[n - 1]).None? then StagedTo(acts, n - 1)
    else StagedTo(acts, n - 1)[acts[n - 1].key := Candidate(acts[n - 1]).value]
  }

  lemma {:induction false} StagedToAt(acts: seq<Action>, n: nat)
    requires Proper(acts) && n <= |acts|
    ensures Covered(StagedTo(acts, n), acts)
    ensures forall i :: 0 <= i < n ==> FileAt(StagedTo(acts, n), acts[i].key) == Candidate(acts[i])
    ensures forall i :: n <= i < |acts| ==> acts[i].key !in StagedTo(acts, n)
  {
    if n > 0 {
      StagedToAt(acts, n - 1);
      forall i | 0 <= i < |acts| && i != n - 1
        ensures acts[i].key != acts[n - 1].key
      {
        Apart(acts, i, n - 1);
      }
    }
  }

  lemma StageNext(d: Disk, acts: seq<Action>, n: nat)
    requires Reachable(d, acts) && d == Begun(d.live, d.dirs, d.staged, Needed(acts), At(Planned))
    requires n < |acts| && Publishes(acts[n]) && acts[n].after.Some?
    ensures Reachable(d.(staged := d.staged[acts[n].key := acts[n].after.value]), acts)
  {
    var e := d.(partial := {acts[n].key});
    Extend(d, e, acts, WritePartial(n));
    Extend(e, d.(staged := d.staged[acts[n].key := acts[n].after.value]), acts, StageFile(n));
  }

  lemma {:induction false} ReachStagedTo(live: Files, acts: seq<Action>, n: nat)
    requires Start(live, acts) && n <= |acts|
    ensures Reachable(Begun(live, Parents(live), StagedTo(acts, n), Needed(acts), At(Planned)), acts)
  {
    if n == 0 {
      ReachRoots(live, acts);
    } else {
      ReachStagedTo(live, acts, n - 1);
      var a := acts[n - 1];
      assert KindOf(a.before, a.after) == Some(a.kind);
      if Publishes(a) {
        StageNext(Begun(live, Parents(live), StagedTo(acts, n - 1), Needed(acts), At(Planned)), acts, n - 1);
      }
    }
  }

  lemma ReachStaged(live: Files, acts: seq<Action>) returns (d: Disk)
    requires Start(live, acts)
    ensures Reachable(d, acts) && CandidatesComplete(d, acts)
    ensures d == Begun(live, Parents(live), d.staged, Needed(acts), At(Planned))
  {
    ReachStagedTo(live, acts, |acts|);
    StagedToAt(acts, |acts|);
    d := Begun(live, Parents(live), StagedTo(acts, |acts|), Needed(acts), At(Planned));
  }

  // ---- Publication ----

  /** The process is at action `n`, whose path is in condition `c`; all later ones are untouched. */
  ghost predicate Working(d: Disk, acts: seq<Action>, n: nat, c: Cell) {
    && n < |acts| && CellOf(d, acts[n].key) == c
    && Running(d, acts, n)
    && forall j :: n < j < |acts| ==> CellOf(d, acts[j].key) == Fresh(acts[j])
  }

  ghost predicate Running(d: Disk, acts: seq<Action>, n: nat) {
    && n <= |acts| && d == Begun(d.live, d.dirs, d.staged, Needed(acts), At(Publishing)).(proc := Proc(false, n))
    && Covered(d.live, acts) && Covered(d.staged, acts) && SettledTo(d, acts, n)
    && OnlyObstructed(d.dirs, acts, n)
  }

  /** From `n` on, no path is a directory but those that reviewed files make one. */
  ghost predicate OnlyObstructed(dirs: set<Key>, acts: seq<Action>, n: nat) {
    forall j :: n <= j < |acts| && acts[j].key in dirs ==> Obstructs(acts, j)
  }

  ghost predicate OnTrack(d: Disk, acts: seq<Action>, n: nat) {
    Running(d, acts, n) && forall j :: n <= j < |acts| ==> CellOf(d, acts[j].key) == Fresh(acts[j])
  }

  lemma ParentsObstruct(live: Files, acts: seq<Action>)
    requires LiveIs(live, acts, Before)
    ensures OnlyObstructed(Parents(live), acts, 0)
  {
    forall j | 0 <= j < |acts| && acts[j].key in Parents(live)
      ensures Obstructs(acts, j)
    {
      var k :| k in live && acts[j].key in Ancestors(k);
      var m :| 0 <= m < |acts| && acts[m].key == k;
      assert FileAt(live, acts[m].key) == acts[m].before;
    }
  }

  lemma ReachPublishing(live: Files, acts: seq<Action>) returns (d: Disk)
    requires Start(live, acts)
    ensures Reachable(d, acts) && OnTrack(d, acts, 0)
  {
    var e := ReachStaged(live, acts);
    Checkpoint(e, acts);
    Checkpoint(e.(journal := At(Staged)), acts);
    d := e.(journal := At(Publishing));
    ParentsObstruct(live, acts);
    assert forall j :: 0 <= j < |acts| ==> CellOf(d, acts[j].key) == Fresh(acts[j]);
  }

  lemma Perform(d: Disk, acts: seq<Action>, n: nat, c: Cell, op: Op) returns (e: Disk)
    requires Proper(acts) && Reachable(d, acts) && Working(d, acts, n, c) && Enabled(acts[n], c, op)
    requires acts[n].key !in d.dirs && (Publishes(acts[n]) ==> Ancestors(acts[n].key) <= d.dirs)
    ensures Reachable(e, acts) && Working(e, acts, n, Effect(acts[n], c, op)) && e.dirs == d.dirs
  {
    e := WithCell(d, acts[n].key, Effect(acts[n], c, op));
    CellUpdate(d, acts, n, Effect(acts[n], c, op));
    Extend(d, e, acts, Publish(op));
  }

  /** Make the directories above the path the process is at. */
  lemma {:induction false} EnsureDirs(d: Disk, acts: seq<Action>, n: nat, c: Cell, todo: set<Key>) returns (e: Disk)
    requires Proper(acts) && Reachable(d, acts) && Working(d, acts, n, c) && Publishes(acts[n])
    requires todo <= Ancestors(acts[n].key) && Ancestors(acts[n].key) <= d.dirs + todo
    ensures Reachable(e, acts) && Working(e, acts, n, c) && Ancestors(acts[n].key) <= e.dirs
    decreases todo
  {
    if todo == {} {
      e := d;
    } else {
      var k :| k in todo;
      assert KindOf(acts[n].before, acts[n].after) == Some(acts[n].kind);
      NoFileAbove(d, acts, n, k);
      LaterApart(acts, n, k);
      var f := d.(dirs := d.dirs + {k});
      Extend(d, f, acts, MakeDir(k));
      assert forall j :: 0 <= j < |acts| ==> CellOf(f, acts[j].key) == CellOf(d, acts[j].key);
      e := EnsureDirs(f, acts, n, c, todo - {k});
    }
  }

  /** Take the live file of a removal or replacement away. */
  lemma TakeAway(d: Disk, acts: seq<Action>, n: nat) returns (e: Disk)
    requires Proper(acts) && Reachable(d, acts) && n < |acts| && Working(d, acts, n, Fresh(acts[n]))
    requires acts[n].kind == Remove || acts[n].kind == Replace
    requires acts[n].key !in d.dirs && (Publishes(acts[n]) ==> Ancestors(acts[n].key) <= d.dirs)
    ensures Reachable(e, acts) && Working(e, acts, n, Cell(None, Candidate(acts[n]))) && e.dirs == d.dirs
  {
    var a := acts[n];
    assert KindOf(a.before, a.after) == Some(a.kind);
    var f, c := d, Fresh(a);
    if a.before.value.readOnly {
      f := Perform(d, acts, n, c, Touch);
      c := Effect(a, c, Touch);
    }
    e := Perform(f, acts, n, c, Unlink);
  }

  /** Ready to work on an action that nothing is in the way of. */
  lemma Prepare(d: Disk, acts: seq<Action>, n: nat) returns (e: Disk)
    requires Proper(acts) && Reachable(d, acts) && n < |acts| && OnTrack(d, acts, n) && !Obstructs(acts, n)
    ensures Reachable(e, acts) && Working(e, acts, n, Fresh(acts[n]))
    ensures acts[n].key !in e.dirs && (Publishes(acts[n]) ==> Ancestors(acts[n].key) <= e.dirs)
  {
    e := d;
    if Publishes(acts[n]) {
      e := EnsureDirs(d, acts, n, Fresh(acts[n]), Ancestors(acts[n].key));
    }
  }

  lemma Settle(d: Disk, acts: seq<Action>, n: nat) returns (e: Disk)
    requires Proper(acts) && Reachable(d, acts) && n < |acts| && OnTrack(d, acts, n) && !Obstructs(acts, n)
    ensures Reachable(e, acts) && OnTrack(e, acts, n + 1)
  {
    var a := acts[n];
    assert KindOf(a.before, a.after) == Some(a.kind);
    var f := Prepare(d, acts, n);
    if a.kind == Remove || a.kind == Replace {
      f := TakeAway(f, acts, n);
    }
    if Publishes(a) {
      f := Perform(f, acts, n, Cell(None, Candidate(a)), Rename);
    }
    e := StepOn(f, acts, n);
  }

  lemma StepOn(d: Disk, acts: seq<Action>, n: nat) returns (e: Disk)
    requires Reachable(d, acts) && n < |acts| && Working(d, acts, n, Settled(acts[n])) && acts[n].key !in d.dirs
    ensures Reachable(e, acts) && OnTrack(e, acts, n + 1)
  {
    e := d.(proc := Proc(false, n + 1));
    Extend(d, e, acts, Pass);
    assert forall j :: 0 <= j < |acts| ==> CellOf(e, acts[j].key) == CellOf(d, acts[j].key);
  }

  lemma {:induction false} ReachTrack(live: Files, acts: seq<Action>, n: nat) returns (d: Disk)
    requires Start(live, acts) && n <= |acts| && forall j :: 0 <= j < n ==> !Obstructs(acts, j)
    ensures Reachable(d, acts) && OnTrack(d, acts, n)
  {
    if n == 0 {
      d := ReachPublishing(live, acts);
    } else {
      var e := ReachTrack(live, acts, n - 1);
      d := Settle(e, acts, n - 1);
    }
  }

  // ---- Neither before nor after ----

  predicate BeforeOrAfter(d: Disk, acts: seq<Action>) {
    forall i :: 0 <= i < |acts| ==>
      FileAt(d.live, acts[i].key) == acts[i].before || FileAt(d.live, acts[i].key) == acts[i].after
  }

  /** Applied in a single change of the live path. */
  predicate SingleChange(a: Action) {
    a.kind == Add || a.kind == Retain || (a.kind == Remove && a.before.Some? && !a.before.value.readOnly)
  }

  /** From an untouched action of any other form, a step leads to neither side. */
  lemma PassesBetween(d: Disk, acts: seq<Action>, n: nat) returns (e: Disk)
    requires Proper(acts) && Reachable(d, acts) && n < |acts| && OnTrack(d, acts, n) && !Obstructs(acts, n)
    requires KindOf(acts[n].before, acts[n].after) == Some(acts[n].kind) && !SingleChange(acts[n])
    ensures Reachable(e, acts) && !BeforeOrAfter(e, acts) && e.journal == At(Publishing)
  {
    var f := Prepare(d, acts, n);
    if acts[n].kind == Remove {
      e := Perform(f, acts, n, Fresh(acts[n]), Touch);
    } else {
      e := TakeAway(f, acts, n);
    }
    assert FileAt(e.live, acts[n].key) == CellOf(e, acts[n].key).live;
  }

  /**
   * Every live path is at its before or its after evidence throughout publication exactly
   * when no action that a process can get to replaces a file or removes a read-only one.
   */
  lemma BeforeOrAfterIff(live: Files, acts: seq<Action>)
    requires Start(live, acts)
    ensures (forall d :: Reachable(d, acts) && d.journal == At(Publishing) ==> BeforeOrAfter(d, acts))
            <==> (forall i :: 0 <= i < |acts| && !Hidden(acts, i) ==> SingleChange(acts[i]))
  {
    if forall i :: 0 <= i < |acts| && !Hidden(acts, i) ==> SingleChange(acts[i]) {
      forall d | Reachable(d, acts) && d.journal == At(Publishing)
        ensures BeforeOrAfter(d, acts)
      {
        AlwaysOnASide(d, acts);
      }
    } else {
      var n :| 0 <= n < |acts| && !Hidden(acts, n) && !SingleChange(acts[n]);
      var d := ReachTrack(live, acts, n);
      var e := PassesBetween(d, acts, n);
    }
  }

  lemma ReachableInv(d: Disk, acts: seq<Action>)
    requires Proper(acts) && Reachable(d, acts)
    ensures Inv(d, acts)
  {
    var run :| RunTo(run, d, acts);
    InvRun(run, |run| - 1, acts);
  }

  lemma AlwaysOnASide(d: Disk, acts: seq<Action>)
    requires Proper(acts) && Reachable(d, acts) && d.journal == At(Publishing)
    requires forall i :: 0 <= i < |acts| && !Hidden(acts, i) ==> SingleChange(acts[i])
    ensures BeforeOrAfter(d, acts)
  {
    ReachableInv(d, acts);
    forall i | 0 <= i < |acts|
      ensures FileAt(d.live, acts[i].key) == acts[i].before || FileAt(d.live, acts[i].key) == acts[i].after
    {
      MidwayAt(d, acts, i);
      assert Hidden(acts, i) ==> CellOf(d, acts[i].key) == Fresh(acts[i]);
      assert KindOf(acts[i].before, acts[i].after) == Some(acts[i].kind);
      OnASide(acts[i], CellOf(d, acts[i].key));
    }
  }

  lemma OnASide(a: Action, c: Cell)
    requires KindOf(a.before, a.after) == Some(a.kind) && Midway(a, c) && (SingleChange(a) || c == Fresh(a))
    ensures c.live == a.before || c.live == a.after
  {}

  // ---- To the end ----

  /** Nothing is in the way of any action. */
  ghost predicate Unobstructed(acts: seq<Action>) {
    forall j :: 0 <= j < |acts| ==> !Obstructs(acts, j)
  }

  lemma ReachRemoved(live: Files, acts: seq<Action>) returns (d: Disk)
    requires Start(live, acts) && Unobstructed(acts)
    ensures Reachable(d, acts) && Terminal(d, acts)
    ensures d == Begun(d.live, d.dirs, d.staged, {}, At(Published))
  {
    var e := ReachTrack(live, acts, |acts|);
    PublicationEnds(e, acts);
    Checkpoint(e, acts);
    var f := e.(journal := At(Published), proc := Idle);
    var g := f.(roots := f.roots - {Data});
    Extend(f, g, acts, RemoveRoot(Data));
    d := g.(roots := g.roots - {State});
    Extend(g, d, acts, RemoveRoot(State));
    BothRoots(f.roots);
  }

  lemma ReachCompleted(live: Files, acts: seq<Action>) returns (d: Disk)
    requires Start(live, acts) && Unobstructed(acts)
    ensures Reachable(d, acts) && !d.marker && d.journal == At(Completed) && d.scratch == NoScratch
    ensures Terminal(d, acts)
  {
    var f := ReachRemoved(live, acts);
    Checkpoint(f, acts);
    Checkpoint(f.(journal := At(CandidatesRemoved)), acts);
    Checkpoint(f.(journal := At(Verified)), acts);
    d := f.(journal := At(Completed), marker := false);
    Extend(f.(journal := At(Completed)), d, acts, Clear);
  }

  /**
   * After a restore has completed, the installation may change while its record is kept, by
   * any operation but another restore. Applying the same plan again then leaves the marker
   * set over live files that are not the backup's.
   */
  lemma RepeatedRestoreWedges(live: Files, acts: seq<Action>, later: Files, dirs: set<Key>) returns (d: Disk)
    requires Start(live, acts) && Unobstructed(acts) && Tree(later, dirs) && !LiveIs(later, acts, After)
    ensures Reachable(d, acts) && d.live == later
    ensures d.marker && d.scratch == NoScratch && d.journal == At(Completed) && !LiveIs(d.live, acts, After)
  {
    var e := ReachCompleted(live, acts);
    var f := e.(live := later, dirs := dirs, history := Room);
    Extend(e, f, acts, External(later, dirs, Room));
    d := f.(marker := true);
    Extend(f, d, acts, Activate);
  }

  /** Every checkpoint is reached, with everything done that it records. */
  lemma ReachMay(live: Files, acts: seq<Action>, next: Status) returns (d: Disk)
    requires Start(live, acts) && (next in {Planned, Staged, Publishing} || Unobstructed(acts))
    ensures Reachable(d, acts) && d.marker && d.scratch == NoScratch && May(d, acts)
    ensures Successor(d.journal) == Some(next) && d.history == Room
  {
    match next {
      case Planned =>
        ReachActive(live, acts);
        d := Begun(live, Parents(live), map[], {}, Missing);
      case Staged => d := ReachStaged(live, acts);
      case Publishing =>
        var e := ReachStaged(live, acts);
        Checkpoint(e, acts);
        d := e.(journal := At(Staged));
      case Published => d := ReachTrack(live, acts, |acts|);
      case CandidatesRemoved => d := ReachRemoved(live, acts);
      case Verified =>
        var e := ReachRemoved(live, acts);
        Checkpoint(e, acts);
        d := e.(journal := At(CandidatesRemoved));
      case Completed =>
        var e := ReachRemoved(live, acts);
        Checkpoint(e, acts);
        Checkpoint(e.(journal := At(CandidatesRemoved)), acts);
        d := e.(journal := At(Verified));
    }
  }
}
