/**
 * Whole-installation restore as a resumable protocol over the live files, the staged
 * candidates, the active marker and the operation journal.
 *
 * A journal checkpoint is written to a scratch file that then replaces the journal. A
 * process can be killed between any two steps, in particular between changing the mode of
 * a live file, unlinking it and renaming its candidate into place. The next process starts
 * with the first action again and does not continue a checkpoint it has not begun.
 *
 * Files live in directories: a path that is a directory is not a file, and a restore never
 * removes a directory. The records of completed restores are live files of every other
 * plan; when there are too many of them, starting a restore removes the oldest.
 */
module StateRestoreProtocol {
  import opened Outcomes
  import opened TextOrder
  import opened StateRestorePlan

  type Files = map<Key, Evidence>

  datatype Status = Planned | Staged | Publishing | Published | CandidatesRemoved | Verified | Completed

  datatype Journal = Missing | Torn | At(status: Status)

  datatype Scratch = NoScratch | EmptyScratch | TornScratch | Written(status: Status)

  datatype Disk = Disk(
    live: Files,
    staged: Files,
    partial: set<Key>,
    roots: set<Root>,
    marker: bool,
    journal: Journal,
    scratch: Scratch,
    dirs: set<Key>,
    history: History,
    proc: Proc)

  /** The records of completed restores: room for one more, too many, or the oldest already removed. */
  datatype History = Room | Full(oldest: Key) | Pruned(record: Key)

  /** The running process: it is writing a checkpoint, and has been through so many actions. */
  datatype Proc = Proc(writing: bool, cursor: nat)

  const Idle := Proc(false, 0)

  // ---- Paths ----

  /** The directories above a path, within its root. */
  function Ancestors(k: Key): (s: set<Key>) {
    set j | 0 <= j < |k.path| && k.path[j] == '/' :: Key(k.root, k.path[..j])
  }

  /** Those whose path and a slash begin the path. */
  lemma AncestorsIff(a: Key, k: Key)
    ensures a in Ancestors(k) <==> a.root == k.root && a.path + "/" <= k.path
  {
    if a.root == k.root && a.path + "/" <= k.path {
      assert k.path[|a.path|] == '/' && k.path[..|a.path|] == a.path;
    }
    if a in Ancestors(k) {
      var j :| 0 <= j < |k.path| && k.path[j] == '/' && a == Key(k.root, k.path[..j]);
      assert a.path + "/" == k.path[..j + 1];
    }
  }

  lemma {:induction false} PrefixLess(a: string, b: string)
    requires a <= b && a != b
    ensures TextLess(a, b)
  {
    if a != "" {
      PrefixLess(a[1..], b[1..]);
    }
  }

  /** A directory comes before everything in it. */
  lemma AncestorLess(a: Key, k: Key)
    requires a in Ancestors(k)
    ensures KeyLess(a, k)
  {
    var j :| 0 <= j < |k.path| && k.path[j] == '/' && a == Key(k.root, k.path[..j]);
    PrefixLess(a.path, k.path);
  }

  /** Every file is in its directories, and no path is both. */
  ghost predicate Tree(files: Files, dirs: set<Key>) {
    && (forall k :: k in files ==> Ancestors(k) <= dirs)
    && (forall k :: k in files ==> k !in dirs)
  }

  // ---- Files and actions ----

  function FileAt(files: Files, k: Key): Option<Evidence> {
    if k in files then Some(files[k]) else None
  }

  function Put(files: Files, k: Key, e: Option<Evidence>): Files {
    if e.None? then files - {k} else files[k := e.value]
  }

  predicate Covered(files: Files, acts: seq<Action>) {
    forall k :: k in files ==> exists i :: 0 <= i < |acts| && acts[i].key == k
  }

  /** The live files are exactly one side of the plan. */
  predicate LiveIs(files: Files, acts: seq<Action>, s: Side) {
    Covered(files, acts) && forall i :: 0 <= i < |acts| ==> FileAt(files, acts[i].key) == On(acts[i], s)
  }

  /** The files of the backup fit into one directory tree. */
  ghost predicate OneTree(acts: seq<Action>) {
    forall i, j :: 0 <= i < |acts| && 0 <= j < |acts| && acts[i].after.Some? && acts[j].after.Some? ==>
      acts[i].key !in Ancestors(acts[j].key)
  }

  /** Actions of the right kind, in order, for a backup of one tree. */
  ghost predicate Proper(acts: seq<Action>) {
    Kinds(acts) && InOrder(acts) && OneTree(acts)
  }

  lemma Apart(acts: seq<Action>, i: nat, j: nat)
    requires InOrder(acts) && i < |acts| && j < |acts| && i != j
    ensures acts[i].key != acts[j].key
  {
    KeyOrder();
    assert i < j || j < i;
  }

  /** The live files are the reviewed ones without one record. */
  predicate LiveBut(files: Files, acts: seq<Action>, k: Key) {
    && Covered(files, acts)
    && (exists i :: 0 <= i < |acts| && acts[i].key == k && acts[i].before.Some?)
    && forall i :: 0 <= i < |acts| ==>
         FileAt(files, acts[i].key) == if acts[i].key == k then None else acts[i].before
  }

  lemma ButIsNotBefore(files: Files, acts: seq<Action>, k: Key)
    requires LiveBut(files, acts, k)
    ensures !LiveIs(files, acts, Before)
  {
    var i :| 0 <= i < |acts| && acts[i].key == k && acts[i].before.Some?;
    assert FileAt(files, acts[i].key) == None;
  }

  predicate Publishes(a: Action) {
    a.kind == Add || a.kind == Replace
  }

  function Candidate(a: Action): Option<Evidence> {
    if Publishes(a) then a.after else None
  }

  function Needed(acts: seq<Action>): set<Root> {
    set i | 0 <= i < |acts| && Publishes(acts[i]) :: acts[i].key.root
  }

  predicate SameContent(a: Evidence, b: Evidence) {
    a.length == b.length && a.sha == b.sha
  }

  /** The owner-write bit is set, whatever else the mode says. */
  function Writable(e: Evidence): Evidence {
    e.(readOnly := false,
       mode := if e.mode.Some? && (e.mode.value / 0x80) % 2 == 0 then Some(e.mode.value + 0x80) else e.mode)
  }

  // ---- One path ----

  /** What the live root and the candidate root hold for one path. */
  datatype Cell = Cell(live: Option<Evidence>, staged: Option<Evidence>)

  function CellOf(d: Disk, k: Key): Cell {
    Cell(FileAt(d.live, k), FileAt(d.staged, k))
  }

  function WithCell(d: Disk, k: Key, c: Cell): Disk {
    d.(live := Put(d.live, k, c.live), staged := Put(d.staged, k, c.staged))
  }

  function Fresh(a: Action): Cell {
    Cell(a.before, Candidate(a))
  }

  function Settled(a: Action): Cell {
    Cell(a.after, None)
  }

  datatype Op = Touch | Unlink | Rename | TouchDuplicate | DropDuplicate

  predicate Replaceable(a: Action, c: Cell) {
    && a.before.Some? && c.live.Some? && SameContent(c.live.value, a.before.value)
    && (a.kind == Remove || (a.kind == Replace && c.staged == a.after))
  }

  predicate Duplicate(a: Action, c: Cell) {
    Publishes(a) && a.after.Some? && c.live == a.after && c.staged.Some? && SameContent(c.staged.value, a.after.value)
  }

  predicate Enabled(a: Action, c: Cell, op: Op) {
    match op
    case Touch => Replaceable(a, c) && c.live.value.readOnly && c.live != a.after
    case Unlink => Replaceable(a, c) && !c.live.value.readOnly
    case Rename => Publishes(a) && c.live.None? && c.staged == a.after
    case TouchDuplicate => Duplicate(a, c) && c.staged.value.readOnly
    case DropDuplicate => Duplicate(a, c) && !c.staged.value.readOnly
  }

  function Effect(a: Action, c: Cell, op: Op): Cell
    requires Enabled(a, c, op)
  {
    match op
    case Touch => c.(live := Some(Writable(c.live.value)))
    case Unlink => c.(live := None)
    case Rename => Cell(c.staged, None)
    case TouchDuplicate => c.(staged := Some(Writable(c.staged.value)))
    case DropDuplicate => c.(staged := None)
  }

  /** Every condition one path can be in while its action is being applied. */
  predicate Midway(a: Action, c: Cell) {
    || c == Fresh(a)
    || c == Settled(a)
    || (a.before.Some? && a.kind != Retain && c.staged == Candidate(a)
        && (c.live.None? || (a.before.value.readOnly && c.live == Some(Writable(a.before.value)))))
  }

  /** Only a file with the reviewed content is made writable or unlinked, and only where the plan says so. */
  lemma OnlyReviewedContentGoes(a: Action, c: Cell, op: Op)
    requires KindOf(a.before, a.after) == Some(a.kind) && Enabled(a, c, op) && (op == Touch || op == Unlink)
    ensures c.live.Some? && a.before.Some?
    ensures c.live.value.length == a.before.value.length && c.live.value.sha == a.before.value.sha
    ensures a.after.None? || (a.after != a.before && c.staged == a.after)
  {}

  /** Making a file writable sets the owner's write bit and leaves every other bit and the content alone. */
  lemma WritableSetsOneBit(e: Evidence)
    ensures !Writable(e).readOnly && Writable(e).length == e.length && Writable(e).sha == e.sha
    ensures Writable(e).mode.Some? <==> e.mode.Some?
    ensures e.mode.Some? ==>
              var m, w := e.mode.value, Writable(e).mode.value;
              w % 128 == m % 128 && w / 256 == m / 256 && w / 128 % 2 == 1
  {}

  lemma MidwayStep(a: Action, c: Cell, op: Op)
    requires KindOf(a.before, a.after) == Some(a.kind) && Midway(a, c) && Enabled(a, c, op)
    ensures Midway(a, Effect(a, c, op)) && c != Settled(a)
  {}

  /** A duplicate candidate is never read-only: dropping it takes a single step. */
  lemma DuplicatesAreWritable(a: Action, c: Cell)
    requires KindOf(a.before, a.after) == Some(a.kind) && Midway(a, c)
    ensures !Enabled(a, c, TouchDuplicate)
    ensures Duplicate(a, c) ==>
              a.kind == Replace && a.before.value.readOnly && a.after.value == Writable(a.before.value)
  {}

  // ---- Steps ----

  function Successor(j: Journal): (s: Option<Status>) {
    match j
    case Missing => Some(Planned)
    case Torn => None
    case At(Planned) => Some(Staged)
    case At(Staged) => Some(Publishing)
    case At(Publishing) => Some(Published)
    case At(Published) => Some(CandidatesRemoved)
    case At(CandidatesRemoved) => Some(Verified)
    case At(Verified) => Some(Completed)
    case At(Completed) => None
  }

  /** How far the journal has come. */
  function Level(j: Journal): (n: nat) {
    match j
    case Missing => 0
    case Torn => 0
    case At(Planned) => 1
    case At(Staged) => 2
    case At(Publishing) => 3
    case At(Published) => 4
    case At(CandidatesRemoved) => 5
    case At(Verified) => 6
    case At(Completed) => 7
  }

  predicate CandidatesComplete(d: Disk, acts: seq<Action>) {
    && d.roots == Needed(acts) && d.partial == {} && Covered(d.staged, acts)
    && forall i :: 0 <= i < |acts| ==> FileAt(d.staged, acts[i].key) == Candidate(acts[i])
  }

  predicate SettledTo(d: Disk, acts: seq<Action>, n: nat)
    requires n <= |acts|
  {
    forall i :: 0 <= i < n ==> CellOf(d, acts[i].key) == Settled(acts[i])
  }

  predicate Terminal(d: Disk, acts: seq<Action>) {
    d.roots == {} && LiveIs(d.live, acts, After)
  }

  /** What must hold before the journal may move to its next status. */
  predicate May(d: Disk, acts: seq<Action>) {
    match Successor(d.journal)
    case None => false
    case Some(Planned) => if d.history.Pruned? then d.proc.writing else d.history.Room? && LiveIs(d.live, acts, Before)
    case Some(Staged) => CandidatesComplete(d, acts)
    case Some(Publishing) => LiveIs(d.live, acts, Before)
    case Some(Published) => d.proc.cursor == |acts|
    case Some(CandidatesRemoved) => d.roots == {}
    case Some(Verified) => Terminal(d, acts)
    case Some(Completed) => true
  }

  datatype Step =
    | External(live: Files, dirs: set<Key>, history: History)
    | Kill
    | Activate
    | Prune(dirs: set<Key>)
    | Recover
    | Scribble(scratch: Scratch)
    | Commit
    | MakeRoot(root: Root)
    | WritePartial(index: nat)
    | DropPartial(key: Key)
    | StageFile(index: nat)
    | MakeDir(dir: Key)
    | Publish(op: Op)
    | Pass
    | RemoveRoot(root: Root)
    | Clear

  /** A checkpoint is created empty, filled, and complete once its last byte is there. */
  predicate Follows(d: Disk, x: Scratch) {
    match x
    case NoScratch => false
    case EmptyScratch => d.scratch == NoScratch
    case TornScratch => d.scratch == EmptyScratch
    case Written(t) => (d.scratch == EmptyScratch || d.scratch == TornScratch) && Successor(d.journal) == Some(t)
  }

  /** Loading the journal finishes or discards what an interrupted checkpoint left behind. */
  function Recovered(d: Disk): Disk {
    var journal :=
      if !d.journal.Missing? then d.journal
      else if d.scratch.Written? then At(d.scratch.status)
      else Torn;
    d.(journal := journal, scratch := NoScratch)
  }

  /** Nothing is missing from the history, and the record it would remove next is a live file. */
  predicate HistoryOk(live: Files, history: History) {
    match history
    case Room => true
    case Full(k) => k in live
    case Pruned(_) => false
  }

  ghost predicate JournalStep(d: Disk, e: Disk, acts: seq<Action>, step: Step) {
    match step
    case External(live, dirs, history) =>
      && !d.marker && d.scratch == NoScratch && Tree(live, dirs) && HistoryOk(live, history)
      && e == d.(live := live, dirs := dirs, history := history)
    case Kill => e == d.(proc := Idle)
    case Activate =>
      && !d.marker && d.scratch == NoScratch && d.journal != Torn
      && (d.journal == Missing ==> LiveIs(d.live, acts, Before))
      && e == d.(marker := true)
    case Prune(dirs) =>
      && d.marker && d.journal == Missing && d.scratch == NoScratch && d.history.Full?
      && dirs <= d.dirs && Tree(d.live - {d.history.oldest}, dirs)
      && e == d.(live := d.live - {d.history.oldest}, dirs := dirs, history := Pruned(d.history.oldest),
                 proc := Proc(true, 0))
    case Recover => !d.proc.writing && (d.scratch.TornScratch? || d.scratch.Written?) && e == Recovered(d)
    case Scribble(x) =>
      && d.marker && May(d, acts) && Follows(d, x) && (x == EmptyScratch || d.proc.writing)
      && e == d.(scratch := x, proc := d.proc.(writing := true))
    case Commit =>
      && May(d, acts) && d.scratch.Written? && d.proc.writing && Successor(d.journal) == Some(d.scratch.status)
      && e == d.(journal := At(d.scratch.status), scratch := NoScratch, proc := Idle)
    case Clear =>
      && d.marker && d.scratch == NoScratch && d.journal == At(Completed) && Terminal(d, acts)
      && e == d.(marker := false)
    case _ => false
  }

  ghost predicate StagingStep(d: Disk, e: Disk, acts: seq<Action>, step: Step) {
    && d.marker && d.scratch == NoScratch && d.journal == At(Planned)
    && match step
       case MakeRoot(r) => r in Needed(acts) && e == d.(roots := d.roots + {r})
       case WritePartial(i) =>
         && i < |acts| && Publishes(acts[i]) && acts[i].key.root in d.roots
         && e == d.(partial := d.partial + {acts[i].key})
       case DropPartial(k) => e == d.(partial := d.partial - {k})
       case StageFile(i) =>
         && i < |acts| && Publishes(acts[i]) && acts[i].after.Some? && acts[i].key in d.partial
         && e == d.(staged := d.staged[acts[i].key := acts[i].after.value], partial := d.partial - {acts[i].key})
       case _ => false
  }

  /** The process works on the action its cursor is at, whose path must not be a directory. */
  ghost predicate PublishStep(d: Disk, e: Disk, acts: seq<Action>, step: Step) {
    && d.marker && d.scratch == NoScratch && d.journal == At(Publishing) && d.proc.cursor < |acts|
    && var a := acts[d.proc.cursor];
       match step
       case MakeDir(k) => Publishes(a) && k in Ancestors(a.key) && k !in d.live && e == d.(dirs := d.dirs + {k})
       case Publish(op) =>
         && a.key !in d.dirs && (Publishes(a) ==> Ancestors(a.key) <= d.dirs)
         && Enabled(a, CellOf(d, a.key), op)
         && e == WithCell(d, a.key, Effect(a, CellOf(d, a.key), op))
       case Pass =>
         && a.key !in d.dirs && CellOf(d, a.key) == Settled(a)
         && e == d.(proc := d.proc.(cursor := d.proc.cursor + 1))
       case _ => false
  }

  ghost predicate CleanupStep(d: Disk, e: Disk, step: Step) {
    && d.marker && d.scratch == NoScratch && d.journal == At(Published)
    && step.RemoveRoot? && (forall k :: k in d.staged ==> k.root != step.root)
    && e == d.(roots := d.roots - {step.root})
  }

  ghost predicate NextStep(d: Disk, e: Disk, acts: seq<Action>, step: Step) {
    || JournalStep(d, e, acts, step)
    || StagingStep(d, e, acts, step)
    || PublishStep(d, e, acts, step)
    || CleanupStep(d, e, step)
  }

  ghost predicate Next(d: Disk, e: Disk, acts: seq<Action>) {
    exists step :: NextStep(d, e, acts, step)
  }

  ghost predicate StepAt(run: seq<Disk>, i: nat, acts: seq<Action>)
    requires i + 1 < |run|
  {
    Next(run[i], run[i + 1], acts)
  }

  ghost predicate IsRun(run: seq<Disk>, acts: seq<Action>) {
    forall i: nat :: i + 1 < |run| ==> StepAt(run, i, acts)
  }

  /** An ancestor of a path that is being published is not a live file. */
  lemma NoFileAbove(d: Disk, acts: seq<Action>, n: nat, k: Key)
    requires Proper(acts) && n < |acts| && Covered(d.live, acts) && SettledTo(d, acts, n)
    requires acts[n].after.Some? && k in Ancestors(acts[n].key)
    ensures k !in d.live
  {
    AncestorLess(k, acts[n].key);
    KeyOrder();
    forall j | 0 <= j < |acts| && acts[j].key == k
      ensures FileAt(d.live, k) == None
    {
      assert j < n;
      assert CellOf(d, acts[j].key) == Settled(acts[j]);
    }
  }

  /** What lies above a path comes before it in the plan. */
  lemma LaterApart(acts: seq<Action>, n: nat, k: Key)
    requires InOrder(acts) && n < |acts| && k in Ancestors(acts[n].key)
    ensures forall j :: n <= j < |acts| ==> acts[j].key != k
  {
    AncestorLess(k, acts[n].key);
    KeyOrder();
    assert forall j :: n < j < |acts| ==> KeyLess(acts[n].key, acts[j].key);
  }

  // ---- The invariant ----

  predicate NoCandidates(d: Disk) {
    d.staged == map[] && d.partial == {} && d.roots == {}
  }

  ghost predicate Initial(d: Disk) {
    && !d.marker && d.journal == Missing && d.scratch == NoScratch && NoCandidates(d)
    && Tree(d.live, d.dirs) && HistoryOk(d.live, d.history) && d.proc == Idle
  }

  ghost predicate Staging(d: Disk, acts: seq<Action>) {
    && d.roots <= Needed(acts) && Covered(d.staged, acts)
    && (forall k :: k in d.partial ==> exists i :: 0 <= i < |acts| && acts[i].key == k && Publishes(acts[i]))
    && forall i :: 0 <= i < |acts| ==>
         FileAt(d.staged, acts[i].key).Some? ==> FileAt(d.staged, acts[i].key) == Candidate(acts[i])
  }

  /** Applied up to `p`, untouched after it, and action `p` somewhere in between. */
  ghost predicate ProgressAt(d: Disk, acts: seq<Action>, p: nat)
    requires p <= |acts|
  {
    && SettledTo(d, acts, p)
    && (forall j :: p < j < |acts| ==> CellOf(d, acts[j].key) == Fresh(acts[j]))
    && (p < |acts| ==> Midway(acts[p], CellOf(d, acts[p].key)))
  }

  /** In the way of action `j`: a reviewed file lies below its path, so the path is a directory. */
  ghost predicate Obstructs(acts: seq<Action>, j: nat)
    requires j < |acts|
  {
    exists m :: 0 <= m < |acts| && acts[m].before.Some? && acts[j].key in Ancestors(acts[m].key)
  }

  /** No process gets to action `i`. */
  ghost predicate Hidden(acts: seq<Action>, i: nat) {
    i < |acts| && exists j :: 0 <= j <= i && Obstructs(acts, j)
  }

  ghost predicate BeforeDirs(d: Disk, acts: seq<Action>) {
    forall m :: 0 <= m < |acts| && acts[m].before.Some? ==> Ancestors(acts[m].key) <= d.dirs
  }

  /** What the running process has been through, and what no process has. */
  ghost predicate CursorInv(d: Disk, acts: seq<Action>) {
    && BeforeDirs(d, acts)
    && d.proc.cursor <= |acts| && SettledTo(d, acts, d.proc.cursor)
    && (forall j :: 0 <= j < d.proc.cursor ==> !Obstructs(acts, j))
    && (forall i :: 0 <= i < |acts| && Hidden(acts, i) ==> CellOf(d, acts[i].key) == Fresh(acts[i]))
  }

  ghost predicate UnderWay(d: Disk, acts: seq<Action>) {
    && Covered(d.live, acts) && Covered(d.staged, acts)
    && d.roots == Needed(acts) && d.partial == {}
    && exists p :: 0 <= p <= |acts| && ProgressAt(d, acts, p)
  }

  /** The live files are the reviewed ones, but for a record the history has removed. */
  predicate Reviewed(d: Disk, acts: seq<Action>) {
    if d.history.Pruned? then LiveBut(d.live, acts, d.history.record) else LiveIs(d.live, acts, Before)
  }

  ghost predicate StatusInv(d: Disk, acts: seq<Action>) {
    match d.journal
    case Missing =>
      && NoCandidates(d) && (d.marker ==> Reviewed(d, acts))
      && (d.history.Pruned? ==> d.marker) && (d.history.Full? ==> d.history.oldest in d.live)
    case Torn => NoCandidates(d) && d.marker && Reviewed(d, acts) && !d.history.Full?
    case At(Planned) => d.marker && Reviewed(d, acts) && !d.history.Full? && Staging(d, acts)
    case At(Staged) => d.marker && Reviewed(d, acts) && !d.history.Full? && CandidatesComplete(d, acts)
    case At(Publishing) => d.marker && d.history.Room? && UnderWay(d, acts) && CursorInv(d, acts)
    case At(Published) =>
      d.marker && d.history.Room? && LiveIs(d.live, acts, After) && d.staged == map[] && d.partial == {}
    case At(CandidatesRemoved) => d.marker && d.history.Room? && LiveIs(d.live, acts, After) && NoCandidates(d)
    case At(Verified) => d.marker && d.history.Room? && LiveIs(d.live, acts, After) && NoCandidates(d)
    case At(Completed) => NoCandidates(d) && !d.history.Pruned?
  }

  ghost predicate ScratchInv(d: Disk) {
    && (d.scratch != NoScratch ==> d.marker && (d.journal == Missing ==> !d.history.Full?))
    && (d.scratch.Written? ==> Successor(d.journal) == Some(d.scratch.status))
    && (d.journal != At(Publishing) ==> d.proc.cursor == 0)
  }

  ghost predicate Inv(d: Disk, acts: seq<Action>) {
    StatusInv(d, acts) && ScratchInv(d) && Tree(d.live, d.dirs)
  }

  lemma MidwayAt(d: Disk, acts: seq<Action>, i: nat)
    requires UnderWay(d, acts) && i < |acts|
    ensures Midway(acts[i], CellOf(d, acts[i].key))
  {
    var p :| 0 <= p <= |acts| && ProgressAt(d, acts, p);
    assert i < p ==> CellOf(d, acts[i].key) == Settled(acts[i]);
  }

  lemma PublicationStarts(d: Disk, acts: seq<Action>)
    requires Proper(acts) && LiveIs(d.live, acts, Before) && CandidatesComplete(d, acts)
    requires Tree(d.live, d.dirs) && d.proc.cursor == 0
    ensures UnderWay(d, acts) && CursorInv(d, acts)
  {
    forall i | 0 <= i < |acts|
      ensures CellOf(d, acts[i].key) == Fresh(acts[i])
    {
    }
    assert ProgressAt(d, acts, 0);
    forall m | 0 <= m < |acts| && acts[m].before.Some?
      ensures Ancestors(acts[m].key) <= d.dirs
    {
      assert FileAt(d.live, acts[m].key).Some?;
    }
  }

  lemma PublicationEnds(d: Disk, acts: seq<Action>)
    requires Covered(d.live, acts) && Covered(d.staged, acts) && SettledTo(d, acts, |acts|)
    ensures LiveIs(d.live, acts, After) && d.staged == map[]
  {
    forall i | 0 <= i < |acts|
      ensures FileAt(d.live, acts[i].key) == On(acts[i], After) && acts[i].key !in d.staged
    {
      assert CellOf(d, acts[i].key) == Settled(acts[i]);
    }
  }

  lemma SameFiles(d: Disk, e: Disk, acts: seq<Action>)
    requires UnderWay(d, acts) && CursorInv(d, acts)
    requires e.live == d.live && e.staged == d.staged && e.roots == d.roots && e.partial == d.partial
    requires d.dirs <= e.dirs && e.proc.cursor <= d.proc.cursor
    ensures UnderWay(e, acts) && CursorInv(e, acts)
  {
    SameUnderWay(d, e, acts);
    assert forall j :: 0 <= j < |acts| ==> CellOf(e, acts[j].key) == CellOf(d, acts[j].key);
  }

  function Committed(d: Disk): Disk {
    if d.scratch.Written? then d.(journal := At(d.scratch.status), scratch := NoScratch, proc := Idle) else d
  }

  lemma CommitInv(d: Disk, acts: seq<Action>)
    requires Proper(acts) && Inv(d, acts) && JournalStep(d, Committed(d), acts, Commit)
    ensures Inv(Committed(d), acts)
  {
    var e := Committed(d);
    if d.journal == At(Staged) {
      if d.history.Pruned? {
        ButIsNotBefore(d.live, acts, d.history.record);
      }
      PublicationStarts(e, acts);
    } else if d.journal == At(Publishing) {
      PublicationEnds(d, acts);
    }
  }

  lemma PruneInv(d: Disk, e: Disk, acts: seq<Action>, dirs: set<Key>)
    requires Proper(acts) && Inv(d, acts) && JournalStep(d, e, acts, Prune(dirs))
    ensures Inv(e, acts)
  {
    var k := d.history.oldest;
    var i :| 0 <= i < |acts| && acts[i].key == k;
    assert FileAt(d.live, acts[i].key).Some?;
  }

  lemma JournalInvStep(d: Disk, e: Disk, acts: seq<Action>, step: Step)
    requires Proper(acts) && Inv(d, acts) && JournalStep(d, e, acts, step)
    ensures Inv(e, acts)
  {
    match step {
      case Commit => CommitInv(d, acts);
      case Prune(dirs) => PruneInv(d, e, acts, dirs);
      case Recover => RecoverInv(d, acts);
      case _ =>
        if d.journal == At(Publishing) {
          SameFiles(d, e, acts);
        }
    }
  }

  lemma RecoverInv(d: Disk, acts: seq<Action>)
    requires Inv(d, acts) && (d.scratch.TornScratch? || d.scratch.Written?)
    ensures Inv(Recovered(d), acts)
  {
    if d.journal == At(Publishing) {
      SameFiles(d, Recovered(d), acts);
    }
  }

  lemma CellUpdate(d: Disk, acts: seq<Action>, i: nat, c: Cell)
    requires Proper(acts) && i < |acts|
    requires Covered(d.live, acts) && Covered(d.staged, acts)
    ensures var e := WithCell(d, acts[i].key, c);
            && CellOf(e, acts[i].key) == c
            && (forall j :: 0 <= j < |acts| && j != i ==> CellOf(e, acts[j].key) == CellOf(d, acts[j].key))
            && Covered(e.live, acts) && Covered(e.staged, acts)
  {
    forall j | 0 <= j < |acts| && j != i
      ensures acts[j].key != acts[i].key
    {
      Apart(acts, j, i);
    }
  }

  /** A publication step works on the one action that is in progress, or starts the next. */
  lemma PublishInvStep(d: Disk, acts: seq<Action>, op: Op)
    requires Proper(acts) && UnderWay(d, acts) && CursorInv(d, acts) && d.proc.cursor < |acts|
    requires Enabled(acts[d.proc.cursor], CellOf(d, acts[d.proc.cursor].key), op)
    requires acts[d.proc.cursor].key !in d.dirs
    ensures var a := acts[d.proc.cursor];
            var e := WithCell(d, a.key, Effect(a, CellOf(d, a.key), op));
            UnderWay(e, acts) && CursorInv(e, acts)
  {
    var i := d.proc.cursor;
    var a := acts[i];
    var c := CellOf(d, a.key);
    var p :| 0 <= p <= |acts| && ProgressAt(d, acts, p);
    assert Midway(a, c) by {
      assert i < p ==> c == Settled(a);
    }
    assert KindOf(a.before, a.after) == Some(a.kind);
    MidwayStep(a, c, op);
    assert p <= i;
    CellUpdate(d, acts, i, Effect(a, c, op));
    assert ProgressAt(WithCell(d, a.key, Effect(a, c, op)), acts, i);
    NotHidden(d, acts);
  }

  /** The action a process may work on is one that it can get to. */
  lemma NotHidden(d: Disk, acts: seq<Action>)
    requires CursorInv(d, acts) && d.proc.cursor < |acts| && acts[d.proc.cursor].key !in d.dirs
    ensures !Hidden(acts, d.proc.cursor) && !Obstructs(acts, d.proc.cursor)
  {}

  lemma PassInvStep(d: Disk, acts: seq<Action>)
    requires Proper(acts) && UnderWay(d, acts) && CursorInv(d, acts) && d.proc.cursor < |acts|
    requires acts[d.proc.cursor].key !in d.dirs && CellOf(d, acts[d.proc.cursor].key) == Settled(acts[d.proc.cursor])
    ensures var e := d.(proc := d.proc.(cursor := d.proc.cursor + 1));
            UnderWay(e, acts) && CursorInv(e, acts)
  {
    var e := d.(proc := d.proc.(cursor := d.proc.cursor + 1));
    NotHidden(d, acts);
    SameUnderWay(d, e, acts);
    PassedOne(d, e, acts);
  }

  lemma PassedOne(d: Disk, e: Disk, acts: seq<Action>)
    requires CursorInv(d, acts) && d.proc.cursor < |acts| && e == d.(proc := d.proc.(cursor := d.proc.cursor + 1))
    requires CellOf(d, acts[d.proc.cursor].key) == Settled(acts[d.proc.cursor]) && !Obstructs(acts, d.proc.cursor)
    ensures CursorInv(e, acts)
  {
    assert forall j :: 0 <= j < |acts| ==> CellOf(e, acts[j].key) == CellOf(d, acts[j].key);
  }

  lemma SameUnderWay(d: Disk, e: Disk, acts: seq<Action>)
    requires UnderWay(d, acts)
    requires e.live == d.live && e.staged == d.staged && e.roots == d.roots && e.partial == d.partial
    ensures UnderWay(e, acts)
  {
    assert forall j :: 0 <= j < |acts| ==> CellOf(e, acts[j].key) == CellOf(d, acts[j].key);
    var p :| 0 <= p <= |acts| && ProgressAt(d, acts, p);
    assert ProgressAt(e, acts, p);
  }

  lemma StageInvStep(d: Disk, acts: seq<Action>, i: nat)
    requires Proper(acts) && Staging(d, acts) && i < |acts| && Publishes(acts[i]) && acts[i].after.Some?
    ensures var k := acts[i].key;
            Staging(d.(staged := d.staged[k := acts[i].after.value], partial := d.partial - {k}), acts)
  {
    forall j | 0 <= j < |acts| && j != i
      ensures acts[j].key != acts[i].key
    {
      Apart(acts, j, i);
    }
  }

  lemma StagingInvStep(d: Disk, e: Disk, acts: seq<Action>, step: Step)
    requires Proper(acts) && Inv(d, acts) && StagingStep(d, e, acts, step)
    ensures Inv(e, acts)
  {
    if step.StageFile? {
      StageInvStep(d, acts, step.index);
    }
  }

  lemma PublishingInvStep(d: Disk, e: Disk, acts: seq<Action>, step: Step)
    requires Proper(acts) && Inv(d, acts) && PublishStep(d, e, acts, step)
    ensures Inv(e, acts)
  {
    match step {
      case MakeDir(_) => SameFiles(d, e, acts);
      case Publish(op) => PublishInvStep(d, acts, op);
      case Pass => PassInvStep(d, acts);
    }
  }

  lemma InvStep(d: Disk, e: Disk, acts: seq<Action>, step: Step)
    requires Proper(acts) && Inv(d, acts) && NextStep(d, e, acts, step)
    ensures Inv(e, acts)
  {
    if JournalStep(d, e, acts, step) {
      JournalInvStep(d, e, acts, step);
    } else if StagingStep(d, e, acts, step) {
      StagingInvStep(d, e, acts, step);
    } else if PublishStep(d, e, acts, step) {
      PublishingInvStep(d, e, acts, step);
    }
  }

  lemma InvNext(d: Disk, e: Disk, acts: seq<Action>)
    requires Proper(acts) && Inv(d, acts) && Next(d, e, acts)
    ensures Inv(e, acts)
  {
    var step :| NextStep(d, e, acts, step);
    InvStep(d, e, acts, step);
  }

  lemma {:induction false} InvRun(run: seq<Disk>, i: nat, acts: seq<Action>)
    requires Proper(acts) && IsRun(run, acts) && i < |run| && Inv(run[0], acts)
    ensures Inv(run[i], acts)
  {
    if i > 0 {
      InvRun(run, i - 1, acts);
      assert StepAt(run, i - 1, acts);
      InvNext(run[i - 1], run[i], acts);
    }
  }
}
