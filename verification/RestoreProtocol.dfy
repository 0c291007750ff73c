/**
 * Clean-target catalog restore as a protocol over a live root and a staging directory.
 *
 * A candidate directory is built in staging, an activation marker is published beside it,
 * and the candidate is renamed to the live root. A process can be killed between any two
 * steps, in the middle of building or deleting the candidate, and in the middle of writing
 * the marker. Between attempts the store's own operations may change the live root: they do
 * not look at restore staging.
 */
module RestoreProtocol {
  import opened Outcomes
  import opened DigestOrder
  import opened RestorePlan

  type Bytes = seq<nat>

  /** The activation marker contents for each plan; never empty. */
  type Activation = Plan -> Bytes

  const MAX_ACTIVATION_BYTES: nat := 64 * 1024

  ghost predicate ProperActivation(act: Activation) {
    forall p :: 0 < |act(p)| <= MAX_ACTIVATION_BYTES
  }

  /** `settled`: the candidate's own staging directory exists and is empty. */
  datatype Candidate = Candidate(records: set<Entry>, settled: bool)

  datatype Staging = Staging(candidate: Option<Candidate>, marker: Option<Bytes>, partial: Option<Bytes>)

  datatype Disk = Disk(live: Option<set<Entry>>, staged: map<Plan, Staging>)

  function Records(p: Plan): set<Entry> {
    Elems(p.records)
  }

  predicate Complete(st: Staging, p: Plan) {
    st.candidate == Some(Candidate(Records(p), true))
  }

  datatype MarkerState = Unusable | Unmarked | ShortPartial | FullPartial | Activated

  ghost predicate BadLength(f: Option<Bytes>) {
    f.Some? && (|f.value| == 0 || |f.value| > MAX_ACTIVATION_BYTES)
  }

  /** What recovery makes of the marker and its partial. */
  ghost function MarkerOf(st: Staging, expected: Bytes): (m: MarkerState) {
    if BadLength(st.marker) || BadLength(st.partial) then Unusable
    else if st.marker.Some? && st.partial.Some? then Unusable
    else if st.marker.Some? then
      if st.marker.value == expected then Activated else Unusable
    else if st.partial.None? then Unmarked
    else if |st.partial.value| < |expected| then ShortPartial
    else if st.partial.value == expected then FullPartial
    else Unusable
  }

  ghost predicate Started(m: MarkerState) {
    m == FullPartial || m == Activated
  }

  datatype Step =
    | MakeStaging
    | ChangeCandidate(candidate: Option<Candidate>)
    | WritePartial(bytes: Bytes)
    | DropPartial
    | PublishMarker
    | Activate
    | DropMarker
    | RemoveStaging

  ghost predicate NextStep(d: Disk, e: Disk, p: Plan, step: Step, act: Activation) {
    if step.MakeStaging? then
      && d.live.None? && d.staged == map[] && ValidPlan(p) && p.records != []
      && e == d.(staged := map[p := Staging(None, None, None)])
    else if step.RemoveStaging? then
      && p in d.staged && d.live == Some(Records(p))
      && d.staged[p] == Staging(None, None, None)
      && e == d.(staged := d.staged - {p})
    else
      && p in d.staged
      && StagedStep(d, e, p, d.staged[p], step, act)
  }

  ghost predicate StagedStep(d: Disk, e: Disk, p: Plan, st: Staging, step: Step, act: Activation) {
    match step
    case ChangeCandidate(candidate) =>
      // Built or discarded only before activation has begun, or discarded once the target is live.
      && st.partial.None?
      && (if d.live.None? then st.marker.None? else d.live == Some(Records(p)) && st.candidate.Some?)
      && e == d.(staged := d.staged[p := st.(candidate := candidate)])
    case WritePartial(bytes) =>
      && d.live.None? && st.marker.None? && Complete(st, p)
      && bytes <= act(p)
      && e == d.(staged := d.staged[p := st.(partial := Some(bytes))])
    case DropPartial =>
      && st.partial.Some? && |st.partial.value| < |act(p)|
      && e == d.(staged := d.staged[p := st.(partial := None)])
    case PublishMarker =>
      && st.marker.None? && st.partial == Some(act(p))
      && e == d.(staged := d.staged[p := st.(marker := Some(act(p)), partial := None)])
    case Activate =>
      && d.live.None? && Complete(st, p) && st.marker == Some(act(p))
      && e == Disk(Some(st.candidate.value.records), d.staged[p := st.(candidate := None)])
    case DropMarker =>
      && d.live == Some(Records(p)) && st.candidate.None? && st.marker == Some(act(p))
      && e == d.(staged := d.staged[p := st.(marker := None)])
    case _ => false
  }

  /** A step of restoring. */
  ghost predicate RestoreStep(d: Disk, e: Disk, act: Activation) {
    exists p, step :: NextStep(d, e, p, step, act)
  }

  /** The store publishes to its live root, creating it if need be, or retains part of it. */
  ghost predicate StoreStep(d: Disk, e: Disk) {
    e.live.Some? && e == d.(live := e.live)
  }

  ghost predicate Next(d: Disk, e: Disk, act: Activation) {
    RestoreStep(d, e, act) || StoreStep(d, e)
  }

  ghost predicate StepAt(run: seq<Disk>, i: nat, act: Activation)
    requires i + 1 < |run|
  {
    Next(run[i], run[i + 1], act)
  }

  ghost predicate IsRun(run: seq<Disk>, act: Activation) {
    forall i: nat :: i + 1 < |run| ==> StepAt(run, i, act)
  }

  /** The step at `i` is one of restoring, not one of the store. */
  ghost predicate QuietAt(run: seq<Disk>, i: nat, act: Activation)
    requires i + 1 < |run|
  {
    RestoreStep(run[i], run[i + 1], act)
  }

  /** From `i` to `k` only restores run. */
  ghost predicate Quiet(run: seq<Disk>, i: nat, k: nat, act: Activation) {
    forall j: nat :: i <= j < k && j + 1 < |run| ==> QuietAt(run, j, act)
  }

  /** The store itself changes the live root in the step at `i`. */
  ghost predicate StoreChanges(run: seq<Disk>, i: nat) {
    i + 1 < |run| && StoreStep(run[i], run[i + 1]) && run[i].live != run[i + 1].live
  }

  // ---- Safety ----

  /** A plan is staged, its candidate is complete and its marker is written. */
  ghost predicate Marked(d: Disk, p: Plan, act: Activation) {
    p in d.staged && Complete(d.staged[p], p) && d.staged[p].marker == Some(act(p))
  }

  /** A restore never changes an existing live root, and creates one only as a whole reviewed plan. */
  lemma LiveStep(d: Disk, e: Disk, act: Activation)
    requires RestoreStep(d, e, act)
    ensures d.live.Some? ==> e.live == d.live
    ensures d.live.None? && e.live.Some? ==> exists p :: Marked(d, p, act) && e.live == Some(Records(p))
  {
    var p, step :| NextStep(d, e, p, step, act);
    if d.live.None? && e.live.Some? {
      assert step.Activate?;
      assert Marked(d, p, act);
    }
  }

  /** Over any run, only the store's own operations change an existing live root. */
  lemma {:induction false} LiveIsFinal(run: seq<Disk>, i: nat, k: nat, act: Activation)
    requires IsRun(run, act) && i <= k < |run| && run[i].live.Some?
    ensures run[k].live == run[i].live || exists j: nat :: i <= j < k && StoreChanges(run, j)
    decreases k
  {
    if i < k {
      LiveIsFinal(run, i, k - 1, act);
      assert StepAt(run, k - 1, act);
      if RestoreStep(run[k - 1], run[k], act) {
        LiveStep(run[k - 1], run[k], act);
      } else {
        assert run[k].live == run[k - 1].live || StoreChanges(run, k - 1);
      }
    }
  }

  /** What is staged for a plan, as far as attempts at restoring it can have left it. */
  ghost predicate StagedInv(d: Disk, p: Plan, st: Staging, act: Activation) {
    && ValidPlan(p) && p.records != []
    && (st.marker.Some? ==> st.marker.value == act(p) && st.partial.None?)
    && (st.partial.Some? ==> st.partial.value <= act(p) && Complete(st, p))
    && (d.live.None? && st.marker.Some? ==> Complete(st, p))
  }

  ghost predicate Inv(d: Disk, act: Activation) {
    && (forall p, q :: p in d.staged && q in d.staged ==> p == q)
    && (forall p :: p in d.staged ==> StagedInv(d, p, d.staged[p], act))
  }

  lemma InvStep(d: Disk, e: Disk, act: Activation)
    requires Inv(d, act) && Next(d, e, act)
    ensures Inv(e, act)
  {
    if RestoreStep(d, e, act) {
      var p, step :| NextStep(d, e, p, step, act);
      if p in d.staged {
        assert StagedInv(d, p, d.staged[p], act);
      }
    }
  }

  lemma {:induction false} InvRun(run: seq<Disk>, i: nat, act: Activation)
    requires IsRun(run, act) && i < |run| && Inv(run[0], act)
    ensures Inv(run[i], act)
  {
    if i > 0 {
      InvRun(run, i - 1, act);
      assert StepAt(run, i - 1, act);
      InvStep(run[i - 1], run[i], act);
    }
  }

  /** The step at `j` made the live root appear as exactly the records of a complete, marked plan. */
  ghost predicate Activates(run: seq<Disk>, j: nat, act: Activation) {
    && j + 1 < |run| && run[j].live.None?
    && exists p :: ValidPlan(p) && Marked(run[j], p, act) && run[j + 1].live == Some(Records(p))
  }

  /**
   * All or nothing: from a clean target, whatever is live in any state of any run is what
   * one earlier step left, and that step either made the whole of a reviewed plan live at
   * once or was the store's own.
   */
  lemma {:induction false} AllOrNothing(run: seq<Disk>, i: nat, act: Activation) returns (j: nat)
    requires IsRun(run, act) && i < |run| && run[0] == Disk(None, map[]) && run[i].live.Some?
    ensures j < i && run[i].live == run[j + 1].live
    ensures StoreChanges(run, j) || Activates(run, j, act)
    decreases i
  {
    assert StepAt(run, i - 1, act);
    if run[i - 1].live == run[i].live {
      j := AllOrNothing(run, i - 1, act);
    } else {
      j := i - 1;
      if RestoreStep(run[j], run[i], act) {
        LiveStep(run[j], run[i], act);
        InvRun(run, j, act);
        var p :| Marked(run[j], p, act) && run[i].live == Some(Records(p));
        assert StagedInv(run[j], p, run[j].staged[p], act);
      }
    }
  }

  /** While only restores run, whatever is live is exactly one whole reviewed plan. */
  lemma QuietAllOrNothing(run: seq<Disk>, i: nat, act: Activation) returns (j: nat)
    requires IsRun(run, act) && i < |run| && run[0] == Disk(None, map[]) && run[i].live.Some?
    requires Quiet(run, 0, i, act)
    ensures j < i && run[i].live == run[j + 1].live && Activates(run, j, act)
  {
    j := AllOrNothing(run, i, act);
    assert QuietAt(run, j, act);
    var p, step :| NextStep(run[j], run[j + 1], p, step, act);
    assert step.Activate? ==> run[j].staged[p] != run[j + 1].staged[p];
  }

  /** While only restores run, a live root beside staging is the staged plan's, and its candidate is gone. */
  ghost predicate QuietInv(d: Disk, act: Activation) {
    && Inv(d, act)
    && forall p :: p in d.staged && d.live.Some? ==> d.live.value == Records(p) && d.staged[p].candidate.None?
  }

  lemma {:induction false} QuietRun(run: seq<Disk>, i: nat, act: Activation)
    requires IsRun(run, act) && i < |run| && run[0] == Disk(None, map[]) && Quiet(run, 0, i, act)
    ensures QuietInv(run[i], act)
  {
    if i > 0 {
      QuietRun(run, i - 1, act);
      InvRun(run, i, act);
      assert QuietAt(run, i - 1, act);
      QuietStep(run[i - 1], run[i], act);
    }
  }

  lemma QuietStep(d: Disk, e: Disk, act: Activation)
    requires QuietInv(d, act) && RestoreStep(d, e, act)
    ensures forall p :: p in e.staged && e.live.Some? ==> e.live.value == Records(p) && e.staged[p].candidate.None?
  {
    var p, step :| NextStep(d, e, p, step, act);
  }

  // ---- Convergence ----

  /** A retry of `p` on this disk succeeds. */
  ghost predicate Recoverable(d: Disk, p: Plan, act: Activation) {
    && (forall q :: q in d.staged ==> q == p)
    && match d.live
       case None =>
         if p.records == [] then p !in d.staged
         else p in d.staged ==>
                var m := MarkerOf(d.staged[p], act(p));
                m != Unusable && (Started(m) ==> Complete(d.staged[p], p))
       case Some(records) =>
         && records == Records(p)
         && (p in d.staged ==>
               var st := d.staged[p];
               var m := MarkerOf(st, act(p));
               && m != Unusable
               && (st.candidate.Some? ==> Complete(st, p))
               && (Started(m) || st.candidate.Some?))
  }

  /** Killed after the partial marker was created and before its first byte was written. */
  predicate EmptyPartial(d: Disk, p: Plan) {
    p in d.staged && d.staged[p].partial == Some([])
  }

  /** Killed after the marker of a finished restore was removed and before its directory was. */
  predicate EmptyStaging(d: Disk, p: Plan) {
    d.live == Some(Records(p)) && p in d.staged && d.staged[p] == Staging(None, None, None)
  }

  /** The store has changed the live root to something else since the plan was staged. */
  predicate Overtaken(d: Disk, p: Plan) {
    d.live.Some? && d.live.value != Records(p)
  }

  /** The store has made the live root the plan's, and the redundant candidate is not whole. */
  predicate HalfCandidate(d: Disk, p: Plan) {
    && d.live == Some(Records(p)) && p in d.staged
    && d.staged[p].candidate.Some? && !Complete(d.staged[p], p)
  }

  /**
   * From every state that attempts at restoring `p` and the store's own operations can
   * leave behind, a retry succeeds unless it is one of exactly four.
   */
  lemma RetryConverges(d: Disk, p: Plan, act: Activation)
    requires ProperActivation(act) && Inv(d, act)
    requires p in d.staged
    ensures Recoverable(d, p, act) <==>
              !EmptyPartial(d, p) && !EmptyStaging(d, p) && !Overtaken(d, p) && !HalfCandidate(d, p)
  {
    assert StagedInv(d, p, d.staged[p], act);
  }

  /** If only restores have run, exactly the first two of them remain. */
  lemma QuietRetryConverges(run: seq<Disk>, i: nat, p: Plan, act: Activation)
    requires ProperActivation(act) && IsRun(run, act) && i < |run|
    requires run[0] == Disk(None, map[]) && Quiet(run, 0, i, act)
    requires p in run[i].staged
    ensures Recoverable(run[i], p, act) <==> !EmptyPartial(run[i], p) && !EmptyStaging(run[i], p)
  {
    QuietRun(run, i, act);
    RetryConverges(run[i], p, act);
  }

  /** No plan can be restored on this disk as it is. */
  ghost predicate Stuck(d: Disk, act: Activation) {
    forall q :: !Recoverable(d, q, act)
  }

  // ---- What stays so, and what the store can undo ----

  /** An empty partial, or beside a live root nothing staged or a candidate that is not whole. */
  predicate Hopeless(d: Disk, p: Plan) {
    && p in d.staged
    && (EmptyPartial(d, p)
        || (d.live.Some? && d.staged[p] == Staging(None, None, None))
        || (d.live.Some? && d.staged[p].candidate.Some? && !Complete(d.staged[p], p)))
  }

  /** An attempt at `p`, killed or not: it changes nothing if it cannot succeed. */
  ghost predicate Attempt(d: Disk, e: Disk, p: Plan, act: Activation) {
    if Recoverable(d, p, act) then RestoresTo(d, e, act) else e == d
  }

  ghost predicate RestoresTo(d: Disk, e: Disk, act: Activation) {
    exists run :: RestoreRun(run, d, e, act)
  }

  ghost predicate RestoreRun(run: seq<Disk>, d: Disk, e: Disk, act: Activation) {
    IsRun(run, act) && Quiet(run, 0, |run|, act) && run != [] && run[0] == d && run[|run| - 1] == e
  }

  ghost predicate Later(d: Disk, e: Disk, act: Activation) {
    StoreStep(d, e) || exists p :: Attempt(d, e, p, act)
  }

  ghost predicate LaterAt(run: seq<Disk>, i: nat, act: Activation)
    requires i + 1 < |run|
  {
    Later(run[i], run[i + 1], act)
  }

  /** Attempts at any plans, and the store's own operations, one after the other. */
  ghost predicate Afterwards(run: seq<Disk>, d: Disk, act: Activation) {
    run != [] && run[0] == d && forall i: nat :: i + 1 < |run| ==> LaterAt(run, i, act)
  }

  lemma HopelessIsStuck(d: Disk, p: Plan, act: Activation)
    requires ProperActivation(act) && Inv(d, act) && Hopeless(d, p)
    ensures Stuck(d, act)
  {
    RetryConverges(d, p, act);
  }

  /** Whatever is attempted and whatever the store does, the staging directory stays as it is. */
  lemma {:induction false} HopelessIsFinal(run: seq<Disk>, i: nat, d: Disk, p: Plan, act: Activation)
    requires ProperActivation(act) && Inv(d, act) && Hopeless(d, p) && Afterwards(run, d, act) && i < |run|
    ensures run[i].staged == d.staged && Inv(run[i], act) && Hopeless(run[i], p) && Stuck(run[i], act)
  {
    if i > 0 {
      HopelessIsFinal(run, i - 1, d, p, act);
      assert LaterAt(run, i - 1, act);
      if StoreStep(run[i - 1], run[i]) {
        InvStep(run[i - 1], run[i], act);
      }
    }
    HopelessIsStuck(run[i], p, act);
  }

  /** Otherwise a retry becomes possible exactly when the live root is the plan's again. */
  lemma OvertakenUntil(d: Disk, p: Plan, records: set<Entry>, act: Activation)
    requires ProperActivation(act) && Inv(d, act) && p in d.staged && d.live.Some? && !Hopeless(d, p)
    ensures Recoverable(d.(live := Some(records)), p, act) <==> records == Records(p)
  {
    var e := d.(live := Some(records));
    InvStep(d, e, act);
    RetryConverges(e, p, act);
  }

  /** A staged plan can be restored again at some later time exactly if it is not hopeless. */
  lemma HopelessIff(d: Disk, p: Plan, act: Activation)
    requires ProperActivation(act) && Inv(d, act) && p in d.staged
    ensures Hopeless(d, p) <==>
              forall run, i :: Afterwards(run, d, act) && 0 <= i < |run| ==> !Recoverable(run[i], p, act)
  {
    if Hopeless(d, p) {
      forall run, i | Afterwards(run, d, act) && 0 <= i < |run|
        ensures !Recoverable(run[i], p, act)
      {
        HopelessIsFinal(run, i, d, p, act);
      }
    } else {
      RetryConverges(d, p, act);
      var e := d.(live := Some(Records(p)));
      if d.live.Some? {
        OvertakenUntil(d, p, Records(p), act);
        assert LaterAt([d, e], 0, act);
        assert Afterwards([d, e], d, act) && Recoverable([d, e][1], p, act);
      } else {
        assert Afterwards([d], d, act) && Recoverable([d][0], p, act);
      }
    }
  }

  // ---- All of them are reached ----

  ghost predicate FromClean(run: seq<Disk>, act: Activation) {
    IsRun(run, act) && run != [] && run[0] == Disk(None, map[])
  }

  const Unstaged := Disk(None, map[])

  function Staged(p: Plan, st: Staging): Disk {
    Disk(None, map[p := st])
  }

  function WholeOf(p: Plan): Option<Candidate> {
    Some(Candidate(Records(p), true))
  }

  /** The run of one attempt up to the activation of its plan. */
  lemma FirstAttempt(p: Plan, act: Activation) returns (run: seq<Disk>)
    requires ProperActivation(act) && ValidPlan(p) && p.records != []
    ensures |run| == 7 && FromClean(run, act) && Quiet(run, 0, 6, act)
    ensures run[2] == Staged(p, Staging(WholeOf(p), None, None))
    ensures run[3] == Staged(p, Staging(WholeOf(p), None, Some([])))
    ensures run[6] == Disk(Some(Records(p)), map[p := Staging(None, Some(act(p)), None)])
  {
    var d1 := Staged(p, Staging(None, None, None));
    var d2 := Staged(p, Staging(WholeOf(p), None, None));
    var d3 := Staged(p, Staging(WholeOf(p), None, Some([])));
    var d4 := Staged(p, Staging(WholeOf(p), None, Some(act(p))));
    var d5 := Staged(p, Staging(WholeOf(p), Some(act(p)), None));
    var d6 := Disk(Some(Records(p)), map[p := Staging(None, Some(act(p)), None)]);
    assert NextStep(Unstaged, d1, p, MakeStaging, act);
    assert NextStep(d1, d2, p, ChangeCandidate(WholeOf(p)), act);
    assert NextStep(d2, d3, p, WritePartial([]), act);
    assert NextStep(d3, d4, p, WritePartial(act(p)), act);
    assert NextStep(d4, d5, p, PublishMarker, act);
    assert NextStep(d5, d6, p, Activate, act);
    run := [Unstaged, d1, d2, d3, d4, d5, d6];
    forall i: nat | i + 1 < |run|
      ensures QuietAt(run, i, act)
    {
    }
  }

  lemma Longer(run: seq<Disk>, d: Disk, act: Activation) returns (longer: seq<Disk>)
    requires FromClean(run, act) && Next(run[|run| - 1], d, act)
    ensures FromClean(longer, act) && longer == run + [d]
  {
    longer := run + [d];
    forall i: nat | i + 1 < |longer|
      ensures StepAt(longer, i, act)
    {
      if i + 1 < |run| {
        assert StepAt(run, i, act);
      }
    }
  }

  lemma Shorter(run: seq<Disk>, n: nat, act: Activation)
    requires FromClean(run, act) && 0 < n <= |run|
    ensures FromClean(run[..n], act)
  {
    forall i: nat | i + 1 < n
      ensures StepAt(run[..n], i, act)
    {
      assert StepAt(run, i, act);
    }
  }

  /** Both kill windows are reachable from a clean target, for every plan that restores something. */
  lemma WindowsAreReachable(p: Plan, act: Activation) returns (first: seq<Disk>, second: seq<Disk>)
    requires ProperActivation(act) && ValidPlan(p) && p.records != []
    ensures FromClean(first, act) && EmptyPartial(first[|first| - 1], p) && Hopeless(first[|first| - 1], p)
    ensures FromClean(second, act) && EmptyStaging(second[|second| - 1], p) && Hopeless(second[|second| - 1], p)
  {
    var run := FirstAttempt(p, act);
    first := run[..4];
    Shorter(run, 4, act);
    var d := Disk(Some(Records(p)), map[p := Staging(None, None, None)]);
    assert NextStep(run[6], d, p, DropMarker, act);
    second := Longer(run, d, act);
  }

  /**
   * So are the two the store brings about: it publishes a record between the activation and
   * the retirement of the staging directory, or publishes all of the plan's records itself
   * and a retry is killed while it discards the candidate.
   */
  lemma OvertakingIsReachable(p: Plan, e: Entry, act: Activation) returns (first: seq<Disk>, second: seq<Disk>)
    requires ProperActivation(act) && ValidPlan(p) && p.records != [] && e !in Records(p)
    ensures FromClean(first, act) && Overtaken(first[|first| - 1], p) && Stuck(first[|first| - 1], act)
    ensures !Hopeless(first[|first| - 1], p)
    ensures first[|first| - 1].live == Some(Records(p) + {e})
    ensures FromClean(second, act) && HalfCandidate(second[|second| - 1], p) && Hopeless(second[|second| - 1], p)
  {
    var run := FirstAttempt(p, act);
    var o := run[6].(live := Some(Records(p) + {e}));
    first := Longer(run, o, act);
    forall q
      ensures !Recoverable(o, q, act)
    {
      assert p in o.staged && e in o.live.value;
    }
    var staged := run[..3];
    Shorter(run, 3, act);
    var d := run[2].(live := Some(Records(p)));
    second := Longer(staged, d, act);
    var half := Some(Candidate({}, true));
    var h := d.(staged := map[p := Staging(half, None, None)]);
    assert NextStep(d, h, p, ChangeCandidate(half), act);
    second := Longer(second, h, act);
    ElemsEmpty(p.records);
  }
}
