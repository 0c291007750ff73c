/** Applying a clean-target restore: staging, activation and retirement of the staging directory. */
module CatalogRestore {
  import opened Outcomes
  import opened DigestOrder
  import opened RestorePlan
  import opened RestoreProtocol

  class RestoreTarget {
    const installation: nat
    const act: Activation
    var disk: Disk
    /** Every state the owner's directories have been in. */
    ghost var history: seq<Disk>

    ghost predicate Valid()
      reads this
    {
      && ProperActivation(act)
      && history != []
      && history[|history| - 1] == disk
      && IsRun(history, act)
    }

    constructor (installation: nat, act: Activation, disk: Disk)
      requires ProperActivation(act)
      ensures Valid() && this.disk == disk && history == [disk]
      ensures this.installation == installation && this.act == act
    {
      this.installation, this.act, this.disk := installation, act, disk;
      history := [disk];
    }

    method MoveTo(next: Disk, p: Plan, ghost step: Step)
      requires Valid() && NextStep(disk, next, p, step, act)
      modifies this
      ensures Valid() && disk == next && old(history) <= history
    {
      disk := next;
      history := history + [next];
      forall i: nat | i + 1 < |history|
        ensures StepAt(history, i, act)
      {
        if i + 2 < |history| {
          assert StepAt(old(history), i, act);
        }
      }
    }

    method Stage(p: Plan, st: Staging, ghost step: Step)
      requires Valid() && p in disk.staged && NextStep(disk, disk.(staged := disk.staged[p := st]), p, step, act)
      modifies this
      ensures Valid() && old(history) <= history
      ensures disk == old(disk).(staged := old(disk).staged[p := st])
    {
      MoveTo(disk.(staged := disk.staged[p := st]), p, step);
    }

    /** Finish or discard an interrupted marker; tells whether activation has begun. */
    method RecoverMarker(p: Plan) returns (r: Result<bool>)
      requires Valid() && p in disk.staged
      modifies this
      ensures Valid() && old(history) <= history
      ensures var m := MarkerOf(old(disk).staged[p], act(p));
              && (r.Ok? <==> m != Unusable)
              && (r.Ok? ==> r.value == Started(m))
              && (m in {Unusable, Unmarked, Activated} ==> disk == old(disk))
              && p in disk.staged
              && disk == old(disk).(staged := old(disk).staged[p := disk.staged[p]])
              && disk.staged[p].candidate == old(disk).staged[p].candidate
              && (r.Ok? ==> disk.staged[p].partial.None?
                            && disk.staged[p].marker == if Started(m) then Some(act(p)) else None)
    {
      var st := disk.staged[p];
      assert disk.staged == disk.staged[p := st];
      if st.marker.Some? {
        var marker := st.marker.value;
        if |marker| == 0 || |marker| > MAX_ACTIVATION_BYTES || st.partial.Some? || marker != act(p) {
          return Err(Invalid);
        }
        return Ok(true);
      }
      if st.partial.None? {
        return Ok(false);
      }
      var partial := st.partial.value;
      if |partial| == 0 || |partial| > MAX_ACTIVATION_BYTES {
        return Err(Invalid);
      }
      if |partial| < |act(p)| {
        Stage(p, st.(partial := None), DropPartial);
        return Ok(false);
      }
      if partial != act(p) {
        return Err(Invalid);
      }
      Stage(p, st.(marker := Some(act(p)), partial := None), PublishMarker);
      r := Ok(true);
    }

    /** Delete a candidate record by record, then its directory. */
    method DiscardCandidate(p: Plan)
      requires Valid() && p in disk.staged && disk.staged[p].candidate.Some?
      requires disk.staged[p].partial.None?
      requires if disk.live.None? then disk.staged[p].marker.None? else disk.live == Some(Records(p))
      modifies this
      ensures Valid() && old(history) <= history
      ensures disk == old(disk).(staged := old(disk).staged[p := old(disk).staged[p].(candidate := None)])
    {
      var st := disk.staged[p];
      var rest := st.candidate.value.records;
      assert disk.staged == disk.staged[p := st];
      var now := st.candidate;
      while rest != {}
        invariant Valid() && old(history) <= history
        invariant now.Some?
        invariant disk == old(disk).(staged := old(disk).staged[p := st.(candidate := now)])
        decreases rest
      {
        var e :| e in rest;
        rest := rest - {e};
        now := Some(Candidate(rest, false));
        Stage(p, st.(candidate := now), ChangeCandidate(now));
      }
      Stage(p, st.(candidate := None), ChangeCandidate(None));
    }

    /** Build a fresh candidate record by record. */
    method BuildCandidate(p: Plan)
      requires Valid() && p in disk.staged && disk.live.None?
      requires disk.staged[p] == Staging(None, None, None)
      modifies this
      ensures Valid() && old(history) <= history
      ensures var whole := Some(Candidate(Records(p), true));
              disk == old(disk).(staged := old(disk).staged[p := Staging(whole, None, None)])
    {
      var built: set<Entry> := {};
      var now := Some(Candidate({}, false));
      Stage(p, Staging(now, None, None), ChangeCandidate(now));
      for i := 0 to |p.records|
        invariant Valid() && old(history) <= history
        invariant built == Elems(p.records[..i])
        invariant disk == old(disk).(staged := old(disk).staged[p := Staging(now, None, None)])
      {
        assert p.records[..i + 1] == p.records[..i] + [p.records[i]];
        built := built + {p.records[i]};
        now := Some(Candidate(built, false));
        Stage(p, Staging(now, None, None), ChangeCandidate(now));
      }
      assert p.records[..|p.records|] == p.records;
      now := Some(Candidate(built, true));
      Stage(p, Staging(now, None, None), ChangeCandidate(now));
    }

    /** Bring the staging directory to a complete candidate; fails only on damaged evidence. */
    method PrepareStaging(p: Plan) returns (r: Result<bool>)
      requires Valid() && ValidPlan(p) && p.records != [] && disk.live.None?
      requires forall q :: q in disk.staged ==> q == p
      modifies this
      ensures Valid() && old(history) <= history && disk.live.None?
      ensures r.Ok? <==> Recoverable(old(disk), p, act)
      ensures r.Ok? ==>
                && disk.staged.Keys == {p} && Complete(disk.staged[p], p) && disk.staged[p].partial.None?
                && disk.staged[p].marker == if r.value then Some(act(p)) else None
      ensures r.Err? && Inv(old(disk), act) ==> disk == old(disk)
    {
      if p !in disk.staged {
        assert disk.staged == map[];
        MoveTo(disk.(staged := map[p := Staging(None, None, None)]), p, MakeStaging);
      }
      var started := RecoverMarker(p);
      if started.Err? {
        return Err(started.error);
      }
      if started.value {
        if !Complete(disk.staged[p], p) {
          return Err(Invalid);
        }
        return Ok(true);
      }
      if disk.staged[p].candidate.Some? {
        if Complete(disk.staged[p], p) {
          return Ok(false);
        }
        DiscardCandidate(p);
      }
      BuildCandidate(p);
      r := Ok(false);
    }

    /** Write the activation marker: the partial grows from empty, then takes the marker's name. */
    method CreateMarker(p: Plan)
      requires Valid() && p in disk.staged && disk.live.None? && Complete(disk.staged[p], p)
      requires disk.staged[p].marker.None? && disk.staged[p].partial.None?
      modifies this
      ensures Valid() && old(history) <= history
      ensures disk == old(disk).(staged := old(disk).staged[p := old(disk).staged[p].(marker := Some(act(p)))])
    {
      var st := disk.staged[p];
      var bytes := act(p);
      Stage(p, st.(partial := Some([])), WritePartial([]));
      for i := 0 to |bytes|
        invariant Valid() && old(history) <= history
        invariant disk == old(disk).(staged := old(disk).staged[p := st.(partial := Some(bytes[..i]))])
      {
        Stage(p, st.(partial := Some(bytes[..i + 1])), WritePartial(bytes[..i + 1]));
      }
      assert bytes[..|bytes|] == bytes;
      Stage(p, st.(marker := Some(act(p)), partial := None), PublishMarker);
    }

    /** Remove the marker and the staging directory of an activated restore. */
    method RetireStaging(p: Plan)
      requires Valid() && p in disk.staged && disk.live == Some(Records(p))
      requires disk.staged[p] == Staging(None, Some(act(p)), None)
      modifies this
      ensures Valid() && old(history) <= history
      ensures disk == old(disk).(staged := old(disk).staged - {p})
    {
      Stage(p, Staging(None, None, None), DropMarker);
      assert disk.staged - {p} == old(disk).staged - {p};
      MoveTo(disk.(staged := disk.staged - {p}), p, RemoveStaging);
    }

    /** The target is already what the plan says: only evidence of a finished restore may remain. */
    method RetireCompleted(p: Plan) returns (r: Result<bool>)
      requires Valid() && disk.live == Some(Records(p))
      requires forall q :: q in disk.staged ==> q == p
      modifies this
      ensures Valid() && old(history) <= history && disk.live == old(disk).live
      ensures r.Ok? <==> Recoverable(old(disk), p, act)
      ensures r.Ok? ==> !r.value && p !in disk.staged
      ensures r.Err? && Inv(old(disk), act) ==> disk == old(disk)
    {
      if p !in disk.staged {
        return Ok(false);
      }
      var started := RecoverMarker(p);
      if started.Err? {
        return Err(started.error);
      }
      var existed := disk.staged[p].candidate.Some?;
      if existed {
        if !Complete(disk.staged[p], p) {
          return Err(Invalid);
        }
        DiscardCandidate(p);
      }
      if started.value {
        RetireStaging(p);
        return Ok(false);
      }
      if existed {
        MoveTo(disk.(staged := disk.staged - {p}), p, RemoveStaging);
        return Ok(false);
      }
      r := Err(Invalid);
    }

    /** Restore into an absent target. */
    method RestoreAbsent(p: Plan) returns (r: Result<bool>)
      requires Valid() && ValidPlan(p) && p.records != [] && disk.live.None?
      requires forall q :: q in disk.staged ==> q == p
      modifies this
      ensures Valid() && old(history) <= history
      ensures r.Ok? <==> Recoverable(old(disk), p, act)
      ensures r.Ok? ==> r.value && disk == Disk(Some(Records(p)), map[])
      ensures r.Err? ==> disk.live.None?
      ensures r.Err? && Inv(old(disk), act) ==> disk == old(disk)
    {
      var prepared := PrepareStaging(p);
      if prepared.Err? {
        return Err(prepared.error);
      }
      if !prepared.value {
        CreateMarker(p);
      }
      var st := disk.staged[p];
      MoveTo(Disk(Some(Records(p)), disk.staged[p := st.(candidate := None)]), p, Activate);
      RetireStaging(p);
      assert disk.staged == map[];
      r := Ok(true);
    }

    /**
     * Apply a confirmed plan with its source records. On any disk whatever it succeeds
     * exactly when the disk is recoverable for the plan; it then leaves the reviewed
     * records live and nothing staged for the plan, and reports a change exactly if the
     * target was absent. A failed attempt leaves the live root as it was, and on what earlier
     * attempts and the store have left it changes nothing at all.
     */
    method ApplyCleanRestore(p: Plan, source: seq<Entry>, digest: PlanDigest) returns (r: Result<bool>)
      requires Valid()
      modifies this
      ensures Valid() && old(history) <= history
      ensures r.Ok? <==>
                && ValidPlan(p) && p.installation == installation && digest == PlanDigest(p)
                && Prepare(source) == Ok(p.records)
                && Recoverable(old(disk), p, act)
      ensures r.Err? ==> disk.live == old(disk).live
      ensures r.Err? && Inv(old(disk), act) ==> disk == old(disk)
      ensures r.Ok? ==>
                && p !in disk.staged
                && r.value == (old(disk).live.None? && p.records != [])
                && disk.live == if r.value then Some(Records(p)) else old(disk).live
    {
      var ok := Validate(p);
      if !ok || p.installation != installation || digest != PlanDigest(p) || Prepare(source) != Ok(p.records) {
        return Err(Invalid);
      }
      if q :| q in disk.staged && q != p {
        return Err(Invalid);
      }
      if disk.live.Some? {
        if disk.live.value != Records(p) {
          return Err(TargetNotEmpty);
        }
        r := RetireCompleted(p);
        return;
      }
      if p.records == [] {
        return if p in disk.staged then Err(Invalid) else Ok(false);
      }
      r := RestoreAbsent(p);
    }
  }
}
