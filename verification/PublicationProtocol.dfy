/**
 * Publication of one immutable record under process kills and power loss.
 *
 * The record is written to a staging name, hard-linked to its content-addressed target
 * name, and the staging name is retired. Directory entries and file contents reach the
 * disk only when they are synced, or by chance; a power loss keeps, for each name, either
 * what the directory showed or what the disk last held.
 */
module PublicationProtocol {
  import opened Outcomes

  type Bytes = seq<nat>

  datatype File = File(bytes: Bytes, synced: bool)

  /** A directory entry: what the directory shows, and what the disk holds. */
  datatype Name = Name(now: Option<nat>, durable: Option<nat>)

  /** `writing`: a live process is between creating the staging file and having synced it. */
  datatype Slot = Slot(files: map<nat, File>, staging: Name, target: Name, writing: bool)

  datatype Step =
    | CreateStaging(id: nat)
    | WriteStaging(bytes: Bytes)
    | SyncFile
    | SyncStaging
    | Link
    | SyncTarget
    | UnlinkStaging

  /** The visible target entry is on disk and leads to the whole record. */
  predicate TargetSettled(s: Slot, record: Bytes) {
    && s.target.now.Some? && s.target.durable == s.target.now
    && s.target.now.value in s.files
    && s.files[s.target.now.value].bytes == record
  }

  ghost predicate NextStep(s: Slot, t: Slot, record: Bytes, step: Step) {
    match step
    case CreateStaging(id) =>
      && s.target.now.None? && s.staging.now.None? && !s.writing && id !in s.files
      && s.staging.durable != Some(id) && s.target.now != Some(id) && s.target.durable != Some(id)
      && t == s.(files := s.files[id := File([], false)], staging := s.staging.(now := Some(id)), writing := true)
    case SyncTarget =>
      t == s.(target := Name(s.target.now, s.target.now))
    case SyncStaging =>
      t == s.(staging := Name(s.staging.now, s.staging.now))
    case _ =>
      s.staging.now.Some? && s.staging.now.value in s.files && StagingStep(s, t, record, s.staging.now.value, step)
  }

  ghost predicate StagingStep(s: Slot, t: Slot, record: Bytes, id: nat, step: Step)
    requires id in s.files
  {
    match step
    case WriteStaging(bytes) =>
      && s.writing && bytes <= record
      && t == s.(files := s.files[id := File(bytes, false)])
    case SyncFile =>
      t == s.(files := s.files[id := s.files[id].(synced := true)], writing := false)
    case Link =>
      && !s.writing && s.target.now.None? && s.files[id].bytes == record
      && s.staging.durable == Some(id)
      && t == s.(target := s.target.(now := Some(id)))
    case UnlinkStaging =>
      // Only once the target is settled, or while the staged bytes are not the record.
      && !s.writing
      && (TargetSettled(s, record) || s.files[id].bytes != record)
      && t == s.(staging := s.staging.(now := None))
    case _ => false
  }

  /** The process dies; the directories stay as they are. */
  function Kill(s: Slot): (t: Slot) {
    s.(writing := false)
  }

  /** The machine loses power. */
  ghost predicate PowerLoss(s: Slot, t: Slot) {
    && !t.writing
    && t.files.Keys == s.files.Keys
    && (forall id :: id in s.files ==> t.files[id].synced && (s.files[id].synced ==> t.files[id] == s.files[id]))
    && t.staging.now == t.staging.durable && (t.staging.now == s.staging.now || t.staging.now == s.staging.durable)
    && t.target.now == t.target.durable && (t.target.now == s.target.now || t.target.now == s.target.durable)
  }

  /** The whole record is staged but its bytes are not known to be on disk. */
  predicate Unsynced(s: Slot, record: Bytes) {
    s.staging.now.Some? && s.staging.now.value in s.files && s.files[s.staging.now.value] == File(record, false)
  }

  ghost predicate Next(s: Slot, t: Slot, record: Bytes) {
    || (exists step :: NextStep(s, t, record, step))
    || t == Kill(s)
    || PowerLoss(s, t)
  }

  ghost predicate StepAt(run: seq<Slot>, record: Bytes, i: nat)
    requires i + 1 < |run|
  {
    Next(run[i], run[i + 1], record)
  }

  ghost predicate IsRun(run: seq<Slot>, record: Bytes) {
    forall i: nat :: i + 1 < |run| ==> StepAt(run, record, i)
  }

  ghost predicate Stranding(s: Slot, t: Slot, record: Bytes) {
    s.writing && Unsynced(s, record) && t == Kill(s)
  }

  /** Between these two states a process was killed after writing the whole record and before syncing it. */
  ghost predicate Strands(run: seq<Slot>, record: Bytes, i: nat)
    requires i + 1 < |run|
  {
    Stranding(run[i], run[i + 1], record)
  }

  /** No process has stranded the record up to index `k`. */
  ghost predicate NeverStrands(run: seq<Slot>, record: Bytes, k: nat) {
    forall i: nat :: i + 1 < |run| && i < k ==> !Strands(run, record, i)
  }

  ghost predicate Leads(s: Slot, entry: Option<nat>, file: File) {
    entry.Some? && entry.value in s.files && s.files[entry.value] == file
  }

  ghost predicate Inv(s: Slot, record: Bytes) {
    // A target entry always leads to the whole record, on disk.
    && (s.target.now.Some? ==> Leads(s, s.target.now, File(record, true)))
    && (s.target.durable.Some? ==> Leads(s, s.target.durable, File(record, true)))
    // A fully staged record is on disk unless its writer is still at it.
    && (s.staging.now.Some? ==> s.staging.now.value in s.files)
    && (s.staging.durable.Some? ==> s.staging.durable.value in s.files)
    && (Unsynced(s, record) ==> s.writing)
    && (s.writing ==> s.staging.now.Some? && !s.files[s.staging.now.value].synced)
  }

  lemma InvStep(s: Slot, t: Slot, record: Bytes)
    requires Inv(s, record) && Next(s, t, record) && !Stranding(s, t, record)
    ensures Inv(t, record)
  {
    if step :| NextStep(s, t, record, step) {
    } else if PowerLoss(s, t) {
    }
  }

  lemma {:induction false} InvRun(run: seq<Slot>, record: Bytes, i: nat)
    requires IsRun(run, record) && i < |run| && Inv(run[0], record) && NeverStrands(run, record, i)
    ensures Inv(run[i], record)
  {
    if i > 0 {
      InvRun(run, record, i - 1);
      assert StepAt(run, record, i - 1) && !Strands(run, record, i - 1);
      InvStep(run[i - 1], run[i], record);
    }
  }

  /** Some name leads to the whole record, in the directory and on disk alike. */
  ghost predicate Anchored(s: Slot, record: Bytes) {
    || (s.target.now == s.target.durable && Leads(s, s.target.now, File(record, true)))
    || (s.staging.now == s.staging.durable && Leads(s, s.staging.now, File(record, true)))
  }

  /** Publication is complete. */
  ghost predicate Published(s: Slot, record: Bytes) {
    s.target.now == s.target.durable && Leads(s, s.target.now, File(record, true))
  }

  lemma AnchoredStep(s: Slot, t: Slot, record: Bytes)
    requires Inv(s, record) && Next(s, t, record)
    ensures Anchored(s, record) ==> Anchored(t, record)
    ensures Published(s, record) ==> Published(t, record)
  {
    if step :| NextStep(s, t, record, step) {
    } else if PowerLoss(s, t) {
    }
  }

  /**
   * In a run of any attempts, kills and power losses: either some process stranded the
   * record, or once a synced staging name or the target holds it, some durable name holds
   * it in every later state; once it is published, it stays published; and any target that
   * exists holds exactly the addressed bytes.
   */
  lemma {:induction false} PublicationDurable(run: seq<Slot>, record: Bytes, i: nat, k: nat)
    requires IsRun(run, record) && i <= k < |run| && Inv(run[0], record)
    ensures NeverStrands(run, record, k) ==>
              && (Anchored(run[i], record) ==> Anchored(run[k], record))
              && (Published(run[i], record) ==> Published(run[k], record))
              && (run[k].target.now.Some? ==> Leads(run[k], run[k].target.now, File(record, true)))
    decreases k
  {
    if NeverStrands(run, record, k) {
      InvRun(run, record, k);
      if i < k {
        PublicationDurable(run, record, i, k - 1);
        InvRun(run, record, k - 1);
        assert StepAt(run, record, k - 1);
        AnchoredStep(run[k - 1], run[k], record);
      }
    }
  }

  // ---- When a kill is harmless ----

  /** The target name exists and does not lead to the record. */
  ghost predicate Lost(s: Slot, record: Bytes) {
    s.target.now.Some? && !(s.target.now.value in s.files && s.files[s.target.now.value].bytes == record)
  }

  /** `run` completes a publication, and a power loss can then take the record. */
  ghost predicate LosesAfter(run: seq<Slot>, record: Bytes, after: Slot) {
    && run != []
    && var end := run[|run| - 1];
       && TargetSettled(end, record) && end.staging.now.None?
       && PowerLoss(end, after) && Lost(after, record)
  }

  /** Some continuation without a further stranding kill publishes the record and loses it. */
  ghost predicate CanLose(s: Slot, record: Bytes) {
    exists run, after ::
      && run != [] && run[0] == s && IsRun(run, record) && NeverStrands(run, record, |run|)
      && LosesAfter(run, record, after)
  }

  /** What a power loss may make of the files: every unsynced one has other bytes. */
  ghost function Damaged(files: map<nat, File>): map<nat, File> {
    map id | id in files :: if files[id].synced then files[id] else File(files[id].bytes + [0], true)
  }

  /** From a slot with the whole record staged but unsynced, the retry publishes it as it is. */
  lemma StrandedLoses(s: Slot, record: Bytes) returns (run: seq<Slot>, after: Slot)
    requires Unsynced(s, record) && !s.writing && s.target.now.None?
    ensures run != [] && run[0] == s && IsRun(run, record) && NeverStrands(run, record, |run|)
    ensures LosesAfter(run, record, after)
  {
    var id := s.staging.now;
    var s1 := s.(staging := Name(id, id));
    var s2 := s1.(target := s.target.(now := id));
    var s3 := s2.(target := Name(id, id));
    var s4 := s3.(staging := Name(None, id));
    var s5 := s3.(staging := Name(None, None));
    assert NextStep(s, s1, record, SyncStaging);
    assert NextStep(s1, s2, record, Link);
    assert NextStep(s2, s3, record, SyncTarget);
    assert NextStep(s3, s4, record, UnlinkStaging);
    assert NextStep(s4, s5, record, SyncStaging);
    run := [s, s1, s2, s3, s4, s5];
    after := Slot(Damaged(s.files), Name(None, None), Name(id, id), false);
  }

  /** Without a stranded record, what has been published survives. */
  lemma SoundKeeps(s: Slot, record: Bytes)
    requires Inv(s, record)
    ensures !CanLose(s, record)
  {
    forall run, after | run != [] && run[0] == s && IsRun(run, record) && NeverStrands(run, record, |run|)
      ensures !LosesAfter(run, record, after)
    {
      InvRun(run, record, |run| - 1);
    }
  }

  /**
   * A kill before the target exists can cost the record exactly if it leaves the whole
   * record staged but unsynced: the retry accepts the staged bytes as they are, completes
   * the publication, and a power loss can still take the bytes.
   */
  lemma KillIsSafeIff(s: Slot, record: Bytes)
    requires Inv(s, record) && s.target.now.None?
    ensures CanLose(Kill(s), record) <==> Unsynced(s, record)
  {
    if Unsynced(s, record) {
      var run, after := StrandedLoses(Kill(s), record);
    } else {
      SoundKeeps(Kill(s), record);
    }
  }

  const Clean := Slot(map[], Name(None, None), Name(None, None), false)

  /** The loss happens: for every record, some run from a clean slot publishes and loses it. */
  lemma UnsyncedKillLosesTheRecord(record: Bytes) returns (run: seq<Slot>, after: Slot)
    ensures run != [] && run[0] == Clean && IsRun(run, record) && Inv(Clean, record)
    ensures LosesAfter(run, record, after)
  {
    var s1 := Slot(map[0 := File([], false)], Name(Some(0), None), Name(None, None), true);
    var s2 := Slot(map[0 := File(record, false)], Name(Some(0), None), Name(None, None), true);
    assert NextStep(Clean, s1, record, CreateStaging(0));
    assert NextStep(s1, s2, record, WriteStaging(record));
    var rest;
    rest, after := StrandedLoses(Kill(s2), record);
    var first := [Clean, s1, s2];
    run := first + rest;
    forall i: nat | i + 1 < |run|
      ensures StepAt(run, record, i)
    {
      if i >= 3 {
        assert StepAt(rest, record, i - 3);
      }
    }
  }
}
