/** Writing one new record: stage, sync, link, sync, retire. */
module CatalogPublication {
  import opened Outcomes
  import opened PublicationProtocol

  /** Directory entries lead to files. */
  ghost predicate WellFormed(s: Slot) {
    forall id :: id in Ids(s.staging.now) + Ids(s.staging.durable) + Ids(s.target.now) + Ids(s.target.durable) ==>
      id in s.files
  }

  class RecordSlot {
    const record: Bytes
    var slot: Slot
    /** Every state the two names have been in. */
    ghost var history: seq<Slot>

    ghost predicate Valid()
      reads this
    {
      && WellFormed(slot)
      && history != [] && history[|history| - 1] == slot
      && IsRun(history, record)
    }

    constructor (record: Bytes, slot: Slot)
      requires WellFormed(slot)
      ensures Valid() && this.record == record && this.slot == slot
    {
      this.record, this.slot := record, slot;
      history := [slot];
    }

    method MoveTo(next: Slot, ghost step: Step)
      requires Valid() && NextStep(slot, next, record, step)
      modifies this
      ensures Valid() && slot == next && old(history) <= history
      ensures Inv(old(slot), record) ==> Inv(slot, record)
    {
      if Inv(slot, record) {
        InvStep(slot, next, record);
      }
      slot := next;
      history := history + [next];
      forall i: nat | i + 1 < |history|
        ensures StepAt(history, record, i)
      {
        if i + 2 < |history| {
          assert StepAt(old(history), record, i);
        }
      }
    }

    /** Remove the staging name, if it is there, and make that durable. */
    method RetireStaging()
      requires Valid() && !slot.writing
      requires slot.staging.now.Some? ==>
                 TargetSettled(slot, record) || slot.files[slot.staging.now.value].bytes != record
      modifies this
      ensures Valid() && old(history) <= history
      ensures slot.target == old(slot).target && slot.files == old(slot).files && !slot.writing
      ensures slot.staging.now.None?
      ensures Inv(old(slot), record) ==> Inv(slot, record)
    {
      if slot.staging.now.Some? {
        MoveTo(slot.(staging := slot.staging.(now := None)), UnlinkStaging);
        MoveTo(slot.(staging := Name(None, None)), SyncStaging);
      }
    }

    /** A staging file with exactly the record's bytes; an earlier complete one is accepted as it is. */
    method PrepareStaging()
      requires Valid() && !slot.writing && slot.target.now.None?
      modifies this
      ensures Valid() && old(history) <= history
      ensures slot.target == old(slot).target && !slot.writing
      ensures slot.staging.now.Some? && slot.files[slot.staging.now.value].bytes == record
      ensures Inv(old(slot), record) ==> Inv(slot, record)
    {
      if slot.staging.now.Some? {
        if slot.files[slot.staging.now.value].bytes == record {
          return;
        }
        RetireStaging();
      }
      var id := FreshId(slot);
      var files := slot.files[id := File([], false)];
      MoveTo(slot.(files := files, staging := slot.staging.(now := Some(id)), writing := true), CreateStaging(id));
      for i := 0 to |record|
        invariant Valid() && old(history) <= history
        invariant slot.target == old(slot).target && slot.writing
        invariant Inv(old(slot), record) ==> Inv(slot, record)
        invariant slot.staging.now == Some(id) && id in slot.files && slot.files[id] == File(record[..i], false)
      {
        MoveTo(slot.(files := slot.files[id := File(record[..i + 1], false)]), WriteStaging(record[..i + 1]));
      }
      assert record[..|record|] == record;
      MoveTo(slot.(files := slot.files[id := File(record, true)], writing := false), SyncFile);
    }

    /**
     * Publish the record from whatever an interrupted attempt left. A target with other
     * bytes is a conflict and nothing is touched; otherwise the target entry is durable and
     * leads to the record, and no staging name remains. If no process was killed between
     * writing and syncing the record, the bytes are durable too.
     */
    method Publish() returns (r: Result<Bytes>)
      requires Valid() && !slot.writing
      modifies this
      ensures Valid() && old(history) <= history
      ensures r.Ok? <==>
                old(slot).target.now.Some? ==> old(slot).files[old(slot).target.now.value].bytes == record
      ensures r.Err? ==> r == Err(Conflict) && slot == old(slot)
      ensures r.Ok? ==> r.value == record && TargetSettled(slot, record) && slot.staging.now.None? && !slot.writing
      ensures r.Ok? ==>
                && slot.target.now.Some? && slot.target.durable == slot.target.now
                && slot.target.now.value in slot.files && slot.files[slot.target.now.value].bytes == record
      ensures Inv(old(slot), record) ==> r.Ok? && Inv(slot, record) && Published(slot, record)
    {
      if slot.target.now.Some? {
        if slot.files[slot.target.now.value].bytes != record {
          return Err(Conflict);
        }
        // A replayed target is made durable before its recovery name is retired.
        MoveTo(slot.(target := Name(slot.target.now, slot.target.now)), SyncTarget);
        RetireStaging();
        return Ok(record);
      }
      PrepareStaging();
      MoveTo(slot.(staging := Name(slot.staging.now, slot.staging.now)), SyncStaging);
      MoveTo(slot.(target := slot.target.(now := slot.staging.now)), Link);
      MoveTo(slot.(target := Name(slot.target.now, slot.target.now)), SyncTarget);
      RetireStaging();
      r := Ok(record);
    }
  }

  function Ids(entry: Option<nat>): set<nat> {
    if entry.Some? then {entry.value} else {}
  }

  /** A file number nothing refers to. */
  method FreshId(s: Slot) returns (id: nat)
    ensures id !in s.files
    ensures s.staging.durable != Some(id) && s.target.now != Some(id) && s.target.durable != Some(id)
  {
    var used := s.files.Keys + Ids(s.staging.durable) + Ids(s.target.now) + Ids(s.target.durable);
    var rest := used;
    id := 0;
    while rest != {}
      invariant forall x :: x in used ==> x < id || x in rest
      decreases rest
    {
      var x :| x in rest;
      id := if x >= id then x + 1 else id;
      rest := rest - {x};
    }
    assert id !in used;
  }
}
