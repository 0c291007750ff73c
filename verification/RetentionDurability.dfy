/**
 * Catalog retention under power loss.
 *
 * On top of the retention protocol this keeps track of what is known to be on disk: how many
 * journal records, the journal's directory entry, the removal of records and the removal of
 * the journal itself. Each change is followed by its synchronization before the process goes
 * on; a kill in between leaves the change visible and unsynchronized, and the next process
 * does not repeat the synchronization.
 */
module RetentionDurability {
  import opened Outcomes
  import opened DigestOrder
  import opened RetentionPlan
  import opened RetentionJournal
  import opened RetentionProtocol

  /** The synchronization a live process owes before its next step. */
  datatype Due = Nothing | CreateDue | NameDue | FileDue | ShardDue | RetireDue

  /** A journal, and how many of its records are known to be on disk. */
  datatype Kept = Kept(journal: Journal, safe: nat)

  /**
   * `limbo`: records whose removal is not on disk. `named`: the journal's entry is.
   * `lingering`: a retired journal whose removal is not.
   */
  datatype Disk = Disk(
    store: Store, limbo: set<Entry>, safe: nat, named: bool, lingering: Option<Kept>, due: Due)

  /** The record whose removal the journal announces. */
  function Target(j: Journal): Entry
    requires InFlight(j)
  {
    j.plan.remove[Done(j)]
  }

  // ---- Steps ----

  /** The protocol's own steps, with what they leave unsynchronized. */
  ghost predicate Do(d: Disk, e: Disk, step: Step) {
    && NextStep(d.store, e.store, step)
    && match step
       case Publish(_) => d.due == Nothing && e == d.(store := e.store)
       case CreateJournal(plan) =>
         && d.due == Nothing && plan.remove != []
         && e == d.(store := e.store, safe := 0, named := false, due := CreateDue)
       case Abandon => false
       case _ => if d.due == CreateDue then CreatorStep(d, e, step) else OwnerStep(d, e, step)
  }

  /** The process that creates the journal writes its first record. */
  ghost predicate CreatorStep(d: Disk, e: Disk, step: Step) {
    && (step.WriteTail? || step.FinishRecord?) && d.store.journal.Some? && d.store.journal.value.records == 0
    && e == d.(store := e.store)
  }

  /** A process that has opened the journal. */
  ghost predicate OwnerStep(d: Disk, e: Disk, step: Step) {
    && d.due == Nothing && d.store.journal.Some? && Readable(d.store.journal.value) > 0
    && match step
       case WriteTail(_) => e == d.(store := e.store)
       case FinishRecord => e == d.(store := e.store, due := FileDue)
       case Repair => e == d.(store := e.store, due := FileDue)
       case Unlink =>
         && InFlight(d.store.journal.value)
         && e == d.(store := e.store, limbo := d.limbo + {Target(d.store.journal.value)}, due := ShardDue)
       case Retire =>
         e == d.(store := e.store, named := false, due := RetireDue,
                 lingering := Some(Kept(d.store.journal.value, d.safe)))
       case _ => false
  }

  /** The owed synchronization. */
  ghost predicate Sync(d: Disk, e: Disk) {
    match d.due
    case Nothing => false
    case CreateDue =>
      && d.store.journal.Some? && d.store.journal.value.records == 1
      && e == d.(safe := 1, due := NameDue)
    case NameDue => e == d.(named := true, lingering := None, due := Nothing)
    case FileDue => d.store.journal.Some? && e == d.(safe := d.store.journal.value.records, due := Nothing)
    case ShardDue =>
      && d.store.journal.Some? && InFlight(d.store.journal.value)
      && e == d.(limbo := d.limbo - {Target(d.store.journal.value)}, due := Nothing)
    case RetireDue => e == d.(lingering := None, due := Nothing)
  }

  function Kill(d: Disk): (e: Disk) {
    d.(due := Nothing)
  }

  predicate TailWithin(cut: Tail, tail: Tail) {
    cut == Whole || cut == tail || (cut == Torn && tail == Bare)
  }

  /** The file of `j`, of which `safe` records are on disk, can be found like this. */
  ghost predicate CutOf(c: Journal, j: Journal, safe: nat) {
    && c.plan == j.plan && WellFormed(c) && safe <= c.records <= j.records
    && (c.records == j.records ==> TailWithin(c.tail, j.tail))
  }

  ghost predicate JournalAfter(d: Disk, found: Option<Journal>) {
    || (found.Some? && d.store.journal.Some? && CutOf(found.value, d.store.journal.value, d.safe))
    || (&& found.Some? && !d.named && d.lingering.Some?
        && CutOf(found.value, d.lingering.value.journal, d.lingering.value.safe))
    || (found.None? && !(d.store.journal.Some? && d.named))
  }

  /** The machine loses power: whatever is found afterwards is on disk. */
  ghost predicate PowerLoss(d: Disk, e: Disk) {
    && d.store.held <= e.store.held <= d.store.held + d.limbo
    && JournalAfter(d, e.store.journal)
    && e == Disk(e.store, {}, if e.store.journal.Some? then e.store.journal.value.records else 0, e.store.journal.Some?,
                 None, Nothing)
  }

  ghost predicate Next(d: Disk, e: Disk) {
    (exists step :: Do(d, e, step)) || Sync(d, e) || e == Kill(d) || PowerLoss(d, e)
  }

  ghost predicate StepAt(run: seq<Disk>, i: nat)
    requires i + 1 < |run|
  {
    Next(run[i], run[i + 1])
  }

  ghost predicate IsRun(run: seq<Disk>) {
    forall i: nat :: i + 1 < |run| ==> StepAt(run, i)
  }

  // ---- What holds whatever happens ----

  lemma TakenIsCondemned(d: Disk, e: Disk, x: Entry)
    requires Next(d, e) && x in d.store.held && x !in e.store.held
    ensures Condemned(d.store, x)
  {
    var step :| Do(d, e, step);
    RemovedIsCondemned(d.store, e.store, step, x);
  }

  /** Through any kills and power losses, a record leaves the store only under a plan that removes it. */
  lemma {:induction false} OnlyCondemnedAreLost(run: seq<Disk>, i: nat, k: nat, x: Entry) returns (t: nat)
    requires IsRun(run) && i <= k < |run|
    requires x in run[i].store.held && x !in run[k].store.held
    ensures i <= t < k && Condemned(run[t].store, x)
    decreases k
  {
    if x in run[k - 1].store.held {
      t := k - 1;
      assert StepAt(run, t);
      TakenIsCondemned(run[t], run[k], x);
    } else {
      t := OnlyCondemnedAreLost(run, i, k - 1, x);
    }
  }

  // ---- What holds unless a kill strands a change ----

  /** However the journal is cut, it agrees with the directory. */
  ghost predicate AllCuts(held: set<Entry>, j: Journal, safe: nat) {
    forall c :: CutOf(c, j, safe) ==> Accounted(held, c)
  }

  ghost predicate Tidy(d: Disk) {
    d.limbo == {} && d.lingering.None?
  }

  ghost predicate JournalSafe(d: Disk) {
    d.store.journal.Some? ==>
      && d.store.journal.value.plan.remove != []
      && AllCuts(d.store.held, d.store.journal.value, d.safe)
      && d.safe <= d.store.journal.value.records
  }

  /** An announced removal is announced on disk. */
  predicate AnnouncedSafe(j: Journal, safe: nat) {
    InFlight(j) && j.tail.Whole? ==> safe == j.records
  }

  ghost predicate DueInv(d: Disk) {
    match d.due
    case Nothing =>
      Tidy(d) && (d.store.journal.Some? && Readable(d.store.journal.value) > 0 ==>
                    d.named && AnnouncedSafe(d.store.journal.value, d.safe))
    case CreateDue =>
      && Tidy(d) && d.store.journal.Some? && !d.named
      && d.store.journal.value.records <= 1
      && (d.store.journal.value.records == 1 ==> d.store.journal.value.tail.Whole?)
    case NameDue =>
      && Tidy(d) && d.store.journal.Some? && !d.named
      && d.store.journal.value.records == 1 && d.store.journal.value.tail.Whole?
    case FileDue => Tidy(d) && d.store.journal.Some? && d.named && d.store.journal.value.tail.Whole?
    case ShardDue =>
      && d.store.journal.Some? && d.named && d.lingering.None?
      && ShardOwed(d.store.held, d.limbo, d.store.journal.value, d.safe)
    case RetireDue =>
      && d.store.journal.None? && !d.named && d.limbo == {} && d.lingering.Some?
      && RetireOwed(d.store.held, d.lingering.value)
  }

  ghost predicate ShardOwed(held: set<Entry>, limbo: set<Entry>, j: Journal, safe: nat) {
    && WellFormed(j) && InFlight(j) && j.tail.Whole? && safe == j.records
    && held == Held(j.plan, Done(j) + 1) && limbo == {Target(j)}
  }

  ghost predicate RetireOwed(held: set<Entry>, k: Kept) {
    && WellFormed(k.journal) && k.journal.plan.remove != []
    && k.journal.tail.Whole? && k.journal.records == LogLength(k.journal.plan)
    && k.safe <= k.journal.records && AllCuts(held, k.journal, k.safe)
  }

  ghost predicate DurInv(d: Disk) {
    Inv(d.store) && JournalSafe(d) && DueInv(d)
  }

  /** A kill now leaves a change that the next process takes for granted. */
  predicate Harmful(d: Disk) {
    match d.due
    case Nothing => false
    case CreateDue => d.store.journal.Some? && Readable(d.store.journal.value) > 0
    case FileDue => d.store.journal.Some? && InFlight(d.store.journal.value) && d.safe < d.store.journal.value.records
    case _ => true
  }

  ghost predicate Stranding(d: Disk, e: Disk) {
    Harmful(d) && e == Kill(d)
  }

  ghost predicate Strands(run: seq<Disk>, i: nat)
    requires i + 1 < |run|
  {
    Stranding(run[i], run[i + 1])
  }

  ghost predicate NeverStrands(run: seq<Disk>, k: nat) {
    forall i: nat :: i + 1 < |run| && i < k ==> !Strands(run, i)
  }

  lemma CutsAfterTail(held: set<Entry>, j: Journal, safe: nat, tail: Tail)
    requires WellFormed(j) && AllCuts(held, j, safe) && j.records < LogLength(j.plan) && safe <= j.records
    requires held == Held(j.plan, j.records / 2)
    ensures AllCuts(held, j.(tail := tail), safe)
  {
    forall c | CutOf(c, j.(tail := tail), safe)
      ensures Accounted(held, c)
    {
      if c.records == j.records && c.tail == Whole {
        assert CutOf(c, j, safe);
      } else if c.records < j.records {
        assert CutOf(c, j, safe);
      }
    }
  }

  lemma CutsAfterRecord(held: set<Entry>, j: Journal, safe: nat)
    requires WellFormed(j) && AllCuts(held, j, safe) && j.tail.Bare? && safe <= j.records
    ensures AllCuts(held, Journal(j.plan, j.records + 1, Whole), safe)
  {
    assert CutOf(j, j, safe);
    forall c | CutOf(c, Journal(j.plan, j.records + 1, Whole), safe)
      ensures Accounted(held, c)
    {
      if c.records <= j.records {
        assert CutOf(c, j, safe);
      }
    }
  }

  lemma CutsWithin(held: set<Entry>, j: Journal, safe: nat, k: Journal, safe': nat)
    requires AllCuts(held, j, safe) && safe <= safe'
    requires k.plan == j.plan && k.records == j.records && TailWithin(k.tail, j.tail)
    ensures AllCuts(held, k, safe')
  {
    forall c | CutOf(c, k, safe')
      ensures Accounted(held, c)
    {
      assert CutOf(c, j, safe);
    }
  }

  lemma CutsAfterUnlink(j: Journal)
    requires WellFormed(j) && InFlight(j) && j.tail.Whole?
    ensures AllCuts(Held(j.plan, Done(j)), j, j.records) && AllCuts(Held(j.plan, Done(j) + 1), j, j.records)
  {}

  lemma OwnerKeeps(d: Disk, e: Disk, step: Step)
    requires DurInv(d) && Do(d, e, step) && d.due == Nothing && !step.Publish? && !step.CreateJournal?
    ensures DurInv(e)
  {
    InvStep(d.store, e.store, step);
    var j := d.store.journal.value;
    match step {
      case WriteTail(tail) => CutsAfterTail(d.store.held, j, d.safe, tail);
      case FinishRecord => CutsAfterRecord(d.store.held, j, d.safe);
      case Repair => CutsWithin(d.store.held, j, d.safe, j.(tail := Whole), d.safe);
      case Unlink =>
        HeldStep(j.plan, Done(j));
        CutsAfterUnlink(j);
      case _ =>
    }
  }

  lemma CreatorKeeps(d: Disk, e: Disk, step: Step)
    requires DurInv(d) && Do(d, e, step) && d.due == CreateDue
    ensures DurInv(e)
  {
    InvStep(d.store, e.store, step);
    var j := d.store.journal.value;
    if step.WriteTail? {
      CutsAfterTail(d.store.held, j, d.safe, step.tail);
    } else {
      CutsAfterRecord(d.store.held, j, d.safe);
    }
  }

  lemma DoKeeps(d: Disk, e: Disk, step: Step)
    requires DurInv(d) && Do(d, e, step)
    ensures DurInv(e)
  {
    if d.due == CreateDue {
      CreatorKeeps(d, e, step);
    } else if step.Publish? || step.CreateJournal? {
      InvStep(d.store, e.store, step);
    } else {
      OwnerKeeps(d, e, step);
    }
  }

  lemma SyncKeeps(d: Disk, e: Disk)
    requires DurInv(d) && Sync(d, e)
    ensures DurInv(e)
  {
    if d.store.journal.Some? {
      var j := d.store.journal.value;
      CutsWithin(d.store.held, j, d.safe, j, e.safe);
    }
  }

  lemma KillKeeps(d: Disk)
    requires DurInv(d) && !Harmful(d)
    ensures DurInv(Kill(d))
  {}

  /** After a power loss directory and journal agree, and a lost journal has removed nothing yet. */
  lemma PowerKeeps(d: Disk, e: Disk)
    requires DurInv(d) && PowerLoss(d, e)
    ensures DurInv(e)
    ensures d.store.journal.Some? && e.store.journal.None? ==> e.store.held == Held(d.store.journal.value.plan, 0)
  {
    PowerKeepsHeld(d, e);
    if e.store.journal.Some? {
      var c := e.store.journal.value;
      assert Accounted(e.store.held, c);
      CutsSelf(e.store.held, c);
    }
  }

  lemma CutsSelf(held: set<Entry>, c: Journal)
    requires WellFormed(c) && Accounted(held, c)
    ensures AllCuts(held, c, c.records)
  {}

  ghost predicate AgreesAfter(d: Disk, e: Disk) {
    && Keyed(e.store.held, DigestOf)
    && (e.store.journal.Some? ==>
          && WellFormed(e.store.journal.value) && e.store.journal.value.plan.remove != []
          && Accounted(e.store.held, e.store.journal.value))
    && (d.store.journal.Some? && e.store.journal.None? ==> e.store.held == Held(d.store.journal.value.plan, 0))
  }

  lemma PowerKeepsHeld(d: Disk, e: Disk)
    requires DurInv(d) && PowerLoss(d, e)
    ensures AgreesAfter(d, e)
  {
    if d.due == ShardDue {
      PowerAfterUnlink(d, e);
    } else {
      assert e.store.held == d.store.held;
    }
  }

  /** The record just unlinked may be back; its removal is still announced. */
  lemma PowerAfterUnlink(d: Disk, e: Disk)
    requires DurInv(d) && PowerLoss(d, e) && d.due == ShardDue
    ensures AgreesAfter(d, e)
  {
    var j := d.store.journal.value;
    BackOrGone(j, e.store.held);
    assert CutOf(e.store.journal.value, j, j.records);
  }

  lemma BackOrGone(j: Journal, held: set<Entry>)
    requires WellFormed(j) && InFlight(j) && j.tail.Whole?
    requires Held(j.plan, Done(j) + 1) <= held <= Held(j.plan, Done(j) + 1) + {Target(j)}
    ensures Keyed(held, DigestOf) && AllCuts(held, j, j.records)
  {
    HeldStep(j.plan, Done(j));
    HeldBounds(j.plan, Done(j));
    HeldBounds(j.plan, Done(j) + 1);
    EitherSide(Held(j.plan, Done(j) + 1), held, Target(j));
    CutsAfterUnlink(j);
  }

  lemma EitherSide<T>(a: set<T>, b: set<T>, x: T)
    requires a <= b <= a + {x}
    ensures b == a || b == a + {x}
  {}

  /** Every run without a stranding kill keeps directory and journal in agreement, through power losses too. */
  lemma {:induction false} DurRun(run: seq<Disk>, i: nat)
    requires IsRun(run) && i < |run| && DurInv(run[0]) && NeverStrands(run, i)
    ensures DurInv(run[i])
  {
    if i > 0 {
      DurRun(run, i - 1);
      assert StepAt(run, i - 1) && !Strands(run, i - 1);
      DurStep(run[i - 1], run[i]);
    }
  }

  lemma DurStep(d: Disk, e: Disk)
    requires DurInv(d) && Next(d, e) && !Stranding(d, e)
    ensures DurInv(e)
  {
    if step :| Do(d, e, step) {
      DoKeeps(d, e, step);
    } else if Sync(d, e) {
      SyncKeeps(d, e);
    } else if PowerLoss(d, e) {
      PowerKeeps(d, e);
    } else {
      KillKeeps(d);
    }
  }

  /**
   * Retention survives power loss: in every state of every run without a stranding kill the
   * store is as the retention protocol promises, and so is whatever a power loss in that
   * state leaves; a journal that is lost with it had removed nothing.
   */
  lemma RetentionSurvives(run: seq<Disk>, i: nat, after: Disk)
    requires IsRun(run) && i < |run| && DurInv(run[0]) && NeverStrands(run, i) && PowerLoss(run[i], after)
    ensures Inv(run[i].store) && Inv(after.store)
    ensures !Damaged(run[i], after)
  {
    DurRun(run, i);
    PowerKeeps(run[i], after);
  }

  // ---- When a kill is harmless ----

  /** The power loss left a directory that no journal accounts for. */
  ghost predicate Damaged(d: Disk, e: Disk) {
    || !Inv(e.store)
    || (d.store.journal.Some? && e.store.journal.None? && e.store.held != Held(d.store.journal.value.plan, 0))
  }

  ghost predicate Breaks(run: seq<Disk>, after: Disk) {
    && run != [] && IsRun(run) && NeverStrands(run, |run|)
    && PowerLoss(run[|run| - 1], after) && Damaged(run[|run| - 1], after)
  }

  /** Some continuation without a further stranding kill, and then a power loss, leave damage. */
  ghost predicate CanBreak(d: Disk) {
    exists run, after :: Breaks(run, after) && run[0] == d
  }

  lemma SoundCannotBreak(d: Disk)
    requires DurInv(d)
    ensures !CanBreak(d)
  {
    forall run, after | Breaks(run, after) && run[0] == d
      ensures false
    {
      RetentionSurvives(run, |run| - 1, after);
    }
  }

  lemma Prepend(d: Disk, e: Disk)
    requires Next(d, e) && !Stranding(d, e) && CanBreak(e)
    ensures CanBreak(d)
  {
    var run, after :| Breaks(run, after) && run[0] == e;
    var longer := [d] + run;
    forall i: nat | i + 1 < |longer|
      ensures StepAt(longer, i) && !Strands(longer, i)
    {
      if i > 0 {
        assert StepAt(run, i - 1) && !Strands(run, i - 1);
      }
    }
    assert Breaks(longer, after);
  }

  lemma BreaksNow(d: Disk, after: Disk)
    requires PowerLoss(d, after) && Damaged(d, after)
    ensures CanBreak(d)
  {
    assert Breaks([d], after);
  }

  function WithJournal(d: Disk, j: Journal): Disk {
    d.(store := Store(d.store.held, Some(j)))
  }

  /** A process that has opened the journal writes and synchronizes its next record. */
  lemma AfterRecord(d: Disk, j: Journal)
    requires d.due == Nothing && d.store.journal == Some(j) && WellFormed(j) && j.tail.Whole? && d.safe <= j.records
    requires 0 < j.records < LogLength(j.plan) && d.store.held == Held(j.plan, j.records / 2)
    requires CanBreak(WithJournal(d, Journal(j.plan, j.records + 1, Whole)).(safe := j.records + 1))
    ensures CanBreak(d)
  {
    var d1 := WithJournal(d, j.(tail := Bare));
    var d2 := WithJournal(d, Journal(j.plan, j.records + 1, Whole)).(due := FileDue);
    Prepend(d2, d2.(safe := j.records + 1, due := Nothing));
    assert Do(d1, d2, FinishRecord);
    Prepend(d1, d2);
    assert Do(d, d1, WriteTail(Bare));
    Prepend(d, d1);
  }

  /** It makes the announced removal and synchronizes its directory. */
  lemma AfterRemoval(d: Disk, j: Journal)
    requires d.due == Nothing && d.store.journal == Some(j) && WellFormed(j) && InFlight(j) && j.tail.Whole?
    requires d.limbo == {} && d.store.held == Held(j.plan, Done(j))
    requires CanBreak(d.(store := Store(Held(j.plan, Done(j) + 1), Some(j))))
    ensures CanBreak(d)
  {
    HeldStep(j.plan, Done(j));
    var e := d.(store := Store(Held(j.plan, Done(j) + 1), Some(j)));
    var d1 := e.(limbo := {Target(j)}, due := ShardDue);
    assert Sync(d1, e) && e != Kill(d1) by {
      assert {Target(j)} - {Target(j)} == {};
    }
    Prepend(d1, e);
    assert NextStep(d.store, d1.store, Unlink) && Readable(j) > 0;
    assert Do(d, d1, Unlink) by {
      assert d.limbo + {Target(j)} == {Target(j)};
    }
    Prepend(d, d1);
  }

  lemma Numbers(j: Journal)
    requires InFlight(j)
    ensures j.records == 2 * Done(j) + 2
    ensures var before := Journal(j.plan, j.records - 1, Whole); Done(before) == Done(j) && !InFlight(before)
    ensures var next := Journal(j.plan, j.records + 1, Whole); Done(next) == Done(j) + 1 && !InFlight(next)
  {}

  /** The journal without its last announcement does not account for the removal that followed. */
  lemma RemovalUnannounced(j: Journal)
    requires WellFormed(j) && InFlight(j)
    ensures !Accounted(Held(j.plan, Done(j) + 1), Journal(j.plan, j.records - 1, Whole))
  {
    Numbers(j);
    HeldStep(j.plan, Done(j));
  }

  /** The journal with the removal recorded does not account for the record being back. */
  lemma RemovalUndone(j: Journal)
    requires WellFormed(j) && InFlight(j)
    ensures !Accounted(Held(j.plan, Done(j)), Journal(j.plan, j.records + 1, Whole))
  {
    Numbers(j);
    HeldStep(j.plan, Done(j));
  }

  lemma StrandedRemoval(d: Disk)
    requires DurInv(d) && d.due == ShardDue
    ensures CanBreak(Kill(d))
  {
    var k, j := Kill(d), d.store.journal.value;
    HeldStep(j.plan, Done(j));
    var next := Journal(j.plan, j.records + 1, Whole);
    var e := WithJournal(k, next).(safe := j.records + 1);
    var store := Store(Held(j.plan, Done(j)), Some(next));
    assert Held(j.plan, Done(j)) == e.store.held + {Target(j)};
    assert CutOf(next, next, e.safe);
    RemovalUndone(j);
    BreaksNow(e, Disk(store, {}, next.records, true, None, Nothing));
    AfterRecord(k, j);
  }

  lemma StrandedAnnouncement(d: Disk)
    requires DurInv(d) && d.due == FileDue && Harmful(d)
    ensures CanBreak(Kill(d))
  {
    var k, j := Kill(d), d.store.journal.value;
    var cut := Journal(j.plan, j.records - 1, Whole);
    assert CutOf(cut, j, d.safe);
    assert Accounted(d.store.held, cut);
    RemovalUnannounced(j);
    var e := k.(store := Store(Held(j.plan, Done(j) + 1), Some(j)));
    var store := Store(Held(j.plan, Done(j) + 1), Some(cut));
    BreaksNow(e, Disk(store, {}, cut.records, true, None, Nothing));
    AfterRemoval(k, j);
  }

  lemma FreshDigest(held: set<Entry>) returns (unused: Digest)
    ensures forall x :: x in held ==> x.digest < unused
    decreases held
  {
    if held == {} {
      unused := 0;
    } else {
      var x :| x in held;
      var rest := FreshDigest(held - {x});
      unused := if x.digest >= rest then x.digest + 1 else rest;
    }
  }

  lemma StrandedRetirement(d: Disk)
    requires DurInv(d) && d.due == RetireDue
    ensures CanBreak(Kill(d))
  {
    var k, kept := Kill(d), d.lingering.value;
    var j := kept.journal;
    assert CutOf(j, j, kept.safe);
    var unused := FreshDigest(d.store.held);
    var x := Entry(unused, 0, 0);
    var e := k.(store := Store(d.store.held + {x}, None));
    var store := Store(d.store.held + {x}, Some(j));
    assert !Accounted(store.held, j);
    BreaksNow(e, Disk(store, {}, j.records, true, None, Nothing));
    assert Do(k, e, Publish(x));
    Prepend(k, e);
  }

  /** An open journal whose name is not on disk, before its first removal. */
  lemma UnnamedBreaks(d: Disk, j: Journal)
    requires d.due == Nothing && !d.named && d.limbo == {} && d.store.journal == Some(j) && d.safe <= 1
    requires ValidPlan(j.plan) && j.plan.remove != [] && j == Journal(j.plan, 1, Whole)
    requires d.store.held == Held(j.plan, 0)
    ensures CanBreak(d)
  {
    HeldStep(j.plan, 0);
    var announced := Journal(j.plan, 2, Whole);
    var d1 := WithJournal(d, announced).(safe := 2);
    var d2 := d1.(store := Store(Held(j.plan, 1), Some(announced)));
    BreaksNow(d2, Disk(Store(Held(j.plan, 1), None), {}, 0, false, None, Nothing));
    AfterRemoval(d1, announced);
    AfterRecord(d, j);
  }

  lemma StrandedCreation(d: Disk)
    requires DurInv(d) && (d.due == NameDue || d.due == CreateDue) && Harmful(d)
    ensures CanBreak(Kill(d))
  {
    var k, j := Kill(d), d.store.journal.value;
    if j.records == 1 {
      UnnamedBreaks(k, j);
    } else {
      var first := Journal(j.plan, 1, Whole);
      var d1 := WithJournal(k, first).(due := FileDue);
      var d2 := d1.(safe := 1, due := Nothing);
      UnnamedBreaks(d2, first);
      Prepend(d1, d2);
      assert Do(k, d1, FinishRecord);
      Prepend(k, d1);
    }
  }

  /**
   * Which kills are harmless: one between a change and its synchronization can cost the
   * agreement of directory and journal at a later power loss exactly if it leaves the name
   * of a readable journal, an announcement, a removal or a retirement unsynchronized.
   */
  lemma KillIsSafeIff(d: Disk)
    requires DurInv(d)
    ensures CanBreak(Kill(d)) <==> Harmful(d)
  {
    if !Harmful(d) {
      KillKeeps(d);
      SoundCannotBreak(Kill(d));
    } else if d.due == ShardDue {
      StrandedRemoval(d);
    } else if d.due == FileDue {
      StrandedAnnouncement(d);
    } else if d.due == RetireDue {
      StrandedRetirement(d);
    } else {
      StrandedCreation(d);
    }
  }

  // ---- The harmful kills are reachable ----

  function Clean(held: set<Entry>): Disk {
    Disk(Store(held, None), {}, 0, false, None, Nothing)
  }

  ghost predicate RunTo(run: seq<Disk>, plan: Plan, d: Disk) {
    && run != [] && run[0] == Clean(Held(plan, 0)) && run[|run| - 1] == d
    && IsRun(run) && NeverStrands(run, |run|)
  }

  /** Reached from the reviewed inventory without a stranding kill. */
  ghost predicate Reached(plan: Plan, d: Disk) {
    exists run :: RunTo(run, plan, d)
  }

  lemma Go(plan: Plan, d: Disk, e: Disk)
    requires Reached(plan, d) && Next(d, e) && !Stranding(d, e)
    ensures Reached(plan, e)
  {
    var run :| RunTo(run, plan, d);
    var longer := run + [e];
    forall i: nat | i + 1 < |longer|
      ensures StepAt(longer, i) && !Strands(longer, i)
    {
      if i + 1 < |run| {
        assert StepAt(run, i) && !Strands(run, i);
      }
    }
    assert RunTo(longer, plan, e);
  }

  lemma ReachedSound(plan: Plan, d: Disk)
    requires ValidPlan(plan) && Reached(plan, d)
    ensures DurInv(d)
  {
    var run :| RunTo(run, plan, d);
    HeldBounds(plan, 0);
    DurRun(run, |run| - 1);
  }

  /** `n` whole records, `i` records removed, everything on disk. */
  ghost function Steady(plan: Plan, n: nat, i: nat): Disk
    requires i <= |plan.remove|
  {
    Disk(Store(Held(plan, i), Some(Journal(plan, n, Whole))), {}, n, true, None, Nothing)
  }

  /** Up to the synchronization of the new journal's name. */
  lemma ReachCreated(plan: Plan)
    requires ValidPlan(plan) && plan.remove != []
    ensures Reached(plan, Steady(plan, 1, 0).(safe := 0, named := false, due := CreateDue))
    ensures Reached(plan, Steady(plan, 1, 0).(named := false, due := NameDue))
    ensures Reached(plan, Steady(plan, 1, 0))
  {
    var d0 := Clean(Held(plan, 0));
    assert RunTo([d0], plan, d0);
    var j0 := Journal(plan, 0, Whole);
    var d1 := Disk(Store(Held(plan, 0), Some(j0)), {}, 0, false, None, CreateDue);
    assert Do(d0, d1, CreateJournal(plan));
    Go(plan, d0, d1);
    var d2 := WithJournal(d1, j0.(tail := Bare));
    assert Do(d1, d2, WriteTail(Bare));
    Go(plan, d1, d2);
    var d3 := Steady(plan, 1, 0).(safe := 0, named := false, due := CreateDue);
    assert Do(d2, d3, FinishRecord);
    Go(plan, d2, d3);
    var d4 := Steady(plan, 1, 0).(named := false, due := NameDue);
    Go(plan, d3, d4);
    Go(plan, d4, Steady(plan, 1, 0));
  }

  lemma ReachRecord(plan: Plan, n: nat, i: nat)
    requires ValidPlan(plan) && 0 < n < LogLength(plan) && i == n / 2 <= |plan.remove|
    requires Reached(plan, Steady(plan, n, i))
    ensures Reached(plan, Steady(plan, n + 1, i).(safe := n, due := FileDue))
    ensures Reached(plan, Steady(plan, n + 1, i))
  {
    var d := Steady(plan, n, i);
    var d1 := WithJournal(d, Journal(plan, n, Bare));
    assert Do(d, d1, WriteTail(Bare));
    Go(plan, d, d1);
    var d2 := Steady(plan, n + 1, i).(safe := n, due := FileDue);
    assert Do(d1, d2, FinishRecord);
    Go(plan, d1, d2);
    Go(plan, d2, Steady(plan, n + 1, i));
  }

  ghost function Unlinked(plan: Plan, i: nat): Disk
    requires i < |plan.remove|
  {
    Steady(plan, 2 * i + 2, i + 1).(limbo := {plan.remove[i]}, due := ShardDue)
  }

  lemma ReachRemoval(plan: Plan, i: nat)
    requires ValidPlan(plan) && i < |plan.remove| && Reached(plan, Steady(plan, 2 * i + 2, i))
    ensures Reached(plan, Unlinked(plan, i)) && Reached(plan, Steady(plan, 2 * i + 2, i + 1))
  {
    var d, d1, d2 := Steady(plan, 2 * i + 2, i), Unlinked(plan, i), Steady(plan, 2 * i + 2, i + 1);
    HeldStep(plan, i);
    Numbers(d.store.journal.value);
    assert NextStep(d.store, d1.store, Unlink);
    assert Do(d, d1, Unlink);
    Go(plan, d, d1);
    assert d1.limbo - {plan.remove[i]} == {};
    assert Sync(d1, d2);
    Go(plan, d1, d2);
  }

  lemma {:induction false} ReachSteady(plan: Plan, i: nat)
    requires ValidPlan(plan) && plan.remove != [] && i <= |plan.remove|
    ensures Reached(plan, Steady(plan, 2 * i + 1, i))
  {
    if i == 0 {
      ReachCreated(plan);
    } else {
      ReachSteady(plan, i - 1);
      ReachRecord(plan, 2 * i - 1, i - 1);
      ReachRemoval(plan, i - 1);
      ReachRecord(plan, 2 * i, i);
    }
  }

  ghost function Retired(plan: Plan): Disk {
    var j := Journal(plan, LogLength(plan), Whole);
    Disk(Store(Held(plan, |plan.remove|), None), {}, LogLength(plan), false, Some(Kept(j, LogLength(plan))), RetireDue)
  }

  lemma ReachRetired(plan: Plan)
    requires ValidPlan(plan) && plan.remove != []
    ensures Reached(plan, Retired(plan))
  {
    var m := |plan.remove|;
    ReachSteady(plan, m);
    ReachRecord(plan, 2 * m + 1, m);
    var d := Steady(plan, 2 * m + 2, m);
    assert Do(d, Retired(plan), Retire);
    Go(plan, d, Retired(plan));
  }

  /**
   * Every kind of harmful kill happens: for every plan and each of its removals, retention
   * passes through all of them on its way, and each can cost the agreement at a power loss.
   */
  lemma HarmIsReachable(plan: Plan, i: nat) returns (created: Disk, announced: Disk)
    requires ValidPlan(plan) && i < |plan.remove|
    ensures Reached(plan, created) && created.due == NameDue && CanBreak(Kill(created))
    ensures Reached(plan, announced) && announced.due == FileDue && CanBreak(Kill(announced))
    ensures Reached(plan, Unlinked(plan, i)) && CanBreak(Kill(Unlinked(plan, i)))
    ensures Reached(plan, Retired(plan)) && CanBreak(Kill(Retired(plan)))
  {
    ReachCreated(plan);
    created := Steady(plan, 1, 0).(named := false, due := NameDue);
    Break(plan, created);
    ReachSteady(plan, i);
    ReachRecord(plan, 2 * i + 1, i);
    announced := Steady(plan, 2 * i + 2, i).(safe := 2 * i + 1, due := FileDue);
    Break(plan, announced);
    ReachRemoval(plan, i);
    Break(plan, Unlinked(plan, i));
    ReachRetired(plan);
    Break(plan, Retired(plan));
  }

  lemma Break(plan: Plan, d: Disk)
    requires ValidPlan(plan) && Reached(plan, d) && Harmful(d)
    ensures CanBreak(Kill(d))
  {
    ReachedSound(plan, d);
    KillIsSafeIff(d);
  }
}
