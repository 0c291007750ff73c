/**
 * Catalog retention as a crash-recoverable protocol over a directory and a journal.
 *
 * A process can be killed between any two steps and in the middle of any journal write,
 * so a reachable state of this system is also what a restarted process may find.
 */
module RetentionProtocol {
  import opened Outcomes
  import opened DigestOrder
  import opened RetentionPlan
  import opened RetentionJournal
  import opened JournalFile

  /** What follows the whole records: nothing, part of the next one, or all of it but the newline. */
  datatype Tail = Whole | Torn | Bare

  /** The journal file: so many whole records of the journal of `plan`, and a tail. */
  datatype Journal = Journal(plan: Plan, records: nat, tail: Tail)

  datatype Store = Store(held: set<Entry>, journal: Option<Journal>)

  /** The records a reader finds. */
  function Readable(j: Journal): (m: nat) {
    j.records + if j.tail.Bare? then 1 else 0
  }

  ghost predicate WellFormed(j: Journal) {
    && ValidPlan(j.plan)
    && j.records <= LogLength(j.plan)
    && (j.tail != Whole ==> j.records < LogLength(j.plan))
  }

  /** The journal file is `k` bytes long. */
  ghost predicate HasLength(c: Codec, j: Journal, k: nat)
    requires WellFormed(j)
  {
    match j.tail
    case Whole => k == |FileBytes(c, Log(j.plan, j.records))|
    case Torn => |FileBytes(c, Log(j.plan, j.records))| < k < |FileBytes(c, Log(j.plan, j.records + 1))| - 1
    case Bare => k == |FileBytes(c, Log(j.plan, j.records + 1))| - 1
  }

  /**
   * These three tails are all there is: a file cut at any byte is one of them, and reopening
   * it reads and keeps exactly its readable records.
   */
  lemma AnyCutIsAJournal(c: Codec, plan: Plan, k: nat) returns (j: Journal)
    requires Canonical(c) && ValidPlan(plan)
    requires k <= |FileBytes(c, Log(plan, LogLength(plan)))|
    ensures j.plan == plan && WellFormed(j) && HasLength(c, j, k) && Readable(j) <= LogLength(plan)
    ensures Opened(c, FileBytes(c, Log(plan, LogLength(plan)))[..k]).Ok? <==> Readable(j) > 0
    ensures Readable(j) > 0 ==>
              Opened(c, FileBytes(c, Log(plan, LogLength(plan)))[..k]) ==
              Ok(Loaded(ProgressAt(plan, Readable(j)), FileBytes(c, Log(plan, Readable(j)))))
  {
    var m := TornJournal(c, plan, k);
    j := CutTail(c, plan, k, m);
  }

  /** A file that holds `m` records ends in one of the three tails. */
  lemma CutTail(c: Codec, plan: Plan, k: nat, m: nat) returns (j: Journal)
    requires Canonical(c) && ValidPlan(plan) && Holds(c, plan, k, m)
    requires k <= |FileBytes(c, Log(plan, LogLength(plan)))|
    ensures j.plan == plan && WellFormed(j) && HasLength(c, j, k) && Readable(j) == m <= LogLength(plan)
  {
    assert Log(plan, 0) == [];
    var w := |FileBytes(c, Log(plan, m))|;
    j := if k + 1 == w then Journal(plan, m - 1, Bare)
         else if k == w then Journal(plan, m, Whole)
         else Journal(plan, m, Torn);
    LogIsPrefix(c, plan, m, LogLength(plan));
  }

  /** An unlink has been announced and not yet recorded as done. */
  predicate InFlight(j: Journal) {
    && j.records > 0
    && j.records % 2 == 0
    && j.records < LogLength(j.plan)
  }

  /** Removals done before the last whole record. */
  function Done(j: Journal): nat {
    if j.records == 0 then 0 else (j.records - 1) / 2
  }

  /** Directory and journal agree on how far the removal has gone. */
  ghost predicate Accounted(held: set<Entry>, j: Journal)
    requires WellFormed(j)
  {
    if j.tail != Whole then held == Held(j.plan, j.records / 2)
    else held == Held(j.plan, Done(j)) || (InFlight(j) && held == Held(j.plan, Done(j) + 1))
  }

  ghost predicate Inv(s: Store) {
    && Keyed(s.held, DigestOf)
    && (s.journal.Some? ==> WellFormed(s.journal.value) && Accounted(s.held, s.journal.value))
  }

  datatype Step =
    | Publish(entry: Entry)
    | CreateJournal(plan: Plan)
    | WriteTail(tail: Tail)
    | FinishRecord
    | Repair
    | Unlink
    | Retire
    | Abandon

  ghost predicate NextStep(s: Store, t: Store, step: Step) {
    match step
    case Publish(e) =>
      && s.journal.None?
      && (forall x :: x in s.held ==> x.digest != e.digest)
      && t == Store(s.held + {e}, None)
    case CreateJournal(plan) =>
      && s.journal.None?
      && ValidPlan(plan)
      && s.held == Held(plan, 0)
      && t == Store(s.held, Some(Journal(plan, 0, Whole)))
    case Abandon =>
      && s.journal.Some?
      && s.journal.value.records <= 1
      && t == Store(s.held, None)
    case _ =>
      s.journal.Some? && WellFormed(s.journal.value) && JournalStep(s.held, s.journal.value, t, step)
  }

  ghost predicate JournalStep(held: set<Entry>, j: Journal, t: Store, step: Step)
    requires WellFormed(j)
  {
    match step
    case WriteTail(tail) =>
      // A record is written only when the directory already agrees with it.
      && !j.tail.Bare? && !tail.Whole?
      && j.records < LogLength(j.plan)
      && held == Held(j.plan, j.records / 2)
      && t == Store(held, Some(j.(tail := tail)))
    case FinishRecord =>
      && j.tail.Bare?
      && t == Store(held, Some(Journal(j.plan, j.records + 1, Whole)))
    case Repair =>
      && j.tail.Torn?
      && t == Store(held, Some(j.(tail := Whole)))
    case Unlink =>
      && j.tail.Whole? && InFlight(j)
      && held == Held(j.plan, Done(j))
      && t == Store(held - {j.plan.remove[Done(j)]}, Some(j))
    case Retire =>
      && j.tail.Whole? && j.records == LogLength(j.plan)
      && t == Store(held, None)
    case _ => false
  }

  ghost predicate Next(s: Store, t: Store) {
    exists step :: NextStep(s, t, step)
  }

  ghost predicate StepAt(run: seq<Store>, i: nat)
    requires i + 1 < |run|
  {
    Next(run[i], run[i + 1])
  }

  /** A history of store states, each one step after the one before. */
  ghost predicate IsRun(run: seq<Store>) {
    forall i: nat :: i + 1 < |run| ==> StepAt(run, i)
  }


  /** Every step of retention, publication and recovery keeps directory and journal in agreement. */
  lemma InvStep(s: Store, t: Store, step: Step)
    requires Inv(s) && NextStep(s, t, step)
    ensures Inv(t)
  {
    match step {
      case Unlink =>
        var j := s.journal.value;
        HeldStep(j.plan, Done(j));
      case _ =>
    }
  }

  lemma {:induction false} InvRun(run: seq<Store>, i: nat)
    requires IsRun(run) && i < |run| && Inv(run[0])
    ensures Inv(run[i])
  {
    if i > 0 {
      InvRun(run, i - 1);
      assert StepAt(run, i - 1);
      var step :| NextStep(run[i - 1], run[i], step);
      InvStep(run[i - 1], run[i], step);
    }
  }

  /** What a progress report says about the directory. */
  ghost predicate Agrees(held: set<Entry>, p: Progress) {
    && p.removedCount <= |p.plan.remove|
    && (p.inFlight.Some? ==> p.inFlight.value == p.removedCount < |p.plan.remove|)
    && (held == Held(p.plan, p.removedCount)
        || (p.inFlight.Some? && held == Held(p.plan, p.removedCount + 1)))
    && (p.completed ==> p.removedCount == |p.plan.remove| && p.inFlight.None?)
  }

  lemma JournalAgrees(held: set<Entry>, j: Journal)
    requires WellFormed(j) && Accounted(held, j) && Readable(j) > 0
    ensures Readable(j) <= LogLength(j.plan)
    ensures Agrees(held, ProgressAt(j.plan, Readable(j)))
  {}

  /**
   * In every state a restarted process can find, what is stored is the reviewed inventory
   * without the first k removals, k being the removals the readable journal records, or
   * one more while it announces a removal, and all of it before the first record is whole;
   * so nothing protected is ever missing.
   */
  lemma RetentionSafety(run: seq<Store>, i: nat)
    requires IsRun(run) && i < |run| && Inv(run[0]) && run[i].journal.Some?
    ensures var j := run[i].journal.value;
            && ValidPlan(j.plan)
            && Readable(j) <= LogLength(j.plan)
            && Elems(j.plan.retain) <= run[i].held <= Held(j.plan, 0)
            && (if Readable(j) == 0 then run[i].held == Held(j.plan, 0)
                else
                  var p := ProgressAt(j.plan, Readable(j));
                  && Agrees(run[i].held, p)
                  && (p.completed ==> run[i].held == Elems(j.plan.retain)))
  {
    InvRun(run, i);
    var j := run[i].journal.value;
    if Readable(j) > 0 {
      JournalAgrees(run[i].held, j);
    }
  }

  /** The plan journalled in a state selects this record for removal. */
  ghost predicate Condemned(s: Store, e: Entry) {
    s.journal.Some? && e in s.journal.value.plan.remove && e !in s.journal.value.plan.retain
  }

  lemma RemovedIsCondemned(s: Store, t: Store, step: Step, e: Entry)
    requires NextStep(s, t, step) && e in s.held && e !in t.held
    ensures Condemned(s, e)
  {
    assert step.Unlink?;
    var j := s.journal.value;
    ValidPlanParts(j.plan);
    assert j.plan.remove[Done(j)] in Elems(j.plan.remove);
    assert e !in Elems(j.plan.retain);
  }

  /** A record leaves the store only by a step of a journalled plan that removes it. */
  lemma {:induction false} OnlyCondemnedDisappear(run: seq<Store>, i: nat, k: nat, e: Entry) returns (t: nat)
    requires IsRun(run) && i <= k < |run|
    requires e in run[i].held && e !in run[k].held
    ensures i <= t < k && Condemned(run[t], e)
    decreases k
  {
    if e in run[k - 1].held {
      t := k - 1;
      assert StepAt(run, t);
      var step :| NextStep(run[t], run[k], step);
      RemovedIsCondemned(run[t], run[k], step, e);
    } else {
      t := OnlyCondemnedDisappear(run, i, k - 1, e);
    }
  }

  /**
   * Recovery cannot start from every reachable state: a process killed while it creates the
   * journal can leave a file without a whole first record, which no later call can open.
   */
  lemma CreationWindow(plan: Plan, tail: Tail)
    requires ValidPlan(plan) && !tail.Bare?
    ensures var s := Store(Held(plan, 0), None);
            var t := Store(Held(plan, 0), Some(Journal(plan, 0, Whole)));
            var u := Store(Held(plan, 0), Some(Journal(plan, 0, tail)));
            && Inv(s) && Next(s, t) && (u == t || Next(t, u))
            && Readable(u.journal.value) == 0
  {
    HeldBounds(plan, 0);
    var s := Store(Held(plan, 0), None);
    var t := Store(Held(plan, 0), Some(Journal(plan, 0, Whole)));
    assert NextStep(s, t, CreateJournal(plan));
    assert NextStep(t, Store(Held(plan, 0), Some(Journal(plan, 0, Torn))), WriteTail(Torn));
  }

  /** While a journal is pending nothing is published: the store only shrinks, under one plan. */
  lemma PendingExcludesPublication(s: Store, t: Store)
    requires Inv(s) && Next(s, t) && s.journal.Some?
    ensures t.held <= s.held
    ensures t.journal.Some? ==> t.journal.value.plan == s.journal.value.plan
  {
    var step :| NextStep(s, t, step);
  }
}
