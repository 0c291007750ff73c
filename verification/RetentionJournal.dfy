/**
 * The append-only progress journal of catalog retention.
 *
 * A journal file is a sequence of newline-terminated canonical records. Writing is not
 * atomic, so an interruption can leave any byte prefix of what was being written.
 */
module RetentionJournal {
  import opened Outcomes
  import opened DigestOrder
  import opened RetentionPlan

  datatype State =
    | Prepared(plan: Plan, planDigest: PlanDigest)
    | Removing(index: nat, digest: Digest)
    | Removed(index: nat, digest: Digest)
    | Completed(removedCount: nat)

  datatype Record = Record(sequence: nat, state: State)

  datatype Progress = Progress(
    plan: Plan,
    planDigest: PlanDigest,
    removedCount: nat,
    inFlight: Option<nat>,
    completed: bool,
    nextSequence: nat)

  /** The first record must be the prepared one. */
  function Open(record: Record): (r: Result<Progress>) {
    match record.state
    case Prepared(plan, planDigest) =>
      if record.sequence != 0 then Err(Invalid)
      else if !ValidPlan(plan) then Err(Invalid)
      else if planDigest != PlanDigest(plan) then Err(Invalid)
      else Ok(Progress(plan, planDigest, 0, None, false, 1))
    case _ => Err(Invalid)
  }

  /** Each later record must continue the journal in canonical order. */
  function Continue(p: Progress, record: Record): (r: Result<Progress>) {
    if record.sequence != p.nextSequence then Err(Invalid)
    else if p.completed then Err(Invalid)
    else
      match record.state
      case Prepared(_, _) => Err(Invalid)
      case Removing(index, digest) =>
        if p.inFlight.Some? then Err(Invalid)
        else if index >= |p.plan.remove| then Err(Invalid)
        else if index != p.removedCount || digest != p.plan.remove[index].digest then Err(Invalid)
        else Ok(p.(inFlight := Some(index), nextSequence := p.nextSequence + 1))
      case Removed(index, digest) =>
        if index >= |p.plan.remove| then Err(Invalid)
        else if p.inFlight != Some(index) || digest != p.plan.remove[index].digest then Err(Invalid)
        else Ok(p.(inFlight := None, removedCount := p.removedCount + 1, nextSequence := p.nextSequence + 1))
      case Completed(removedCount) =>
        if removedCount > |p.plan.remove| then Err(Invalid)
        else if p.inFlight.Some? || p.removedCount != |p.plan.remove| || removedCount != p.removedCount
        then Err(Invalid)
        else Ok(p.(completed := true, nextSequence := p.nextSequence + 1))
  }

  /** Replaying a whole journal, record by record. */
  function Replay(log: seq<Record>): (r: Result<Progress>) {
    if log == [] then Err(Invalid)
    else if |log| == 1 then Open(log[0])
    else
      match Replay(log[..|log| - 1])
      case Err(e) => Err(e)
      case Ok(p) => Continue(p, log[|log| - 1])
  }

  // ---- The one journal a plan can produce ----

  function LogLength(plan: Plan): (n: nat) {
    2 * |plan.remove| + 2
  }

  function StateAt(plan: Plan, s: nat): (r: State)
    requires s < LogLength(plan)
  {
    if s == 0 then Prepared(plan, PlanDigest(plan))
    else if s == LogLength(plan) - 1 then Completed(|plan.remove|)
    else if s % 2 == 1 then Removing(s / 2, plan.remove[s / 2].digest)
    else Removed(s / 2 - 1, plan.remove[s / 2 - 1].digest)
  }

  function RecordAt(plan: Plan, s: nat): (r: Record)
    requires s < LogLength(plan)
  {
    Record(s, StateAt(plan, s))
  }

  /** The first `m` records of the journal of `plan`. */
  function Log(plan: Plan, m: nat): (log: seq<Record>)
    requires m <= LogLength(plan)
    ensures |log| == m && forall s :: 0 <= s < m ==> log[s] == RecordAt(plan, s)
  {
    seq(m, s requires 0 <= s < m => RecordAt(plan, s))
  }

  /** The progress those records mean. */
  function ProgressAt(plan: Plan, m: nat): (p: Progress)
    requires 1 <= m <= LogLength(plan)
  {
    var done := m == LogLength(plan);
    Progress(
      plan, PlanDigest(plan),
      if done then |plan.remove| else (m - 1) / 2,
      if !done && m % 2 == 0 then Some(m / 2 - 1) else None,
      done,
      m)
  }

  lemma ContinueExact(plan: Plan, m: nat, record: Record)
    requires 1 <= m <= LogLength(plan)
    ensures Continue(ProgressAt(plan, m), record).Ok? <==> m < LogLength(plan) && record == RecordAt(plan, m)
    ensures m < LogLength(plan) ==>
              Continue(ProgressAt(plan, m), RecordAt(plan, m)) == Ok(ProgressAt(plan, m + 1))
  {}

  lemma ReplayLast(log: seq<Record>, p: Progress)
    requires |log| > 1 && Replay(log[..|log| - 1]) == Ok(p)
    ensures Replay(log) == Continue(p, log[|log| - 1])
  {}

  lemma {:induction false} ReplayLog(plan: Plan, m: nat)
    requires ValidPlan(plan) && 1 <= m <= LogLength(plan)
    ensures Replay(Log(plan, m)) == Ok(ProgressAt(plan, m))
  {
    if m > 1 {
      assert Log(plan, m)[..m - 1] == Log(plan, m - 1);
      ReplayLog(plan, m - 1);
      ReplayLast(Log(plan, m), ProgressAt(plan, m - 1));
      ContinueExact(plan, m - 1, RecordAt(plan, m - 1));
    }
  }

  /** The journal of which plan a list of records claims to be. */
  ghost predicate IsJournalOf(log: seq<Record>, plan: Plan) {
    && ValidPlan(plan)
    && 1 <= |log| <= LogLength(plan)
    && log == Log(plan, |log|)
  }

  /** Replay accepts exactly the non-empty prefixes of the one journal of some valid plan. */
  lemma JournalGrammar(log: seq<Record>)
    ensures Replay(log).Ok? <==> exists plan :: IsJournalOf(log, plan)
    ensures forall plan :: IsJournalOf(log, plan) ==> Replay(log) == Ok(ProgressAt(plan, |log|))
  {
    forall plan | IsJournalOf(log, plan)
      ensures Replay(log) == Ok(ProgressAt(plan, |log|))
    {
      ReplayLog(plan, |log|);
    }
    if Replay(log).Ok? {
      var plan := AcceptedPlan(log);
    }
  }

  lemma {:induction false} AcceptedPlan(log: seq<Record>) returns (plan: Plan)
    requires Replay(log).Ok?
    ensures IsJournalOf(log, plan)
  {
    if |log| == 1 {
      plan := log[0].state.plan;
      assert log == Log(plan, 1);
    } else {
      var front := log[..|log| - 1];
      plan := AcceptedPlan(front);
      ReplayLog(plan, |front|);
      ContinueExact(plan, |front|, log[|log| - 1]);
      assert log == front + [log[|log| - 1]] == Log(plan, |log|);
    }
  }
}
