/** Reviewed restore plans: what is accepted, and when one can be built. */
module StateRestoreReview {
  import opened Outcomes
  import opened StateRestorePlan
  import opened StateRestoreDiff
  import opened StateRestoreSummary

  /** A collision-free digest of an inventory. */
  datatype EntriesDigest = EntriesDigest(entries: seq<Entry>)

  datatype Manifest = Manifest(installation: nat, authority: nat, entries: seq<Entry>, inventory: EntriesDigest)

  datatype PlanStatus = Required | NoChange

  datatype Plan = Plan(
    status: PlanStatus,
    backup: Manifest,
    before: EntriesDigest,
    authority: EntriesDigest,
    summary: Summary,
    actions: seq<Action>)

  ghost predicate SmallFiles(es: seq<Entry>) {
    forall e :: e in es ==> e.evidence.length <= MAX_FILE_BYTES
  }

  ghost predicate ValidManifest(layout: Layout, m: Manifest) {
    ValidInventory(layout, m.entries) && SmallFiles(m.entries) && m.inventory == EntriesDigest(m.entries)
  }

  // ---- Authority ----

  predicate IsAuthority(f: Family) {
    f == Registry || f == Grants
  }

  function Authority(es: seq<Entry>, n: nat): (r: seq<Entry>)
    requires n <= |es|
  {
    if n == 0 then []
    else Authority(es, n - 1) + if IsAuthority(es[n - 1].family) then [es[n - 1]] else []
  }

  function AuthorityOf(es: seq<Entry>): seq<Entry> {
    Authority(es, |es|)
  }

  lemma {:induction false} AuthorityMembers(es: seq<Entry>, n: nat, e: Entry)
    requires n <= |es|
    ensures e in Authority(es, n) <==> e in es[..n] && IsAuthority(e.family)
  {
    if n > 0 {
      AuthorityMembers(es, n - 1, e);
      assert es[..n] == es[..n - 1] + [es[n - 1]];
    }
  }

  /** Two inventories agree about every Registry and every Grants entry. */
  ghost predicate SameAuthority(a: seq<Entry>, b: seq<Entry>) {
    forall e: Entry :: e.family == Registry || e.family == Grants ==> (e in a <==> e in b)
  }

  /** The Registry and Grants entries of an inventory, in order. */
  ghost predicate ListsAuthority(xs: seq<Entry>, es: seq<Entry>) {
    && Sorted(xs, |xs|)
    && forall e: Entry :: e in xs <==> e in es && (e.family == Registry || e.family == Grants)
  }

  /** One more entry, after and apart from all the others. */
  lemma AppendEntry(layout: Layout, es: seq<Entry>, e: Entry)
    requires EntriesOk(layout, es, |es|) && EntryOk(layout, e)
    requires forall x :: x in es ==> KeyLess(x.key, e.key) && Portable(x.key) != Portable(e.key)
    requires Bytes(es, |es|) + e.evidence.length <= MAX_BYTES
    ensures EntriesOk(layout, es + [e], |es| + 1)
    ensures Bytes(es + [e], |es| + 1) == Bytes(es, |es|) + e.evidence.length
  {
    BytesPrefix(es, e, |es|);
    assert EntriesOk(layout, es + [e], |es|);
    ExtendEntries(layout, es + [e], |es|);
  }

  lemma AuthorityBefore(layout: Layout, es: seq<Entry>, n: nat)
    requires n < |es| && EntriesOk(layout, es, |es|)
    ensures forall x :: x in Authority(es, n) ==> KeyLess(x.key, es[n].key) && Portable(x.key) != Portable(es[n].key)
  {
    forall x | x in Authority(es, n)
      ensures KeyLess(x.key, es[n].key) && Portable(x.key) != Portable(es[n].key)
    {
      AuthorityMembers(es, n, x);
      var i :| 0 <= i < n && es[i] == x;
    }
  }

  ghost predicate Bounded(layout: Layout, es: seq<Entry>, files: nat, bytes: nat) {
    |es| <= files && EntriesOk(layout, es, |es|) && Bytes(es, |es|) <= bytes
  }

  lemma AuthorityStep(layout: Layout, es: seq<Entry>, n: nat)
    requires n < |es| && EntriesOk(layout, es, |es|) && IsAuthority(es[n].family)
    requires Bounded(layout, Authority(es, n), n, Bytes(es, n))
    ensures Bounded(layout, Authority(es, n) + [es[n]], n + 1, Bytes(es, n + 1))
  {
    BytesMonotone(es, n + 1, |es|);
    AuthorityBefore(layout, es, n);
    AppendBounded(layout, Authority(es, n), es[n], n, Bytes(es, n));
  }

  lemma AppendBounded(layout: Layout, es: seq<Entry>, e: Entry, files: nat, bytes: nat)
    requires Bounded(layout, es, files, bytes) && EntryOk(layout, e) && bytes + e.evidence.length <= MAX_BYTES
    requires forall x :: x in es ==> KeyLess(x.key, e.key) && Portable(x.key) != Portable(e.key)
    ensures Bounded(layout, es + [e], files + 1, bytes + e.evidence.length)
  {
    AppendEntry(layout, es, e);
  }

  /** The authority entries of a valid inventory are one too. */
  lemma {:induction false} AuthorityValid(layout: Layout, es: seq<Entry>, n: nat)
    requires n <= |es| && EntriesOk(layout, es, |es|)
    ensures Bounded(layout, Authority(es, n), n, Bytes(es, n))
  {
    if n > 0 {
      AuthorityValid(layout, es, n - 1);
      if IsAuthority(es[n - 1].family) {
        AuthorityStep(layout, es, n - 1);
        assert Authority(es, n) == Authority(es, n - 1) + [es[n - 1]];
      } else {
        assert Authority(es, n) == Authority(es, n - 1);
      }
    }
  }

  lemma AuthorityListed(layout: Layout, es: seq<Entry>, xs: seq<Entry>)
    requires EntriesOk(layout, es, |es|)
    ensures ListsAuthority(xs, es) <==> xs == AuthorityOf(es)
  {
    AuthorityValid(layout, es, |es|);
    forall e
      ensures e in AuthorityOf(es) <==> e in es && (e.family == Registry || e.family == Grants)
    {
      AuthorityMembers(es, |es|, e);
      assert es[..|es|] == es;
    }
    if ListsAuthority(xs, es) {
      SameEntries(xs, AuthorityOf(es));
    }
  }

  /** Comparing the filtered lists decides whether the two families agree. */
  lemma AuthorityCompared(layout: Layout, a: seq<Entry>, b: seq<Entry>)
    requires EntriesOk(layout, a, |a|) && EntriesOk(layout, b, |b|)
    ensures AuthorityOf(a) == AuthorityOf(b) <==> SameAuthority(a, b)
  {
    AuthorityListed(layout, a, AuthorityOf(a));
    AuthorityListed(layout, b, AuthorityOf(b));
    if SameAuthority(a, b) {
      SameEntries(AuthorityOf(a), AuthorityOf(b));
    }
  }

  // ---- Validation ----

  ghost predicate ActionsOk(layout: Layout, acts: seq<Action>, n: nat)
    requires n <= |acts|
  {
    && (forall i :: 0 <= i < n ==> ActionOk(layout, acts[i]))
    && (forall i, j :: 0 <= i < j < n ==> KeyLess(acts[i].key, acts[j].key))
    && (forall i, j :: 0 <= i < j < n ==> Portable(acts[i].key) != Portable(acts[j].key))
  }

  ghost predicate AuthorityRetained(acts: seq<Action>) {
    forall i :: 0 <= i < |acts| && (acts[i].family == Registry || acts[i].family == Grants) ==> acts[i].kind == Retain
  }

  ghost predicate ValidPlan(layout: Layout, p: Plan) {
    var before, after := Whole(p.actions, Before), Whole(p.actions, After);
    && ValidManifest(layout, p.backup)
    && ActionsOk(layout, p.actions, |p.actions|)
    && ValidInventory(layout, before) && ValidInventory(layout, after)
    && after == p.backup.entries
    && p.before == EntriesDigest(before)
    && p.summary == SummaryOf(p.actions, |p.actions|)
    && SameAuthority(before, after)
    && ListsAuthority(p.authority.entries, after)
    && AuthorityRetained(p.actions)
    && (p.status == NoChange <==> AllRetain(p.actions))
  }

  lemma ExtendActions(layout: Layout, acts: seq<Action>, i: nat)
    requires i < |acts| && ActionsOk(layout, acts, i)
    ensures ActionsOk(layout, acts, i + 1) <==>
              && ActionOk(layout, acts[i])
              && (i > 0 ==> KeyLess(acts[i - 1].key, acts[i].key))
              && (forall j :: 0 <= j < i ==> Portable(acts[j].key) != Portable(acts[i].key))
  {
    KeyOrder();
    if i > 0 && KeyLess(acts[i - 1].key, acts[i].key) {
      forall j | 0 <= j < i
        ensures KeyLess(acts[j].key, acts[i].key)
      {
        assert j < i - 1 ==> KeyLess(acts[j].key, acts[i - 1].key);
      }
    }
  }

  method ValidateEvidence(e: Option<Evidence>) returns (ok: bool)
    ensures ok <==> e.Some? ==> EvidenceOk(e.value)
  {
    if e.None? {
      return true;
    }
    ok := e.value.length <= MAX_FILE_BYTES && (e.value.mode.None? || e.value.mode.value <= MAX_MODE);
  }

  /** One action by itself: its family, its evidence, and the kind of change it says it is. */
  method ValidateAction(layout: Layout, a: Action) returns (ok: bool)
    ensures ok <==> ActionOk(layout, a)
  {
    var before := ValidateEvidence(a.before);
    var after := ValidateEvidence(a.after);
    if !before || !after || layout(a.key) != Some(a.family) {
      return false;
    }
    match a.kind {
      case Add => ok := a.before.None? && a.after.Some?;
      case Remove => ok := a.before.Some? && a.after.None?;
      case Replace => ok := a.before.Some? && a.after.Some? && a.before != a.after;
      case Retain => ok := a.before.Some? && a.before == a.after;
    }
  }

  /** The loop over the actions of a plan: checks them and collects both sides. */
  method ValidateActions(layout: Layout, acts: seq<Action>)
    returns (ok: bool, before: seq<Entry>, after: seq<Entry>)
    ensures ok <==> ActionsOk(layout, acts, |acts|)
    ensures ok ==> before == Whole(acts, Before) && after == Whole(acts, After)
  {
    before, after := [], [];
    var portable: set<Key> := {};
    for i := 0 to |acts|
      invariant ActionsOk(layout, acts, i)
      invariant before == SideOf(acts, i, Before) && after == SideOf(acts, i, After)
      invariant forall p :: p in portable <==> exists j :: 0 <= j < i && p == Portable(acts[j].key)
    {
      ExtendActions(layout, acts, i);
      var a := acts[i];
      var valid := ValidateAction(layout, a);
      if !valid || (i > 0 && !KeyLess(acts[i - 1].key, a.key)) || Portable(a.key) in portable {
        return false, before, after;
      }
      portable := portable + {Portable(a.key)};
      if a.before.Some? {
        before := before + [Entry(a.key, a.family, a.before.value)];
      }
      if a.after.Some? {
        after := after + [Entry(a.key, a.family, a.after.value)];
      }
    }
    ok := true;
  }

  method ValidateManifest(layout: Layout, m: Manifest) returns (ok: bool)
    ensures ok <==> ValidManifest(layout, m)
  {
    ok := ValidateEntries(layout, m.entries);
    ok := ok && (forall e :: e in m.entries ==> e.evidence.length <= MAX_FILE_BYTES)
          && m.inventory == EntriesDigest(m.entries);
  }

  method DigestEntries(layout: Layout, es: seq<Entry>) returns (r: Result<EntriesDigest>)
    ensures r.Ok? <==> ValidInventory(layout, es)
    ensures r.Ok? ==> r.value == EntriesDigest(es)
  {
    var ok := ValidateEntries(layout, es);
    r := if ok then Ok(EntriesDigest(es)) else Err(Invalid);
  }

  /** The two sides of a plan against everything the plan says about them. */
  method ValidateSides(layout: Layout, p: Plan, before: seq<Entry>, after: seq<Entry>) returns (ok: bool)
    requires ActionsOk(layout, p.actions, |p.actions|)
    requires before == Whole(p.actions, Before) && after == Whole(p.actions, After)
    ensures ok <==>
              && ValidInventory(layout, before) && ValidInventory(layout, after)
              && after == p.backup.entries
              && p.before == EntriesDigest(before)
              && p.summary == SummaryOf(p.actions, |p.actions|)
  {
    var afterOk := ValidateEntries(layout, after);
    var digest := DigestEntries(layout, before);
    if !afterOk || digest.Err? {
      return false;
    }
    SummaryFits(layout, p.actions);
    var summary := Summarize(p.actions);
    ok := after == p.backup.entries && digest.value == p.before && summary.value == p.summary;
  }

  /** The review a plan must pass; accepts exactly the valid plans. */
  method Validate(layout: Layout, p: Plan) returns (ok: bool)
    ensures ok <==> ValidPlan(layout, p)
  {
    var backup := ValidateManifest(layout, p.backup);
    if !backup {
      return false;
    }
    var actions, before, after := ValidateActions(layout, p.actions);
    if !actions {
      return false;
    }
    var sides := ValidateSides(layout, p, before, after);
    if !sides {
      return false;
    }
    var authority := ValidateAuthority(layout, p, before, after);
    ok := authority && (p.status == NoChange <==> forall i :: 0 <= i < |p.actions| ==> p.actions[i].kind == Retain);
  }

  /** Both sides have one authority, its digest is the plan's, and no action touches it. */
  method ValidateAuthority(layout: Layout, p: Plan, before: seq<Entry>, after: seq<Entry>) returns (ok: bool)
    requires EntriesOk(layout, before, |before|) && ValidInventory(layout, after)
    ensures ok <==>
              && SameAuthority(before, after) && ListsAuthority(p.authority.entries, after)
              && AuthorityRetained(p.actions)
  {
    AuthorityValid(layout, after, |after|);
    AuthorityCompared(layout, before, after);
    AuthorityListed(layout, after, p.authority.entries);
    var digest := DigestEntries(layout, AuthorityOf(after));
    ok := && AuthorityOf(before) == AuthorityOf(after)
          && digest.value == p.authority
          && (forall i :: 0 <= i < |p.actions| ==> IsAuthority(p.actions[i].family) ==> p.actions[i].kind == Retain);
  }

  // ---- Building a plan ----

  /** No path of one inventory is another path of the other up to case. */
  ghost predicate Compatible(live: seq<Entry>, backup: seq<Entry>) {
    forall e, f :: e in live && f in backup && Portable(e.key) == Portable(f.key) ==> e.key == f.key
  }

  /** What a live state and a backup must satisfy for a restore to be reviewed at all. */
  ghost predicate Plannable(layout: Layout, backup: Manifest, live: seq<Entry>, authority: EntriesDigest) {
    && ValidManifest(layout, backup)
    && ValidInventory(layout, live) && SmallFiles(live)
    && Compatible(live, backup.entries)
    && SameAuthority(live, backup.entries)
    && ListsAuthority(authority.entries, backup.entries)
  }

  /** The plan for a backup over a live inventory. */
  function PlanOf(backup: Manifest, live: seq<Entry>, authority: EntriesDigest): Plan {
    var acts := BuildActions(live, backup.entries);
    Plan(
      if forall i :: 0 <= i < |acts| ==> acts[i].kind == Retain then NoChange else Required,
      backup, EntriesDigest(live), authority, SummaryOf(acts, |acts|), acts)
  }


  /** Both sides of the difference of valid inventories. */
  lemma DiffSides(layout: Layout, live: seq<Entry>, backup: seq<Entry>)
    requires ValidInventory(layout, live) && ValidInventory(layout, backup)
    ensures var acts := BuildActions(live, backup);
            InOrder(acts) && Kinds(acts) && Whole(acts, Before) == live && Whole(acts, After) == backup
  {
    DiffShape(live, backup);
    DiffRebuilds(layout, live, backup, Before);
    DiffRebuilds(layout, live, backup, After);
  }

  /** Each action's evidence is in the inventory of its side. */
  lemma SideEntry(acts: seq<Action>, i: nat, s: Side)
    requires i < |acts| && On(acts[i], s).Some?
    ensures Entry(acts[i].key, acts[i].family, On(acts[i], s).value) in Whole(acts, s)
  {
    var e := Entry(acts[i].key, acts[i].family, On(acts[i], s).value);
    SideMembers(acts, |acts|, s, e);
    assert Holds(acts[i], s, e);
  }

  lemma EntryAction(acts: seq<Action>, e: Entry, s: Side) returns (i: nat)
    requires e in Whole(acts, s)
    ensures i < |acts| && Holds(acts[i], s, e)
  {
    SideMembers(acts, |acts|, s, e);
    i :| 0 <= i < |acts| && Holds(acts[i], s, e);
  }

  /** Portable collisions between actions are exactly collisions between the two inventories. */
  lemma PortableActions(acts: seq<Action>, i: nat, j: nat)
    requires InOrder(acts) && Kinds(acts) && i < j < |acts|
    requires PortablyDistinct(Whole(acts, Before), |Whole(acts, Before)|)
    requires PortablyDistinct(Whole(acts, After), |Whole(acts, After)|)
    requires Compatible(Whole(acts, Before), Whole(acts, After))
    ensures Portable(acts[i].key) != Portable(acts[j].key)
  {
    KeyOrder();
    var s := if acts[i].before.Some? then Before else After;
    var t := if acts[j].before.Some? then Before else After;
    assert acts[i].key != acts[j].key;
    assert KindOf(acts[i].before, acts[i].after) == Some(acts[i].kind);
    assert KindOf(acts[j].before, acts[j].after) == Some(acts[j].kind);
    SideEntry(acts, i, s);
    SideEntry(acts, j, t);
  }


  lemma CompatibleIff(layout: Layout, acts: seq<Action>)
    requires InOrder(acts) && Kinds(acts)
    requires ValidInventory(layout, Whole(acts, Before)) && ValidInventory(layout, Whole(acts, After))
    ensures Compatible(Whole(acts, Before), Whole(acts, After)) <==>
              forall i, j :: 0 <= i < j < |acts| ==> Portable(acts[i].key) != Portable(acts[j].key)
  {
    var live, backup := Whole(acts, Before), Whole(acts, After);
    if Compatible(live, backup) {
      forall i, j | 0 <= i < j < |acts|
        ensures Portable(acts[i].key) != Portable(acts[j].key)
      {
        PortableActions(acts, i, j);
      }
    }
    if forall i, j :: 0 <= i < j < |acts| ==> Portable(acts[i].key) != Portable(acts[j].key) {
      forall e, f | e in live && f in backup && Portable(e.key) == Portable(f.key)
        ensures e.key == f.key
      {
        var i := EntryAction(acts, e, Before);
        var j := EntryAction(acts, f, After);
      }
    }
  }

  lemma ActionOkIff(layout: Layout, acts: seq<Action>)
    requires Kinds(acts)
    requires ValidInventory(layout, Whole(acts, Before)) && ValidInventory(layout, Whole(acts, After))
    requires SmallFiles(Whole(acts, After))
    ensures SmallFiles(Whole(acts, Before)) <==> forall i :: 0 <= i < |acts| ==> ActionOk(layout, acts[i])
  {
    var live := Whole(acts, Before);
    if SmallFiles(live) {
      forall i | 0 <= i < |acts|
        ensures ActionOk(layout, acts[i])
      {
        SmallAction(layout, acts, i);
      }
    }
    if forall i :: 0 <= i < |acts| ==> ActionOk(layout, acts[i]) {
      forall e | e in live
        ensures e.evidence.length <= MAX_FILE_BYTES
      {
        var i := EntryAction(acts, e, Before);
      }
    }
  }

  lemma SmallAction(layout: Layout, acts: seq<Action>, i: nat)
    requires Kinds(acts) && i < |acts|
    requires ValidInventory(layout, Whole(acts, Before)) && ValidInventory(layout, Whole(acts, After))
    requires SmallFiles(Whole(acts, Before)) && SmallFiles(Whole(acts, After))
    ensures ActionOk(layout, acts[i])
  {
    var a := acts[i];
    assert KindOf(a.before, a.after) == Some(a.kind);
    if a.before.Some? {
      SideEntry(acts, i, Before);
    }
    if a.after.Some? {
      SideEntry(acts, i, After);
    }
  }

  /** Equal authority on both sides leaves every authority file alone. */
  lemma SameAuthorityRetained(acts: seq<Action>)
    requires InOrder(acts) && Kinds(acts)
    requires SameAuthority(Whole(acts, Before), Whole(acts, After))
    ensures AuthorityRetained(acts)
  {
    forall i | 0 <= i < |acts| && (acts[i].family == Registry || acts[i].family == Grants)
      ensures acts[i].kind == Retain
    {
      assert KindOf(acts[i].before, acts[i].after) == Some(acts[i].kind);
      if acts[i].before.Some? {
        OtherSide(acts, i, Before, After);
      } else {
        OtherSide(acts, i, After, Before);
      }
    }
  }

  lemma OtherSide(acts: seq<Action>, i: nat, s: Side, t: Side)
    requires InOrder(acts) && i < |acts| && On(acts[i], s).Some?
    requires acts[i].family == Registry || acts[i].family == Grants
    requires SameAuthority(Whole(acts, s), Whole(acts, t))
    ensures On(acts[i], t) == On(acts[i], s)
  {
    var e := Entry(acts[i].key, acts[i].family, On(acts[i], s).value);
    SideEntry(acts, i, s);
    var j := EntryAction(acts, e, t);
    KeyOrder();
    assert j == i;
  }

  /**
   * A plan passes its review exactly when it is the plan some live inventory calls for:
   * nothing valid is left unbuilt and nothing built is refused.
   */
  lemma ValidPlanIsBuilt(layout: Layout, p: Plan)
    ensures ValidPlan(layout, p) <==>
              exists live ::
                Plannable(layout, p.backup, live, p.authority) && p == PlanOf(p.backup, live, p.authority)
  {
    if ValidPlan(layout, p) {
      var live := Whole(p.actions, Before);
      ActionsAreTheDiff(p.actions);
      CompatibleIff(layout, p.actions);
      ActionOkIff(layout, p.actions);
      assert Plannable(layout, p.backup, live, p.authority) && p == PlanOf(p.backup, live, p.authority);
    }
    if live :| Plannable(layout, p.backup, live, p.authority) && p == PlanOf(p.backup, live, p.authority) {
      PlanIsValid(layout, p.backup, live, p.authority);
    }
  }

  lemma PlanIsValid(layout: Layout, backup: Manifest, live: seq<Entry>, authority: EntriesDigest)
    requires Plannable(layout, backup, live, authority)
    ensures ValidPlan(layout, PlanOf(backup, live, authority))
  {
    var acts := BuildActions(live, backup.entries);
    DiffSides(layout, live, backup.entries);
    CompatibleIff(layout, acts);
    ActionOkIff(layout, acts);
    SameAuthorityRetained(acts);
  }

  /** Two live inventories that agree about the two authority families can be planned alike. */
  lemma OtherFamiliesAreFree(layout: Layout, backup: Manifest, a: seq<Entry>, b: seq<Entry>, authority: EntriesDigest)
    requires ValidInventory(layout, a) && SmallFiles(a) && Compatible(a, backup.entries)
    requires ValidInventory(layout, b) && SmallFiles(b) && Compatible(b, backup.entries)
    requires forall e: Entry :: e.family == Registry || e.family == Grants ==> (e in a <==> e in b)
    ensures Plannable(layout, backup, a, authority) <==> Plannable(layout, backup, b, authority)
  {}

  lemma OnlyPlannable(layout: Layout, backup: Manifest, live: seq<Entry>, authority: EntriesDigest)
    requires ValidInventory(layout, live) && ValidPlan(layout, PlanOf(backup, live, authority))
    ensures Plannable(layout, backup, live, authority)
  {
    var acts := BuildActions(live, backup.entries);
    DiffSides(layout, live, backup.entries);
    CompatibleIff(layout, acts);
    ActionOkIff(layout, acts);
  }

  /**
   * Build and review a plan. It exists exactly when the restore is plannable; its sides are
   * then the live inventory and the backup, and it changes nothing exactly if they are equal.
   */
  method BuildPlan(layout: Layout, backup: Manifest, live: seq<Entry>, authority: EntriesDigest)
    returns (r: Result<Plan>)
    ensures r.Ok? <==> Plannable(layout, backup, live, authority)
    ensures r.Ok? ==>
              && ValidPlan(layout, r.value)
              && r.value == PlanOf(backup, live, authority)
              && Whole(r.value.actions, Before) == live
              && Whole(r.value.actions, After) == backup.entries
              && (r.value.status == NoChange <==> live == backup.entries)
  {
    var digest := DigestEntries(layout, live);
    var manifest := ValidateManifest(layout, backup);
    if digest.Err? || !manifest {
      return Err(Invalid);
    }
    DiffSides(layout, live, backup.entries);
    var acts := BuildActions(live, backup.entries);
    SummaryFits(layout, acts);
    var summary := Summarize(acts);
    var status := if forall i :: 0 <= i < |acts| ==> acts[i].kind == Retain then NoChange else Required;
    var plan := Plan(status, backup, digest.value, authority, summary.value, acts);
    if Plannable(layout, backup, live, authority) {
      PlanIsValid(layout, backup, live, authority);
    }
    var ok := Validate(layout, plan);
    if !ok {
      return Err(Invalid);
    }
    OnlyPlannable(layout, backup, live, authority);
    NoChangeIffEqual(acts);
    r := Ok(plan);
  }
}
