/** The way back from a completed restore: what planning its rollback backup builds, and when it can. */
module StateRestoreRollback {
  import opened Outcomes
  import opened StateRestorePlan
  import opened StateRestoreDiff
  import opened StateRestoreReview

  /** A rollback backup preserves exactly what the plan would overwrite. */
  ghost predicate RollbackFor(layout: Layout, m: Manifest, p: Plan) {
    && ValidManifest(layout, m) && m.installation == p.backup.installation
    && m.entries == Whole(p.actions, Before)
    && m.inventory == p.before
    && m.authority == p.backup.authority
  }

  /** An inventory with one more entry, such as the record that a completed restore leaves. */
  ghost predicate With(live: seq<Entry>, es: seq<Entry>, r: Entry) {
    Sorted(live, |live|) && forall e :: e in live <==> e in es || e == r
  }

  function Removal(r: Entry): Action {
    Action(Remove, r.key, r.family, Some(r.evidence), None)
  }

  /** One action merged into others at place `n`. */
  function Merged(acts: seq<Action>, n: nat, a: Action): seq<Action>
    requires n <= |acts|
  {
    acts[..n] + [a] + acts[n..]
  }

  ghost predicate Untouched(acts: seq<Action>, k: Key) {
    forall i :: 0 <= i < |acts| ==> acts[i].key != k
  }

  /** The place of a path that no action has yet. */
  lemma PlaceOf(acts: seq<Action>, a: Action) returns (n: nat)
    requires InOrder(acts) && Untouched(acts, a.key)
    ensures n <= |acts| && InOrder(Merged(acts, n, a))
  {
    KeyOrder();
    n := 0;
    while n < |acts| && KeyLess(acts[n].key, a.key)
      invariant n <= |acts| && forall i :: 0 <= i < n ==> KeyLess(acts[i].key, a.key)
    {
      n := n + 1;
    }
    forall i | n <= i < |acts|
      ensures KeyLess(a.key, acts[i].key)
    {
      assert acts[n].key != a.key;
      assert n < i ==> KeyLess(acts[n].key, acts[i].key);
    }
  }

  lemma MergedMembers(acts: seq<Action>, n: nat, r: Entry, s: Side, e: Entry)
    requires n <= |acts|
    ensures var all := Merged(acts, n, Removal(r));
            Somewhere(all, |all|, s, e) <==> Somewhere(acts, |acts|, s, e) || (s == Before && e == r)
  {
    var all := Merged(acts, n, Removal(r));
    forall i | 0 <= i < |acts|
      ensures acts[i] == all[if i < n then i else i + 1]
    {
    }
    if Somewhere(acts, |acts|, s, e) {
      var i :| 0 <= i < |acts| && Holds(acts[i], s, e);
      assert Holds(all[if i < n then i else i + 1], s, e);
    }
    if s == Before && e == r {
      assert Holds(all[n], s, e);
    }
    if i :| 0 <= i < |all| && Holds(all[i], s, e) {
      assert i < n ==> acts[i] == all[i];
      assert i > n ==> acts[i - 1] == all[i];
    }
  }

  /** The removal of an entry is on the before side only. */
  lemma MergedSides(acts: seq<Action>, n: nat, r: Entry, live: seq<Entry>)
    requires n <= |acts| && InOrder(acts) && InOrder(Merged(acts, n, Removal(r)))
    requires With(live, Whole(acts, Before), r)
    ensures Whole(Merged(acts, n, Removal(r)), Before) == live
    ensures Whole(Merged(acts, n, Removal(r)), After) == Whole(acts, After)
  {
    var all := Merged(acts, n, Removal(r));
    SideSorted(all, |all|, Before);
    SideSorted(all, |all|, After);
    SideSorted(acts, |acts|, After);
    forall e
      ensures e in Whole(all, Before) <==> e in live
      ensures e in Whole(all, After) <==> e in Whole(acts, After)
    {
      MergedMembers(acts, n, r, Before, e);
      MergedMembers(acts, n, r, After, e);
      SideMembers(all, |all|, Before, e);
      SideMembers(all, |all|, After, e);
      SideMembers(acts, |acts|, Before, e);
      SideMembers(acts, |acts|, After, e);
    }
    SameEntries(Whole(all, Before), live);
    SameEntries(Whole(all, After), Whole(acts, After));
  }

  /**
   * What a completed restore leaves is the backup and its own record. The plan that puts the
   * rollback backup back undoes the first plan action by action, and removes that record.
   */
  lemma RollbackReturns(m: Manifest, p: Plan, r: Entry, live: seq<Entry>) returns (n: nat)
    requires InOrder(p.actions) && Kinds(p.actions) && Untouched(p.actions, r.key)
    requires m.entries == Whole(p.actions, Before) && With(live, Whole(p.actions, After), r)
    ensures n <= |p.actions|
    ensures var back := PlanOf(m, live, p.authority);
            && back.actions == Merged(InvertedAll(p.actions), n, Removal(r))
            && InOrder(back.actions) && Kinds(back.actions)
            && Whole(back.actions, Before) == live
            && Whole(back.actions, After) == Whole(p.actions, Before)
  {
    var inverse := InvertedAll(p.actions);
    InvertedSides(p.actions, |p.actions|);
    n := PlaceOf(inverse, Removal(r));
    MergedKinds(inverse, n, r);
    MergedSides(inverse, n, r, live);
    ActionsAreTheDiff(Merged(inverse, n, Removal(r)));
  }

  lemma MergedKinds(acts: seq<Action>, n: nat, r: Entry)
    requires n <= |acts| && Kinds(acts)
    ensures Kinds(Merged(acts, n, Removal(r)))
  {
    var all := Merged(acts, n, Removal(r));
    forall i | 0 <= i < |all|
      ensures KindOf(all[i].before, all[i].after) == Some(all[i].kind)
    {
      assert i < n ==> all[i] == acts[i];
      assert i > n ==> all[i] == acts[i - 1];
    }
  }

  // ---- When the way back is open ----

  /** The record is an entry of its own, and the inventory can hold one more. */
  ghost predicate RecordFits(layout: Layout, p: Plan, r: Entry) {
    && EntryOk(layout, r) && r.evidence.length <= MAX_FILE_BYTES
    && |p.backup.entries| < MAX_FILES
    && Bytes(p.backup.entries, |p.backup.entries|) + r.evidence.length <= MAX_BYTES
    && forall i :: 0 <= i < |p.actions| ==> Portable(p.actions[i].key) != Portable(r.key)
  }

  function Spliced(es: seq<Entry>, k: nat, r: Entry): seq<Entry>
    requires k <= |es|
  {
    es[..k] + [r] + es[k..]
  }

  lemma {:induction false} SplicedBytes(es: seq<Entry>, k: nat, r: Entry, n: nat)
    requires k <= |es| && n <= |es| + 1
    ensures Bytes(Spliced(es, k, r), n) == if n <= k then Bytes(es, n) else Bytes(es, n - 1) + r.evidence.length
  {
    if n > 0 {
      SplicedBytes(es, k, r, n - 1);
    }
  }

  lemma WithIsSpliced(live: seq<Entry>, es: seq<Entry>, r: Entry) returns (k: nat)
    requires With(live, es, r) && Sorted(es, |es|) && forall e :: e in es ==> e.key != r.key
    ensures k <= |es| && live == Spliced(es, k, r)
  {
    KeyOrder();
    k := 0;
    while k < |es| && KeyLess(es[k].key, r.key)
      invariant k <= |es| && forall i :: 0 <= i < k ==> KeyLess(es[i].key, r.key)
    {
      k := k + 1;
    }
    forall i | k <= i < |es|
      ensures KeyLess(r.key, es[i].key)
    {
      assert es[k] in es;
      assert k < i ==> KeyLess(es[k].key, es[i].key);
    }
    assert Sorted(Spliced(es, k, r), |es| + 1);
    SplicedMembers(es, k, r);
    SameEntries(live, Spliced(es, k, r));
  }

  lemma SplicedMembers(es: seq<Entry>, k: nat, r: Entry)
    requires k <= |es|
    ensures forall e :: e in Spliced(es, k, r) <==> e in es || e == r
  {
    assert es == es[..k] + es[k..];
  }

  /** No path that is the record's up to case. */
  ghost predicate PortablyApart(es: seq<Entry>, r: Entry) {
    forall e :: e in es ==> Portable(e.key) != Portable(r.key)
  }

  lemma ApartIff(acts: seq<Action>, r: Entry)
    requires Kinds(acts)
    ensures PortablyApart(Whole(acts, Before), r) && PortablyApart(Whole(acts, After), r) <==>
              forall i :: 0 <= i < |acts| ==> Portable(acts[i].key) != Portable(r.key)
  {
    if forall i :: 0 <= i < |acts| ==> Portable(acts[i].key) != Portable(r.key) {
      forall e, s | e in Whole(acts, s)
        ensures Portable(e.key) != Portable(r.key)
      {
        var i := EntryAction(acts, e, s);
      }
    }
    if PortablyApart(Whole(acts, Before), r) && PortablyApart(Whole(acts, After), r) {
      forall i | 0 <= i < |acts|
        ensures Portable(acts[i].key) != Portable(r.key)
      {
        assert KindOf(acts[i].before, acts[i].after) == Some(acts[i].kind);
        SideEntry(acts, i, if acts[i].before.Some? then Before else After);
      }
    }
  }

  /** One more entry in a valid inventory. */
  lemma WithValid(layout: Layout, live: seq<Entry>, es: seq<Entry>, r: Entry)
    requires ValidInventory(layout, es) && With(live, es, r) && forall e :: e in es ==> e.key != r.key
    ensures ValidInventory(layout, live) <==>
              && EntryOk(layout, r) && PortablyApart(es, r) && |es| < MAX_FILES
              && Bytes(es, |es|) + r.evidence.length <= MAX_BYTES
  {
    WithSize(live, es, r);
    WithDistinct(live, es, r);
    WithEntryOk(layout, live, es, r);
  }

  lemma WithSize(live: seq<Entry>, es: seq<Entry>, r: Entry)
    requires With(live, es, r) && Sorted(es, |es|) && forall e :: e in es ==> e.key != r.key
    ensures |live| == |es| + 1 && Bytes(live, |live|) == Bytes(es, |es|) + r.evidence.length
  {
    var k := WithIsSpliced(live, es, r);
    SplicedBytes(es, k, r, |live|);
  }

  lemma WithDistinct(live: seq<Entry>, es: seq<Entry>, r: Entry)
    requires With(live, es, r) && Sorted(es, |es|) && PortablyDistinct(es, |es|)
    requires forall e :: e in es ==> e.key != r.key
    ensures PortablyDistinct(live, |live|) <==> PortablyApart(es, r)
  {
    var k := WithIsSpliced(live, es, r);
    SplicedDistinct(live, es, k, r);
  }

  lemma WithEntryOk(layout: Layout, live: seq<Entry>, es: seq<Entry>, r: Entry)
    requires With(live, es, r) && forall i :: 0 <= i < |es| ==> EntryOk(layout, es[i])
    ensures (forall i :: 0 <= i < |live| ==> EntryOk(layout, live[i])) <==> EntryOk(layout, r)
  {
    assert r in live;
    assert forall i :: 0 <= i < |live| ==> live[i] in es || live[i] == r;
  }

  lemma SplicedDistinct(live: seq<Entry>, es: seq<Entry>, k: nat, r: Entry)
    requires k <= |es| && live == Spliced(es, k, r) && PortablyDistinct(es, |es|)
    ensures PortablyDistinct(live, |live|) <==> PortablyApart(es, r)
  {
    assert live[k] == r;
    if PortablyDistinct(live, |live|) {
      forall e | e in es
        ensures Portable(e.key) != Portable(r.key)
      {
        var i :| 0 <= i < |es| && es[i] == e;
        assert i < k ==> live[i] == e;
        assert i >= k ==> live[i + 1] == e;
      }
    }
    if PortablyApart(es, r) {
      forall i, j | 0 <= i < j < |live|
        ensures Portable(live[i].key) != Portable(live[j].key)
      {
        SplicedPair(live, es, k, r, i, j);
      }
    }
  }

  lemma SplicedPair(live: seq<Entry>, es: seq<Entry>, k: nat, r: Entry, i: nat, j: nat)
    requires k <= |es| && live == Spliced(es, k, r) && PortablyDistinct(es, |es|) && PortablyApart(es, r)
    requires i < j < |live|
    ensures Portable(live[i].key) != Portable(live[j].key)
  {
    var x := if i < k then i else i - 1;
    var y := if j < k then j else j - 1;
    assert i != k ==> live[i] == es[x] && live[i] in es;
    assert j != k ==> live[j] == es[y] && live[j] in es;
    assert i != k && j != k ==> 0 <= x < y;
  }

  /** The rollback can be planned exactly if the record of the restore fits into an inventory. */
  lemma RollbackPlannableIff(layout: Layout, m: Manifest, p: Plan, r: Entry, live: seq<Entry>)
    requires ValidPlan(layout, p) && RollbackFor(layout, m, p)
    requires Untouched(p.actions, r.key) && With(live, p.backup.entries, r)
    requires r.family != Registry && r.family != Grants
    ensures Plannable(layout, m, live, p.authority) <==> RecordFits(layout, p, r)
  {
    var es := p.backup.entries;
    ApartIff(p.actions, r);
    UntouchedEntries(p.actions, r.key);
    WithValid(layout, live, es, r);
    RecordCompatible(layout, p, r, live);
    assert r in live && forall e :: e in es ==> e in live;
    assert SameAuthority(Whole(p.actions, Before), es);
  }

  lemma RecordCompatible(layout: Layout, p: Plan, r: Entry, live: seq<Entry>)
    requires ValidPlan(layout, p) && With(live, p.backup.entries, r) && Untouched(p.actions, r.key)
    ensures Compatible(live, Whole(p.actions, Before)) <==> PortablyApart(Whole(p.actions, Before), r)
  {
    CompatibleIff(layout, p.actions);
    UntouchedEntries(p.actions, r.key);
    assert r in live;
  }

  lemma UntouchedEntries(acts: seq<Action>, k: Key)
    requires Untouched(acts, k)
    ensures forall s, e :: e in Whole(acts, s) ==> e.key != k
  {
    forall s, e | e in Whole(acts, s)
      ensures e.key != k
    {
      var i := EntryAction(acts, e, s);
    }
  }
}
