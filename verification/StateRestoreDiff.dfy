/** The actions of a restore plan are exactly the difference of two inventories. */
module StateRestoreDiff {
  import opened Outcomes
  import opened Ordering
  import opened StateRestorePlan

  // ---- The two sides of a list of actions ----

  predicate Holds(a: Action, s: Side, e: Entry) {
    On(a, s) == Some(e.evidence) && a.key == e.key && a.family == e.family
  }

  ghost predicate Somewhere(acts: seq<Action>, n: nat, s: Side, e: Entry)
    requires n <= |acts|
  {
    exists i :: 0 <= i < n && Holds(acts[i], s, e)
  }

  lemma {:induction false} SideMembers(acts: seq<Action>, n: nat, s: Side, e: Entry)
    requires n <= |acts|
    ensures e in SideOf(acts, n, s) <==> Somewhere(acts, n, s, e)
  {
    if n > 0 {
      SideMembers(acts, n - 1, s, e);
      assert Somewhere(acts, n, s, e) <==> Somewhere(acts, n - 1, s, e) || Holds(acts[n - 1], s, e);
    }
  }

  lemma {:induction false} SideSorted(acts: seq<Action>, n: nat, s: Side)
    requires n <= |acts| && InOrder(acts)
    ensures Sorted(SideOf(acts, n, s), |SideOf(acts, n, s)|)
  {
    if n > 0 {
      SideSorted(acts, n - 1, s);
      var rest := SideOf(acts, n - 1, s);
      forall i | 0 <= i < |rest|
        ensures KeyLess(rest[i].key, acts[n - 1].key)
      {
        SideMembers(acts, n - 1, s, rest[i]);
      }
    }
  }

  function KeysOf(es: seq<Entry>): seq<Key> {
    seq(|es|, i requires 0 <= i < |es| => es[i].key)
  }

  /** Entries in strict path order are determined by their members. */
  lemma SameEntries(a: seq<Entry>, b: seq<Entry>)
    requires Sorted(a, |a|) && Sorted(b, |b|) && forall e :: e in a <==> e in b
    ensures a == b
  {
    KeyOrder();
    SameKeys(a, b);
    AscendingUnique(KeysOf(a), KeysOf(b), KeyLess);
    forall i | 0 <= i < |a|
      ensures a[i] == b[i]
    {
      assert a[i] in b;
      var j :| 0 <= j < |b| && b[j] == a[i];
      assert KeysOf(a)[j] == KeysOf(b)[j];
    }
  }

  lemma SameKeys(a: seq<Entry>, b: seq<Entry>)
    requires forall e :: e in a <==> e in b
    ensures forall k :: k in KeysOf(a) <==> k in KeysOf(b)
  {
    KeysWithin(a, b);
    KeysWithin(b, a);
  }

  lemma KeysWithin(a: seq<Entry>, b: seq<Entry>)
    requires forall e :: e in a ==> e in b
    ensures forall k :: k in KeysOf(a) ==> k in KeysOf(b)
  {
    forall k | k in KeysOf(a)
      ensures k in KeysOf(b)
    {
      var i :| 0 <= i < |a| && a[i].key == k;
      assert a[i] in a;
      var j :| 0 <= j < |b| && b[j] == a[i];
      assert KeysOf(b)[j] == k;
    }
  }

  // ---- The difference rebuilds both inventories ----

  ghost predicate Typed(layout: Layout, es: seq<Entry>) {
    forall e :: e in es ==> layout(e.key) == Some(e.family)
  }

  function Original(before: seq<Entry>, after: seq<Entry>, s: Side): seq<Entry> {
    if s == Before then before else after
  }

  lemma DiffShape(before: seq<Entry>, after: seq<Entry>)
    ensures var acts := BuildActions(before, after);
            && InOrder(acts) && Kinds(acts)
            && (forall k :: (exists i :: 0 <= i < |acts| && acts[i].key == k) <==> k in AllKeys(before, after))
  {
    AllKeysSound(before, after);
    var acts, keys := BuildActions(before, after), AllKeys(before, after);
    assert forall i :: 0 <= i < |acts| ==> acts[i].key == keys[i];
  }

  lemma DiffEvidence(before: seq<Entry>, after: seq<Entry>, i: nat, s: Side)
    requires i < |BuildActions(before, after)|
    ensures var a, es := BuildActions(before, after)[i], Original(before, after, s);
            && On(a, s) == EvidenceOf(Find(es, |es|, a.key))
            && (a.after.Some? ==> Some(a.family) == FamilyIn(after, a.key))
            && (a.after.None? ==> Some(a.family) == FamilyIn(before, a.key))
  {
    AllKeysSound(before, after);
    assert AllKeys(before, after)[i] in AllKeys(before, after);
  }

  function FamilyIn(es: seq<Entry>, k: Key): Option<Family> {
    var e := Find(es, |es|, k);
    if e.None? then None else Some(e.value.family)
  }

  lemma DiffTyped(layout: Layout, before: seq<Entry>, after: seq<Entry>, i: nat)
    requires Typed(layout, before) && Typed(layout, after) && i < |BuildActions(before, after)|
    ensures var a := BuildActions(before, after)[i]; layout(a.key) == Some(a.family)
  {
    DiffEvidence(before, after, i, After);
  }

  lemma FindSorted(es: seq<Entry>, e: Entry)
    requires Sorted(es, |es|) && e in es
    ensures Find(es, |es|, e.key) == Some(e)
  {
    KeyOrder();
    var i :| 0 <= i < |es| && es[i] == e;
    assert Lists(es, |es|, e.key);
    var x := Find(es, |es|, e.key).value;
    var j :| 0 <= j < |es| && es[j] == x;
  }

  lemma DiffMembers(layout: Layout, before: seq<Entry>, after: seq<Entry>, s: Side, e: Entry)
    requires Typed(layout, before) && Typed(layout, after)
    requires var es := Original(before, after, s); Sorted(es, |es|)
    ensures var acts := BuildActions(before, after);
            e in Original(before, after, s) <==> Somewhere(acts, |acts|, s, e)
  {
    var acts, es := BuildActions(before, after), Original(before, after, s);
    if e in es {
      FindSorted(es, e);
      AllKeysSound(before, after);
      DiffShape(before, after);
      var i :| 0 <= i < |acts| && acts[i].key == e.key;
      DiffEvidence(before, after, i, s);
      DiffTyped(layout, before, after, i);
    }
    if i :| 0 <= i < |acts| && Holds(acts[i], s, e) {
      DiffEvidence(before, after, i, s);
      DiffTyped(layout, before, after, i);
      assert Find(es, |es|, e.key).value in es;
    }
  }

  /** The before side of the difference rebuilds the live inventory, its after side the backup. */
  lemma DiffRebuilds(layout: Layout, before: seq<Entry>, after: seq<Entry>, s: Side)
    requires Typed(layout, before) && Typed(layout, after)
    requires Sorted(before, |before|) && Sorted(after, |after|)
    ensures Whole(BuildActions(before, after), s) == Original(before, after, s)
  {
    var acts := BuildActions(before, after);
    DiffShape(before, after);
    SideSorted(acts, |acts|, s);
    forall e
      ensures e in Whole(acts, s) <==> e in Original(before, after, s)
    {
      SideMembers(acts, |acts|, s, e);
      DiffMembers(layout, before, after, s, e);
    }
    SameEntries(Whole(acts, s), Original(before, after, s));
  }

  // ---- Nothing else has those two sides ----

  /** An action of an ordered list is found on a side by its path. */
  lemma FindOnSide(acts: seq<Action>, i: nat, s: Side)
    requires InOrder(acts) && i < |acts|
    ensures var es := Whole(acts, s);
            Find(es, |es|, acts[i].key)
            == if On(acts[i], s).None? then None else Some(Entry(acts[i].key, acts[i].family, On(acts[i], s).value))
  {
    KeyOrder();
    var es, a := Whole(acts, s), acts[i];
    SideSorted(acts, |acts|, s);
    var found := Find(es, |es|, a.key);
    if On(a, s).Some? {
      var e := Entry(a.key, a.family, On(a, s).value);
      SideMembers(acts, |acts|, s, e);
      assert Holds(a, s, e);
      FindSorted(es, e);
    }
    if found.Some? {
      SideMembers(acts, |acts|, s, found.value);
      var j :| 0 <= j < |acts| && Holds(acts[j], s, found.value);
      assert acts[j].key == a.key;
      assert j == i;
    }
  }

  lemma ActionKeys(acts: seq<Action>)
    requires InOrder(acts) && Kinds(acts)
    ensures ActionKeysOf(acts) == AllKeys(Whole(acts, Before), Whole(acts, After))
  {
    var before, after := Whole(acts, Before), Whole(acts, After);
    AllKeysSound(before, after);
    KeyOrder();
    forall k
      ensures k in ActionKeysOf(acts) <==> k in AllKeys(before, after)
    {
      if k in ActionKeysOf(acts) {
        var i :| 0 <= i < |acts| && acts[i].key == k;
        FindOnSide(acts, i, Before);
        FindOnSide(acts, i, After);
      }
      if k in AllKeys(before, after) {
        ListedIsAction(acts, k);
      }
    }
    AscendingUnique(ActionKeysOf(acts), AllKeys(before, after), KeyLess);
  }

  lemma ListedIsAction(acts: seq<Action>, k: Key)
    requires exists s :: var es := Whole(acts, s); Lists(es, |es|, k)
    ensures k in ActionKeysOf(acts)
  {
    var s :| var es := Whole(acts, s); Lists(es, |es|, k);
    var es := Whole(acts, s);
    var j :| 0 <= j < |es| && es[j].key == k;
    SideMembers(acts, |acts|, s, es[j]);
    var i :| 0 <= i < |acts| && Holds(acts[i], s, es[j]);
    assert ActionKeysOf(acts)[i] == k;
  }

  function ActionKeysOf(acts: seq<Action>): seq<Key> {
    seq(|acts|, i requires 0 <= i < |acts| => acts[i].key)
  }

  /** Every well-formed list of actions is the difference of its own two sides. */
  lemma ActionsAreTheDiff(acts: seq<Action>)
    requires InOrder(acts) && Kinds(acts)
    ensures acts == BuildActions(Whole(acts, Before), Whole(acts, After))
  {
    var before, after := Whole(acts, Before), Whole(acts, After);
    ActionKeys(acts);
    AllKeysSound(before, after);
    var built := BuildActions(before, after);
    forall i | 0 <= i < |acts|
      ensures acts[i] == built[i]
    {
      FindOnSide(acts, i, Before);
      FindOnSide(acts, i, After);
      assert ActionKeysOf(acts)[i] == acts[i].key;
    }
  }

  // ---- No change, and the way back ----

  ghost predicate AllRetain(acts: seq<Action>) {
    forall i :: 0 <= i < |acts| ==> acts[i].kind == Retain
  }

  lemma {:induction false} RetainSides(acts: seq<Action>, n: nat)
    requires n <= |acts| && Kinds(acts) && forall i :: 0 <= i < n ==> acts[i].kind == Retain
    ensures SideOf(acts, n, Before) == SideOf(acts, n, After)
  {
    if n > 0 {
      RetainSides(acts, n - 1);
      assert KindOf(acts[n - 1].before, acts[n - 1].after) == Some(Retain);
    }
  }

  /** A plan changes nothing exactly when its two sides are equal. */
  lemma NoChangeIffEqual(acts: seq<Action>)
    requires InOrder(acts) && Kinds(acts)
    ensures AllRetain(acts) <==> Whole(acts, Before) == Whole(acts, After)
  {
    if AllRetain(acts) {
      RetainSides(acts, |acts|);
    }
    if Whole(acts, Before) == Whole(acts, After) {
      forall i | 0 <= i < |acts|
        ensures acts[i].kind == Retain
      {
        FindOnSide(acts, i, Before);
        FindOnSide(acts, i, After);
      }
    }
  }

  function Inverted(a: Action): Action {
    Action(
      match a.kind case Add => Remove case Remove => Add case Replace => Replace case Retain => Retain,
      a.key, a.family, a.after, a.before)
  }

  function InvertedAll(acts: seq<Action>): seq<Action> {
    seq(|acts|, i requires 0 <= i < |acts| => Inverted(acts[i]))
  }

  lemma {:induction false} InvertedSides(acts: seq<Action>, n: nat)
    requires n <= |acts|
    ensures SideOf(InvertedAll(acts), n, Before) == SideOf(acts, n, After)
    ensures SideOf(InvertedAll(acts), n, After) == SideOf(acts, n, Before)
  {
    if n > 0 {
      InvertedSides(acts, n - 1);
    }
  }


  /** Inverting a well-formed list of actions swaps its sides and is the difference between them. */
  lemma InvertedIsTheDiff(acts: seq<Action>)
    requires InOrder(acts) && Kinds(acts)
    ensures InvertedAll(acts) == BuildActions(Whole(acts, After), Whole(acts, Before))
  {
    InvertedSides(acts, |acts|);
    ActionsAreTheDiff(InvertedAll(acts));
  }

  /** The difference in the other direction undoes every action, path by path. */
  lemma RollbackInverts(layout: Layout, before: seq<Entry>, after: seq<Entry>)
    requires Typed(layout, before) && Typed(layout, after)
    requires Sorted(before, |before|) && Sorted(after, |after|)
    ensures BuildActions(after, before) == InvertedAll(BuildActions(before, after))
  {
    var acts := BuildActions(before, after);
    DiffShape(before, after);
    DiffRebuilds(layout, before, after, Before);
    DiffRebuilds(layout, before, after, After);
    InvertedIsTheDiff(acts);
  }
}
