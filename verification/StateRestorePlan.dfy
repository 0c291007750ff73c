/**
 * Plans for restoring a whole installation: the difference between the live inventory and
 * a backup, as one reviewed action per path.
 */
module StateRestorePlan {
  import opened Outcomes
  import opened Ordering
  import opened TextOrder

  const MAX_FILES: nat := 100_000
  const MAX_BYTES: nat := 64 * 1024 * 1024 * 1024
  const MAX_FILE_BYTES: nat := 16 * 1024 * 1024 * 1024
  const MAX_MODE: nat := 0xFFF
  const U64_MAX: nat := 0xFFFF_FFFF_FFFF_FFFF

  // ---- Inventories ----

  datatype Root = Data | State

  datatype Key = Key(root: Root, path: string)

  datatype Family =
    | Registry
    | RetainedGenerations
    | Grants
    | Bindings
    | LifecycleOperations
    | PackageOperations
    | Knowledge
    | PackageGraph
    | Enablement
    | HostManager
    | RuntimePlans
    | CapabilityPayloads

  datatype Evidence = Evidence(length: nat, sha: nat, readOnly: bool, mode: Option<nat>)

  datatype Entry = Entry(key: Key, family: Family, evidence: Evidence)

  /** The family of every admissible path; `None` for a path no backup may hold. */
  type Layout = Key -> Option<Family>

  predicate KeyLess(a: Key, b: Key) {
    (a.root == Data && b.root == State) || (a.root == b.root && TextLess(a.path, b.path))
  }

  lemma KeyOrder()
    ensures StrictTotal(KeyLess)
  {
    forall a: Key
      ensures !KeyLess(a, a)
    {
      TextIrreflexive(a.path);
    }
    forall a, b, c | KeyLess(a, b) && KeyLess(b, c)
      ensures KeyLess(a, c)
    {
      if a.root == b.root == c.root {
        TextTransitive(a.path, b.path, c.path);
      }
    }
    forall a: Key, b: Key
      ensures KeyLess(a, b) || a == b || KeyLess(b, a)
    {
      TextTotal(a.path, b.path);
    }
  }

  /** The data root comes first; within a root, paths are ordered as text. */
  lemma KeyLessIff(a: Key, b: Key)
    ensures KeyLess(a, b) <==>
              || (a.root == Data && b.root == State)
              || (a.root == b.root && exists n: nat :: LessAt(a.path, b.path, n))
  {
    TextLessIff(a.path, b.path);
  }

  function Lower(c: char): char {
    if 'A' <= c <= 'Z' then (c as int + 32) as char else c
  }

  /** The path as a case-insensitive file system sees it. */
  function Portable(k: Key): (p: Key) {
    Key(k.root, seq(|k.path|, i requires 0 <= i < |k.path| => Lower(k.path[i])))
  }

  /** A capital letter and its small form. */
  ghost predicate CaseOf(c: char, d: char) {
    'A' <= c <= 'Z' && d as int - 'a' as int == c as int - 'A' as int
  }

  /** The same character up to the case of a letter. */
  ghost predicate SameLetter(c: char, d: char) {
    c == d || CaseOf(c, d) || CaseOf(d, c)
  }

  /** Two paths are one to a case-insensitive file system exactly if they agree letter by letter. */
  lemma PortableIff(a: Key, b: Key)
    ensures Portable(a) == Portable(b) <==>
              && a.root == b.root && |a.path| == |b.path|
              && forall i :: 0 <= i < |a.path| ==> SameLetter(a.path[i], b.path[i])
  {
    if |a.path| == |b.path| {
      forall i | 0 <= i < |a.path|
        ensures Portable(a).path[i] == Portable(b).path[i] <==> SameLetter(a.path[i], b.path[i])
      {
        LowerIff(a.path[i], b.path[i]);
      }
    }
    assert Portable(a) == Portable(b) ==> |a.path| == |b.path| by {
      assert |Portable(a).path| == |a.path| && |Portable(b).path| == |b.path|;
    }
    assert Portable(a) == Portable(b) <==> a.root == b.root && Portable(a).path == Portable(b).path;
  }

  lemma LowerIff(c: char, d: char)
    ensures Lower(c) == Lower(d) <==> SameLetter(c, d)
  {}

  ghost predicate EvidenceOk(e: Evidence) {
    e.length <= MAX_FILE_BYTES && (e.mode.Some? ==> e.mode.value <= MAX_MODE)
  }

  ghost predicate EntryOk(layout: Layout, e: Entry) {
    layout(e.key) == Some(e.family) && (e.evidence.mode.Some? ==> e.evidence.mode.value <= MAX_MODE)
  }

  function Bytes(es: seq<Entry>, n: nat): (total: nat)
    requires n <= |es|
  {
    if n == 0 then 0 else Bytes(es, n - 1) + es[n - 1].evidence.length
  }

  ghost predicate Sorted(es: seq<Entry>, n: nat)
    requires n <= |es|
  {
    forall i, j :: 0 <= i < j < n ==> KeyLess(es[i].key, es[j].key)
  }

  ghost predicate PortablyDistinct(es: seq<Entry>, n: nat)
    requires n <= |es|
  {
    forall i, j :: 0 <= i < j < n ==> Portable(es[i].key) != Portable(es[j].key)
  }

  ghost predicate EntriesOk(layout: Layout, es: seq<Entry>, n: nat)
    requires n <= |es|
  {
    && (forall i :: 0 <= i < n ==> EntryOk(layout, es[i]))
    && Sorted(es, n) && PortablyDistinct(es, n)
    && Bytes(es, n) <= MAX_BYTES
  }

  /** A bounded inventory in strict path order, without two paths that differ only in case. */
  ghost predicate ValidInventory(layout: Layout, es: seq<Entry>) {
    |es| <= MAX_FILES && EntriesOk(layout, es, |es|)
  }

  lemma {:induction false} BytesMonotone(es: seq<Entry>, i: nat, n: nat)
    requires i <= n <= |es|
    ensures Bytes(es, i) <= Bytes(es, n)
    decreases n
  {
    if i < n {
      BytesMonotone(es, i, n - 1);
    }
  }

  lemma ExtendEntries(layout: Layout, es: seq<Entry>, i: nat)
    requires i < |es| && EntriesOk(layout, es, i)
    ensures EntriesOk(layout, es, i + 1) <==>
              && EntryOk(layout, es[i])
              && (i > 0 ==> KeyLess(es[i - 1].key, es[i].key))
              && (forall j :: 0 <= j < i ==> Portable(es[j].key) != Portable(es[i].key))
              && Bytes(es, i) + es[i].evidence.length <= MAX_BYTES
  {
    KeyOrder();
    if i > 0 && KeyLess(es[i - 1].key, es[i].key) {
      forall j | 0 <= j < i
        ensures KeyLess(es[j].key, es[i].key)
      {
        assert j < i - 1 ==> KeyLess(es[j].key, es[i - 1].key);
      }
    }
  }

  /** Accepts exactly the valid inventories. */
  method ValidateEntries(layout: Layout, es: seq<Entry>) returns (ok: bool)
    ensures ok <==> ValidInventory(layout, es)
  {
    if |es| > MAX_FILES {
      return false;
    }
    var bytes := 0;
    var portable: set<Key> := {};
    for i := 0 to |es|
      invariant EntriesOk(layout, es, i) && bytes == Bytes(es, i)
      invariant forall p :: p in portable <==> exists j :: 0 <= j < i && p == Portable(es[j].key)
    {
      ExtendEntries(layout, es, i);
      BytesMonotone(es, i + 1, |es|);
      var e := es[i];
      if layout(e.key) != Some(e.family) || (e.evidence.mode.Some? && e.evidence.mode.value > MAX_MODE) {
        return false;
      }
      if (i > 0 && !KeyLess(es[i - 1].key, e.key)) || Portable(e.key) in portable {
        return false;
      }
      bytes := bytes + e.evidence.length;
      if bytes > MAX_BYTES {
        return false;
      }
      portable := portable + {Portable(e.key)};
    }
    ok := true;
  }

  // ---- Actions ----

  datatype Kind = Add | Replace | Remove | Retain

  datatype Action = Action(kind: Kind, key: Key, family: Family, before: Option<Evidence>, after: Option<Evidence>)

  /** The kind of action a pair of evidence calls for. */
  function KindOf(before: Option<Evidence>, after: Option<Evidence>): (k: Option<Kind>) {
    match (before, after)
    case (None, None) => None
    case (None, Some(_)) => Some(Add)
    case (Some(_), None) => Some(Remove)
    case (Some(b), Some(a)) => Some(if a == b then Retain else Replace)
  }

  ghost predicate ActionOk(layout: Layout, a: Action) {
    && layout(a.key) == Some(a.family)
    && (a.before.Some? ==> EvidenceOk(a.before.value))
    && (a.after.Some? ==> EvidenceOk(a.after.value))
    && KindOf(a.before, a.after) == Some(a.kind)
  }

  datatype Side = Before | After

  function On(a: Action, s: Side): Option<Evidence> {
    if s == Before then a.before else a.after
  }

  /** The inventory on one side of the first `n` actions. */
  function SideOf(acts: seq<Action>, n: nat, s: Side): (es: seq<Entry>)
    requires n <= |acts|
  {
    if n == 0 then []
    else
      var a := acts[n - 1];
      SideOf(acts, n - 1, s) + if On(a, s).None? then [] else [Entry(a.key, a.family, On(a, s).value)]
  }

  function Whole(acts: seq<Action>, s: Side): seq<Entry> {
    SideOf(acts, |acts|, s)
  }

  ghost predicate InOrder(acts: seq<Action>) {
    forall i, j :: 0 <= i < j < |acts| ==> KeyLess(acts[i].key, acts[j].key)
  }

  ghost predicate Kinds(acts: seq<Action>) {
    forall i :: 0 <= i < |acts| ==> KindOf(acts[i].before, acts[i].after) == Some(acts[i].kind)
  }

  // ---- The difference of two inventories ----

  function Include(k: Key, keys: seq<Key>): seq<Key> {
    if k in keys then keys else Insert(k, keys, KeyLess)
  }

  function Gather(es: seq<Entry>, n: nat, keys: seq<Key>): (r: seq<Key>)
    requires n <= |es|
  {
    if n == 0 then keys else Include(es[n - 1].key, Gather(es, n - 1, keys))
  }

  /** Every path of either inventory, once, in order. */
  function AllKeys(before: seq<Entry>, after: seq<Entry>): seq<Key> {
    Gather(after, |after|, Gather(before, |before|, []))
  }

  ghost predicate Lists(es: seq<Entry>, n: nat, k: Key)
    requires n <= |es|
  {
    exists i :: 0 <= i < n && es[i].key == k
  }

  lemma {:induction false} GatherSound(es: seq<Entry>, n: nat, keys: seq<Key>)
    requires n <= |es| && Ascending(keys, KeyLess)
    ensures Ascending(Gather(es, n, keys), KeyLess)
    ensures forall k :: k in Gather(es, n, keys) <==> k in keys || Lists(es, n, k)
  {
    if n > 0 {
      GatherSound(es, n - 1, keys);
      IncludeSound(es[n - 1].key, Gather(es, n - 1, keys));
      assert forall k :: Lists(es, n, k) <==> Lists(es, n - 1, k) || k == es[n - 1].key;
    }
  }

  lemma IncludeSound(x: Key, keys: seq<Key>)
    requires Ascending(keys, KeyLess)
    ensures Ascending(Include(x, keys), KeyLess)
    ensures forall k :: k in Include(x, keys) <==> k in keys || k == x
  {
    KeyOrder();
    if x !in keys {
      InsertAscending(x, keys, KeyLess);
    }
  }

  lemma AllKeysSound(before: seq<Entry>, after: seq<Entry>)
    ensures Ascending(AllKeys(before, after), KeyLess)
    ensures forall k :: k in AllKeys(before, after) <==> Lists(before, |before|, k) || Lists(after, |after|, k)
  {
    GatherSound(before, |before|, []);
    GatherSound(after, |after|, Gather(before, |before|, []));
  }

  /** The entry an ordered map built from the list holds for a path: the last one. */
  function Find(es: seq<Entry>, n: nat, k: Key): (r: Option<Entry>)
    requires n <= |es|
    ensures r.Some? <==> Lists(es, n, k)
    ensures r.Some? ==> r.value in es && r.value.key == k
  {
    if n == 0 then None
    else if es[n - 1].key == k then Some(es[n - 1])
    else Find(es, n - 1, k)
  }

  function EvidenceOf(e: Option<Entry>): Option<Evidence> {
    if e.None? then None else Some(e.value.evidence)
  }

  function ActionFor(k: Key, b: Option<Entry>, a: Option<Entry>): Action
    requires b.Some? || a.Some?
  {
    Action(
      KindOf(EvidenceOf(b), EvidenceOf(a)).value,
      k,
      if a.Some? then a.value.family else b.value.family,
      EvidenceOf(b),
      EvidenceOf(a))
  }

  function BuildActions(before: seq<Entry>, after: seq<Entry>): (acts: seq<Action>) {
    AllKeysSound(before, after);
    var keys := AllKeys(before, after);
    seq(|keys|, i requires 0 <= i < |keys| =>
      assert keys[i] in keys;
      ActionFor(keys[i], Find(before, |before|, keys[i]), Find(after, |after|, keys[i])))
  }
}
