/** Joining logical references with physical evidence, one row per artifact. */
module ArtifactJoin {
  import opened Outcomes
  import opened MapSums
  import opened Ordering
  import opened ArtifactReferences
  import opened ArtifactUsage

  datatype Physical = Physical(artifact: Artifact, evidence: Evidence)

  datatype Builder = Builder(
    bytes: Option<nat>, files: Option<nat>, owners: map<OwnerKey, nat>, physical: Option<Evidence>)

  const NoBuilder := Builder(None, None, map[], None)

  type Builders = map<Artifact, Builder>

  /** A reference inventory: its entries, listed by owner. */
  type References = map<Owner, ReferenceEntry>

  function KeyOf(o: Owner): OwnerKey {
    OwnerKey(o.source, o.installation)
  }

  function OwnerFor(a: Artifact, k: OwnerKey): Owner {
    Owner(a, k.source, k.installation)
  }

  function FactFor(o: Owner, e: ReferenceEntry): Fact {
    Fact(o, e.bytes, e.files)
  }

  function Told(e: ReferenceEntry, x: Aspect): Option<nat> {
    if x == Bytes then e.bytes else e.files
  }

  function Known(b: Builder, x: Aspect): Option<nat> {
    if x == Bytes then b.bytes else b.files
  }

  ghost function Counts(refs: References): map<Owner, nat> {
    map o | o in refs :: refs[o].count
  }

  // ---- The references ----

  ghost predicate SameStory(refs: References, o: Owner, p: Owner)
    requires o in refs && p in refs
  {
    o.artifact == p.artifact ==>
      forall x :: Told(refs[o], x).Some? && Told(refs[p], x).Some? ==> Told(refs[o], x) == Told(refs[p], x)
  }

  ghost predicate GoodEntry(o: Owner, e: ReferenceEntry) {
    e.count > 0 && ValidFact(FactFor(o, e))
  }

  /** Counted, valid, within the fact bound, and of one story about each artifact. */
  ghost predicate WellReferenced(refs: References) {
    && (forall o :: o in refs ==> GoodEntry(o, refs[o]))
    && Sum(Counts(refs)) <= MAX_FACTS
    && (forall o, p :: o in refs && p in refs ==> SameStory(refs, o, p))
  }

  /** What a builder holds once the owners in `done` have been merged into it. */
  ghost predicate BuiltAt(b: Builder, refs: References, done: set<Owner>, a: Artifact)
    requires done <= refs.Keys
  {
    && b.physical.None?
    && (forall k :: k in b.owners <==> OwnerFor(a, k) in done)
    && (forall k :: k in b.owners ==> OwnerFor(a, k) in refs && b.owners[k] == refs[OwnerFor(a, k)].count)
    && (forall x, o :: o in done && o.artifact == a && Told(refs[o], x).Some? ==> Known(b, x) == Told(refs[o], x))
    && (forall x :: Known(b, x).Some? ==> exists o :: o in done && o.artifact == a && Told(refs[o], x) == Known(b, x))
  }

  ghost predicate Built(bs: Builders, refs: References, done: set<Owner>)
    requires done <= refs.Keys
  {
    && (forall a :: a in bs ==> BuiltAt(bs[a], refs, done, a))
    && (forall o :: o in done ==> o.artifact in bs)
    && (forall a :: a in bs ==> bs[a].owners != map[])
  }

  function Grown(b: Builder, o: Owner, count: nat, bytes: Option<nat>, files: Option<nat>): Builder {
    Builder(bytes, files, b.owners[KeyOf(o) := count], b.physical)
  }

  function At(bs: Builders, a: Artifact): Builder {
    if a in bs then bs[a] else NoBuilder
  }

  lemma StartAt(bs: Builders, refs: References, done: set<Owner>, a: Artifact)
    requires done <= refs.Keys && Built(bs, refs, done)
    ensures BuiltAt(At(bs, a), refs, done, a)
  {
    if a !in bs {
      assert forall o :: o in done ==> o.artifact != a;
      assert forall k :: OwnerFor(a, k).artifact == a;
    }
  }

  lemma GrowAt(b: Builder, refs: References, done: set<Owner>, o: Owner, bytes: Option<nat>, files: Option<nat>)
    requires done <= refs.Keys && o in refs && BuiltAt(b, refs, done, o.artifact)
    requires Merge(b.bytes, refs[o].bytes) == Ok(bytes) && Merge(b.files, refs[o].files) == Ok(files)
    ensures BuiltAt(Grown(b, o, refs[o].count, bytes, files), refs, done + {o}, o.artifact)
  {
    var c := Grown(b, o, refs[o].count, bytes, files);
    assert forall k :: OwnerFor(o.artifact, k) == o <==> k == KeyOf(o);
    forall x
      ensures Merge(Known(b, x), Told(refs[o], x)) == Ok(Known(c, x))
    {
      assert x == Bytes || x == Files;
    }
    forall x, p | p in done + {o} && p.artifact == o.artifact && Told(refs[p], x).Some?
      ensures Known(c, x) == Told(refs[p], x)
    {
      assert Merge(Known(b, x), Told(refs[o], x)) == Ok(Known(c, x));
      assert p == o || Known(b, x) == Told(refs[p], x);
    }
    forall x | Known(c, x).Some?
      ensures exists p :: p in done + {o} && p.artifact == o.artifact && Told(refs[p], x) == Known(c, x)
    {
      if Known(b, x).Some? {
        var p :| p in done && p.artifact == o.artifact && Told(refs[p], x) == Known(b, x);
        assert p in done + {o};
      } else {
        assert Merge(Known(b, x), Told(refs[o], x)) == Ok(Known(c, x));
        assert o in done + {o} && Told(refs[o], x) == Known(c, x);
      }
    }
  }


  lemma GrowBuilt(bs: Builders, refs: References, done: set<Owner>, o: Owner, bytes: Option<nat>, files: Option<nat>)
    requires done <= refs.Keys && o in refs && Built(bs, refs, done)
    requires Merge(At(bs, o.artifact).bytes, refs[o].bytes) == Ok(bytes)
    requires Merge(At(bs, o.artifact).files, refs[o].files) == Ok(files)
    ensures Built(bs[o.artifact := Grown(At(bs, o.artifact), o, refs[o].count, bytes, files)], refs, done + {o})
  {
    StartAt(bs, refs, done, o.artifact);
    GrowAt(At(bs, o.artifact), refs, done, o, bytes, files);
    var after := bs[o.artifact := Grown(At(bs, o.artifact), o, refs[o].count, bytes, files)];
    forall a | a in after
      ensures BuiltAt(after[a], refs, done + {o}, a)
    {}
    assert KeyOf(o) in after[o.artifact].owners;
  }

  /** A failed merge means two references tell different stories. */
  lemma Disagreement(bs: Builders, refs: References, done: set<Owner>, o: Owner, x: Aspect)
    requires done <= refs.Keys && o in refs && Built(bs, refs, done)
    requires Merge(Known(At(bs, o.artifact), x), Told(refs[o], x)).Err?
    ensures !WellReferenced(refs)
  {
    StartAt(bs, refs, done, o.artifact);
    var b := At(bs, o.artifact);
    var p :| p in done && p.artifact == o.artifact && Told(refs[p], x) == Known(b, x);
    assert !SameStory(refs, o, p);
  }

  /** One entry of a listed reference inventory. */
  datatype Listed = Listed(owner: Owner, entry: ReferenceEntry)

  ghost function MapOf(list: seq<Listed>, n: nat): References
    requires n <= |list|
  {
    if n == 0 then map[] else MapOf(list, n - 1)[list[n - 1].owner := list[n - 1].entry]
  }

  ghost function AllOf(list: seq<Listed>): References {
    MapOf(list, |list|)
  }

  ghost predicate OwnersDistinct(list: seq<Listed>, n: nat)
    requires n <= |list|
  {
    forall i, j :: 0 <= i < j < n ==> list[i].owner != list[j].owner
  }

  /** No owner is listed twice, and the entries are well referenced. */
  ghost predicate WellListed(list: seq<Listed>, n: nat)
    requires n <= |list|
  {
    OwnersDistinct(list, n) && WellReferenced(MapOf(list, n))
  }

  lemma {:induction false} MapOfOwners(list: seq<Listed>, n: nat, o: Owner)
    requires n <= |list|
    ensures o in MapOf(list, n) <==> exists i :: 0 <= i < n && list[i].owner == o
  {
    if n > 0 {
      MapOfOwners(list, n - 1, o);
    }
  }

  lemma SubReferenced(part: References, whole: References)
    requires WellReferenced(whole) && part.Keys <= whole.Keys && forall o :: o in part ==> part[o] == whole[o]
    ensures WellReferenced(part)
  {
    SumSubmap(Counts(part), Counts(whole));
    forall o, p | o in part && p in part
      ensures SameStory(part, o, p)
    {
      assert SameStory(whole, o, p);
    }
  }

  /** The beginning of a well-formed list is well formed. */
  lemma {:induction false} WellListedPrefix(list: seq<Listed>, i: nat, n: nat)
    requires i <= n <= |list| && WellListed(list, n)
    ensures WellListed(list, i)
    decreases n
  {
    if i < n {
      MapOfOwners(list, n - 1, list[n - 1].owner);
      SubReferenced(MapOf(list, n - 1), MapOf(list, n));
      WellListedPrefix(list, i, n - 1);
    }
  }

  lemma ListStep(list: seq<Listed>, i: nat)
    requires i < |list| && OwnersDistinct(list, i)
    ensures MapOf(list, i + 1) == MapOf(list, i)[list[i].owner := list[i].entry]
    ensures WellListed(list, i + 1) <==>
              list[i].owner !in MapOf(list, i) && WellReferenced(MapOf(list, i)[list[i].owner := list[i].entry])
  {
    MapOfOwners(list, i, list[i].owner);
  }

  ghost predicate MergedTo(bs: Builders, list: seq<Listed>, i: nat, total: nat)
    requires i <= |list|
  {
    OwnersDistinct(list, i) && Merging(bs, MapOf(list, i), total)
  }

  /** Group the references by artifact; accepts exactly well-formed inventories. */
  method MergeReferences(list: seq<Listed>) returns (r: Result<Builders>)
    ensures r.Ok? <==> WellListed(list, |list|)
    ensures r.Ok? ==> Built(r.value, AllOf(list), AllOf(list).Keys)
  {
    var bs: Builders := map[];
    var total := 0;
    NothingCounted(MapOf(list, 0));
    for i := 0 to |list|
      invariant MergedTo(bs, list, i, total)
    {
      var next := MergeNext(bs, list, i, total);
      if next.Err? {
        return Err(next.error);
      }
      bs, total := next.value.0, next.value.1;
    }
    r := Ok(bs);
  }

  method MergeNext(bs: Builders, list: seq<Listed>, i: nat, total: nat) returns (r: Result<(Builders, nat)>)
    requires i < |list| && MergedTo(bs, list, i, total)
    ensures r.Ok? ==> MergedTo(r.value.0, list, i + 1, r.value.1)
    ensures r.Err? ==> !WellListed(list, |list|)
  {
    ListStep(list, i);
    r := MergeOne(bs, MapOf(list, i), list[i].owner, list[i].entry, total);
    if r.Err? {
      NotBeyond(list, i + 1);
    }
  }

  lemma NotBeyond(list: seq<Listed>, i: nat)
    requires i <= |list| && !WellListed(list, i)
    ensures !WellListed(list, |list|)
  {
    if WellListed(list, |list|) {
      WellListedPrefix(list, i, |list|);
    }
  }

  /** Everything merged so far is well referenced, counted and in the builders. */
  ghost predicate Merging(bs: Builders, refs: References, total: nat) {
    WellReferenced(refs) && total == Sum(Counts(refs)) && Built(bs, refs, refs.Keys)
  }

  lemma NothingCounted(refs: References)
    requires refs == map[]
    ensures Merging(map[], refs, 0)
  {
    assert Counts(refs) == map[];
  }

  lemma BuiltBeside(bs: Builders, refs: References, o: Owner, e: ReferenceEntry)
    requires Built(bs, refs, refs.Keys) && o !in refs
    ensures Built(bs, refs[o := e], refs.Keys)
  {
    forall a | a in bs
      ensures BuiltAt(bs[a], refs[o := e], refs.Keys, a)
    {
      assert BuiltAt(bs[a], refs, refs.Keys, a);
    }
  }

  /** One more reference; refused exactly if it repeats an owner or spoils the inventory. */
  method MergeOne(bs: Builders, ghost refs: References, o: Owner, e: ReferenceEntry, total: nat)
    returns (r: Result<(Builders, nat)>)
    requires Merging(bs, refs, total)
    ensures r.Ok? <==> o !in refs && WellReferenced(refs[o := e])
    ensures r.Ok? ==> Merging(r.value.0, refs[o := e], r.value.1)
  {
    var counted := CheckOne(bs, refs, o, e, total);
    if counted.Err? {
      NotReferenced(refs, o, e);
      return Err(counted.error);
    }
    BuiltBeside(bs, refs, o, e);
    var next := AddReference(bs, refs[o := e], o, e, refs.Keys);
    if next.Err? {
      return Err(next.error);
    }
    MergedOne(next.value, refs, o, e, total);
    r := Ok((next.value, counted.value));
  }

  /** The entry by itself is good, within the bound and not there yet. */
  ghost predicate Admissible(refs: References, o: Owner, e: ReferenceEntry) {
    GoodEntry(o, e) && Sum(Counts(refs)) + e.count <= MAX_FACTS && o !in refs
  }

  method CheckOne(bs: Builders, ghost refs: References, o: Owner, e: ReferenceEntry, total: nat)
    returns (r: Result<nat>)
    requires Merging(bs, refs, total)
    ensures r.Ok? <==> Admissible(refs, o, e)
    ensures r.Ok? ==> r.value == total + e.count
  {
    var ok := ValidateFact(FactFor(o, e));
    if e.count == 0 || !ok {
      return Err(Invalid);
    }
    if total + e.count > MAX_FACTS {
      return Err(LimitExceeded);
    }
    ListedOwner(bs, refs, o);
    if KeyOf(o) in At(bs, o.artifact).owners {
      return Err(Invalid);
    }
    r := Ok(total + e.count);
  }

  lemma NotReferenced(refs: References, o: Owner, e: ReferenceEntry)
    requires !Admissible(refs, o, e)
    ensures o in refs || !WellReferenced(refs[o := e])
  {
    assert WellReferenced(refs[o := e]) ==> GoodEntry(o, refs[o := e][o]);
    CountOneMore(refs, o, e);
  }

  lemma MergedOne(bs: Builders, refs: References, o: Owner, e: ReferenceEntry, total: nat)
    requires WellReferenced(refs) && total == Sum(Counts(refs)) && Admissible(refs, o, e)
    requires Built(bs, refs[o := e], refs.Keys + {o})
    ensures Merging(bs, refs[o := e], total + e.count)
  {
    assert refs[o := e].Keys == refs.Keys + {o};
    CountOneMore(refs, o, e);
    AllTold(bs, refs[o := e]);
  }

  lemma CountOneMore(refs: References, o: Owner, e: ReferenceEntry)
    ensures o !in refs ==> Sum(Counts(refs[o := e])) == Sum(Counts(refs)) + e.count
  {
    if o !in refs {
      assert Counts(refs[o := e]) == Counts(refs)[o := e.count];
      SumAdd(Counts(refs), o, e.count);
    }
  }

  lemma ListedOwner(bs: Builders, refs: References, o: Owner)
    requires Built(bs, refs, refs.Keys)
    ensures KeyOf(o) in At(bs, o.artifact).owners <==> o in refs
  {
    StartAt(bs, refs, refs.Keys, o.artifact);
    assert OwnerFor(o.artifact, KeyOf(o)) == o;
  }

  method AddReference(bs: Builders, ghost refs: References, o: Owner, e: ReferenceEntry, ghost done: set<Owner>)
    returns (r: Result<Builders>)
    requires done <= refs.Keys && o in refs && refs[o] == e && Built(bs, refs, done)
    ensures r.Ok? ==> Built(r.value, refs, done + {o})
    ensures r.Err? ==> !WellReferenced(refs)
  {
    var b := At(bs, o.artifact);
    var bytes := Merge(b.bytes, e.bytes);
    if bytes.Err? {
      Disagreement(bs, refs, done, o, Bytes);
      return Err(Invalid);
    }
    var files := Merge(b.files, e.files);
    if files.Err? {
      Disagreement(bs, refs, done, o, Files);
      return Err(Invalid);
    }
    GrowBuilt(bs, refs, done, o, bytes.value, files.value);
    r := Ok(bs[o.artifact := Grown(b, o, e.count, bytes.value, files.value)]);
  }

  /** If everything merged, all references tell the same story. */
  lemma AllTold(bs: Builders, refs: References)
    requires Built(bs, refs, refs.Keys)
    ensures forall o, p :: o in refs && p in refs ==> SameStory(refs, o, p)
  {
    forall o, p | o in refs && p in refs
      ensures SameStory(refs, o, p)
    {
      assert BuiltAt(bs[o.artifact], refs, refs.Keys, o.artifact);
      if o.artifact == p.artifact {
        forall x | Told(refs[o], x).Some? && Told(refs[p], x).Some?
          ensures Told(refs[o], x) == Told(refs[p], x)
        {
          assert Known(bs[o.artifact], x) == Told(refs[o], x);
          assert Known(bs[o.artifact], x) == Told(refs[p], x);
        }
      }
    }
  }

  // ---- The physical evidence ----

  ghost predicate PhysicalOk(physical: seq<Physical>, n: nat)
    requires n <= |physical|
  {
    && (forall j :: 0 <= j < n ==> ValidEvidence(physical[j].artifact.kind, physical[j].evidence))
    && (forall i, j :: 0 <= i < j < n ==> physical[i].artifact != physical[j].artifact)
  }

  ghost predicate Stored(physical: seq<Physical>, n: nat, a: Artifact)
    requires n <= |physical|
  {
    exists j :: 0 <= j < n && physical[j].artifact == a
  }

  /** The builders once the first `n` physical entries are placed; the references are untouched. */
  ghost predicate Placed(bs: Builders, base: Builders, physical: seq<Physical>, n: nat)
    requires n <= |physical|
  {
    && (forall a :: a in bs <==> a in base || Stored(physical, n, a))
    && (forall a :: a in bs ==> bs[a].(physical := None) == At(base, a))
    && (forall a :: a in bs ==> (bs[a].physical.Some? <==> Stored(physical, n, a)))
    && (forall j :: 0 <= j < n ==>
          physical[j].artifact in bs && bs[physical[j].artifact].physical == Some(physical[j].evidence))
  }

  lemma PlaceOne(bs: Builders, base: Builders, physical: seq<Physical>, n: nat)
    requires n < |physical| && Placed(bs, base, physical, n) && !Stored(physical, n, physical[n].artifact)
    ensures var p := physical[n];
            Placed(bs[p.artifact := At(bs, p.artifact).(physical := Some(p.evidence))], base, physical, n + 1)
  {
    assert forall a :: Stored(physical, n + 1, a) <==> Stored(physical, n, a) || a == physical[n].artifact;
  }

  /** Attach the evidence; rejects exactly invalid or repeated physical entries. */
  method PlacePhysical(base: Builders, physical: seq<Physical>) returns (r: Result<Builders>)
    requires forall a :: a in base ==> base[a].physical.None?
    ensures r.Ok? <==> PhysicalOk(physical, |physical|)
    ensures r.Ok? ==> Placed(r.value, base, physical, |physical|)
  {
    var bs := base;
    for i := 0 to |physical|
      invariant PhysicalOk(physical, i)
      invariant Placed(bs, base, physical, i)
    {
      var p := physical[i];
      var ok := ValidateEvidence(p.artifact.kind, p.evidence);
      if !ok {
        return Err(Invalid);
      }
      var b := At(bs, p.artifact);
      if b.physical.Some? {
        assert Stored(physical, i, p.artifact);
        return Err(Invalid);
      }
      PlaceOne(bs, base, physical, i);
      bs := bs[p.artifact := b.(physical := Some(p.evidence))];
    }
    r := Ok(bs);
  }

  // ---- The rows ----

  /** The owners of one artifact in canonical order, each with its count. */
  ghost predicate Lists(os: seq<OwnerCount>, owners: map<OwnerKey, nat>) {
    && (forall i, j :: 0 <= i < j < |os| ==> OwnerLess(os[i].key, os[j].key))
    && (forall i :: 0 <= i < |os| ==> os[i].key in owners && os[i].count == owners[os[i].key])
    && (forall k :: k in owners ==> exists i :: 0 <= i < |os| && os[i].key == k)
  }

  ghost predicate RowFor(row: Row, b: Builder) {
    && row.bytes == b.bytes && row.files == b.files && row.physical == b.physical
    && Lists(row.references, b.owners)
    && row.status == MeasurementStatus(b.bytes, b.files, b.physical)
  }

  ghost predicate RowsFor(rows: seq<Row>, bs: Builders) {
    && Strict(rows)
    && (forall i :: 0 <= i < |rows| ==> rows[i].artifact in bs && RowFor(rows[i], bs[rows[i].artifact]))
    && (forall a :: a in bs ==> exists i :: 0 <= i < |rows| && rows[i].artifact == a)
  }

  method ListOwners(owners: map<OwnerKey, nat>) returns (os: seq<OwnerCount>)
    ensures Lists(os, owners)
  {
    OwnerLessIsTotal();
    var keys := SortedList(owners.Keys, OwnerLess);
    os := [];
    for i := 0 to |keys|
      invariant Counted(os, keys[..i], owners)
    {
      assert keys[i] in keys && keys[..i + 1] == keys[..i] + [keys[i]];
      os := os + [OwnerCount(keys[i], owners[keys[i]])];
    }
    assert keys[..|keys|] == keys;
    AllCountedOwners(os, keys, owners);
  }

  ghost predicate Counted(os: seq<OwnerCount>, keys: seq<OwnerKey>, owners: map<OwnerKey, nat>) {
    && |os| == |keys|
    && forall j :: 0 <= j < |keys| ==> os[j].key == keys[j] && keys[j] in owners && os[j].count == owners[keys[j]]
  }

  lemma AllCountedOwners(os: seq<OwnerCount>, keys: seq<OwnerKey>, owners: map<OwnerKey, nat>)
    requires Counted(os, keys, owners) && Ascending(keys, OwnerLess) && forall k :: k in owners ==> k in keys
    ensures Lists(os, owners)
  {
    forall k | k in owners
      ensures exists i :: 0 <= i < |os| && os[i].key == k
    {
      var i :| 0 <= i < |keys| && keys[i] == k;
      assert os[i].key == k;
    }
  }

  lemma OwnerLessIsTotal()
    ensures StrictTotal(OwnerLess)
  {}

  method BuildRow(a: Artifact, b: Builder) returns (row: Row)
    ensures row.artifact == a && RowFor(row, b)
  {
    var os := ListOwners(b.owners);
    row := Row(a, b.bytes, b.files, os, b.physical, MeasurementStatus(b.bytes, b.files, b.physical));
  }

  /** The rows of the first `n` artifacts. */
  ghost predicate RowsTo(rows: seq<Row>, keys: seq<Artifact>, bs: Builders, n: nat) {
    && |rows| == n <= |keys|
    && forall j :: 0 <= j < n ==> rows[j].artifact == keys[j] && keys[j] in bs && RowFor(rows[j], bs[keys[j]])
  }

  method BuildRows(bs: Builders) returns (rows: seq<Row>)
    ensures RowsFor(rows, bs)
  {
    var keys := SortedList(bs.Keys, ArtifactLess);
    rows := [];
    for i := 0 to |keys|
      invariant RowsTo(rows, keys, bs, i)
    {
      assert keys[i] in keys;
      var row := BuildRow(keys[i], bs[keys[i]]);
      rows := rows + [row];
    }
  }

}
