/** The joined reachability inventory: when it exists, what it lists and what its totals are. */
module ArtifactReachability {
  import opened Outcomes
  import opened MapSums
  import opened ArtifactReferences
  import opened ArtifactUsage
  import opened ArtifactJoin

  datatype Reachability = Reachability(rows: seq<Row>, usage: Usage)

  // ---- Rows of a join are valid ----

  lemma JoinedRowValid(row: Row, bs: Builders, base: Builders, refs: References, physical: seq<Physical>)
    requires WellReferenced(refs) && Built(base, refs, refs.Keys)
    requires PhysicalOk(physical, |physical|) && Placed(bs, base, physical, |physical|)
    requires row.artifact in bs && RowFor(row, bs[row.artifact])
    ensures ValidRow(row)
  {
    var a := row.artifact;
    var b := At(base, a);
    StartAt(base, refs, refs.Keys, a);
    assert bs[a].(physical := None) == b;
    forall i | 0 <= i < |row.references|
      ensures row.references[i].count > 0 && ValidFact(FactOf(row, row.references[i]))
    {
      OwnerValid(row.references[i].key, b, refs, a);
    }
    if row.physical.Some? {
      var j :| 0 <= j < |physical| && physical[j].artifact == a;
    }
    StatusByCases(row);
  }

  /** An owner's entry stays valid with the merged expectation in place of its own. */
  lemma OwnerValid(k: OwnerKey, b: Builder, refs: References, a: Artifact)
    requires WellReferenced(refs) && BuiltAt(b, refs, refs.Keys, a) && k in b.owners
    ensures b.owners[k] > 0 && ValidFact(Fact(OwnerFor(a, k), b.bytes, b.files))
  {
    assert GoodEntry(OwnerFor(a, k), refs[OwnerFor(a, k)]);
    assert Known(b, Bytes) == b.bytes && Known(b, Files) == b.files;
    if b.bytes.Some? {
      var o :| o in refs && o.artifact == a && Told(refs[o], Bytes) == b.bytes;
      assert GoodEntry(o, refs[o]);
    }
    if b.files.Some? {
      var o :| o in refs && o.artifact == a && Told(refs[o], Files) == b.files;
      assert GoodEntry(o, refs[o]);
    }
  }


  // ---- Reference facts are conserved ----

  /** The owners of the first `n` rows with their counts. */
  ghost function RowOwners(rows: seq<Row>, n: nat): map<Owner, nat>
    requires n <= |rows|
  {
    if n == 0 then map[] else WithOwners(RowOwners(rows, n - 1), rows[n - 1].artifact, rows[n - 1].references)
  }

  ghost function WithOwners(m: map<Owner, nat>, a: Artifact, os: seq<OwnerCount>): map<Owner, nat> {
    if os == [] then m
    else WithOwners(m, a, os[..|os| - 1])[OwnerFor(a, os[|os| - 1].key) := os[|os| - 1].count]
  }

  lemma {:induction false} WithOwnersSum(m: map<Owner, nat>, a: Artifact, os: seq<OwnerCount>)
    requires forall o :: o in m ==> o.artifact != a
    requires forall i, j :: 0 <= i < j < |os| ==> os[i].key != os[j].key
    ensures Sum(WithOwners(m, a, os)) == Sum(m) + OwnerTotal(os)
    ensures forall o :: o in WithOwners(m, a, os) <==>
              o in m || (o.artifact == a && Named(os, o))
  {
    if os != [] {
      var front, last := os[..|os| - 1], os[|os| - 1];
      WithOwnersSum(m, a, front);
      var before := WithOwners(m, a, front);
      var o := OwnerFor(a, last.key);
      assert KeyOf(o) == last.key;
      assert o !in before by {
        assert forall i :: 0 <= i < |front| ==> front[i].key == os[i].key;
      }
      SumAdd(before, o, last.count);
      assert WithOwners(m, a, os) == before[o := last.count];
      forall x: Owner {:trigger Named(os, x)} | x.artifact == a
        ensures Named(os, x) <==> Named(front, x) || x == o
      {}
    }
  }

  ghost predicate Named(os: seq<OwnerCount>, o: Owner) {
    exists i :: 0 <= i < |os| && os[i].key == KeyOf(o)
  }


  /** The rows' owners are owners of the inventory, with their counts. */
  ghost predicate Within(m: map<Owner, nat>, refs: References) {
    forall o :: o in m ==> o in refs && m[o] == refs[o].count
  }

  lemma {:induction false} WithOwnersWithin(m: map<Owner, nat>, a: Artifact, os: seq<OwnerCount>, refs: References)
    requires Within(m, refs)
    requires forall i :: 0 <= i < |os| ==>
               OwnerFor(a, os[i].key) in refs && os[i].count == refs[OwnerFor(a, os[i].key)].count
    ensures Within(WithOwners(m, a, os), refs)
  {
    if os != [] {
      WithOwnersWithin(m, a, os[..|os| - 1], refs);
    }
  }

  lemma {:induction false} RowFactsBound(rows: seq<Row>, n: nat, refs: References)
    requires n <= |rows|
    requires forall i, j :: 0 <= i < j < |rows| ==> ArtifactLess(rows[i].artifact, rows[j].artifact)
    requires forall i, j, l :: 0 <= i < |rows| && 0 <= j < l < |rows[i].references| ==>
               rows[i].references[j].key != rows[i].references[l].key
    requires forall i, j :: 0 <= i < |rows| && 0 <= j < |rows[i].references| ==>
               var o := OwnerFor(rows[i].artifact, rows[i].references[j].key);
               o in refs && rows[i].references[j].count == refs[o].count
    ensures FactTotal(rows, n) == Sum(RowOwners(rows, n)) && Within(RowOwners(rows, n), refs)
    ensures forall o :: o in RowOwners(rows, n) ==> exists i :: 0 <= i < n && rows[i].artifact == o.artifact
  {
    if n > 0 {
      RowFactsBound(rows, n - 1, refs);
      var m, row := RowOwners(rows, n - 1), rows[n - 1];
      assert forall o :: o in m ==> o.artifact != row.artifact;
      WithOwnersSum(m, row.artifact, row.references);
      WithOwnersWithin(m, row.artifact, row.references, refs);
    }
  }

  // ---- Physical totals are conserved ----

  function Size(p: Physical, m: Measure): nat {
    Amount(p.artifact, p.evidence, m)
  }

  function PhysicalTotal(physical: seq<Physical>, n: nat, m: Measure): (total: nat)
    requires n <= |physical|
  {
    if n == 0 then 0 else PhysicalTotal(physical, n - 1, m) + Size(physical[n - 1], m)
  }

  ghost function PhysicalMap(physical: seq<Physical>, n: nat, m: Measure): map<Artifact, nat>
    requires n <= |physical|
  {
    if n == 0 then map[]
    else PhysicalMap(physical, n - 1, m)[physical[n - 1].artifact := Size(physical[n - 1], m)]
  }

  ghost function RowMap(rows: seq<Row>, n: nat, m: Measure): map<Artifact, nat>
    requires n <= |rows|
  {
    if n == 0 then map[]
    else if rows[n - 1].physical.None? then RowMap(rows, n - 1, m)
    else RowMap(rows, n - 1, m)[rows[n - 1].artifact := Amount(rows[n - 1].artifact, rows[n - 1].physical.value, m)]
  }

  lemma {:induction false} PhysicalAt(physical: seq<Physical>, n: nat, m: Measure)
    requires n <= |physical| && PhysicalOk(physical, n)
    ensures forall a :: a in PhysicalMap(physical, n, m) ==> Stored(physical, n, a)
    ensures forall j :: 0 <= j < n ==>
              physical[j].artifact in PhysicalMap(physical, n, m)
              && PhysicalMap(physical, n, m)[physical[j].artifact] == Size(physical[j], m)
  {
    if n > 0 {
      PhysicalAt(physical, n - 1, m);
    }
  }

  lemma {:induction false} PhysicalSum(physical: seq<Physical>, n: nat, m: Measure)
    requires n <= |physical| && PhysicalOk(physical, n)
    ensures Sum(PhysicalMap(physical, n, m)) == PhysicalTotal(physical, n, m)
  {
    if n > 0 {
      PhysicalSum(physical, n - 1, m);
      PhysicalAt(physical, n - 1, m);
      var before, p := PhysicalMap(physical, n - 1, m), physical[n - 1];
      assert p.artifact !in before;
      SumAdd(before, p.artifact, Size(p, m));
    }
  }

  lemma {:induction false} RowAt(rows: seq<Row>, n: nat, m: Measure)
    requires n <= |rows| && Strict(rows)
    ensures forall a :: a in RowMap(rows, n, m) ==>
              exists i :: 0 <= i < n && rows[i].artifact == a && rows[i].physical.Some?
    ensures forall i :: 0 <= i < n && rows[i].physical.Some? ==>
              rows[i].artifact in RowMap(rows, n, m)
              && RowMap(rows, n, m)[rows[i].artifact] == Amount(rows[i].artifact, rows[i].physical.value, m)
  {
    if n > 0 {
      RowAt(rows, n - 1, m);
    }
  }

  lemma {:induction false} RowSum(rows: seq<Row>, n: nat, m: Measure)
    requires n <= |rows| && Strict(rows)
    ensures Sum(RowMap(rows, n, m)) == RowTotal(rows, n, m)
  {
    if n > 0 {
      RowSum(rows, n - 1, m);
      RowAt(rows, n - 1, m);
      var before, row := RowMap(rows, n - 1, m), rows[n - 1];
      if row.physical.Some? {
        assert row.artifact !in before;
        SumAdd(before, row.artifact, Amount(row.artifact, row.physical.value, m));
      }
    }
  }

  /** The rows hold the physical input: no entry lost, none added. */
  ghost predicate SameStock(rows: seq<Row>, physical: seq<Physical>) {
    && (forall j :: 0 <= j < |physical| ==> InRow(rows, physical[j]))
    && (forall i :: 0 <= i < |rows| && rows[i].physical.Some? ==> Stored(physical, |physical|, rows[i].artifact))
  }

  ghost predicate InRow(rows: seq<Row>, p: Physical) {
    exists i :: 0 <= i < |rows| && rows[i].artifact == p.artifact && rows[i].physical == Some(p.evidence)
  }


  lemma StockInRows(rows: seq<Row>, physical: seq<Physical>, m: Measure, a: Artifact)
    requires PhysicalOk(physical, |physical|) && Strict(rows) && SameStock(rows, physical)
    requires a in PhysicalMap(physical, |physical|, m)
    ensures a in RowMap(rows, |rows|, m) && PhysicalMap(physical, |physical|, m)[a] == RowMap(rows, |rows|, m)[a]
  {
    PhysicalAt(physical, |physical|, m);
    var j :| 0 <= j < |physical| && physical[j].artifact == a;
    assert InRow(rows, physical[j]);
    RowAt(rows, |rows|, m);
  }

  lemma RowsInStock(rows: seq<Row>, physical: seq<Physical>, m: Measure, a: Artifact)
    requires PhysicalOk(physical, |physical|) && Strict(rows) && SameStock(rows, physical)
    requires a in RowMap(rows, |rows|, m)
    ensures a in PhysicalMap(physical, |physical|, m)
  {
    RowAt(rows, |rows|, m);
    var i :| 0 <= i < |rows| && rows[i].artifact == a && rows[i].physical.Some?;
    assert Stored(physical, |physical|, a);
    PhysicalAt(physical, |physical|, m);
  }

  /** The rows hold exactly the physical input, whatever is measured. */
  lemma TotalsConserved(rows: seq<Row>, physical: seq<Physical>, m: Measure)
    requires PhysicalOk(physical, |physical|) && Strict(rows) && SameStock(rows, physical)
    ensures RowTotal(rows, |rows|, m) == PhysicalTotal(physical, |physical|, m)
  {
    PhysicalSum(physical, |physical|, m);
    RowSum(rows, |rows|, m);
    var p, r := PhysicalMap(physical, |physical|, m), RowMap(rows, |rows|, m);
    forall a | a in p
      ensures a in r && p[a] == r[a]
    {
      StockInRows(rows, physical, m, a);
    }
    forall a | a in r
      ensures a in p
    {
      RowsInStock(rows, physical, m, a);
    }
    assert p == r;
  }

  lemma {:induction false} ReferencedBound(rows: seq<Row>, n: nat)
    requires n <= |rows| && forall i :: 0 <= i < n ==> ValidRow(rows[i])
    ensures UsageOf(rows, n).referenced <= FactTotal(rows, n)
  {
    if n > 0 {
      ReferencedBound(rows, n - 1);
      var os := rows[n - 1].references;
      assert ValidRow(rows[n - 1]);
      if os != [] {
        assert os[|os| - 1].count > 0;
      }
    }
  }

  // ---- The join ----

  /** The physical inventory fits the entry bound and 64-bit totals. */
  ghost predicate PhysicalFits(physical: seq<Physical>) {
    var n := |physical|;
    && n <= MAX_PHYSICAL
    && PhysicalTotal(physical, n, ContentFiles) <= U64_MAX
    && PhysicalTotal(physical, n, StagingEntries) <= U64_MAX
    && PhysicalTotal(physical, n, ContentBytes) + PhysicalTotal(physical, n, StagingBytes) <= U64_MAX
  }

  // ---- The usage over the two inputs ----

  /** The artifacts some reference names. */
  ghost function NamedBy(refs: References): set<Artifact> {
    set o | o in refs :: o.artifact
  }

  ghost function StoredTo(physical: seq<Physical>, n: nat): set<Artifact>
    requires n <= |physical|
  {
    set j | 0 <= j < n :: physical[j].artifact
  }

  ghost function StoredIn(physical: seq<Physical>): set<Artifact> {
    StoredTo(physical, |physical|)
  }

  ghost function IncompleteIn(physical: seq<Physical>): set<Artifact> {
    set j | 0 <= j < |physical| && !physical[j].evidence.complete :: physical[j].artifact
  }

  /** Stored whole, but not as some reference tells. */
  ghost predicate Contradicted(refs: References, p: Physical) {
    && p.evidence.complete
    && exists o, x :: o in refs && o.artifact == p.artifact
                      && Told(refs[o], x).Some? && Told(refs[o], x) != Some(Measured(p.evidence, x))
  }

  ghost function ContradictedIn(refs: References, physical: seq<Physical>): set<Artifact> {
    set j | 0 <= j < |physical| && Contradicted(refs, physical[j]) :: physical[j].artifact
  }

  /** The artifacts that show a trait, in terms of the inputs. */
  ghost function SetInTerms(t: Trait, refs: References, physical: seq<Physical>): set<Artifact> {
    match t
    case Any => NamedBy(refs) + StoredIn(physical)
    case Owned => NamedBy(refs)
    case Present => StoredIn(physical)
    case Unowned => StoredIn(physical) - NamedBy(refs)
    case Missing => NamedBy(refs) - StoredIn(physical)
    case Incomplete => IncompleteIn(physical)
    case Mismatched => ContradictedIn(refs, physical)
  }

  /**
   * Every field of the usage, counted and added up over the references and the physical
   * entries: which artifacts are referenced, stored, both or only one, incomplete or not as
   * expected, and how many bytes belong to the referenced ones and to the others.
   */
  ghost predicate UsageIs(u: Usage, refs: References, physical: seq<Physical>) {
    && (forall t :: Counter(u, t) == |SetInTerms(t, refs, physical)|)
    && TotalsAre(u, refs, physical)
    && u.physicalBytes == u.contentBytes + u.stagingBytes
  }

  ghost predicate TotalsAre(u: Usage, refs: References, physical: seq<Physical>) {
    var n := |physical|;
    && u.physical == n
    && u.contentBytes == PhysicalTotal(physical, n, ContentBytes)
    && u.contentFiles == PhysicalTotal(physical, n, ContentFiles)
    && u.stagingEntries == PhysicalTotal(physical, n, StagingEntries)
    && u.stagingBytes == PhysicalTotal(physical, n, StagingBytes)
    && u.referencedBytes == PhysicalTotal(physical, n, BytesAmong(NamedBy(refs)))
    && u.unreferencedBytes == PhysicalTotal(physical, n, BytesBeside(NamedBy(refs)))
  }

  lemma JoinedRowsValid(rows: seq<Row>, bs: Builders, base: Builders, refs: References, physical: seq<Physical>)
    requires WellReferenced(refs) && Built(base, refs, refs.Keys)
    requires PhysicalOk(physical, |physical|) && Placed(bs, base, physical, |physical|) && RowsFor(rows, bs)
    ensures forall i :: 0 <= i < |rows| ==> ValidRow(rows[i])
    ensures Strict(rows)
  {
    forall i | 0 <= i < |rows|
      ensures ValidRow(rows[i])
    {
      JoinedRowValid(rows[i], bs, base, refs, physical);
    }
  }

  lemma JoinedTotals(rows: seq<Row>, refs: References, physical: seq<Physical>)
    requires PhysicalOk(physical, |physical|) && Strict(rows) && SameStock(rows, physical)
    requires forall t :: Showing(rows, |rows|, t) == SetInTerms(t, refs, physical)
    ensures TotalsAre(UsageOf(rows, |rows|), refs, physical)
  {
    UsageMeans(rows);
    TotalsConserved(rows, physical, ContentBytes);
    TotalsConserved(rows, physical, ContentFiles);
    TotalsConserved(rows, physical, StagingEntries);
    TotalsConserved(rows, physical, StagingBytes);
    TotalsConserved(rows, physical, BytesAmong(NamedBy(refs)));
    TotalsConserved(rows, physical, BytesBeside(NamedBy(refs)));
    StoredCount(physical, |physical|);
    assert Showing(rows, |rows|, Owned) == NamedBy(refs) && Showing(rows, |rows|, Present) == StoredIn(physical);
    assert Counter(UsageOf(rows, |rows|), Present) == |StoredIn(physical)|;
  }

  lemma {:induction false} StoredCount(physical: seq<Physical>, n: nat)
    requires n <= |physical| && PhysicalOk(physical, n)
    ensures |StoredTo(physical, n)| == n
  {
    if n > 0 {
      StoredCount(physical, n - 1);
      assert StoredTo(physical, n) == StoredTo(physical, n - 1) + {physical[n - 1].artifact};
      assert physical[n - 1].artifact !in StoredTo(physical, n - 1);
    }
  }

  /** Valid ordered rows within the fact bound are accountable exactly when their stock fits. */
  lemma AccountableIffFits(rows: seq<Row>, refs: References, physical: seq<Physical>)
    requires (forall i :: 0 <= i < |rows| ==> ValidRow(rows[i])) && Strict(rows)
    requires TotalsAre(UsageOf(rows, |rows|), refs, physical) && FactTotal(rows, |rows|) <= MAX_FACTS
    ensures Accountable(rows) <==> PhysicalFits(physical)
  {
    UsageBalanced(rows, |rows|);
    ReferencedBound(rows, |rows|);
  }

  lemma JoinedUsage(
    rows: seq<Row>, bs: Builders, base: Builders, refs: References, physical: seq<Physical>)
    requires WellReferenced(refs) && Built(base, refs, refs.Keys)
    requires PhysicalOk(physical, |physical|) && Placed(bs, base, physical, |physical|) && RowsFor(rows, bs)
    ensures UsageIs(UsageOf(rows, |rows|), refs, physical)
    ensures FactTotal(rows, |rows|) <= MAX_FACTS
    ensures Accountable(rows) <==> PhysicalFits(physical)
    ensures Covers(rows, refs, physical)
    ensures forall i :: 0 <= i < |rows| ==> RowExact(rows[i], refs, physical)
  {
    JoinedRowsValid(rows, bs, base, refs, physical);
    Coverage(rows, bs, base, refs, physical);
    JoinedExact(rows, bs, base, refs, physical);
    JoinedMeans(rows, refs, physical);
    JoinedFacts(rows, bs, base, refs, physical);
    AccountableIffFits(rows, refs, physical);
  }

  /** Rows that cover both inputs and say exactly what they say have the usage of the inputs. */
  lemma JoinedMeans(rows: seq<Row>, refs: References, physical: seq<Physical>)
    requires PhysicalOk(physical, |physical|) && Strict(rows) && Covers(rows, refs, physical)
    requires forall i :: 0 <= i < |rows| ==> ValidRow(rows[i]) && RowExact(rows[i], refs, physical)
    ensures UsageIs(UsageOf(rows, |rows|), refs, physical)
  {
    UsageBalanced(rows, |rows|);
    StockShown(rows, refs, physical);
    ShownSets(rows, refs, physical);
    JoinedTotals(rows, refs, physical);
    UsageCounts(rows);
    CountersInTerms(UsageOf(rows, |rows|), rows, refs, physical);
  }

  lemma CountersInTerms(u: Usage, rows: seq<Row>, refs: References, physical: seq<Physical>)
    requires CountersAre(u, rows, |rows|) && Balanced(u) && TotalsAre(u, refs, physical)
    requires forall t :: Showing(rows, |rows|, t) == SetInTerms(t, refs, physical)
    ensures UsageIs(u, refs, physical)
  {
    forall t
      ensures Counter(u, t) == |SetInTerms(t, refs, physical)|
    {
      assert Showing(rows, |rows|, t) == SetInTerms(t, refs, physical);
    }
  }

  lemma StockShown(rows: seq<Row>, refs: References, physical: seq<Physical>)
    requires Covers(rows, refs, physical)
    requires forall i :: 0 <= i < |rows| ==> RowExact(rows[i], refs, physical)
    ensures SameStock(rows, physical)
  {
    forall j | 0 <= j < |physical|
      ensures InRow(rows, physical[j])
    {
      var i := RowOf(rows, refs, physical, physical[j].artifact);
    }
  }

  /** The row of an artifact of either input. */
  lemma RowOf(rows: seq<Row>, refs: References, physical: seq<Physical>, a: Artifact) returns (i: nat)
    requires Covers(rows, refs, physical) && a in NamedBy(refs) + StoredIn(physical)
    requires forall i :: 0 <= i < |rows| ==> RowExact(rows[i], refs, physical)
    ensures i < |rows| && rows[i].artifact == a && RowExact(rows[i], refs, physical)
  {
    assert CoversOne(rows, refs, physical, a);
    var row :| row in rows && row.artifact == a;
    i :| 0 <= i < |rows| && rows[i] == row;
  }

  lemma ShownInTerms(row: Row, t: Trait, refs: References, physical: seq<Physical>)
    requires RowExact(row, refs, physical) && PhysicalOk(physical, |physical|)
    requires row.artifact in NamedBy(refs) + StoredIn(physical)
    ensures Shows(row, t) <==> row.artifact in SetInTerms(t, refs, physical)
  {
    ReferencedRow(row, refs);
    PresentRow(row, physical);
    if t == Mismatched {
      MismatchedRow(row, refs, physical);
    }
  }

  lemma ReferencedRow(row: Row, refs: References)
    requires OwnersExact(row, refs)
    ensures row.references != [] <==> row.artifact in NamedBy(refs)
  {
    if row.references != [] {
      assert OwnerFor(row.artifact, row.references[0].key) in refs;
    }
  }

  lemma PresentRow(row: Row, physical: seq<Physical>)
    requires EvidenceExact(row, physical) && PhysicalOk(physical, |physical|)
    ensures row.physical.Some? <==> row.artifact in StoredIn(physical)
    ensures row.physical.Some? && !row.physical.value.complete <==> row.artifact in IncompleteIn(physical)
  {
    if row.physical.Some? {
      var j :| 0 <= j < |physical| && physical[j].artifact == row.artifact;
      assert row.physical == Some(physical[j].evidence);
    }
  }

  lemma MismatchedRow(row: Row, refs: References, physical: seq<Physical>)
    requires RowExact(row, refs, physical) && PhysicalOk(physical, |physical|)
    ensures row.status == Mismatch <==> row.artifact in ContradictedIn(refs, physical)
  {
    if row.status == Mismatch {
      var j :| 0 <= j < |physical| && physical[j].artifact == row.artifact;
      assert row.physical == Some(physical[j].evidence);
      ContradictedRow(row, refs, physical[j]);
    }
    if row.artifact in ContradictedIn(refs, physical) {
      var j :| 0 <= j < |physical| && Contradicted(refs, physical[j]) && physical[j].artifact == row.artifact;
      assert row.physical == Some(physical[j].evidence);
      ContradictedRow(row, refs, physical[j]);
    }
  }

  lemma ContradictedRow(row: Row, refs: References, p: Physical)
    requires ExpectationExact(row, refs) && row.artifact == p.artifact
    ensures p.evidence.complete && Contradicts(row, p.evidence) <==> Contradicted(refs, p)
  {
    if p.evidence.complete && Contradicts(row, p.evidence) {
      var x :| Stated(row, x).Some? && Stated(row, x) != Some(Measured(p.evidence, x));
      var o :| o in refs && o.artifact == row.artifact && Told(refs[o], x) == Stated(row, x);
    }
    if Contradicted(refs, p) {
      var o, x :| o in refs && o.artifact == p.artifact
                  && Told(refs[o], x).Some? && Told(refs[o], x) != Some(Measured(p.evidence, x));
      assert Stated(row, x) == Told(refs[o], x);
    }
  }

  lemma ShownSet(rows: seq<Row>, refs: References, physical: seq<Physical>, t: Trait, a: Artifact)
    requires PhysicalOk(physical, |physical|) && Strict(rows) && Covers(rows, refs, physical)
    requires forall i :: 0 <= i < |rows| ==> RowExact(rows[i], refs, physical)
    ensures a in Showing(rows, |rows|, t) <==> a in SetInTerms(t, refs, physical)
  {
    if a in Showing(rows, |rows|, t) {
      ShownIsCovered(rows, refs, physical, t, a);
    }
    if a in NamedBy(refs) + StoredIn(physical) {
      var i := RowOf(rows, refs, physical, a);
      ShownByOne(rows, i, t);
      ShownInTerms(rows[i], t, refs, physical);
    }
  }

  lemma ShownIsCovered(rows: seq<Row>, refs: References, physical: seq<Physical>, t: Trait, a: Artifact)
    requires Covers(rows, refs, physical) && a in Showing(rows, |rows|, t)
    ensures a in NamedBy(refs) + StoredIn(physical)
  {
    var i :| 0 <= i < |rows| && rows[i].artifact == a;
    assert rows[i] in rows && CoversOne(rows, refs, physical, a);
  }

  lemma ShownSets(rows: seq<Row>, refs: References, physical: seq<Physical>)
    requires PhysicalOk(physical, |physical|) && Strict(rows) && Covers(rows, refs, physical)
    requires forall i :: 0 <= i < |rows| ==> RowExact(rows[i], refs, physical)
    ensures forall t :: Showing(rows, |rows|, t) == SetInTerms(t, refs, physical)
  {
    forall t, a
      ensures a in Showing(rows, |rows|, t) <==> a in SetInTerms(t, refs, physical)
    {
      ShownSet(rows, refs, physical, t, a);
    }
  }

  lemma JoinedFacts(rows: seq<Row>, bs: Builders, base: Builders, refs: References, physical: seq<Physical>)
    requires WellReferenced(refs) && Built(base, refs, refs.Keys)
    requires Placed(bs, base, physical, |physical|) && RowsFor(rows, bs)
    ensures FactTotal(rows, |rows|) <= MAX_FACTS
  {
    forall i, j | 0 <= i < |rows| && 0 <= j < |rows[i].references|
      ensures var o := OwnerFor(rows[i].artifact, rows[i].references[j].key);
              o in refs && rows[i].references[j].count == refs[o].count
    {
      var a := rows[i].artifact;
      StartAt(base, refs, refs.Keys, a);
      assert bs[a].(physical := None) == At(base, a);
      assert rows[i].references[j].key in At(base, a).owners;
    }
    RowFactsBound(rows, |rows|, refs);
    SumSubmap(RowOwners(rows, |rows|), Counts(refs));
  }

  /** Exactly the artifacts on either side have a row. */
  ghost predicate Covers(rows: seq<Row>, refs: References, physical: seq<Physical>) {
    forall a :: CoversOne(rows, refs, physical, a)
  }

  ghost predicate CoversOne(rows: seq<Row>, refs: References, physical: seq<Physical>, a: Artifact) {
    (exists row :: row in rows && row.artifact == a) <==> a in NamedBy(refs) + StoredIn(physical)
  }

  /** The owners of an artifact are exactly those of its references, each with its count. */
  ghost predicate OwnersExact(row: Row, refs: References) {
    && (forall i :: 0 <= i < |row.references| ==>
          var o := OwnerFor(row.artifact, row.references[i].key);
          o in refs && row.references[i].count == refs[o].count)
    && (forall o :: o in refs && o.artifact == row.artifact ==>
          exists i :: 0 <= i < |row.references| && row.references[i].key == KeyOf(o))
  }

  /** A row expects what any of its references states, and nothing none of them states. */
  ghost predicate ExpectationExact(row: Row, refs: References) {
    && (forall x, o :: o in refs && o.artifact == row.artifact && Told(refs[o], x).Some? ==>
          Stated(row, x) == Told(refs[o], x))
    && (forall x :: Stated(row, x).Some? ==>
          exists o :: o in refs && o.artifact == row.artifact && Told(refs[o], x) == Stated(row, x))
  }

  ghost predicate EvidenceExact(row: Row, physical: seq<Physical>) {
    && (row.physical.Some? <==> Stored(physical, |physical|, row.artifact))
    && (forall j :: 0 <= j < |physical| && physical[j].artifact == row.artifact ==>
          row.physical == Some(physical[j].evidence))
  }

  /** A row says exactly what the two inventories say about its artifact. */
  ghost predicate RowExact(row: Row, refs: References, physical: seq<Physical>) {
    OwnersExact(row, refs) && ExpectationExact(row, refs) && EvidenceExact(row, physical) && StatusExact(row)
  }

  lemma JoinedOwners(row: Row, b: Builder, refs: References)
    requires BuiltAt(b, refs, refs.Keys, row.artifact) && Lists(row.references, b.owners)
    ensures OwnersExact(row, refs)
  {
    forall o | o in refs && o.artifact == row.artifact
      ensures exists i :: 0 <= i < |row.references| && row.references[i].key == KeyOf(o)
    {
      assert OwnerFor(row.artifact, KeyOf(o)) == o;
      assert KeyOf(o) in b.owners;
    }
  }

  lemma JoinedExpectation(row: Row, b: Builder, refs: References)
    requires BuiltAt(b, refs, refs.Keys, row.artifact) && row.bytes == b.bytes && row.files == b.files
    ensures ExpectationExact(row, refs)
  {
    assert forall x :: Stated(row, x) == Known(b, x);
  }

  lemma JoinedRowExact(row: Row, bs: Builders, base: Builders, refs: References, physical: seq<Physical>)
    requires Built(base, refs, refs.Keys) && Placed(bs, base, physical, |physical|)
    requires row.artifact in bs && RowFor(row, bs[row.artifact])
    ensures RowExact(row, refs, physical)
  {
    var b := At(base, row.artifact);
    StartAt(base, refs, refs.Keys, row.artifact);
    assert bs[row.artifact].(physical := None) == b;
    JoinedOwners(row, b, refs);
    JoinedExpectation(row, b, refs);
    StatusByCases(row);
  }

  lemma JoinedExact(rows: seq<Row>, bs: Builders, base: Builders, refs: References, physical: seq<Physical>)
    requires Built(base, refs, refs.Keys) && Placed(bs, base, physical, |physical|) && RowsFor(rows, bs)
    ensures forall i :: 0 <= i < |rows| ==> RowExact(rows[i], refs, physical)
  {
    forall i | 0 <= i < |rows|
      ensures RowExact(rows[i], refs, physical)
    {
      JoinedRowExact(rows[i], bs, base, refs, physical);
    }
  }

  /**
   * Join a reference inventory with a physical one. It succeeds exactly when the references
   * are well formed, the physical entries are valid and not repeated, and the totals fit;
   * every artifact on either side then has one row that says exactly what both sides say about
   * it, its status included, and every figure of the usage is that of the two inputs.
   */
  method Join(list: seq<Listed>, physical: seq<Physical>) returns (r: Result<Reachability>)
    ensures r.Ok? <==>
              WellListed(list, |list|) && PhysicalOk(physical, |physical|) && PhysicalFits(physical)
    ensures r.Ok? ==>
              && Accountable(r.value.rows)
              && UsageIs(r.value.usage, AllOf(list), physical)
              && Covers(r.value.rows, AllOf(list), physical)
              && (forall i :: 0 <= i < |r.value.rows| ==> RowExact(r.value.rows[i], AllOf(list), physical))
  {
    var base := MergeReferences(list);
    if base.Err? {
      return Err(base.error);
    }
    var placed := PlacePhysical(base.value, physical);
    if placed.Err? {
      return Err(placed.error);
    }
    var rows := BuildRows(placed.value);
    JoinedUsage(rows, placed.value, base.value, AllOf(list), physical);
    var usage := StorageUsage(rows);
    if usage.Err? {
      return Err(usage.error);
    }
    r := Ok(Reachability(rows, usage.value));
  }

  lemma Coverage(rows: seq<Row>, bs: Builders, base: Builders, refs: References, physical: seq<Physical>)
    requires Built(base, refs, refs.Keys) && Placed(bs, base, physical, |physical|) && RowsFor(rows, bs)
    ensures Covers(rows, refs, physical)
  {
    forall a
      ensures CoversOne(rows, refs, physical, a)
    {
      NamedIsBuilt(base, refs, a);
      assert a in StoredIn(physical) <==> Stored(physical, |physical|, a);
      if a in bs {
        var i :| 0 <= i < |rows| && rows[i].artifact == a;
        assert rows[i] in rows;
      }
    }
  }

  lemma NamedIsBuilt(base: Builders, refs: References, a: Artifact)
    requires Built(base, refs, refs.Keys)
    ensures a in base <==> a in NamedBy(refs)
  {
    if a in base {
      var k :| k in base[a].owners;
      assert BuiltAt(base[a], refs, refs.Keys, a);
      assert OwnerFor(a, k) in refs;
    }
  }

  /** Re-validating a joined inventory: its usage is recomputed and compared. */
  method ValidatedUsage(inventory: Reachability) returns (r: Result<Usage>)
    ensures r.Ok? <==> Accountable(inventory.rows) && UsageExact(inventory.usage, inventory.rows)
    ensures r.Ok? ==> r.value == inventory.usage && Balanced(r.value)
  {
    if Accountable(inventory.rows) {
      UsageMeans(inventory.rows);
    }
    var usage := StorageUsage(inventory.rows);
    if usage.Err? || usage.value != inventory.usage {
      return Err(Invalid);
    }
    r := usage;
  }

  /** The inventory of any acceptable list of facts can be joined, in whatever order it is listed. */
  lemma FinishedIsWellReferenced(facts: seq<Fact>, list: seq<Listed>)
    requires Acceptable(facts)
    requires OwnersDistinct(list, |list|) && AllOf(list) == Inventory(facts)
    ensures WellListed(list, |list|)
  {
    var refs := Inventory(facts);
    forall o | o in refs
      ensures GoodEntry(o, refs[o])
    {
      FinishedEntryGood(facts, o);
    }
    var targets := set f | f in facts :: f.owner.artifact;
    TotalIsFactCount(facts, targets);
    assert TargetCounts(refs, targets) == Counts(refs);
  }

  lemma FinishedEntryGood(facts: seq<Fact>, o: Owner)
    requires Acceptable(facts) && o in Owners(facts)
    ensures GoodEntry(o, EntryOf(facts, o))
  {
    NotCounted(facts, o);
    var e := EntryOf(facts, o);
    var f :| f in facts && f.owner == o;
    if e.bytes.Some? {
      MergedExact(facts, o.artifact, Bytes, e.bytes.value);
      var g :| g in facts && g.owner.artifact == o.artifact && Expected(g, Bytes) == e.bytes;
    }
    if e.files.Some? {
      MergedExact(facts, o.artifact, Files, e.files.value);
      var g :| g in facts && g.owner.artifact == o.artifact && Expected(g, Files) == e.files;
    }
  }
}
