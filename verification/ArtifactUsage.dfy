/** Rows of the joined artifact inventory and their storage accounting. */
module ArtifactUsage {
  import opened Outcomes
  import opened ArtifactReferences

  const MAX_PHYSICAL: nat := 100_000

  datatype Evidence = Evidence(
    complete: bool, contentBytes: nat, contentFiles: nat, stagingEntries: nat, stagingBytes: nat)

  datatype Status = Unspecified | Unavailable | Matches | Mismatch

  datatype OwnerKey = OwnerKey(source: Source, installation: Option<nat>)

  datatype OwnerCount = OwnerCount(key: OwnerKey, count: nat)

  datatype Row = Row(
    artifact: Artifact,
    bytes: Option<nat>,
    files: Option<nat>,
    references: seq<OwnerCount>,
    physical: Option<Evidence>,
    status: Status)

  datatype Usage = Usage(
    artifactKeys: nat,
    referenced: nat,
    physical: nat,
    unreferenced: nat,
    missing: nat,
    incomplete: nat,
    mismatches: nat,
    contentBytes: nat,
    contentFiles: nat,
    stagingEntries: nat,
    stagingBytes: nat,
    physicalBytes: nat,
    referencedBytes: nat,
    unreferencedBytes: nat)

  // ---- Canonical order ----

  function KindRank(k: ArtifactKind): nat {
    if k == Blob then 0 else 1
  }

  predicate ArtifactLess(a: Artifact, b: Artifact) {
    KindRank(a.kind) < KindRank(b.kind) || (a.kind == b.kind && a.digest < b.digest)
  }

  function SourceRank(s: Source): nat {
    match s
    case RegistryObservation => 0
    case InstallationSnapshot => 1
    case CurrentReceipt => 2
    case RetainedReceipt => 3
    case PendingPackageGraph => 4
    case PluginLifecycleOperation => 5
    case RuntimePlanPayload => 6
    case ControlCommittedGeneration => 7
    case ControlNonterminalOperation => 8
  }

  function InstallationRank(i: Option<nat>): nat {
    if i.None? then 0 else i.value + 1
  }

  predicate OwnerLess(a: OwnerKey, b: OwnerKey) {
    || SourceRank(a.source) < SourceRank(b.source)
    || (a.source == b.source && InstallationRank(a.installation) < InstallationRank(b.installation))
  }


  /** Sources in their order. */
  const SOURCES := [
    RegistryObservation, InstallationSnapshot, CurrentReceipt, RetainedReceipt, PendingPackageGraph,
    PluginLifecycleOperation, RuntimePlanPayload, ControlCommittedGeneration, ControlNonterminalOperation]

  lemma OwnersBySource(a: OwnerKey, b: OwnerKey, i: nat, j: nat)
    requires i < |SOURCES| && j < |SOURCES| && SOURCES[i] == a.source && SOURCES[j] == b.source
    ensures OwnerLess(a, b) <==>
              i < j || (i == j && b.installation.Some? &&
                        (a.installation.None? || a.installation.value < b.installation.value))
  {}

  lemma ArtifactsByKind(a: Artifact, b: Artifact)
    ensures ArtifactLess(a, b) <==>
              (a.kind == Blob && b.kind == ExpandedPackage) || (a.kind == b.kind && a.digest < b.digest)
  {}

  // ---- Row validity ----

  /** Nothing is incomplete and has content, a complete blob is one file, and no bytes are staged in no entry. */
  ghost predicate ValidEvidence(kind: ArtifactKind, e: Evidence) {
    && (!e.complete ==> e.contentBytes == 0 && e.contentFiles == 0)
    && (kind == Blob && e.complete ==> e.contentFiles == 1)
    && (e.stagingEntries == 0 ==> e.stagingBytes == 0)
  }

  method ValidateEvidence(kind: ArtifactKind, e: Evidence) returns (ok: bool)
    ensures ok <==> ValidEvidence(kind, e)
  {
    var incompleteWithContent := !e.complete && (e.contentBytes != 0 || e.contentFiles != 0);
    var invalidBlobFiles := kind == Blob && e.complete && e.contentFiles != 1;
    ok := !incompleteWithContent && !invalidBlobFiles && !(e.stagingEntries == 0 && e.stagingBytes != 0);
  }

  function MeasurementStatus(bytes: Option<nat>, files: Option<nat>, physical: Option<Evidence>): (s: Status) {
    if bytes.None? && files.None? then Unspecified
    else if physical.None? || !physical.value.complete then Unavailable
    else if (bytes.None? || bytes.value == physical.value.contentBytes)
            && (files.None? || files.value == physical.value.contentFiles) then Matches
    else Mismatch
  }

  function Stated(r: Row, x: Aspect): Option<nat> {
    if x == Bytes then r.bytes else r.files
  }

  function Measured(e: Evidence, x: Aspect): nat {
    if x == Bytes then e.contentBytes else e.contentFiles
  }

  /** A row expects something of its content. */
  ghost predicate Expects(r: Row) {
    exists x :: Stated(r, x).Some?
  }

  /** What it expects is not what is there. */
  ghost predicate Contradicts(r: Row, e: Evidence) {
    exists x :: Stated(r, x).Some? && Stated(r, x) != Some(Measured(e, x))
  }

  /** The status by cases of expectation and evidence. */
  ghost predicate StatusExact(r: Row) {
    && (r.status == Unspecified <==> !Expects(r))
    && (r.status == Unavailable <==> Expects(r) && !(r.physical.Some? && r.physical.value.complete))
    && (r.status == Mismatch <==> r.physical.Some? && r.physical.value.complete && Contradicts(r, r.physical.value))
    && (r.status == Matches <==>
          Expects(r) && r.physical.Some? && r.physical.value.complete && !Contradicts(r, r.physical.value))
  }

  lemma StatusByCases(r: Row)
    ensures r.status == MeasurementStatus(r.bytes, r.files, r.physical) <==> StatusExact(r)
  {
    assert Stated(r, Bytes) == r.bytes && Stated(r, Files) == r.files;
    if r.physical.Some? {
      var e := r.physical.value;
      assert Measured(e, Bytes) == e.contentBytes && Measured(e, Files) == e.contentFiles;
    }
  }

  function FactOf(r: Row, o: OwnerCount): Fact {
    Fact(Owner(r.artifact, o.key.source, o.key.installation), r.bytes, r.files)
  }

  /** An artifact no reference names is there and nothing is expected of it; owners are counted and in order. */
  ghost predicate ValidRow(r: Row) {
    && (r.references == [] ==> r.bytes.None? && r.files.None? && r.physical.Some?)
    && (forall i :: 0 <= i < |r.references| ==> r.references[i].count > 0 && ValidFact(FactOf(r, r.references[i])))
    && (forall i :: 0 < i < |r.references| ==> OwnerLess(r.references[i - 1].key, r.references[i].key))
    && (r.physical.Some? ==> ValidEvidence(r.artifact.kind, r.physical.value))
    && StatusExact(r)
  }

  /** Accepts exactly the valid rows. */
  method ValidateRow(r: Row) returns (ok: bool)
    ensures ok <==> ValidRow(r)
  {
    if r.references == [] && (r.bytes.Some? || r.files.Some? || r.physical.None?) {
      return false;
    }
    for i := 0 to |r.references|
      invariant forall j :: 0 <= j < i ==> r.references[j].count > 0 && ValidFact(FactOf(r, r.references[j]))
      invariant forall j :: 0 < j < i ==> OwnerLess(r.references[j - 1].key, r.references[j].key)
    {
      var o := r.references[i];
      ok := ValidateFact(FactOf(r, o));
      if o.count == 0 || (i > 0 && !OwnerLess(r.references[i - 1].key, o.key)) || !ok {
        return false;
      }
    }
    if r.physical.Some? {
      ok := ValidateEvidence(r.artifact.kind, r.physical.value);
      if !ok {
        return false;
      }
    }
    StatusByCases(r);
    ok := r.status == MeasurementStatus(r.bytes, r.files, r.physical);
  }

  function OwnerTotal(os: seq<OwnerCount>): (n: nat) {
    if os == [] then 0 else OwnerTotal(os[..|os| - 1]) + os[|os| - 1].count
  }

  function FactTotal(rows: seq<Row>, n: nat): (total: nat)
    requires n <= |rows|
  {
    if n == 0 then 0 else FactTotal(rows, n - 1) + OwnerTotal(rows[n - 1].references)
  }

  // ---- Accounting ----

  const NoUsage := Usage(0, 0, 0, 0, 0, 0, 0, 0, 0, 0, 0, 0, 0, 0)

  function One(b: bool): nat {
    if b then 1 else 0
  }

  function Of(b: bool, n: nat): nat {
    if b then n else 0
  }

  const NoEvidence := Evidence(true, 0, 0, 0, 0)

  /** The counters after one more row. */
  function Tally(u: Usage, r: Row): (v: Usage) {
    var referenced := r.references != [];
    var present := r.physical.Some?;
    var e := if present then r.physical.value else NoEvidence;
    Usage(
      u.artifactKeys + 1,
      u.referenced + One(referenced),
      u.physical + One(present),
      u.unreferenced + One(present && !referenced),
      u.missing + One(!present && referenced),
      u.incomplete + One(present && !e.complete),
      u.mismatches + One(r.status == Mismatch),
      u.contentBytes + e.contentBytes,
      u.contentFiles + e.contentFiles,
      u.stagingEntries + e.stagingEntries,
      u.stagingBytes + e.stagingBytes,
      u.physicalBytes + e.contentBytes + e.stagingBytes,
      u.referencedBytes + Of(referenced, e.contentBytes),
      u.unreferencedBytes + Of(!referenced, e.contentBytes))
  }

  function UsageOf(rows: seq<Row>, n: nat): (u: Usage)
    requires n <= |rows|
  {
    if n == 0 then NoUsage else Tally(UsageOf(rows, n - 1), rows[n - 1])
  }

  // ---- What the counters mean ----

  datatype Trait = Any | Owned | Present | Unowned | Missing | Incomplete | Mismatched

  ghost predicate Shows(r: Row, t: Trait) {
    match t
    case Any => true
    case Owned => r.references != []
    case Present => r.physical.Some?
    case Unowned => r.physical.Some? && r.references == []
    case Missing => r.physical.None? && r.references != []
    case Incomplete => r.physical.Some? && !r.physical.value.complete
    case Mismatched => r.status == Mismatch
  }

  /** The artifacts among the first `n` rows that show a trait. */
  ghost function Showing(rows: seq<Row>, n: nat, t: Trait): set<Artifact>
    requires n <= |rows|
  {
    set i | 0 <= i < n && Shows(rows[i], t) :: rows[i].artifact
  }

  ghost predicate Strict(rows: seq<Row>) {
    forall i, j :: 0 <= i < j < |rows| ==> ArtifactLess(rows[i].artifact, rows[j].artifact)
  }

  lemma ShowingGrows(rows: seq<Row>, n: nat, t: Trait)
    requires 0 < n <= |rows| && Strict(rows)
    ensures |Showing(rows, n, t)| == |Showing(rows, n - 1, t)| + One(Shows(rows[n - 1], t))
  {
    var a := rows[n - 1].artifact;
    var before := Showing(rows, n - 1, t);
    assert a !in before;
    assert Showing(rows, n, t) == if Shows(rows[n - 1], t) then before + {a} else before;
  }

  /** Something to be added up over physical entries. */
  datatype Measure =
    | ContentBytes | ContentFiles | StagingEntries | StagingBytes
    | BytesAmong(artifacts: set<Artifact>) | BytesBeside(artifacts: set<Artifact>)

  function Amount(a: Artifact, e: Evidence, m: Measure): nat {
    match m
    case ContentBytes => e.contentBytes
    case ContentFiles => e.contentFiles
    case StagingEntries => e.stagingEntries
    case StagingBytes => e.stagingBytes
    case BytesAmong(artifacts) => if a in artifacts then e.contentBytes else 0
    case BytesBeside(artifacts) => if a in artifacts then 0 else e.contentBytes
  }

  function RowTotal(rows: seq<Row>, n: nat, m: Measure): (total: nat)
    requires n <= |rows|
  {
    if n == 0 then 0
    else
      var r := rows[n - 1];
      RowTotal(rows, n - 1, m) + if r.physical.Some? then Amount(r.artifact, r.physical.value, m) else 0
  }

  ghost function Counter(u: Usage, t: Trait): nat {
    match t
    case Any => u.artifactKeys
    case Owned => u.referenced
    case Present => u.physical
    case Unowned => u.unreferenced
    case Missing => u.missing
    case Incomplete => u.incomplete
    case Mismatched => u.mismatches
  }

  /** Every counter is the number of artifacts that its name says. */
  ghost predicate CountersAre(u: Usage, rows: seq<Row>, n: nat)
    requires n <= |rows|
  {
    forall t :: Counter(u, t) == |Showing(rows, n, t)|
  }

  /** Every sum is the total over the physical entries that its name says. */
  ghost predicate SumsAre(u: Usage, rows: seq<Row>, n: nat, referenced: set<Artifact>)
    requires n <= |rows|
  {
    && u.contentBytes == RowTotal(rows, n, ContentBytes)
    && u.contentFiles == RowTotal(rows, n, ContentFiles)
    && u.stagingEntries == RowTotal(rows, n, StagingEntries)
    && u.stagingBytes == RowTotal(rows, n, StagingBytes)
    && u.physicalBytes == u.contentBytes + u.stagingBytes
    && u.referencedBytes == RowTotal(rows, n, BytesAmong(referenced))
    && u.unreferencedBytes == RowTotal(rows, n, BytesBeside(referenced))
  }

  lemma {:induction false} CounterCounts(rows: seq<Row>, n: nat, t: Trait)
    requires n <= |rows| && Strict(rows)
    ensures Counter(UsageOf(rows, n), t) == |Showing(rows, n, t)|
  {
    if n > 0 {
      CounterCounts(rows, n - 1, t);
      ShowingGrows(rows, n, t);
      CounterGrows(UsageOf(rows, n - 1), rows[n - 1], t);
    }
  }

  lemma CounterGrows(u: Usage, r: Row, t: Trait)
    ensures Counter(Tally(u, r), t) == Counter(u, t) + One(Shows(r, t))
  {}

  lemma UsageCounts(rows: seq<Row>)
    requires Strict(rows)
    ensures CountersAre(UsageOf(rows, |rows|), rows, |rows|)
  {
    forall t
      ensures Counter(UsageOf(rows, |rows|), t) == |Showing(rows, |rows|, t)|
    {
      CounterCounts(rows, |rows|, t);
    }
  }

  lemma {:induction false} UsageSums(rows: seq<Row>, n: nat, referenced: set<Artifact>)
    requires n <= |rows|
    requires forall i :: 0 <= i < n ==> (rows[i].artifact in referenced <==> rows[i].references != [])
    ensures SumsAre(UsageOf(rows, n), rows, n, referenced)
  {
    if n > 0 {
      UsageSums(rows, n - 1, referenced);
    }
  }

  /** What the usage of ordered rows says, without reference to how it is computed. */
  lemma UsageMeans(rows: seq<Row>)
    requires Strict(rows)
    ensures UsageExact(UsageOf(rows, |rows|), rows)
    ensures forall u :: UsageExact(u, rows) ==> u == UsageOf(rows, |rows|)
  {
    UsageCounts(rows);
    forall i | 0 <= i < |rows|
      ensures rows[i].artifact in Showing(rows, |rows|, Owned) <==> rows[i].references != []
    {
      ShownByOne(rows, i, Owned);
    }
    UsageSums(rows, |rows|, Showing(rows, |rows|, Owned));
    forall u | UsageExact(u, rows)
      ensures u == UsageOf(rows, |rows|)
    {
      SameUsage(u, UsageOf(rows, |rows|), rows);
    }
  }

  /** Every figure of the usage is what its name says about the rows. */
  ghost predicate UsageExact(u: Usage, rows: seq<Row>) {
    && CountersAre(u, rows, |rows|)
    && SumsAre(u, rows, |rows|, Showing(rows, |rows|, Owned))
  }

  lemma SameUsage(u: Usage, v: Usage, rows: seq<Row>)
    requires UsageExact(u, rows) && UsageExact(v, rows)
    ensures u == v
  {
    forall t
      ensures Counter(u, t) == Counter(v, t)
    {}
    assert u.artifactKeys == Counter(u, Any) && u.referenced == Counter(u, Owned);
    assert u.physical == Counter(u, Present) && u.unreferenced == Counter(u, Unowned);
    assert u.missing == Counter(u, Missing) && u.incomplete == Counter(u, Incomplete);
    assert u.mismatches == Counter(u, Mismatched);
  }

  lemma ShownByOne(rows: seq<Row>, i: nat, t: Trait)
    requires Strict(rows) && i < |rows|
    ensures rows[i].artifact in Showing(rows, |rows|, t) <==> Shows(rows[i], t)
  {
    assert forall j :: 0 <= j < |rows| && rows[j].artifact == rows[i].artifact ==> j == i by {
      assert forall j :: 0 <= j < i ==> ArtifactLess(rows[j].artifact, rows[i].artifact);
    }
  }

  /** Every counter is within its entry bound or 64 bits. */
  predicate WithinBounds(u: Usage) {
    && u.artifactKeys <= MAX_FACTS + MAX_PHYSICAL
    && u.physical <= MAX_PHYSICAL
    && u.contentBytes <= U64_MAX && u.contentFiles <= U64_MAX
    && u.stagingEntries <= U64_MAX && u.stagingBytes <= U64_MAX
    && u.physicalBytes <= U64_MAX
  }

  /** The accounting identities. */
  predicate Balanced(u: Usage) {
    && u.artifactKeys == u.referenced + u.unreferenced
    && u.artifactKeys == u.physical + u.missing
    && u.contentBytes == u.referencedBytes + u.unreferencedBytes
    && u.physicalBytes == u.contentBytes + u.stagingBytes
    && u.unreferenced <= u.physical && u.missing <= u.referenced
    && u.incomplete <= u.physical && u.mismatches <= u.referenced
  }

  /** Whatever the rows, nothing is counted twice and nothing is lost. */
  lemma {:induction false} UsageBalanced(rows: seq<Row>, n: nat)
    requires n <= |rows| && forall i :: 0 <= i < n ==> ValidRow(rows[i])
    ensures Balanced(UsageOf(rows, n))
  {
    if n > 0 {
      UsageBalanced(rows, n - 1);
      assert ValidRow(rows[n - 1]);
    }
  }

  lemma {:induction false} BoundsAreMonotone(rows: seq<Row>, i: nat, n: nat)
    requires i <= n <= |rows| && WithinBounds(UsageOf(rows, n))
    ensures WithinBounds(UsageOf(rows, i))
    decreases n
  {
    if i < n {
      BoundsAreMonotone(rows, i, n - 1);
    }
  }

  lemma {:induction false} FactsAreMonotone(rows: seq<Row>, i: nat, n: nat)
    requires i <= n <= |rows|
    ensures FactTotal(rows, i) <= FactTotal(rows, n)
    decreases n
  {
    if i < n {
      FactsAreMonotone(rows, i, n - 1);
    }
  }

  /** The first `n` rows are valid, in canonical order and within every bound. */
  ghost predicate AccountableTo(rows: seq<Row>, n: nat)
    requires n <= |rows|
  {
    && (forall i :: 0 <= i < n ==> ValidRow(rows[i]))
    && (forall i, j :: 0 <= i < j < n ==> ArtifactLess(rows[i].artifact, rows[j].artifact))
    && FactTotal(rows, n) <= MAX_FACTS
    && WithinBounds(UsageOf(rows, n))
  }

  ghost predicate Accountable(rows: seq<Row>) {
    AccountableTo(rows, |rows|)
  }

  lemma PrefixAccountable(rows: seq<Row>, i: nat, n: nat)
    requires i <= n <= |rows| && AccountableTo(rows, n)
    ensures AccountableTo(rows, i)
  {
    FactsAreMonotone(rows, i, n);
    BoundsAreMonotone(rows, i, n);
  }

  lemma ExtendAccountable(rows: seq<Row>, i: nat)
    requires i < |rows| && AccountableTo(rows, i)
    ensures AccountableTo(rows, i + 1) <==>
              && (i > 0 ==> ArtifactLess(rows[i - 1].artifact, rows[i].artifact))
              && ValidRow(rows[i])
              && FactTotal(rows, i) + OwnerTotal(rows[i].references) <= MAX_FACTS
              && WithinBounds(Tally(UsageOf(rows, i), rows[i]))
  {
    if i > 0 && ArtifactLess(rows[i - 1].artifact, rows[i].artifact) {
      forall k | 0 <= k < i
        ensures ArtifactLess(rows[k].artifact, rows[i].artifact)
      {
        assert k < i - 1 ==> ArtifactLess(rows[k].artifact, rows[i - 1].artifact);
      }
    }
  }

  /** The checked accounting loop: accepts exactly the accountable inventories. */
  method StorageUsage(rows: seq<Row>) returns (r: Result<Usage>)
    ensures r.Ok? <==> Accountable(rows)
    ensures r.Ok? ==> r.value == UsageOf(rows, |rows|) && UsageExact(r.value, rows) && Balanced(r.value)
  {
    var usage := NoUsage;
    var facts := 0;
    for i := 0 to |rows|
      invariant AccountableTo(rows, i)
      invariant usage == UsageOf(rows, i) && facts == FactTotal(rows, i)
    {
      ExtendAccountable(rows, i);
      if Accountable(rows) {
        PrefixAccountable(rows, i + 1, |rows|);
      }
      var row := rows[i];
      if i > 0 && !ArtifactLess(rows[i - 1].artifact, row.artifact) {
        return Err(Invalid);
      }
      var ok := ValidateRow(row);
      if !ok {
        return Err(Invalid);
      }
      facts := facts + OwnerTotal(row.references);
      usage := Tally(usage, row);
      if facts > MAX_FACTS || !WithinBounds(usage) {
        return Err(LimitExceeded);
      }
    }
    UsageBalanced(rows, |rows|);
    UsageMeans(rows);
    r := Ok(usage);
  }
}
