/** The reviewed record set of a clean-target catalog restore. */
module RestorePlan {
  import opened Outcomes
  import opened DigestOrder

  const MAX_RECORDS: nat := 4096
  const MAX_RECORD_BYTES: nat := 16 * 1024 * 1024
  const MAX_RESTORE_BYTES: nat := MAX_RECORD_BYTES * MAX_RECORDS
  const U64_MAX: nat := 0xffff_ffff_ffff_ffff

  datatype Entry = Entry(digest: Digest, generation: nat, revision: nat, byteCount: nat)

  datatype InventoryDigest = InventoryDigest(records: seq<Entry>)

  datatype Plan = Plan(
    installation: nat,
    recordCount: nat,
    byteCount: nat,
    inventoryDigest: InventoryDigest,
    records: seq<Entry>)

  datatype PlanDigest = PlanDigest(plan: Plan)

  function DigestOf(e: Entry): Digest { e.digest }

  predicate ValidEntry(e: Entry) {
    0 < e.byteCount <= MAX_RECORD_BYTES
  }

  /** The bytes of the first `n` records. */
  function TotalBytes(es: seq<Entry>, n: nat): (total: nat)
    requires n <= |es|
  {
    if n == 0 then 0 else TotalBytes(es, n - 1) + es[n - 1].byteCount
  }

  ghost predicate ValidPlan(p: Plan) {
    && p.recordCount == |p.records| <= MAX_RECORDS
    && (forall e :: e in p.records ==> 0 < e.byteCount <= MAX_RECORD_BYTES)
    && Ordered(p.records, DigestOf)
    && p.byteCount == TotalBytes(p.records, |p.records|)
    && p.inventoryDigest == InventoryDigest(p.records)
  }

  /**
   * Plan validation as a running check. It accepts exactly the canonical plans; its
   * checked 64-bit byte total never overflows and its total bound never rejects.
   */
  method Validate(p: Plan) returns (ok: bool)
    ensures ok <==> ValidPlan(p)
  {
    if |p.records| > MAX_RECORDS || p.recordCount != |p.records| {
      return false;
    }
    var bytes := 0;
    for i := 0 to |p.records|
      invariant forall k :: 0 <= k < i ==> ValidEntry(p.records[k])
      invariant forall k, l :: 0 <= k < l < i ==> DigestOf(p.records[k]) < DigestOf(p.records[l])
      invariant bytes == TotalBytes(p.records, i) <= MAX_RECORD_BYTES * i
    {
      var record := p.records[i];
      if !ValidEntry(record) {
        return false;
      }
      if i > 0 && p.records[i - 1].digest >= record.digest {
        assert DigestOf(p.records[i - 1]) >= DigestOf(p.records[i]);
        return false;
      }
      assert bytes + record.byteCount <= U64_MAX;
      bytes := bytes + record.byteCount;
    }
    assert bytes <= MAX_RESTORE_BYTES;
    ok := p.byteCount == bytes && p.inventoryDigest == InventoryDigest(p.records);
  }

  /** The source records in canonical order, unless one is invalid or repeated. */
  function Prepare(source: seq<Entry>): (r: Result<seq<Entry>>) {
    if |source| > MAX_RECORDS then Err(Invalid)
    else if exists e :: e in source && !ValidEntry(e) then Err(Invalid)
    else if !AdjacentOrdered(Sort(source, DigestOf), DigestOf) then Err(Invalid)
    else Ok(Sort(source, DigestOf))
  }

  function PlanRestore(installation: nat, source: seq<Entry>): (r: Result<Plan>) {
    match Prepare(source)
    case Err(e) => Err(e)
    case Ok(records) =>
      Ok(Plan(installation, |records|, TotalBytes(records, |records|), InventoryDigest(records), records))
  }

  /**
   * Planning succeeds exactly on a bounded list of valid records without a repeated
   * digest, and yields a valid plan of exactly the supplied records.
   */
  lemma PlanRestoreSound(installation: nat, source: seq<Entry>)
    ensures PlanRestore(installation, source).Ok? <==>
              && |source| <= MAX_RECORDS
              && (forall e :: e in source ==> 0 < e.byteCount <= MAX_RECORD_BYTES)
              && DistinctKeys(source, DigestOf)
    ensures PlanRestore(installation, source).Ok? ==>
              var p := PlanRestore(installation, source).value;
              && ValidPlan(p)
              && Elems(p.records) == Elems(source)
              && Prepare(source) == Ok(p.records)
  {
    SortOrderedIff(source, DigestOf);
    var sorted := Sort(source, DigestOf);
    SortElems(source, DigestOf);
    if DistinctKeys(source, DigestOf) {
      SortSound(source, DigestOf);
    }
    assert forall e :: e in sorted <==> e in Elems(sorted);
  }

  /** The outcome does not depend on the order in which the records were supplied. */
  lemma PlanRestoreOrderFree(installation: nat, a: seq<Entry>, b: seq<Entry>)
    requires |a| == |b| && Elems(a) == Elems(b)
    ensures PlanRestore(installation, a) == PlanRestore(installation, b)
  {
    assert forall e :: e in a <==> e in Elems(a);
    assert forall e :: e in b <==> e in Elems(b);
    DistinctKeysAlike(a, b, DigestOf);
    SortOrderedIff(a, DigestOf);
    SortOrderedIff(b, DigestOf);
    if DistinctKeys(a, DigestOf) {
      SortSound(a, DigestOf);
      SortSound(b, DigestOf);
      OrderedUnique(Sort(a, DigestOf), Sort(b, DigestOf), DigestOf);
    }
  }
}
