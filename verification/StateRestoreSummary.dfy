/** Accounting for restore actions: what the summary counts, and that it never overflows. */
module StateRestoreSummary {
  import opened Outcomes
  import opened StateRestorePlan

  datatype Summary = Summary(
    addFiles: nat, addBytes: nat,
    replaceFiles: nat, replaceBytes: nat,
    removeFiles: nat, removeBytes: nat,
    retainFiles: nat, retainBytes: nat)

  const NoActions := Summary(0, 0, 0, 0, 0, 0, 0, 0)

  function LengthOf(e: Option<Evidence>): nat {
    if e.None? then 0 else e.value.length
  }

  function Tally(u: Summary, a: Action): Summary {
    match a.kind
    case Add => u.(addFiles := u.addFiles + 1, addBytes := u.addBytes + LengthOf(a.after))
    case Replace => u.(replaceFiles := u.replaceFiles + 1, replaceBytes := u.replaceBytes + LengthOf(a.after))
    case Remove => u.(removeFiles := u.removeFiles + 1, removeBytes := u.removeBytes + LengthOf(a.before))
    case Retain => u.(retainFiles := u.retainFiles + 1, retainBytes := u.retainBytes + LengthOf(a.after))
  }

  function SummaryOf(acts: seq<Action>, n: nat): (u: Summary)
    requires n <= |acts|
  {
    if n == 0 then NoActions else Tally(SummaryOf(acts, n - 1), acts[n - 1])
  }

  // ---- What the counters mean ----

  ghost function FilesIn(u: Summary, k: Kind): nat {
    match k
    case Add => u.addFiles
    case Replace => u.replaceFiles
    case Remove => u.removeFiles
    case Retain => u.retainFiles
  }

  ghost function BytesIn(u: Summary, k: Kind): nat {
    match k
    case Add => u.addBytes
    case Replace => u.replaceBytes
    case Remove => u.removeBytes
    case Retain => u.retainBytes
  }

  /** The first `n` actions of one kind. */
  ghost function OfKind(acts: seq<Action>, n: nat, k: Kind): set<nat>
    requires n <= |acts|
  {
    set i: nat | i < n && acts[i].kind == k
  }

  /** What those bring, or take away if they are removals. */
  ghost function Weight(acts: seq<Action>, n: nat, k: Kind): nat
    requires n <= |acts|
  {
    if n == 0 then 0
    else
      var a := acts[n - 1];
      Weight(acts, n - 1, k) +
      if a.kind != k then 0 else if k == Remove then LengthOf(a.before) else LengthOf(a.after)
  }

  /** Each kind of action is counted and weighed by itself. */
  ghost predicate CountsByKind(u: Summary, acts: seq<Action>, n: nat)
    requires n <= |acts|
  {
    forall k :: FilesIn(u, k) == |OfKind(acts, n, k)| && BytesIn(u, k) == Weight(acts, n, k)
  }

  lemma {:induction false} SummaryByKind(acts: seq<Action>, n: nat, k: Kind)
    requires n <= |acts|
    ensures FilesIn(SummaryOf(acts, n), k) == |OfKind(acts, n, k)|
    ensures BytesIn(SummaryOf(acts, n), k) == Weight(acts, n, k)
  {
    if n > 0 {
      SummaryByKind(acts, n - 1, k);
      OfKindGrows(acts, n, k);
      TallyByKind(SummaryOf(acts, n - 1), acts[n - 1], k);
    }
  }

  lemma OfKindGrows(acts: seq<Action>, n: nat, k: Kind)
    requires 0 < n <= |acts|
    ensures |OfKind(acts, n, k)| == |OfKind(acts, n - 1, k)| + if acts[n - 1].kind == k then 1 else 0
  {
    var here := if acts[n - 1].kind == k then {n - 1} else {};
    assert OfKind(acts, n, k) == OfKind(acts, n - 1, k) + here;
  }

  lemma TallyByKind(u: Summary, a: Action, k: Kind)
    ensures FilesIn(Tally(u, a), k) == FilesIn(u, k) + if a.kind == k then 1 else 0
    ensures BytesIn(Tally(u, a), k) == BytesIn(u, k) +
              if a.kind != k then 0 else if k == Remove then LengthOf(a.before) else LengthOf(a.after)
  {}

  /** No counter exceeds 64 bits. */
  ghost predicate Fits(u: Summary) {
    forall k :: FilesIn(u, k) <= U64_MAX && BytesIn(u, k) <= U64_MAX
  }

  /** The check of the counters of one kind. */
  predicate Within(files: nat, bytes: nat) {
    files <= U64_MAX && bytes <= U64_MAX
  }

  lemma {:induction false} FitsEarlier(acts: seq<Action>, i: nat, n: nat)
    requires i <= n <= |acts| && Fits(SummaryOf(acts, n))
    ensures Fits(SummaryOf(acts, i))
    decreases n
  {
    if i < n {
      var u := SummaryOf(acts, n - 1);
      forall k
        ensures FilesIn(u, k) <= U64_MAX && BytesIn(u, k) <= U64_MAX
      {
        TallyByKind(u, acts[n - 1], k);
        assert FilesIn(SummaryOf(acts, n), k) <= U64_MAX;
      }
      FitsEarlier(acts, i, n - 1);
    }
  }

  /** The checked accounting loop; fails exactly when a 64-bit counter would overflow. */
  method Summarize(acts: seq<Action>) returns (r: Result<Summary>)
    ensures r.Ok? <==> Fits(SummaryOf(acts, |acts|))
    ensures r.Ok? ==> r.value == SummaryOf(acts, |acts|) && CountsByKind(r.value, acts, |acts|)
  {
    var u := NoActions;
    for i := 0 to |acts|
      invariant u == SummaryOf(acts, i) && Fits(u)
    {
      u := Tally(u, acts[i]);
      var ok := && Within(u.addFiles, u.addBytes) && Within(u.replaceFiles, u.replaceBytes)
                && Within(u.removeFiles, u.removeBytes) && Within(u.retainFiles, u.retainBytes);
      assert ok <==> Fits(u) by {
        assert FilesIn(u, Add) == u.addFiles && FilesIn(u, Replace) == u.replaceFiles;
        assert FilesIn(u, Remove) == u.removeFiles && FilesIn(u, Retain) == u.retainFiles;
      }
      if !ok {
        if Fits(SummaryOf(acts, |acts|)) {
          FitsEarlier(acts, i + 1, |acts|);
        }
        return Err(Invalid);
      }
    }
    forall k
      ensures FilesIn(u, k) == |OfKind(acts, |acts|, k)| && BytesIn(u, k) == Weight(acts, |acts|, k)
    {
      SummaryByKind(acts, |acts|, k);
    }
    r := Ok(u);
  }

  /** The bytes that replacements take away; the summary counts what they bring. */
  function Replaced(acts: seq<Action>, n: nat): (bytes: nat)
    requires n <= |acts|
  {
    if n == 0 then 0
    else Replaced(acts, n - 1) + if acts[n - 1].kind == Replace then LengthOf(acts[n - 1].before) else 0
  }

  lemma {:induction false} BytesPrefix(es: seq<Entry>, e: Entry, n: nat)
    requires n <= |es|
    ensures Bytes(es + [e], n) == Bytes(es, n)
  {
    if n > 0 {
      BytesPrefix(es, e, n - 1);
    }
  }

  function BytesOn(acts: seq<Action>, n: nat, s: Side): nat
    requires n <= |acts|
  {
    Bytes(SideOf(acts, n, s), |SideOf(acts, n, s)|)
  }

  lemma BytesOnNext(acts: seq<Action>, n: nat, s: Side)
    requires 0 < n <= |acts|
    ensures BytesOn(acts, n, s) == BytesOn(acts, n - 1, s) + LengthOf(On(acts[n - 1], s))
    ensures |SideOf(acts, n, s)| == |SideOf(acts, n - 1, s)| + if On(acts[n - 1], s).Some? then 1 else 0
  {
    var rest, a := SideOf(acts, n - 1, s), acts[n - 1];
    if On(a, s).Some? {
      var e := Entry(a.key, a.family, On(a, s).value);
      BytesPrefix(rest, e, |rest|);
      assert SideOf(acts, n, s) == rest + [e];
    } else {
      assert SideOf(acts, n, s) == rest;
    }
  }

  ghost predicate Conserved(u: Summary, acts: seq<Action>, n: nat)
    requires n <= |acts|
  {
    && u.addFiles + u.replaceFiles + u.retainFiles == |SideOf(acts, n, After)|
    && u.removeFiles + u.replaceFiles + u.retainFiles == |SideOf(acts, n, Before)|
    && u.addBytes + u.replaceBytes + u.retainBytes == BytesOn(acts, n, After)
    && u.removeBytes + u.retainBytes + Replaced(acts, n) == BytesOn(acts, n, Before)
  }

  /** The summary's file and byte counts add up to both inventories. */
  lemma {:induction false} SummaryConserved(acts: seq<Action>, n: nat)
    requires n <= |acts| && Kinds(acts)
    ensures Conserved(SummaryOf(acts, n), acts, n)
  {
    if n > 0 {
      SummaryConserved(acts, n - 1);
      BytesOnNext(acts, n, Before);
      BytesOnNext(acts, n, After);
      assert KindOf(acts[n - 1].before, acts[n - 1].after) == Some(acts[n - 1].kind);
    }
  }

  /** Between valid inventories the accounting cannot overflow. */
  lemma SummaryFits(layout: Layout, acts: seq<Action>)
    requires Kinds(acts)
    requires ValidInventory(layout, Whole(acts, Before)) && ValidInventory(layout, Whole(acts, After))
    ensures Fits(SummaryOf(acts, |acts|))
  {
    SummaryConserved(acts, |acts|);
  }
}
