/** The bytes of a retention journal: how a torn file is read back and repaired. */
module JournalFile {
  import opened Outcomes
  import opened RetentionPlan
  import opened RetentionJournal

  type Bytes = seq<nat>

  const NEWLINE: nat := 10

  /** The canonical JSON encoding of records, as far as the journal depends on it. */
  datatype Codec = Codec(encode: Record -> Bytes, decode: Bytes -> Option<Record>)

  ghost predicate Canonical(c: Codec) {
    && (forall r :: c.decode(c.encode(r)) == Some(r))
    && (forall b :: c.decode(b).Some? ==> c.encode(c.decode(b).value) == b)
    && (forall r :: c.encode(r) != [] && NEWLINE !in c.encode(r))
    // A proper prefix of a JSON object is not a JSON value.
    && (forall r, k :: 0 <= k < |c.encode(r)| ==> c.decode(c.encode(r)[..k]) == None)
  }

  function Line(c: Codec, r: Record): Bytes {
    c.encode(r) + [NEWLINE]
  }

  function FileBytes(c: Codec, log: seq<Record>): (b: Bytes) {
    if log == [] then [] else Line(c, log[0]) + FileBytes(c, log[1..])
  }

  datatype Loaded = Loaded(progress: Progress, file: Bytes)

  /** The length of the part that ends with the last newline. */
  function CompleteLength(b: Bytes): (n: nat)
    ensures n <= |b|
    ensures n > 0 ==> b[n - 1] == NEWLINE
    ensures forall i :: n <= i < |b| ==> b[i] != NEWLINE
  {
    if b == [] then 0
    else if b[|b| - 1] == NEWLINE then |b|
    else CompleteLength(b[..|b| - 1])
  }

  function FirstNewline(b: Bytes): (k: nat)
    requires NEWLINE in b
    ensures k < |b| && b[k] == NEWLINE
    ensures forall i :: 0 <= i < k ==> b[i] != NEWLINE
  {
    if b[0] == NEWLINE then 0 else FirstNewline(b[1..]) + 1
  }

  function Feed(progress: Option<Progress>, record: Record): Result<Progress> {
    match progress
    case None => Open(record)
    case Some(p) => Continue(p, record)
  }

  /** Replaying the remaining newline-terminated text; an empty or non-canonical line is an error. */
  function Scan(c: Codec, rest: Bytes, progress: Option<Progress>): (r: Result<Option<Progress>>)
    requires rest != [] ==> rest[|rest| - 1] == NEWLINE
    decreases |rest|
  {
    if rest == [] then Ok(progress)
    else
      var k := FirstNewline(rest);
      if k == 0 || c.decode(rest[..k]).None? then Err(Invalid)
      else
        match Feed(progress, c.decode(rest[..k]).value)
        case Err(e) => Err(e)
        case Ok(p) => Scan(c, rest[k + 1..], Some(p))
  }

  function Loads(progress: Option<Progress>, file: Bytes): Result<Loaded> {
    match progress
    case None => Err(Invalid)
    case Some(p) => Ok(Loaded(p, file))
  }

  /** The unterminated rest: a complete record gains its newline, anything else is cut off. */
  function Close(c: Codec, progress: Option<Progress>, whole: Bytes, t: Bytes): (r: Result<Loaded>) {
    if t == [] then Loads(progress, whole)
    else
      match c.decode(t)
      case None => Loads(progress, whole)
      case Some(record) =>
        match Feed(progress, record)
        case Err(e) => Err(e)
        case Ok(p) => Ok(Loaded(p, whole + t + [NEWLINE]))
  }

  /** What opening a journal file means: its progress and the repaired file. */
  function Opened(c: Codec, b: Bytes): (r: Result<Loaded>) {
    var n := CompleteLength(b);
    match Scan(c, b[..n], None)
    case Err(e) => Err(e)
    case Ok(progress) => Close(c, progress, b[..n], b[n..])
  }

  /** Reading a journal file line by line, as the recovery code does. */
  method Load(c: Codec, b: Bytes) returns (r: Result<Loaded>)
    ensures r == Opened(c, b)
  {
    var n := CompleteLength(b);
    var progress: Option<Progress> := None;
    var rest := b[..n];
    while rest != []
      invariant rest != [] ==> rest[|rest| - 1] == NEWLINE
      invariant Scan(c, b[..n], None) == Scan(c, rest, progress)
      decreases |rest|
    {
      var k := FirstNewline(rest);
      if k == 0 {
        return Err(Invalid);
      }
      var record := c.decode(rest[..k]);
      if record.None? {
        return Err(Invalid);
      }
      var next := Feed(progress, record.value);
      if next.Err? {
        return Err(next.error);
      }
      progress := Some(next.value);
      rest := rest[k + 1..];
    }
    r := Close(c, progress, b[..n], b[n..]);
  }

  /** One whole line is read as its record. */
  lemma ScanLine(c: Codec, r: Record, rest: Bytes, progress: Option<Progress>)
    requires Canonical(c)
    requires rest != [] ==> rest[|rest| - 1] == NEWLINE
    requires Feed(progress, r).Ok?
    ensures Scan(c, Line(c, r) + rest, progress) == Scan(c, rest, Some(Feed(progress, r).value))
  {
    var e := c.encode(r);
    var b := Line(c, r) + rest;
    var k := FirstNewline(b);
    assert b[|e|] == NEWLINE;
    assert k >= |e| by {
      assert forall i :: 0 <= i < |e| ==> b[i] == e[i];
    }
    assert b[..k] == e && b[k + 1..] == rest;
  }

  function ProgressAfter(plan: Plan, m: nat): (p: Option<Progress>)
    requires m <= LogLength(plan)
  {
    if m == 0 then None else Some(ProgressAt(plan, m))
  }

  lemma FeedLog(plan: Plan, m: nat)
    requires ValidPlan(plan) && m < LogLength(plan)
    ensures Feed(ProgressAfter(plan, m), RecordAt(plan, m)) == Ok(ProgressAt(plan, m + 1))
  {
    if m > 0 {
      ContinueExact(plan, m, RecordAt(plan, m));
    }
  }

  lemma {:induction false} EndsWithNewline(c: Codec, log: seq<Record>)
    ensures FileBytes(c, log) != [] ==> FileBytes(c, log)[|FileBytes(c, log)| - 1] == NEWLINE
  {
    if log != [] {
      EndsWithNewline(c, log[1..]);
    }
  }

  /** The records of a journal from `i` on, and whatever follows them. */
  function Remaining(c: Codec, plan: Plan, i: nat, m: nat, rest: Bytes): (b: Bytes)
    requires i <= m <= LogLength(plan)
  {
    FileBytes(c, Log(plan, m)[i..]) + rest
  }

  lemma RemainingStep(c: Codec, plan: Plan, i: nat, m: nat, rest: Bytes)
    requires i < m <= LogLength(plan)
    ensures Remaining(c, plan, i, m, rest) == Line(c, RecordAt(plan, i)) + Remaining(c, plan, i + 1, m, rest)
  {
    var log := Log(plan, m)[i..];
    assert log[0] == RecordAt(plan, i) && log[1..] == Log(plan, m)[i + 1..];
    assert FileBytes(c, log) == Line(c, log[0]) + FileBytes(c, log[1..]);
  }

  lemma RemainingEnds(c: Codec, plan: Plan, i: nat, m: nat, rest: Bytes)
    requires i <= m <= LogLength(plan) && (rest != [] ==> rest[|rest| - 1] == NEWLINE)
    ensures var b := Remaining(c, plan, i, m, rest); b != [] ==> b[|b| - 1] == NEWLINE
  {
    EndsWithNewline(c, Log(plan, m)[i..]);
  }

  /** The records of a journal are read one by one, whatever follows them. */
  lemma {:induction false} ScanLog(c: Codec, plan: Plan, i: nat, m: nat, rest: Bytes)
    requires Canonical(c) && ValidPlan(plan) && i <= m <= LogLength(plan)
    requires rest != [] ==> rest[|rest| - 1] == NEWLINE
    requires var b := Remaining(c, plan, i, m, rest); b != [] ==> b[|b| - 1] == NEWLINE
    ensures Scan(c, Remaining(c, plan, i, m, rest), ProgressAfter(plan, i)) == Scan(c, rest, ProgressAfter(plan, m))
    decreases m - i
  {
    if i == m {
      assert Remaining(c, plan, i, m, rest) == rest;
    } else {
      RemainingEnds(c, plan, i + 1, m, rest);
      ScanLog(c, plan, i + 1, m, rest);
      FeedLog(plan, i);
      ScanLine(c, RecordAt(plan, i), Remaining(c, plan, i + 1, m, rest), ProgressAfter(plan, i));
      RemainingStep(c, plan, i, m, rest);
    }
  }

  lemma {:induction false} FileBytesAppend(c: Codec, log: seq<Record>, r: Record)
    ensures FileBytes(c, log + [r]) == FileBytes(c, log) + Line(c, r)
  {
    if log == [] {
      assert FileBytes(c, [r]) == Line(c, r) + FileBytes(c, []);
    } else {
      assert (log + [r])[1..] == log[1..] + [r];
      FileBytesAppend(c, log[1..], r);
    }
  }

  lemma SplitAtNewline(whole: Bytes, t: Bytes)
    requires NEWLINE !in t
    requires whole != [] ==> whole[|whole| - 1] == NEWLINE
    ensures CompleteLength(whole + t) == |whole|
  {
    var b := whole + t;
    assert forall i :: |whole| <= i < |b| ==> b[i] == t[i - |whole|];
    assert |whole| > 0 ==> b[|whole| - 1] == whole[|whole| - 1];
  }

  /** Whole records followed by a newline-free rest. */
  lemma OpenedSplit(c: Codec, plan: Plan, m: nat, t: Bytes)
    requires Canonical(c) && ValidPlan(plan) && m <= LogLength(plan) && NEWLINE !in t
    ensures Opened(c, FileBytes(c, Log(plan, m)) + t) ==
            Close(c, ProgressAfter(plan, m), FileBytes(c, Log(plan, m)), t)
  {
    var whole := FileBytes(c, Log(plan, m));
    EndsWithNewline(c, Log(plan, m));
    SplitAtNewline(whole, t);
    assert Log(plan, m)[0..] == Log(plan, m);
    RemainingEnds(c, plan, 0, m, []);
    ScanLog(c, plan, 0, m, []);
    assert Remaining(c, plan, 0, m, []) == whole;
    assert (whole + t)[..|whole|] == whole && (whole + t)[|whole|..] == t;
  }

  /** How many records a file of `k` bytes of the journal of `plan` holds, the last one's newline aside. */
  ghost predicate Holds(c: Codec, plan: Plan, k: nat, m: nat) {
    && m <= LogLength(plan)
    && |FileBytes(c, Log(plan, m))| <= k + 1
    && (m > 0 || k < |c.encode(RecordAt(plan, 0))|)
    && (m < LogLength(plan) ==> k + 1 < |FileBytes(c, Log(plan, m + 1))|)
  }

  lemma LogGrows(c: Codec, plan: Plan, m: nat)
    requires m < LogLength(plan)
    ensures FileBytes(c, Log(plan, m + 1)) == FileBytes(c, Log(plan, m)) + Line(c, RecordAt(plan, m))
  {
    assert Log(plan, m + 1) == Log(plan, m) + [RecordAt(plan, m)];
    FileBytesAppend(c, Log(plan, m), RecordAt(plan, m));
  }

  lemma {:induction false} LogIsPrefix(c: Codec, plan: Plan, m: nat, n: nat)
    requires m <= n <= LogLength(plan)
    ensures FileBytes(c, Log(plan, m)) <= FileBytes(c, Log(plan, n))
    decreases n
  {
    if m < n {
      LogIsPrefix(c, plan, m, n - 1);
      LogGrows(c, plan, n - 1);
    }
  }

  /** The whole records before byte `k`, and the torn rest. */
  lemma {:induction false} Locate(c: Codec, plan: Plan, k: nat, n: nat) returns (m: nat)
    requires n <= LogLength(plan) && k <= |FileBytes(c, Log(plan, n))|
    ensures m <= n && |FileBytes(c, Log(plan, m))| <= k
    ensures m < n ==> k < |FileBytes(c, Log(plan, m + 1))|
    ensures m == n ==> k == |FileBytes(c, Log(plan, n))|
    decreases n
  {
    if n == 0 || k == |FileBytes(c, Log(plan, n))| {
      m := n;
    } else {
      LogGrows(c, plan, n - 1);
      if k >= |FileBytes(c, Log(plan, n - 1))| {
        m := n - 1;
      } else {
        m := Locate(c, plan, k, n - 1);
      }
    }
  }

  /**
   * However many bytes of a journal survive an interruption, reopening it yields exactly
   * the progress of the records that are there, and repairs the file to exactly those
   * records. Only a file that does not even hold its first record cannot be opened.
   */
  lemma TornJournal(c: Codec, plan: Plan, k: nat) returns (m: nat)
    requires Canonical(c) && ValidPlan(plan)
    requires k <= |FileBytes(c, Log(plan, LogLength(plan)))|
    ensures Holds(c, plan, k, m)
    ensures Opened(c, FileBytes(c, Log(plan, LogLength(plan)))[..k]).Ok? <==> m > 0
    ensures m > 0 ==> Opened(c, FileBytes(c, Log(plan, LogLength(plan)))[..k]) ==
                      Ok(Loaded(ProgressAt(plan, m), FileBytes(c, Log(plan, m))))
  {
    var full := LogLength(plan);
    var w := Locate(c, plan, k, full);
    LogIsPrefix(c, plan, w, full);
    assert Log(plan, 0) == [];
    if w == full {
      m := w;
      assert FileBytes(c, Log(plan, full))[..k] == FileBytes(c, Log(plan, w)) + [];
      OpenedSplit(c, plan, w, []);
    } else {
      m := TornRecord(c, plan, w, k);
    }
  }

  /** A whole record without its newline is read, and gains the newline. */
  lemma BareRecord(c: Codec, plan: Plan, w: nat)
    requires Canonical(c) && ValidPlan(plan) && w < LogLength(plan)
    ensures Opened(c, FileBytes(c, Log(plan, w)) + c.encode(RecordAt(plan, w))) ==
            Ok(Loaded(ProgressAt(plan, w + 1), FileBytes(c, Log(plan, w + 1))))
  {
    var whole, e := FileBytes(c, Log(plan, w)), c.encode(RecordAt(plan, w));
    OpenedSplit(c, plan, w, e);
    FeedLog(plan, w);
    LogGrows(c, plan, w);
    assert whole + e + [NEWLINE] == FileBytes(c, Log(plan, w + 1));
  }

  /** Part of a record is cut off. */
  lemma PartRecord(c: Codec, plan: Plan, w: nat, n: nat)
    requires Canonical(c) && ValidPlan(plan) && w < LogLength(plan) && n < |c.encode(RecordAt(plan, w))|
    ensures Opened(c, FileBytes(c, Log(plan, w)) + c.encode(RecordAt(plan, w))[..n]) ==
            if w == 0 then Err(Invalid) else Ok(Loaded(ProgressAt(plan, w), FileBytes(c, Log(plan, w))))
  {
    OpenedSplit(c, plan, w, c.encode(RecordAt(plan, w))[..n]);
  }

  lemma TornRecord(c: Codec, plan: Plan, w: nat, k: nat) returns (m: nat)
    requires Canonical(c) && ValidPlan(plan) && w < LogLength(plan)
    requires |FileBytes(c, Log(plan, w))| <= k < |FileBytes(c, Log(plan, w + 1))|
    ensures Holds(c, plan, k, m)
    ensures k <= |FileBytes(c, Log(plan, LogLength(plan)))|
    ensures Opened(c, FileBytes(c, Log(plan, LogLength(plan)))[..k]) ==
            if m == 0 then Err(Invalid) else Ok(Loaded(ProgressAt(plan, m), FileBytes(c, Log(plan, m))))
  {
    var full, n := LogLength(plan), k - |FileBytes(c, Log(plan, w))|;
    var whole, e := FileBytes(c, Log(plan, w)), c.encode(RecordAt(plan, w));
    LogGrows(c, plan, w);
    CutInRecord(c, plan, w, k);
    assert Log(plan, 0) == [];
    if n == |e| {
      m := w + 1;
      assert e[..n] == e;
      BareRecord(c, plan, w);
      if w + 1 < full {
        LogGrows(c, plan, w + 1);
      }
    } else {
      m := w;
      PartRecord(c, plan, w, n);
    }
  }

  /** A journal cut inside a record is the records before it and part of that one. */
  lemma CutInRecord(c: Codec, plan: Plan, w: nat, k: nat)
    requires w < LogLength(plan) && |FileBytes(c, Log(plan, w))| <= k < |FileBytes(c, Log(plan, w + 1))|
    ensures k <= |FileBytes(c, Log(plan, LogLength(plan)))|
    ensures var n := k - |FileBytes(c, Log(plan, w))|;
            && n <= |c.encode(RecordAt(plan, w))|
            && FileBytes(c, Log(plan, LogLength(plan)))[..k] ==
               FileBytes(c, Log(plan, w)) + c.encode(RecordAt(plan, w))[..n]
  {
    LogGrows(c, plan, w);
    LogIsPrefix(c, plan, w + 1, LogLength(plan));
  }

  // ---- Exactly what can be opened ----

  /** Text that is accepted begins with the line of a record. */
  lemma FirstLine(c: Codec, rest: Bytes, progress: Option<Progress>) returns (r: Record, more: Bytes)
    requires Canonical(c) && rest != [] && rest[|rest| - 1] == NEWLINE && Scan(c, rest, progress).Ok?
    ensures rest == Line(c, r) + more && Feed(progress, r).Ok?
    ensures more != [] ==> more[|more| - 1] == NEWLINE
    ensures Scan(c, rest, progress) == Scan(c, more, Some(Feed(progress, r).value))
  {
    var k := FirstNewline(rest);
    r, more := c.decode(rest[..k]).value, rest[k + 1..];
    assert c.encode(r) == rest[..k];
    assert rest == rest[..k] + [rest[k]] + more;
  }

  lemma NextLine(c: Codec, plan: Plan, m: nat, rest: Bytes) returns (more: Bytes)
    requires Canonical(c) && 1 <= m <= LogLength(plan) && rest != [] && rest[|rest| - 1] == NEWLINE
    requires Scan(c, rest, Some(ProgressAt(plan, m))).Ok?
    ensures m < LogLength(plan) && |more| < |rest| && (more != [] ==> more[|more| - 1] == NEWLINE)
    ensures FileBytes(c, Log(plan, m)) + rest == FileBytes(c, Log(plan, m + 1)) + more
    ensures Scan(c, rest, Some(ProgressAt(plan, m))) == Scan(c, more, Some(ProgressAt(plan, m + 1)))
  {
    var r;
    r, more := FirstLine(c, rest, Some(ProgressAt(plan, m)));
    ContinueExact(plan, m, r);
    LogGrows(c, plan, m);
  }

  /** The lines read after the first `m` records can only be the plan's next records. */
  lemma {:induction false} ScanInverse(c: Codec, plan: Plan, m: nat, rest: Bytes) returns (n: nat)
    requires Canonical(c) && 1 <= m <= LogLength(plan) && (rest != [] ==> rest[|rest| - 1] == NEWLINE)
    requires Scan(c, rest, Some(ProgressAt(plan, m))).Ok?
    ensures m <= n <= LogLength(plan) && FileBytes(c, Log(plan, m)) + rest == FileBytes(c, Log(plan, n))
    ensures Scan(c, rest, Some(ProgressAt(plan, m))) == Ok(Some(ProgressAt(plan, n)))
    decreases |rest|
  {
    if rest == [] {
      n := m;
    } else {
      var more := NextLine(c, plan, m, rest);
      n := ScanInverse(c, plan, m + 1, more);
    }
  }

  lemma FirstRecord(c: Codec, plan: Plan, r: Record)
    requires Open(r).Ok? && plan == r.state.plan
    ensures ValidPlan(plan) && r == RecordAt(plan, 0) && Open(r) == Ok(ProgressAt(plan, 1))
    ensures FileBytes(c, Log(plan, 1)) == Line(c, r)
  {
    assert Log(plan, 0) == [];
    LogGrows(c, plan, 0);
  }

  lemma ScanFromStart(c: Codec, rest: Bytes) returns (plan: Plan, n: nat)
    requires Canonical(c) && rest != [] && rest[|rest| - 1] == NEWLINE && Scan(c, rest, None).Ok?
    ensures ValidPlan(plan) && 1 <= n <= LogLength(plan) && rest == FileBytes(c, Log(plan, n))
    ensures Scan(c, rest, None) == Ok(Some(ProgressAt(plan, n)))
  {
    var r, more := FirstLine(c, rest, None);
    plan := r.state.plan;
    FirstRecord(c, plan, r);
    n := ScanInverse(c, plan, 1, more);
  }

  /** Some records of a valid plan's journal, then nothing, an unreadable rest or the next record. */
  ghost predicate IsJournalFile(c: Codec, b: Bytes, plan: Plan, m: nat, t: Bytes) {
    && ValidPlan(plan) && m <= LogLength(plan) && NEWLINE !in t && b == FileBytes(c, Log(plan, m)) + t
    && ((m > 0 && (t == [] || c.decode(t).None?)) || (m < LogLength(plan) && t == c.encode(RecordAt(plan, m))))
  }

  lemma Readable(c: Codec, b: Bytes) returns (plan: Plan, m: nat, t: Bytes)
    requires Canonical(c) && Opened(c, b).Ok?
    ensures IsJournalFile(c, b, plan, m, t)
  {
    var n := CompleteLength(b);
    t := b[n..];
    assert b == b[..n] + t;
    if n > 0 {
      plan, m := ScanFromStart(c, b[..n]);
      if t != [] && c.decode(t).Some? {
        ContinueExact(plan, m, c.decode(t).value);
      }
    } else {
      plan, m := c.decode(t).value.state.plan, 0;
      assert c.decode(t).value == RecordAt(plan, 0) && Log(plan, 0) == [];
    }
  }

  /** Of all byte strings, exactly these can be opened, and what is read is what is there. */
  lemma OpenedIff(c: Codec, b: Bytes)
    requires Canonical(c)
    ensures Opened(c, b).Ok? <==> exists plan, m: nat, t :: IsJournalFile(c, b, plan, m, t)
    ensures forall plan, m: nat, t :: IsJournalFile(c, b, plan, m, t) ==>
              var n := if t != [] && c.decode(t).Some? then m + 1 else m;
              1 <= n <= LogLength(plan) && Opened(c, b) == Ok(Loaded(ProgressAt(plan, n), FileBytes(c, Log(plan, n))))
  {
    forall plan, m: nat, t | IsJournalFile(c, b, plan, m, t)
      ensures var n := if t != [] && c.decode(t).Some? then m + 1 else m;
              1 <= n <= LogLength(plan) && Opened(c, b) == Ok(Loaded(ProgressAt(plan, n), FileBytes(c, Log(plan, n))))
    {
      if t != [] && c.decode(t).Some? {
        BareRecord(c, plan, m);
      } else {
        OpenedSplit(c, plan, m, t);
      }
    }
    if Opened(c, b).Ok? {
      var plan, m, t := Readable(c, b);
    }
  }

  // ---- Two readers at once ----

  /** What one reader does to the file after it has read it. */
  datatype Repair = Keep | AppendNewline | Truncate(length: nat)

  function RepairOf(c: Codec, b: Bytes): Repair {
    var n := CompleteLength(b);
    if b[n..] == [] then Keep
    else if c.decode(b[n..]).Some? then AppendNewline
    else Truncate(n)
  }

  function Repaired(r: Repair, b: Bytes): Bytes {
    match r
    case Keep => b
    case AppendNewline => b + [NEWLINE]
    case Truncate(n) => if n <= |b| then b[..n] else b
  }

  /** A reader alone leaves the file that opening it means. */
  lemma OneReader(c: Codec, b: Bytes)
    requires Opened(c, b).Ok?
    ensures Opened(c, b).value.file == Repaired(RepairOf(c, b), b)
  {
    var n := CompleteLength(b);
    assert b == b[..n] + b[n..];
    assert b[n..] == [] ==> b[..n] == b;
  }

  /** Two readers that both read the file before either repairs it. */
  function ReadTwice(c: Codec, b: Bytes): Bytes {
    Repaired(RepairOf(c, b), Repaired(RepairOf(c, b), b))
  }

  /** An empty line after the records is never accepted again. */
  lemma DoubleNewline(c: Codec, plan: Plan, m: nat)
    requires Canonical(c) && ValidPlan(plan) && m <= LogLength(plan)
    ensures Opened(c, FileBytes(c, Log(plan, m)) + [NEWLINE]).Err?
  {
    var b := FileBytes(c, Log(plan, m)) + [NEWLINE];
    assert Log(plan, m)[0..] == Log(plan, m);
    RemainingEnds(c, plan, 0, m, [NEWLINE]);
    ScanLog(c, plan, 0, m, [NEWLINE]);
    assert Remaining(c, plan, 0, m, [NEWLINE]) == b && b[..|b|] == b;
  }

  lemma Tails(c: Codec, plan: Plan, m: nat, t: Bytes)
    requires Canonical(c) && m <= LogLength(plan) && NEWLINE !in t
    ensures var whole := FileBytes(c, Log(plan, m));
            RepairOf(c, whole + t) ==
            if t == [] then Keep else if c.decode(t).Some? then AppendNewline else Truncate(|whole|)
  {
    var whole := FileBytes(c, Log(plan, m));
    EndsWithNewline(c, Log(plan, m));
    SplitAtNewline(whole, t);
    assert (whole + t)[|whole|..] == t;
  }

  /**
   * Readers hold a shared lock, and each repairs the tail. Two that meet a readable journal
   * leave what one does, except exactly when it ends in a whole record without its newline:
   * then they leave a file that cannot be opened.
   */
  lemma TwoReaders(c: Codec, b: Bytes)
    requires Canonical(c) && Opened(c, b).Ok?
    ensures RepairOf(c, b) == AppendNewline ==> Opened(c, ReadTwice(c, b)).Err?
    ensures RepairOf(c, b) != AppendNewline ==> Opened(c, ReadTwice(c, b)) == Opened(c, b)
  {
    var plan, m, t := Readable(c, b);
    Tails(c, plan, m, t);
    if t != [] && c.decode(t).Some? {
      BareReadTwice(c, plan, m);
    } else {
      OpenedSplit(c, plan, m, t);
      OpenedSplit(c, plan, m, []);
      var whole := FileBytes(c, Log(plan, m));
      assert whole + [] == whole && ReadTwice(c, b) == whole;
    }
  }

  lemma BareReadTwice(c: Codec, plan: Plan, w: nat)
    requires Canonical(c) && ValidPlan(plan) && w < LogLength(plan)
    ensures var b := FileBytes(c, Log(plan, w)) + c.encode(RecordAt(plan, w));
            Opened(c, b).Ok? && Opened(c, ReadTwice(c, b)).Err?
  {
    var whole, e := FileBytes(c, Log(plan, w)), c.encode(RecordAt(plan, w));
    BareRecord(c, plan, w);
    Tails(c, plan, w, e);
    LogGrows(c, plan, w);
    assert ReadTwice(c, whole + e) == FileBytes(c, Log(plan, w + 1)) + [NEWLINE];
    DoubleNewline(c, plan, w + 1);
  }
}
