/** The quotas of the recording file system, tied to what it has recorded. */
module AuditQuotas {
  import opened Outcomes
  import opened NativeReader
  import opened AuditFileSystem
  import opened AuditRuns

  // --- What the record holds ---------------------------------------------------------------

  function BytesOf(o: Observation): nat {
    if o.bytes.Some? then |o.bytes.value| else 0
  }

  function EntriesOf(o: Observation): nat {
    if o.entries.Some? then |o.entries.value| else 0
  }

  /** The text one answer records; the physical path of opened content counts twice. */
  function TextOf(o: Observation): nat {
    (if o.kind == OpenQuery then 2 else 1) * |o.physical|
    + (if o.entries.Some? then TotalLength(o.entries.value) else 0)
  }

  function TotalBytes(os: seq<Observation>): nat {
    if os == [] then 0 else TotalBytes(os[..|os| - 1]) + BytesOf(os[|os| - 1])
  }

  function TotalEntries(os: seq<Observation>): nat {
    if os == [] then 0 else TotalEntries(os[..|os| - 1]) + EntriesOf(os[|os| - 1])
  }

  /** All recorded text; every query name counts eight times. */
  function TotalText(os: seq<Observation>): nat {
    if os == [] then 0 else TotalText(os[..|os| - 1]) + 8 * |os[|os| - 1].path| + TextOf(os[|os| - 1])
  }

  predicate Small(limits: Limits, o: Observation) {
    && (o.bytes.Some? ==> |o.bytes.value| <= limits.maxFileBytes)
    && (o.entries.Some? ==> |o.entries.value| <= limits.maxDirectoryEntries)
    && |o.path| <= limits.maxPathBytes
  }

  /** The counters account for the record, and each recorded answer keeps its own limits. */
  ghost predicate Ledger(limits: Limits, s: State) {
    && TotalBytes(s.observations) <= s.work.capturedBytes
    && TotalEntries(s.observations) == s.work.directoryEntries
    && TotalText(s.observations) <= s.work.stringBytes
    && WithinQuotas(limits, s.work) && |s.observations| <= limits.maxQueries
    && (forall i :: 0 <= i < |s.observations| ==> Small(limits, s.observations[i]))
  }

  // --- Each kind of observation --------------------------------------------------------------

  /** The counters grow by what the answer records, and stay within the quotas. */
  predicate Charged(limits: Limits, a: Work, b: Work, bytes: nat, entries: nat, text: nat) {
    && b.capturedBytes >= a.capturedBytes + bytes
    && b.directoryEntries == a.directoryEntries + entries
    && b.stringBytes >= a.stringBytes + text
    && (WithinQuotas(limits, a) ==> WithinQuotas(limits, b))
  }

  predicate Accounted(limits: Limits, w: Work, path: string, r: (Work, Observation)) {
    && r.1.path == path && (|path| <= limits.maxPathBytes ==> Small(limits, r.1))
    && Charged(limits, w, r.0, BytesOf(r.1), EntriesOf(r.1), TextOf(r.1))
  }

  lemma ChargedThen(limits: Limits, a: Work, b: Work, c: Work, n: nat, bytes: nat, entries: nat, text: nat)
    requires Charged(limits, a, b, 0, 0, n) && Charged(limits, b, c, bytes, entries, text)
    ensures Charged(limits, a, c, bytes, entries, n + text)
  {}

  lemma ChargeCharged(limits: Limits, w: Work, n: nat)
    ensures Charged(limits, w, Charge(limits, w, n), 0, 0, if Affordable(limits, w, n) then n else 0)
    ensures Charge(limits, w, n).capturedBytes == w.capturedBytes
  {}

  lemma NoteCharged(limits: Limits, w: Work, path: string, meta: Meta)
    ensures Charged(limits, w, Note(w, path, meta), 0, 0, 0)
    ensures Note(w, path, meta).capturedBytes == w.capturedBytes
  {}

  lemma FailCharged(limits: Limits, w: Work, reason: string)
    ensures Charged(limits, w, Fail(w, reason), 0, 0, 0)
    ensures Fail(w, reason).capturedBytes == w.capturedBytes
  {}

  lemma StatusAccounted(cfg: Config, w: Work, path: string, world: World)
    ensures Accounted(cfg.limits, w, path, ObserveStatus(cfg, w, path, world))
  {
    if path !in w.statuses && world.status.Ok? {
      var noted := Note(w, path, world.status.value);
      NoteCharged(cfg.limits, w, path, world.status.value);
      if Matches(w, path, world.status.value) && world.realPath.Ok? {
        var n := |world.realPath.value|;
        var charged := Charge(cfg.limits, noted, n);
        ChargeCharged(cfg.limits, noted, n);
        ChargedThen(cfg.limits, w, noted, charged, 0, 0, 0, if Affordable(cfg.limits, noted, n) then n else 0);
        FailCharged(cfg.limits, noted, "metadata target changed while resolving");
        FailCharged(cfg.limits, noted, "resolved path limit exceeded");
      }
    }
  }

  /** The content's bytes are counted after its names are charged. */
  lemma CapturedCharged(limits: Limits, a: Work, b: Work, c: Work, n: nat, bytes: nat)
    requires Charged(limits, a, b, 0, 0, n) && b.capturedBytes == a.capturedBytes
    requires a.capturedBytes <= limits.maxTotalFileBytes ==> a.capturedBytes + bytes <= limits.maxTotalFileBytes
    requires c.capturedBytes == b.capturedBytes + bytes
    requires c.stringBytes == b.stringBytes && c.directoryEntries == b.directoryEntries
    ensures Charged(limits, a, c, bytes, 0, n)
  {}

  lemma CaptureAccounted(cfg: Config, w: Work, path: string, current: Snapshot)
    requires |current.bytes| <= RemainingFileBytes(cfg, w)
    ensures Accounted(cfg.limits, w, path, Capture(cfg, w, path, current))
  {
    var n := 2 * |current.physical|;
    var charged := Charge(cfg.limits, w, n);
    ChargeCharged(cfg.limits, w, n);
    if Affordable(cfg.limits, w, n) {
      var noted := Note(charged, path, current.meta);
      NoteCharged(cfg.limits, charged, path, current.meta);
      if Matches(charged, path, current.meta) {
        var (last, o) := Capture(cfg, w, path, current);
        CapturedCharged(cfg.limits, w, noted, last, n, |current.bytes|);
        CapturedSmall(cfg, w, path, current);
      }
    }
  }

  lemma CapturedSmall(cfg: Config, w: Work, path: string, current: Snapshot)
    requires |current.bytes| <= RemainingFileBytes(cfg, w)
    ensures var o := Capture(cfg, w, path, current).1;
      && o.path == path && (|path| <= cfg.limits.maxPathBytes ==> Small(cfg.limits, o))
      && BytesOf(o) <= |current.bytes| && EntriesOf(o) == 0 && TextOf(o) <= 2 * |current.physical|
  {}

  lemma OpenAccounted(cfg: Config, w: Work, path: string, status: Option<Observation>, resolved: Option<Observation>, world: World)
    ensures Accounted(cfg.limits, w, path, ObserveOpen(cfg, w, path, status, resolved, world))
  {
    ReadBounded(cfg, w, path, world);
    match ReadFile(path, cfg.policy, RemainingFileBytes(cfg, w), cfg.limits.maxPathBytes, world.file)
    case Err(_) =>
    case Ok(current) => CaptureAccounted(cfg, w, path, current);
  }

  lemma RealPathAccounted(cfg: Config, w: Work, path: string, prior: Option<string>, world: World)
    ensures Accounted(cfg.limits, w, path, ObserveRealPath(cfg, w, path, prior, world))
  {}

  lemma {:induction false} EntriesCharged(limits: Limits, w: Work, entries: seq<string>)
    ensures var last := ChargeEntries(limits, w, entries);
      && last.capturedBytes == w.capturedBytes && last.directoryEntries == w.directoryEntries
      && last.stringBytes >= w.stringBytes
      && (WithinQuotas(limits, w) ==> WithinQuotas(limits, last))
      && (EntriesAffordable(limits, w, entries) ==> last.stringBytes == w.stringBytes + TotalLength(entries))
    decreases entries
  {
    if entries != [] {
      EntriesCharged(limits, Charge(limits, w, |entries[0]|), entries[1..]);
    }
  }

  lemma EnumeratedAccounted(cfg: Config, a: Work, w: Work, path: string, current: DirectorySnapshot)
    requires |current.entries| <= RemainingEntries(cfg, a) && w.directoryEntries == a.directoryEntries
    requires Charged(cfg.limits, a, w, 0, 0, |current.physical|)
    ensures Accounted(cfg.limits, a, path, Enumerated(cfg, w, path, current))
  {
    EntriesCharged(cfg.limits, w, current.entries);
  }

  lemma DirectoryAccounted(cfg: Config, w: Work, path: string, world: World)
    ensures Accounted(cfg.limits, w, path, ObserveDirectory(cfg, w, path, world))
  {
    var read := ReadDirectory(path, cfg.policy, RemainingEntries(cfg, w), RemainingStrings(cfg, w), cfg.limits.maxPathBytes, world.directory);
    if read.Ok? {
      var current := read.value;
      var n := |current.physical|;
      ListEntriesExact(path, world.directory.names, RemainingEntries(cfg, w), RemainingStrings(cfg, w), cfg.limits.maxPathBytes);
      var noted := Note(w, path, current.meta);
      NoteCharged(cfg.limits, w, path, current.meta);
      var charged := Charge(cfg.limits, noted, n);
      ChargeCharged(cfg.limits, noted, n);
      ChargedThen(cfg.limits, w, noted, charged, 0, 0, 0, if Affordable(cfg.limits, noted, n) then n else 0);
      if Matches(w, path, current.meta) && Affordable(cfg.limits, noted, n) {
        EnumeratedAccounted(cfg, w, charged, path, current);
      }
    } else {
      FailCharged(cfg.limits, w, "directory observation failed");
    }
  }

  lemma ObserveAccounted(cfg: Config, s: State, kind: QueryKind, path: string, prior: Option<string>, world: World)
    requires KeysAgree(s)
    ensures Accounted(cfg.limits, s.work, path, Observe(cfg, s, kind, path, prior, world))
  {
    match kind
    case StatusQuery => StatusAccounted(cfg, s.work, path, world);
    case OpenQuery => OpenAccounted(cfg, s.work, path, Earlier(s, StatusQuery, path), Earlier(s, RealPathQuery, path), world);
    case RealPathQuery => RealPathAccounted(cfg, s.work, path, prior, world);
    case DirectoryQuery => DirectoryAccounted(cfg, s.work, path, world);
    case LocalityQuery =>
  }

  lemma CrossCheckAccounted(limits: Limits, w: Work, path: string, r: (Work, Observation), prior: Option<string>)
    requires Accounted(limits, w, path, r)
    ensures Accounted(limits, w, path, CrossCheck(r.0, r.1, prior))
  {
    var (last, o) := CrossCheck(r.0, r.1, prior);
    assert o == r.1.(error := o.error);
    assert BytesOf(o) == BytesOf(r.1) && EntriesOf(o) == EntriesOf(r.1) && TextOf(o) == TextOf(r.1);
    FailCharged(limits, r.0, "physical target changed between observations");
    FailCharged(limits, r.0, "existing input disappeared between observations");
  }

  lemma RecordedAccounted(cfg: Config, s: State, index: nat, world: World)
    requires KeysAgree(s) && index < |s.observations|
    ensures Accounted(cfg.limits, s.work, s.observations[index].path, Recorded(cfg, s, index, world))
  {
    var kind, path := s.observations[index].kind, s.observations[index].path;
    match Settled(s, index, CROSS_CHECKED, None)
    case Err(_) =>
    case Ok(prior) =>
      ObserveAccounted(cfg, s, kind, path, prior, world);
      CrossCheckAccounted(cfg.limits, s.work, path, Observe(cfg, s, kind, path, prior, world), prior);
  }

  // --- Runs ----------------------------------------------------------------------------------------

  lemma {:induction false} TotalsNext(os: seq<Observation>, o: Observation)
    ensures TotalBytes(os + [o]) == TotalBytes(os) + BytesOf(o)
    ensures TotalEntries(os + [o]) == TotalEntries(os) + EntriesOf(o)
    ensures TotalText(os + [o]) == TotalText(os) + 8 * |o.path| + TextOf(o)
  {
    assert (os + [o])[..|os|] == os;
  }

  lemma LedgerNext(limits: Limits, s: State, t: State, charged: Work, o: Observation)
    requires Ledger(limits, s) && |s.observations| < limits.maxQueries
    requires charged.capturedBytes == s.work.capturedBytes && charged.directoryEntries == s.work.directoryEntries
    requires charged.stringBytes == s.work.stringBytes + 8 * |o.path| && WithinQuotas(limits, charged)
    requires t.observations == s.observations + [o] && Small(limits, o)
    requires Charged(limits, charged, t.work, BytesOf(o), EntriesOf(o), TextOf(o))
    ensures Ledger(limits, t)
  {
    TotalsNext(s.observations, o);
  }

  /** Recording one answered query, its name charged before. */
  lemma AppendLedger(cfg: Config, s: State, kind: QueryKind, path: string, world: World, w: Work)
    requires KeysAgree(s) && (kind, path) !in s.indices && Ledger(cfg.limits, s)
    requires |s.observations| < cfg.limits.maxQueries && |path| <= cfg.limits.maxPathBytes
    requires w == Charge(cfg.limits, s.work, 8 * |path|) && Affordable(cfg.limits, s.work, 8 * |path|)
    ensures KeysAgree(Append(s.(work := w), kind, path))
    ensures Ledger(cfg.limits, Record(cfg, Append(s.(work := w), kind, path), |s.observations|, world))
  {
    var charged := s.(work := w);
    AppendAgrees(charged, kind, path);
    var s1, index := Append(charged, kind, path), |s.observations|;
    var (last, o) := Recorded(cfg, s1, index, world);
    RecordedAccounted(cfg, s1, index, world);
    RecordedLast(cfg, charged, kind, path, world);
    LedgerNext(cfg.limits, s, Record(cfg, s1, index, world), w, o);
  }

  lemma QueryNewLedger(cfg: Config, s: State, kind: QueryKind, name: string, world: World)
    requires KeysAgree(s) && Ledger(cfg.limits, s) && (kind, name) !in s.indices && |name| <= cfg.limits.maxPathBytes
    ensures Ledger(cfg.limits, QueryNew(cfg, s, kind, name, world).0)
  {
    if !s.isSealed && |s.observations| < cfg.limits.maxQueries && |name| <= MAX_SIZE / 8
       && Affordable(cfg.limits, s.work, 8 * |name|)
    {
      AppendLedger(cfg, s, kind, name, world, Charge(cfg.limits, s.work, 8 * |name|));
    }
  }

  lemma QueryLedger(cfg: Config, s: State, kind: QueryKind, text: string, world: World)
    requires KeysAgree(s) && Ledger(cfg.limits, s)
    ensures Ledger(cfg.limits, Query(cfg, s, kind, text, world).0)
  {
    var (w, name) := Absolute(cfg, s.work, text);
    if Complete(s) && name.Ok? && (kind, name.value) !in s.indices {
      QueryNewLedger(cfg, s, kind, name.value, world);
    }
  }

  lemma ApplyLedger(cfg: Config, s: State, op: Op)
    requires KeysAgree(s) && Ledger(cfg.limits, s)
    ensures Ledger(cfg.limits, Apply(cfg, s, op))
  {
    match op
    case Ask(kind, text, world) => QueryLedger(cfg, s, kind, text, world);
    case Seal =>
    case Change(text) =>
      AbsoluteSteps(cfg, s.work, text);
      SameWork(cfg, s, text);
  }

  lemma SameWork(cfg: Config, s: State, text: string)
    ensures var s1 := ChangeDirectory(cfg, s, text).0;
      s1 == s.(work := s.work.(failure := s1.work.failure))
  {}

  /**
   Every quota, in every reachable state and against every disk: the counters never exceed their
   limits, they account for all recorded content, entries and text, and no single file, directory
   or path is larger than allowed.
   */
  lemma {:induction false} RunKeepsLedger(cfg: Config, s: State, ops: seq<Op>)
    requires KeysAgree(s) && Ledger(cfg.limits, s)
    ensures Ledger(cfg.limits, Run(cfg, s, ops))
    decreases ops
  {
    if ops != [] {
      ApplyLedger(cfg, s, ops[0]);
      ApplyEvolves(cfg, s, ops[0]);
      RunKeepsLedger(cfg, Apply(cfg, s, ops[0]), ops[1..]);
    }
  }

  lemma {:induction false} QuotasHold(cfg: Config, cwdAvailable: bool, ops: seq<Op>)
    ensures var s := Run(cfg, Initial(cfg, cwdAvailable), ops);
      && TotalBytes(s.observations) <= cfg.limits.maxTotalFileBytes
      && TotalEntries(s.observations) <= cfg.limits.maxTotalDirectoryEntries
      && TotalText(s.observations) <= cfg.limits.maxStringBytes
      && |s.observations| <= cfg.limits.maxQueries
      && (forall i :: 0 <= i < |s.observations| ==> Small(cfg.limits, s.observations[i]))
  {
    RunKeepsLedger(cfg, Initial(cfg, cwdAvailable), ops);
  }
}
