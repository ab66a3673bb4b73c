/**
 What holds of the recording file system over whole runs, against a disk that may answer
 anything at any time.
 */
module AuditRuns {
  import opened Outcomes
  import opened NativeReader
  import opened AuditFileSystem

  datatype Op = Ask(kind: QueryKind, text: string, world: World) | Seal | Change(text: string)

  function Apply(cfg: Config, s: State, op: Op): State
    requires KeysAgree(s)
  {
    match op
    case Ask(kind, text, world) => Query(cfg, s, kind, text, world).0
    case Seal => s.(isSealed := true)
    case Change(text) => ChangeDirectory(cfg, s, text).0
  }

  // --- What a step keeps -------------------------------------------------------------------

  ghost predicate Extends<K, V>(small: map<K, V>, large: map<K, V>) {
    forall k :: k in small ==> k in large && large[k] == small[k]
  }

  /** The tables only gain entries, and a failure is never replaced or forgotten. */
  ghost predicate Grows(a: Work, b: Work) {
    && (a.failure != "" ==> b.failure == a.failure)
    && Extends(a.statuses, b.statuses) && Extends(a.identities, b.identities)
  }

  predicate WithinQuotas(limits: Limits, w: Work) {
    && w.capturedBytes <= limits.maxTotalFileBytes
    && w.stringBytes <= limits.maxStringBytes
    && w.directoryEntries <= limits.maxTotalDirectoryEntries
  }

  /** One observation's effect: it grows the tables and stays within the quotas. */
  ghost predicate Steps(limits: Limits, a: Work, b: Work) {
    Grows(a, b) && (WithinQuotas(limits, a) ==> WithinQuotas(limits, b))
  }

  lemma StepsTransitive(limits: Limits, a: Work, b: Work, c: Work)
    requires Steps(limits, a, b) && Steps(limits, b, c)
    ensures Steps(limits, a, c)
  {}

  // --- The consistent view -------------------------------------------------------------------

  predicate Good(o: Observation) {
    o.error.None? && o.kind != LocalityQuery
  }

  predicate Lost(o: Observation) {
    o.kind != LocalityQuery && NotFound(o)
  }

  ghost predicate MetaBacked(w: Work, o: Observation) {
    o.status.Some? && o.path in w.statuses && w.statuses[o.path] == o.status.value
  }

  ghost predicate BytesBacked(w: Work, o: Observation) {
    && o.status.Some? && o.bytes.Some? && o.status.value.id in w.identities
    && w.identities[o.status.value.id].meta == o.status.value
    && w.identities[o.status.value.id].bytes == o.bytes.value
  }

  /** What the tables know about one successful observation. */
  ghost predicate Backed(w: Work, o: Observation) {
    Good(o) ==>
      && (o.kind != RealPathQuery ==> MetaBacked(w, o))
      && (o.kind == RealPathQuery ==> o.physical != "")
      && (o.kind == OpenQuery ==> BytesBacked(w, o))
  }

  /** Two observations of one path do not contradict each other. */
  predicate Agree(a: Observation, b: Observation) {
    a.path == b.path ==>
      && (Good(a) && Good(b) && a.physical != "" && b.physical != "" ==> a.physical == b.physical)
      && !(Good(a) && Lost(b))
  }

  ghost predicate ViewConsistent(s: State) {
    && (forall i :: 0 <= i < |s.observations| ==> Backed(s.work, s.observations[i]))
    && (forall i, j :: 0 <= i < |s.observations| && 0 <= j < |s.observations| ==>
          Agree(s.observations[i], s.observations[j]))
  }

  ghost predicate Invariant(cfg: Config, s: State) {
    && KeysAgree(s) && ViewConsistent(s)
    && WithinQuotas(cfg.limits, s.work) && |s.observations| <= cfg.limits.maxQueries
  }

  lemma BackedGrows(a: Work, b: Work, o: Observation)
    requires Backed(a, o) && Grows(a, b)
    ensures Backed(b, o)
  {}

  // --- Each kind of observation -----------------------------------------------------------------

  lemma ChargeSteps(limits: Limits, w: Work, bytes: nat)
    ensures Steps(limits, w, Charge(limits, w, bytes))
  {}

  lemma NoteSteps(limits: Limits, w: Work, path: string, meta: Meta)
    ensures Steps(limits, w, Note(w, path, meta))
    ensures Matches(w, path, meta) ==> path in Note(w, path, meta).statuses && Note(w, path, meta).statuses[path] == meta
  {}

  lemma FailSteps(limits: Limits, w: Work, reason: string)
    ensures Steps(limits, w, Fail(w, reason))
  {}

  lemma {:induction false} ChargeEntriesSteps(limits: Limits, w: Work, entries: seq<string>)
    ensures Steps(limits, w, ChargeEntries(limits, w, entries))
    ensures ChargeEntries(limits, w, entries).directoryEntries == w.directoryEntries
    decreases entries
  {
    if entries != [] {
      var charged := Charge(limits, w, |entries[0]|);
      ChargeSteps(limits, w, |entries[0]|);
      if Affordable(limits, w, |entries[0]|) {
        ChargeEntriesSteps(limits, charged, entries[1..]);
        StepsTransitive(limits, w, charged, ChargeEntries(limits, charged, entries[1..]));
      }
    }
  }

  ghost predicate ObservedWell(limits: Limits, w: Work, kind: QueryKind, path: string, r: (Work, Observation)) {
    Steps(limits, w, r.0) && r.1.kind == kind && r.1.path == path && Backed(r.0, r.1)
  }

  /** A further step after noting the metadata. */
  lemma NotedThen(limits: Limits, w: Work, path: string, meta: Meta, last: Work)
    requires Steps(limits, Note(w, path, meta), last) && Matches(w, path, meta)
    ensures Steps(limits, w, last) && path in last.statuses && last.statuses[path] == meta
  {
    NoteSteps(limits, w, path, meta);
    StepsTransitive(limits, w, Note(w, path, meta), last);
  }

  lemma StatusWell(cfg: Config, w: Work, path: string, world: World)
    ensures ObservedWell(cfg.limits, w, StatusQuery, path, ObserveStatus(cfg, w, path, world))
  {
    if path !in w.statuses && world.status.Ok? {
      var meta := world.status.value;
      var noted := Note(w, path, meta);
      NoteSteps(cfg.limits, w, path, meta);
      if Matches(w, path, meta) {
        if world.realPath.Ok? {
          var charged := Charge(cfg.limits, noted, |world.realPath.value|);
          ChargeSteps(cfg.limits, noted, |world.realPath.value|);
          FailSteps(cfg.limits, noted, "metadata target changed while resolving");
          FailSteps(cfg.limits, noted, "resolved path limit exceeded");
          NotedThen(cfg.limits, w, path, meta, ObserveStatus(cfg, w, path, world).0);
        }
      }
    }
  }

  lemma CaptureWell(cfg: Config, w: Work, path: string, current: Snapshot)
    requires |current.bytes| <= RemainingFileBytes(cfg, w)
    ensures ObservedWell(cfg.limits, w, OpenQuery, path, Capture(cfg, w, path, current))
  {
    var charged := Charge(cfg.limits, w, 2 * |current.physical|);
    ChargeSteps(cfg.limits, w, 2 * |current.physical|);
    if Affordable(cfg.limits, w, 2 * |current.physical|) {
      var noted := Note(charged, path, current.meta);
      NoteSteps(cfg.limits, charged, path, current.meta);
      StepsTransitive(cfg.limits, w, charged, noted);
      if Matches(charged, path, current.meta) {
        var (last, o) := Capture(cfg, w, path, current);
        CapturedSteps(cfg, w, noted, last, current);
        assert Grows(noted, last);
      }
    }
  }

  lemma CapturedSteps(cfg: Config, w: Work, noted: Work, last: Work, current: Snapshot)
    requires Steps(cfg.limits, w, noted) && noted.capturedBytes == w.capturedBytes
    requires |current.bytes| <= RemainingFileBytes(cfg, w)
    requires Grows(noted, last)
    requires last.capturedBytes == noted.capturedBytes + |current.bytes|
    requires last.stringBytes == noted.stringBytes && last.directoryEntries == noted.directoryEntries
    ensures Steps(cfg.limits, w, last)
  {}

  lemma ReadBounded(cfg: Config, w: Work, path: string, world: World)
    ensures var read := ReadFile(path, cfg.policy, RemainingFileBytes(cfg, w), cfg.limits.maxPathBytes, world.file);
      read.Ok? ==> |read.value.bytes| <= RemainingFileBytes(cfg, w)
  {
    var read := ReadFile(path, cfg.policy, RemainingFileBytes(cfg, w), cfg.limits.maxPathBytes, world.file);
    if read.Ok? { ReadAllExact(world.file.answers, world.file.before.value.meta.size); }
  }

  lemma OpenWell(cfg: Config, w: Work, path: string, status: Option<Observation>, resolved: Option<Observation>, world: World)
    ensures ObservedWell(cfg.limits, w, OpenQuery, path, ObserveOpen(cfg, w, path, status, resolved, world))
  {
    ReadBounded(cfg, w, path, world);
    match ReadFile(path, cfg.policy, RemainingFileBytes(cfg, w), cfg.limits.maxPathBytes, world.file)
    case Err(e) =>
      FailSteps(cfg.limits, w, "file byte limit exceeded");
      FailSteps(cfg.limits, w, "file changed while reading");
      FailSteps(cfg.limits, w, "content access denied");
    case Ok(current) =>
      FailSteps(cfg.limits, w, "physical target changed before read");
      CaptureWell(cfg, w, path, current);
  }

  lemma RealPathWell(cfg: Config, w: Work, path: string, prior: Option<string>, world: World)
    requires world.realPath != Ok("") && prior != Some("")
    ensures ObservedWell(cfg.limits, w, RealPathQuery, path, ObserveRealPath(cfg, w, path, prior, world))
  {
    if prior.Some? { ChargeSteps(cfg.limits, w, |prior.value|); }
    else if world.realPath.Ok? { ChargeSteps(cfg.limits, w, |world.realPath.value|); }
  }

  lemma EnumeratedWell(cfg: Config, w: Work, path: string, current: DirectorySnapshot)
    requires |current.entries| <= RemainingEntries(cfg, w)
    requires path in w.statuses && w.statuses[path] == current.meta
    ensures ObservedWell(cfg.limits, w, DirectoryQuery, path, Enumerated(cfg, w, path, current))
  {
    ChargeEntriesSteps(cfg.limits, w, current.entries);
  }

  lemma DirectoryWell(cfg: Config, w: Work, path: string, world: World)
    ensures ObservedWell(cfg.limits, w, DirectoryQuery, path, ObserveDirectory(cfg, w, path, world))
  {
    var read := ReadDirectory(path, cfg.policy, RemainingEntries(cfg, w), RemainingStrings(cfg, w), cfg.limits.maxPathBytes, world.directory);
    if read.Ok? {
      var current := read.value;
      ListEntriesExact(path, world.directory.names, RemainingEntries(cfg, w), RemainingStrings(cfg, w), cfg.limits.maxPathBytes);
      var noted := Note(w, path, current.meta);
      NoteSteps(cfg.limits, w, path, current.meta);
      if Matches(w, path, current.meta) {
        var charged := Charge(cfg.limits, noted, |current.physical|);
        ChargeSteps(cfg.limits, noted, |current.physical|);
        StepsTransitive(cfg.limits, w, noted, charged);
        if Affordable(cfg.limits, noted, |current.physical|) {
          assert charged.directoryEntries == w.directoryEntries;
          EnumeratedWell(cfg, charged, path, current);
          StepsTransitive(cfg.limits, w, charged, Enumerated(cfg, charged, path, current).0);
        }
      }
    }
  }

  /** A resolved path is not empty; only the RealPath query depends on it. */
  predicate Answers(kind: QueryKind, world: World) {
    kind == RealPathQuery ==> world.realPath != Ok("")
  }

  lemma ObserveWell(cfg: Config, s: State, kind: QueryKind, path: string, prior: Option<string>, world: World)
    requires KeysAgree(s) && prior != Some("") && Answers(kind, world)
    ensures ObservedWell(cfg.limits, s.work, kind, path, Observe(cfg, s, kind, path, prior, world))
  {
    match kind
    case StatusQuery => StatusWell(cfg, s.work, path, world);
    case OpenQuery => OpenWell(cfg, s.work, path, Earlier(s, StatusQuery, path), Earlier(s, RealPathQuery, path), world);
    case RealPathQuery => RealPathWell(cfg, s.work, path, prior, world);
    case DirectoryQuery => DirectoryWell(cfg, s.work, path, world);
    case LocalityQuery =>
  }

  lemma CrossCheckSteps(limits: Limits, w: Work, o: Observation, prior: Option<string>)
    ensures Steps(limits, w, CrossCheck(w, o, prior).0)
  {
    FailSteps(limits, w, "physical target changed between observations");
    FailSteps(limits, w, "existing input disappeared between observations");
  }

  /** After the closing checks: a success shares the earlier target, and a loss has no earlier success. */
  lemma CrossCheckWell(w: Work, o: Observation, prior: Option<string>)
    requires Backed(w, o)
    ensures var (w1, o1) := CrossCheck(w, o, prior);
      && o1 == o.(error := o1.error)
      && (Good(o1) ==> o1 == o && w1 == w && (prior.Some? && o.physical != "" ==> o.physical == prior.value))
      && (Lost(o1) ==> prior.None? && o.path !in w1.statuses)
  {}

  // --- The appended observation -------------------------------------------------------------

  /** An earlier, cross-checked observation of the path recorded at `index`. */
  predicate Other(s: State, index: nat, j: int, kinds: seq<QueryKind>)
    requires index < |s.observations|
  {
    && 0 <= j < |s.observations| && j != index
    && s.observations[j].path == s.observations[index].path && s.observations[j].kind in kinds
  }

  predicate Located(o: Observation) {
    o.error.None? && o.physical != ""
  }

  lemma {:induction false} SettledNegative(s: State, index: nat, kinds: seq<QueryKind>, physical: Option<string>)
    requires KeysAgree(s) && index < |s.observations|
    ensures var r := Settled(s, index, kinds, physical);
      && (r.Err? ==> s.observations[index].kind != LocalityQuery)
      && (r.Err? ==> exists j :: Other(s, index, j, kinds) && NotFound(s.observations[j]) && s.observations[j].error == Some(r.error))
      && (r.Ok? && s.observations[index].kind != LocalityQuery ==>
            forall j :: Other(s, index, j, kinds) ==> !NotFound(s.observations[j]))
  {
    if kinds != [] {
      var key := (kinds[0], s.observations[index].path);
      assert kinds == [kinds[0]] + kinds[1..];
      if key !in s.indices || s.indices[key] == index {
        SettledNegative(s, index, kinds[1..], physical);
      } else {
        var prior := s.observations[s.indices[key]];
        assert KeyOf(prior) == key && Other(s, index, s.indices[key], kinds);
        if s.observations[index].kind == LocalityQuery || !NotFound(prior) {
          SettledNegative(s, index, kinds[1..], if Located(prior) then Some(prior.physical) else physical);
        }
      }
    }
  }

  lemma {:induction false} SettledPhysical(s: State, index: nat, kinds: seq<QueryKind>, physical: Option<string>)
    requires KeysAgree(s) && index < |s.observations|
    ensures var r := Settled(s, index, kinds, physical);
      r.Ok? ==>
        && (physical.Some? ==> r.value.Some?)
        && (forall j :: Other(s, index, j, kinds) && Located(s.observations[j]) ==> r.value.Some?)
        && (r.value == physical
            || exists j :: Other(s, index, j, kinds) && Located(s.observations[j]) && r.value == Some(s.observations[j].physical))
  {
    if kinds != [] {
      var key := (kinds[0], s.observations[index].path);
      assert kinds == [kinds[0]] + kinds[1..];
      if key !in s.indices || s.indices[key] == index {
        SettledPhysical(s, index, kinds[1..], physical);
      } else {
        var prior := s.observations[s.indices[key]];
        assert KeyOf(prior) == key && Other(s, index, s.indices[key], kinds);
        if s.observations[index].kind == LocalityQuery || !NotFound(prior) {
          SettledPhysical(s, index, kinds[1..], if Located(prior) then Some(prior.physical) else physical);
        }
      }
    }
  }

  lemma CrossCheckedKinds(kind: QueryKind)
    ensures kind in CROSS_CHECKED <==> kind != LocalityQuery
  {
    assert CROSS_CHECKED[0] == StatusQuery && CROSS_CHECKED[1] == OpenQuery;
    assert CROSS_CHECKED[2] == RealPathQuery && CROSS_CHECKED[3] == DirectoryQuery;
  }

  /** The observation finally recorded, and the work done for it. */
  function Recorded(cfg: Config, s: State, index: nat, world: World): (Work, Observation)
    requires KeysAgree(s) && index < |s.observations|
  {
    var kind, path := s.observations[index].kind, s.observations[index].path;
    match Settled(s, index, CROSS_CHECKED, None)
    case Err(e) => (s.work, Blank(kind, path).(error := Some(e)))
    case Ok(prior) =>
      var (w, o) := Observe(cfg, s, kind, path, prior, world);
      CrossCheck(w, o, prior)
  }

  lemma RecordedSteps(cfg: Config, s: State, index: nat, world: World)
    requires KeysAgree(s) && index < |s.observations| && Answers(s.observations[index].kind, world)
    ensures var (w, o) := Recorded(cfg, s, index, world);
      && Steps(cfg.limits, s.work, w) && Backed(w, o)
      && o.kind == s.observations[index].kind && o.path == s.observations[index].path
  {
    var kind, path := s.observations[index].kind, s.observations[index].path;
    SettledPhysical(s, index, CROSS_CHECKED, None);
    match Settled(s, index, CROSS_CHECKED, None)
    case Err(e) =>
    case Ok(prior) =>
      ObserveWell(cfg, s, kind, path, prior, world);
      var (w, o) := Observe(cfg, s, kind, path, prior, world);
      CrossCheckWell(w, o, prior);
      CrossCheckSteps(cfg.limits, w, o, prior);
      StepsTransitive(cfg.limits, s.work, w, CrossCheck(w, o, prior).0);
  }

  /** The new observation contradicts none of the earlier ones of its path. */
  lemma RecordedAgrees(cfg: Config, s: State, index: nat, world: World, j: nat)
    requires KeysAgree(s) && index < |s.observations| && Answers(s.observations[index].kind, world)
    requires j < |s.observations| && j != index && s.observations[j].path == s.observations[index].path
    requires forall a, b :: 0 <= a < |s.observations| && 0 <= b < |s.observations| && a != index && b != index ==>
      Agree(s.observations[a], s.observations[b])
    requires Backed(s.work, s.observations[j])
    ensures Agree(Recorded(cfg, s, index, world).1, s.observations[j])
    ensures Agree(s.observations[j], Recorded(cfg, s, index, world).1)
  {
    var kind, path := s.observations[index].kind, s.observations[index].path;
    var earlier := s.observations[j];
    CrossCheckedKinds(earlier.kind);
    SettledNegative(s, index, CROSS_CHECKED, None);
    SettledPhysical(s, index, CROSS_CHECKED, None);
    RecordedSteps(cfg, s, index, world);
    match Settled(s, index, CROSS_CHECKED, None)
    case Err(e) =>
      var n :| Other(s, index, n, CROSS_CHECKED) && NotFound(s.observations[n]) && s.observations[n].error == Some(e);
      CrossCheckedKinds(s.observations[n].kind);
      assert Agree(earlier, s.observations[n]);
    case Ok(prior) =>
      ObserveWell(cfg, s, kind, path, prior, world);
      var (w, o) := Observe(cfg, s, kind, path, prior, world);
      CrossCheckWell(w, o, prior);
      if earlier.kind != LocalityQuery {
        assert Other(s, index, j, CROSS_CHECKED);
        if Located(earlier) {
          var n :| Other(s, index, n, CROSS_CHECKED) && Located(s.observations[n]) && prior == Some(s.observations[n].physical);
          CrossCheckedKinds(s.observations[n].kind);
          assert Agree(earlier, s.observations[n]);
        }
      }
  }

  // --- One query -------------------------------------------------------------------------------

  lemma QueryNewKeeps(cfg: Config, s: State, kind: QueryKind, name: string, world: World)
    requires Invariant(cfg, s) && Answers(kind, world) && (kind, name) !in s.indices
    ensures Invariant(cfg, QueryNew(cfg, s, kind, name, world).0)
  {
    if !s.isSealed && |s.observations| < cfg.limits.maxQueries && |name| <= MAX_SIZE / 8 {
      var charged := s.(work := Charge(cfg.limits, s.work, 8 * |name|));
      ChargeSteps(cfg.limits, s.work, 8 * |name|);
      SameRecordKeeps(cfg, s, charged);
      if Affordable(cfg.limits, s.work, 8 * |name|) { AppendKeeps(cfg, charged, kind, name, world); }
    } else {
      FailSteps(cfg.limits, s.work, "unobserved query after seal");
      FailSteps(cfg.limits, s.work, "observation count limit exceeded");
      SameRecordKeeps(cfg, s, QueryNew(cfg, s, kind, name, world).0);
    }
  }

  lemma QueryKeeps(cfg: Config, s: State, kind: QueryKind, text: string, world: World)
    requires Invariant(cfg, s) && Answers(kind, world)
    ensures Invariant(cfg, Query(cfg, s, kind, text, world).0)
  {
    AbsoluteSteps(cfg, s.work, text);
    var (w, name) := Absolute(cfg, s.work, text);
    if Complete(s) && name.Ok? {
      if (kind, name.value) !in s.indices { QueryNewKeeps(cfg, s, kind, name.value, world); }
    } else if Complete(s) {
      SameRecordKeeps(cfg, s, Query(cfg, s, kind, text, world).0);
    }
  }

  lemma AbsoluteSteps(cfg: Config, w: Work, text: string)
    ensures Steps(cfg.limits, w, Absolute(cfg, w, text).0)
    ensures Absolute(cfg, w, text).1.Ok? ==> Absolute(cfg, w, text).0 == w
  {
    FailSteps(cfg.limits, w, "path contains null");
    FailSteps(cfg.limits, w, "path limit exceeded");
    FailSteps(cfg.limits, w, "absolute path limit exceeded");
  }

  lemma SameRecordKeeps(cfg: Config, a: State, b: State)
    requires Invariant(cfg, a) && Steps(cfg.limits, a.work, b.work)
    requires b.observations == a.observations && b.indices == a.indices
    ensures Invariant(cfg, b)
  {
    forall i | 0 <= i < |b.observations| ensures Backed(b.work, b.observations[i]) {
      BackedGrows(a.work, b.work, a.observations[i]);
    }
  }

  lemma RecordedLast(cfg: Config, s: State, kind: QueryKind, path: string, world: World)
    requires KeysAgree(s) && KeysAgree(Append(s, kind, path))
    ensures var s1 := Append(s, kind, path); var (last, o) := Recorded(cfg, s1, |s.observations|, world);
      var s2 := Record(cfg, s1, |s.observations|, world);
      s2.work == last && s2.observations == s.observations + [o]
  {
    var s1, index := Append(s, kind, path), |s.observations|;
    var (last, o) := Recorded(cfg, s1, index, world);
    assert Record(cfg, s1, index, world) == s1.(work := last, observations := s1.observations[index := o]);
    assert s1.observations[index := o] == s.observations + [o];
  }

  /** One more observation that is backed and contradicts no earlier one. */
  lemma OneMore(cfg: Config, s: State, s2: State, o: Observation)
    requires Invariant(cfg, s) && |s.observations| < cfg.limits.maxQueries
    requires KeysAgree(s2) && s2.observations == s.observations + [o]
    requires Steps(cfg.limits, s.work, s2.work) && Backed(s2.work, o)
    requires forall j: nat :: j < |s.observations| && s.observations[j].path == o.path ==>
      Agree(o, s.observations[j]) && Agree(s.observations[j], o)
    ensures Invariant(cfg, s2)
  {
    forall i | 0 <= i < |s2.observations| ensures Backed(s2.work, s2.observations[i]) {
      if i < |s.observations| { BackedGrows(s.work, s2.work, s.observations[i]); }
    }
  }

  lemma AppendKeeps(cfg: Config, s: State, kind: QueryKind, path: string, world: World)
    requires Invariant(cfg, s) && (kind, path) !in s.indices && Answers(kind, world)
    requires |s.observations| < cfg.limits.maxQueries
    ensures KeysAgree(Append(s, kind, path))
    ensures Invariant(cfg, Record(cfg, Append(s, kind, path), |s.observations|, world))
  {
    AppendAgrees(s, kind, path);
    var s1, index := Append(s, kind, path), |s.observations|;
    var (w, o) := Recorded(cfg, s1, index, world);
    var s2 := Record(cfg, s1, index, world);
    RecordedLast(cfg, s, kind, path, world);
    RecordedSteps(cfg, s1, index, world);
    RecordKeys(s1, s2, index, o);
    forall j: nat | j < index && s.observations[j].path == path ensures Agree(o, s.observations[j]) && Agree(s.observations[j], o) {
      assert s1.observations[j] == s.observations[j];
      RecordedAgrees(cfg, s1, index, world, j);
    }
    OneMore(cfg, s, s2, o);
  }

  lemma RecordKeys(a: State, b: State, index: nat, o: Observation)
    requires KeysAgree(a) && index < |a.observations|
    requires KeyOf(o) == KeyOf(a.observations[index])
    requires b.indices == a.indices && b.observations == a.observations[index := o]
    ensures KeysAgree(b)
  {}

  // --- Runs ------------------------------------------------------------------------------------------

  /** What any later state keeps of an earlier one. */
  ghost predicate Evolves(a: State, b: State) {
    && a.observations <= b.observations
    && Extends(a.indices, b.indices)
    && (a.isSealed ==> b.isSealed && b.observations == a.observations && b.indices == a.indices)
    && (a.work.failure != "" ==> b.work.failure == a.work.failure)
  }

  lemma ObserveSticky(cfg: Config, s: State, kind: QueryKind, path: string, prior: Option<string>, world: World)
    requires KeysAgree(s)
    ensures s.work.failure != "" ==> Observe(cfg, s, kind, path, prior, world).0.failure == s.work.failure
    ensures Observe(cfg, s, kind, path, prior, world).1.kind == kind
    ensures Observe(cfg, s, kind, path, prior, world).1.path == path
  {
    match kind
    case StatusQuery => StatusWell(cfg, s.work, path, world);
    case OpenQuery => OpenWell(cfg, s.work, path, Earlier(s, StatusQuery, path), Earlier(s, RealPathQuery, path), world);
    case RealPathQuery =>
    case DirectoryQuery => DirectoryWell(cfg, s.work, path, world);
    case LocalityQuery =>
  }

  lemma RecordEvolves(cfg: Config, s: State, index: nat, world: World)
    requires KeysAgree(s) && index < |s.observations|
    ensures var s1 := Record(cfg, s, index, world);
      && KeysAgree(s1) && s1.indices == s.indices && s1.isSealed == s.isSealed
      && |s1.observations| == |s.observations|
      && (forall j :: 0 <= j < |s.observations| && j != index ==> s1.observations[j] == s.observations[j])
      && (s.work.failure != "" ==> s1.work.failure == s.work.failure)
  {
    var kind, path := s.observations[index].kind, s.observations[index].path;
    var s1 := Record(cfg, s, index, world);
    match Settled(s, index, CROSS_CHECKED, None)
    case Err(e) =>
      RecordKeys(s, s1, index, Blank(kind, path).(error := Some(e)));
    case Ok(prior) =>
      ObserveSticky(cfg, s, kind, path, prior, world);
      var (w, o) := Observe(cfg, s, kind, path, prior, world);
      RecordKeys(s, s1, index, CrossCheck(w, o, prior).1);
  }

  lemma QueryNewEvolves(cfg: Config, s: State, kind: QueryKind, name: string, world: World)
    requires KeysAgree(s) && (kind, name) !in s.indices
    ensures KeysAgree(QueryNew(cfg, s, kind, name, world).0) && Evolves(s, QueryNew(cfg, s, kind, name, world).0)
  {
    if !s.isSealed && |s.observations| < cfg.limits.maxQueries && |name| <= MAX_SIZE / 8
       && Affordable(cfg.limits, s.work, 8 * |name|)
    {
      var charged := s.(work := Charge(cfg.limits, s.work, 8 * |name|));
      AppendAgrees(charged, kind, name);
      RecordEvolves(cfg, Append(charged, kind, name), |s.observations|, world);
      assert QueryNew(cfg, s, kind, name, world).0.observations[..|s.observations|] == s.observations;
    }
  }

  lemma QueryEvolves(cfg: Config, s: State, kind: QueryKind, text: string, world: World)
    requires KeysAgree(s)
    ensures KeysAgree(Query(cfg, s, kind, text, world).0) && Evolves(s, Query(cfg, s, kind, text, world).0)
  {
    AbsoluteSteps(cfg, s.work, text);
    var (w, name) := Absolute(cfg, s.work, text);
    if Complete(s) && name.Ok? && (kind, name.value) !in s.indices {
      QueryNewEvolves(cfg, s, kind, name.value, world);
    }
  }

  lemma ApplyEvolves(cfg: Config, s: State, op: Op)
    requires KeysAgree(s)
    ensures KeysAgree(Apply(cfg, s, op)) && Evolves(s, Apply(cfg, s, op))
  {
    match op
    case Ask(kind, text, world) => QueryEvolves(cfg, s, kind, text, world);
    case Seal =>
    case Change(text) =>
      AbsoluteSteps(cfg, s.work, text);
      ChangeEvolves(cfg, s, text);
  }

  lemma ChangeEvolves(cfg: Config, s: State, text: string)
    ensures var s1 := ChangeDirectory(cfg, s, text).0;
      && s1.indices == s.indices && s1.observations == s.observations && s1.isSealed == s.isSealed
      && (s.work.failure != "" ==> s1.work.failure == s.work.failure)
  {}

  function Run(cfg: Config, s: State, ops: seq<Op>): State
    requires KeysAgree(s)
    decreases ops
  {
    if ops == [] then s
    else
      ApplyEvolves(cfg, s, ops[0]);
      Run(cfg, Apply(cfg, s, ops[0]), ops[1..])
  }

  /**
   Over any run: recorded observations never change, the key index stays the inverse of the
   record, nothing is recorded after the seal, and the first failure is kept.
   */
  lemma {:induction false} RunEvolves(cfg: Config, s: State, ops: seq<Op>)
    requires KeysAgree(s)
    ensures KeysAgree(Run(cfg, s, ops)) && Evolves(s, Run(cfg, s, ops))
    decreases ops
  {
    if ops != [] {
      ApplyEvolves(cfg, s, ops[0]);
      RunEvolves(cfg, Apply(cfg, s, ops[0]), ops[1..]);
    }
  }

  ghost predicate Resolves(op: Op) {
    op.Ask? ==> Answers(op.kind, op.world)
  }

  /** In every reachable state the record is one consistent view, and no quota is exceeded. */
  lemma {:induction false} RunKeepsInvariant(cfg: Config, s: State, ops: seq<Op>)
    requires Invariant(cfg, s) && forall op :: op in ops ==> Resolves(op)
    ensures Invariant(cfg, Run(cfg, s, ops))
    decreases ops
  {
    if ops != [] {
      var s1 := Apply(cfg, s, ops[0]);
      assert Resolves(ops[0]);
      match ops[0] {
        case Ask(kind, text, world) => QueryKeeps(cfg, s, kind, text, world);
        case Seal => SameRecordKeeps(cfg, s, s1);
        case Change(text) =>
          AbsoluteSteps(cfg, s.work, text);
          FailSteps(cfg.limits, s.work, "working directory change unsupported");
          SameRecordKeeps(cfg, s, s1);
      }
      RunKeepsInvariant(cfg, s1, ops[1..]);
    }
  }

  /**
   One consistent view of a changing disk. Whatever the disk answered: successful observations of
   a path share metadata and any physical path, successful opens of one identity share metadata
   and bytes, and no path was both observed and reported missing.
   */
  lemma {:induction false} OneView(cfg: Config, cwdAvailable: bool, ops: seq<Op>, i: nat, j: nat)
    requires forall op :: op in ops ==> Resolves(op)
    requires i < |Run(cfg, Initial(cfg, cwdAvailable), ops).observations|
    requires j < |Run(cfg, Initial(cfg, cwdAvailable), ops).observations|
    ensures var s := Run(cfg, Initial(cfg, cwdAvailable), ops); var a, b := s.observations[i], s.observations[j];
      && (a.path == b.path && Good(a) && Good(b) && a.kind != RealPathQuery && b.kind != RealPathQuery ==>
            a.status.Some? && a.status == b.status)
      && (a.path == b.path && Good(a) && Good(b) && a.physical != "" && b.physical != "" ==> a.physical == b.physical)
      && (Good(a) && Good(b) && a.kind == OpenQuery && b.kind == OpenQuery ==>
            && a.status.Some? && b.status.Some?
            && (a.status.value.id == b.status.value.id ==> a.status == b.status && a.bytes == b.bytes))
      && !(a.path == b.path && Good(a) && Lost(b))
      && (a.kind == b.kind && a.path == b.path ==> i == j)
      && WithinQuotas(cfg.limits, s.work) && |s.observations| <= cfg.limits.maxQueries
  {
    RunKeepsInvariant(cfg, Initial(cfg, cwdAvailable), ops);
    var s := Run(cfg, Initial(cfg, cwdAvailable), ops);
    assert Agree(s.observations[i], s.observations[j]);
    assert Backed(s.work, s.observations[i]) && Backed(s.work, s.observations[j]);
    assert KeyOf(s.observations[i]) == KeyOf(s.observations[j]) ==> i == j;
  }

  /** A query answered once is answered the same way ever after, as long as nothing failed. */
  lemma Replay(cfg: Config, s: State, kind: QueryKind, text: string, first: World, ops: seq<Op>, again: World)
    requires KeysAgree(s) && KeysAgree(Query(cfg, s, kind, text, first).0)
    requires Query(cfg, s, kind, text, first).1.Ok?
    ensures var (s1, i) := Query(cfg, s, kind, text, first); var s2 := Run(cfg, s1, ops);
      && i.value < |s1.observations| && i.value < |s2.observations|
      && s2.observations[i.value] == s1.observations[i.value]
      && KeysAgree(s2) && (Complete(s2) ==> Query(cfg, s2, kind, text, again) == (s2, i))
  {
    var (s1, i) := Query(cfg, s, kind, text, first);
    QueryAnswered(cfg, s, kind, text, first);
    RunEvolves(cfg, s1, ops);
    var s2 := Run(cfg, s1, ops);
    var name := Absolute(cfg, s.work, text).1.value;
    assert s2.indices[(kind, name)] == i.value;
  }

  lemma QueryAnswered(cfg: Config, s: State, kind: QueryKind, text: string, world: World)
    requires KeysAgree(s) && Query(cfg, s, kind, text, world).1.Ok?
    ensures Absolute(cfg, s.work, text).1.Ok?
    ensures var (s1, i) := Query(cfg, s, kind, text, world); var name := Absolute(cfg, s.work, text).1.value;
      && (kind, name) in s1.indices && s1.indices[(kind, name)] == i.value < |s1.observations|
      && forall w :: Absolute(cfg, w, text).1 == Ok(name)
  {
    QueryEvolves(cfg, s, kind, text, world);
    var (w, name) := Absolute(cfg, s.work, text);
    if (kind, name.value) !in s.indices {
      var charged := s.(work := Charge(cfg.limits, w, 8 * |name.value|));
      AppendAgrees(charged, kind, name.value);
      RecordEvolves(cfg, Append(charged, kind, name.value), |s.observations|, world);
    }
  }

  /** After the seal, a query that was never observed fails the file system for good. */
  lemma SealedQueryFails(cfg: Config, s: State, kind: QueryKind, text: string, world: World, ops: seq<Op>, later: Op)
    requires KeysAgree(s) && s.isSealed && Complete(s) && Absolute(cfg, s.work, text).1.Ok?
    requires (kind, Absolute(cfg, s.work, text).1.value) !in s.indices
    requires later.Ask?
    ensures var (s1, r) := Query(cfg, s, kind, text, world);
      && r == Err(NotPermitted) && KeysAgree(s1) && s1.observations == s.observations
      && var s2 := Run(cfg, s1, ops);
         && s2.work.failure == "unobserved query after seal" && KeysAgree(s2) && s2.observations == s.observations
         && Query(cfg, s2, later.kind, later.text, later.world) == (s2, Err(NotRecoverable))
  {
    QueryEvolves(cfg, s, kind, text, world);
    RunEvolves(cfg, Query(cfg, s, kind, text, world).0, ops);
  }

  /**
   The assumption that the disk never resolves a path to the empty text is needed: such an answer
   leaves no trace, and the same path can then be reported missing without any failure.
   */
  lemma {:induction false} EmptyRealPathEscapes(cfg: Config, world: World)
    requires cfg.limits.maxQueries >= 2 && cfg.limits.maxPathBytes >= 2 && cfg.limits.maxStringBytes >= 32 && cfg.cwd == "/"
    requires world.realPath == Ok("") && world.status == Err(NoSuchFile)
    ensures var s := Run(cfg, Initial(cfg, true), [Ask(RealPathQuery, "/a", world), Ask(StatusQuery, "/a", world)]);
      && Complete(s) && |s.observations| == 2
      && s.observations[0].path == s.observations[1].path && Good(s.observations[0]) && Lost(s.observations[1])
  {
    var s0 := Initial(cfg, true);
    var s1 := FirstEmptyAnswer(cfg, world);
    SecondMissingAnswer(cfg, s1, world);
    TwoSteps(cfg, s0, Ask(RealPathQuery, "/a", world), Ask(StatusQuery, "/a", world));
    assert Apply(cfg, s0, Ask(RealPathQuery, "/a", world)) == s1;
    var s2 := Apply(cfg, s1, Ask(StatusQuery, "/a", world));
    assert s2 == Query(cfg, s1, StatusQuery, "/a", world).0;
    assert s2.observations[0] == Blank(RealPathQuery, "/a");
    assert s2.observations[1] == Blank(StatusQuery, "/a").(error := Some(NoSuchFile));
    assert Good(s2.observations[0]) && Lost(s2.observations[1]) && Complete(s2);
    assert Run(cfg, s0, [Ask(RealPathQuery, "/a", world), Ask(StatusQuery, "/a", world)]) == s2;
  }

  lemma {:induction false} TwoSteps(cfg: Config, s: State, first: Op, second: Op)
    requires KeysAgree(s)
    ensures KeysAgree(Apply(cfg, s, first))
    ensures Run(cfg, s, [first, second]) == Apply(cfg, Apply(cfg, s, first), second)
  {
    var ops := [first, second];
    ApplyEvolves(cfg, s, first);
    var one := Apply(cfg, s, first);
    ApplyEvolves(cfg, one, second);
    assert ops[1..] == [second];
    assert Run(cfg, s, ops) == Run(cfg, one, [second]);
    assert [second][1..] == [];
    assert Run(cfg, one, [second]) == Run(cfg, Apply(cfg, one, second), []);
  }

  lemma FirstEmptyAnswer(cfg: Config, world: World) returns (s1: State)
    requires cfg.limits.maxQueries >= 2 && cfg.limits.maxPathBytes >= 2 && cfg.limits.maxStringBytes >= 32 && cfg.cwd == "/"
    requires world.realPath == Ok("")
    ensures s1 == Query(cfg, Initial(cfg, true), RealPathQuery, "/a", world).0
    ensures s1 == State(false, Work("", 0, 16, 0, map[], map[]), map[(RealPathQuery, "/a") := 0], [Blank(RealPathQuery, "/a")])
  {
    var s0 := Initial(cfg, true);
    s1 := Query(cfg, s0, RealPathQuery, "/a", world).0;
    var charged := s0.(work := Charge(cfg.limits, s0.work, 16));
    var appended := Append(charged, RealPathQuery, "/a");
    NothingSettled(appended, 0);
    assert s1 == Record(cfg, appended, 0, world);
  }

  /** Earlier answers without an error and without a physical path settle nothing. */
  lemma {:induction false} NothingSettled(s: State, index: nat)
    requires KeysAgree(s) && index < |s.observations|
    requires forall j: nat :: j < |s.observations| && j != index ==> s.observations[j].error.None? && s.observations[j].physical == ""
    ensures Settled(s, index, CROSS_CHECKED, None) == Ok(None)
  {
    SettledNegative(s, index, CROSS_CHECKED, None);
    SettledPhysical(s, index, CROSS_CHECKED, None);
  }

  /** A missing status answer about a path of which nothing is known is recorded as it is. */
  lemma {:induction false} MissingRecorded(cfg: Config, s: State, index: nat, path: string, world: World)
    requires KeysAgree(s) && index < |s.observations| && s.observations[index] == Blank(StatusQuery, path)
    requires Settled(s, index, CROSS_CHECKED, None) == Ok(None)
    requires path !in s.work.statuses && world.status == Err(NoSuchFile)
    ensures Record(cfg, s, index, world)
      == s.(observations := s.observations[index := Blank(StatusQuery, path).(error := Some(NoSuchFile))])
  {
    var o := Blank(StatusQuery, path).(error := Some(NoSuchFile));
    assert Observe(cfg, s, StatusQuery, path, None, world) == (s.work, o);
    assert CrossCheck(s.work, o, None) == (s.work, o);
  }

  lemma SecondMissingAnswer(cfg: Config, s: State, world: World)
    requires cfg.limits.maxQueries >= 2 && cfg.limits.maxPathBytes >= 2 && cfg.limits.maxStringBytes >= 32 && cfg.cwd == "/"
    requires world.status == Err(NoSuchFile)
    requires s == State(false, Work("", 0, 16, 0, map[], map[]), map[(RealPathQuery, "/a") := 0], [Blank(RealPathQuery, "/a")])
    ensures KeysAgree(s)
    ensures var s1 := Query(cfg, s, StatusQuery, "/a", world).0;
      && s1.work.failure == ""
      && s1.observations == [Blank(RealPathQuery, "/a"), Blank(StatusQuery, "/a").(error := Some(NoSuchFile))]
  {
    var charged := s.(work := Charge(cfg.limits, s.work, 16));
    AppendAgrees(charged, StatusQuery, "/a");
    var appended := Append(charged, StatusQuery, "/a");
    NothingSettled(appended, 1);
    MissingRecorded(cfg, appended, 1, "/a", world);
    assert QueryNew(cfg, s, StatusQuery, "/a", world).0 == Record(cfg, appended, 1, world);
    assert Query(cfg, s, StatusQuery, "/a", world) == QueryNew(cfg, s, StatusQuery, "/a", world);
  }

  /** Without a usable working directory nothing is ever answered completely. */
  lemma {:induction false} UnusableStays(cfg: Config, cwdAvailable: bool, ops: seq<Op>)
    ensures Complete(Initial(cfg, cwdAvailable)) <==>
      cwdAvailable && cfg.cwd != "" && cfg.cwd[0] == '/' && '\0' !in cfg.cwd && |cfg.cwd| <= cfg.limits.maxPathBytes
    ensures !Complete(Initial(cfg, cwdAvailable)) ==>
      Run(cfg, Initial(cfg, cwdAvailable), ops).work.failure == Initial(cfg, cwdAvailable).work.failure
  {
    RunEvolves(cfg, Initial(cfg, cwdAvailable), ops);
  }
}
