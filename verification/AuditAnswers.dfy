/** A disk that answers cleanly, and as before, is recorded: a new query succeeds with its answer. */
module AuditAnswers {
  import opened Outcomes
  import opened NativeReader
  import opened ReadPolicy
  import opened AuditFileSystem
  import opened AuditRuns

  /** The query was not asked yet, and `bytes` more of text fit. */
  ghost predicate Room(cfg: Config, s: State, kind: QueryKind, path: string, bytes: nat) {
    && Complete(s) && !s.isSealed && |s.observations| < cfg.limits.maxQueries
    && (forall o :: o in s.observations ==> o.kind != kind || o.path != path)
    && 8 * |path| <= MAX_SIZE - 7 && s.work.stringBytes + 8 * |path| + bytes <= cfg.limits.maxStringBytes
  }

  // --- A consistent answer -------------------------------------------------------------------

  /** The physical path that the disk answers with. */
  function PhysicalAnswer(kind: QueryKind, world: World): Option<string> {
    var answer :=
      match kind
      case StatusQuery => world.realPath
      case OpenQuery => world.file.physical
      case RealPathQuery => world.realPath
      case DirectoryQuery => world.directory.physical
      case LocalityQuery => Err(NotSupported);
    if answer.Ok? then Some(answer.value) else None
  }

  /** The metadata it answers with, where a query of this kind asks for them. */
  function MetaAnswer(kind: QueryKind, world: World): Option<Meta> {
    match kind
    case StatusQuery => if world.status.Ok? then Some(world.status.value) else None
    case OpenQuery => if world.file.before.Ok? then Some(world.file.before.value.meta) else None
    case DirectoryQuery => if world.directory.before.Ok? then Some(world.directory.before.value.meta) else None
    case _ => None
  }

  /** What was observed of the path before does not speak against this physical path. */
  ghost predicate SamePlace(s: State, kind: QueryKind, path: string, physical: Option<string>) {
    forall o :: o in s.observations && o.path == path ==>
      o.error.None? && (o.kind == RealPathQuery || o.physical != "" ==> kind == LocalityQuery || physical == Some(o.physical))
  }

  /** The same file as before has the same metadata, under any path. */
  predicate SameMeta(w: Work, path: string, meta: Meta) {
    && (path in w.statuses ==> w.statuses[path] == meta)
    && (meta.id in w.identities ==> w.identities[meta.id].meta == meta)
  }

  /** And the same bytes. */
  ghost predicate SameBytes(w: Work, file: FileScript)
    requires file.before.Ok?
  {
    var meta := file.before.value.meta;
    meta.id in w.identities ==>
      forall count: nat :: Whole(file.answers, count, meta.size) ==> Chunks(file.answers, count, meta.size) == w.identities[meta.id].bytes
  }

  /** The disk answers as it did before, as far as this query is concerned. */
  ghost predicate Consistent(s: State, kind: QueryKind, path: string, world: World) {
    && SamePlace(s, kind, path, PhysicalAnswer(kind, world))
    && (MetaAnswer(kind, world).Some? ==> SameMeta(s.work, path, MetaAnswer(kind, world).value))
    && (kind == OpenQuery && world.file.before.Ok? ==> SameBytes(s.work, world.file))
  }

  // --- A clean answer --------------------------------------------------------------------------

  predicate CleanStatus(cfg: Config, world: World) {
    && world.status.Ok? && world.statusAfter == world.status
    && world.realPath.Ok? && |world.realPath.value| <= cfg.limits.maxPathBytes
  }

  ghost predicate CleanFile(cfg: Config, s: State, file: FileScript) {
    && file.openError.None? && file.before.Ok? && file.after == file.before
    && file.before.value.meta.kind == RegularFile
    && file.before.value.meta.size <= cfg.limits.maxFileBytes
    && s.work.capturedBytes + file.before.value.meta.size <= cfg.limits.maxTotalFileBytes
    && file.physical.Ok? && file.finalPhysical == file.physical && Usable(file.physical.value, cfg.limits.maxPathBytes)
    && Authorized(file.physical.value, cfg.policy, false)
    && exists count :: Whole(file.answers, count, file.before.value.meta.size)
  }

  predicate CleanDirectory(cfg: Config, s: State, path: string, directory: DirectoryScript)
    requires path != ""
  {
    && directory.openError.None? && directory.before.Ok? && directory.after == directory.before
    && directory.before.value.meta.kind == DirectoryFile
    && directory.physical.Ok? && directory.finalPhysical == directory.physical
    && Usable(directory.physical.value, cfg.limits.maxPathBytes) && Authorized(directory.physical.value, cfg.policy, true)
    && directory.tail.None? && NamesFit(path, directory.names, cfg.limits.maxPathBytes)
    && |EntryPaths(path, directory.names)| <= cfg.limits.maxDirectoryEntries
    && s.work.directoryEntries + |EntryPaths(path, directory.names)| <= cfg.limits.maxTotalDirectoryEntries
  }

  /** The disk answers this kind of query cleanly, within the quotas. */
  ghost predicate Clean(cfg: Config, s: State, kind: QueryKind, path: string, world: World)
    requires path != ""
  {
    match kind
    case StatusQuery => CleanStatus(cfg, world)
    case OpenQuery => CleanFile(cfg, s, world.file)
    case RealPathQuery => world.realPath.Ok? && |world.realPath.value| <= cfg.limits.maxPathBytes
    case DirectoryQuery => CleanDirectory(cfg, s, path, world.directory)
    case LocalityQuery => world.locality.Ok?
  }

  /** The text a clean answer adds to the record. */
  function CleanText(kind: QueryKind, path: string, world: World): nat
    requires path != ""
  {
    match kind
    case StatusQuery => if world.realPath.Ok? then |world.realPath.value| else 0
    case OpenQuery => if world.file.physical.Ok? then 2 * |world.file.physical.value| else 0
    case RealPathQuery => if world.realPath.Ok? then |world.realPath.value| else 0
    case DirectoryQuery =>
      (if world.directory.physical.Ok? then |world.directory.physical.value| else 0)
      + TotalLength(EntryPaths(path, world.directory.names))
    case LocalityQuery => 0
  }

  // --- Each kind -----------------------------------------------------------------------------

  /** Nothing fails, and the physical path is the answered one, if any. */
  ghost predicate Succeeds(w: Work, r: (Work, Observation), physical: Option<string>) {
    r.1.error.None? && r.0.failure == w.failure && (r.1.physical != "" ==> physical == Some(r.1.physical))
  }

  lemma StatusSucceeds(cfg: Config, w: Work, path: string, world: World)
    requires CleanStatus(cfg, world) && SameMeta(w, path, world.status.value)
    requires w.stringBytes + |world.realPath.value| <= cfg.limits.maxStringBytes
    ensures Succeeds(w, ObserveStatus(cfg, w, path, world), Some(world.realPath.value))
  {}

  lemma UsablePath(physical: string, limit: nat)
    requires Usable(physical, limit)
    ensures PhysicalPath(Ok(physical), limit) == Ok(physical)
  {}

  lemma FileReads(cfg: Config, s: State, path: string, maxBytes: nat, file: FileScript)
    requires CleanFile(cfg, s, file) && SpellingError(path, cfg.limits.maxPathBytes).None?
    requires file.before.value.meta.size <= maxBytes
    ensures var read := ReadFile(path, cfg.policy, maxBytes, cfg.limits.maxPathBytes, file);
      && read.Ok? && read.value.meta == file.before.value.meta && read.value.physical == file.physical.value
      && exists count :: (Whole(file.answers, count, read.value.meta.size)
           && read.value.bytes == Chunks(file.answers, count, read.value.meta.size))
  {
    UsablePath(file.physical.value, cfg.limits.maxPathBytes);
    ReadAllExact(file.answers, file.before.value.meta.size);
  }

  lemma CaptureSucceeds(cfg: Config, w: Work, path: string, current: Snapshot)
    requires SameMeta(w, path, current.meta)
    requires current.meta.id in w.identities ==> w.identities[current.meta.id].bytes == current.bytes
    requires w.stringBytes + 2 * |current.physical| <= cfg.limits.maxStringBytes
    ensures Succeeds(w, Capture(cfg, w, path, current), Some(current.physical))
  {}

  lemma OpenSucceeds(cfg: Config, s: State, w: Work, path: string, status: Option<Observation>, resolved: Option<Observation>, world: World)
    requires CleanFile(cfg, s, world.file) && SpellingError(path, cfg.limits.maxPathBytes).None?
    requires w == s.work.(stringBytes := w.stringBytes)
    requires SameMeta(w, path, world.file.before.value.meta) && SameBytes(w, world.file)
    requires status.Some? ==> status.value.error.None?
    requires resolved.Some? ==> resolved.value.error.None? && resolved.value.physical == world.file.physical.value
    requires w.stringBytes + 2 * |world.file.physical.value| <= cfg.limits.maxStringBytes
    ensures Succeeds(w, ObserveOpen(cfg, w, path, status, resolved, world), Some(world.file.physical.value))
  {
    FileReads(cfg, s, path, RemainingFileBytes(cfg, w), world.file);
    var current := ReadFile(path, cfg.policy, RemainingFileBytes(cfg, w), cfg.limits.maxPathBytes, world.file).value;
    CaptureSucceeds(cfg, w, path, current);
  }

  lemma {:induction false} EntriesFit(limits: Limits, w: Work, entries: seq<string>)
    requires w.stringBytes + TotalLength(entries) <= limits.maxStringBytes
    ensures EntriesAffordable(limits, w, entries) && ChargeEntries(limits, w, entries).failure == w.failure
    decreases entries
  {
    if entries != [] { EntriesFit(limits, Charge(limits, w, |entries[0]|), entries[1..]); }
  }

  lemma {:induction false} DirectoryReads(cfg: Config, s: State, w: Work, path: string, directory: DirectoryScript)
    requires path != "" && CleanDirectory(cfg, s, path, directory) && SpellingError(path, cfg.limits.maxPathBytes).None?
    requires w.directoryEntries == s.work.directoryEntries
    requires w.stringBytes + TotalLength(EntryPaths(path, directory.names)) <= cfg.limits.maxStringBytes
    ensures ReadDirectory(path, cfg.policy, RemainingEntries(cfg, w), RemainingStrings(cfg, w), cfg.limits.maxPathBytes, directory)
      == Ok(DirectorySnapshot(directory.before.value.meta, directory.physical.value, EntryPaths(path, directory.names), None))
  {
    UsablePath(directory.physical.value, cfg.limits.maxPathBytes);
    ListEntriesExact(path, directory.names, RemainingEntries(cfg, w), RemainingStrings(cfg, w), cfg.limits.maxPathBytes);
  }

  lemma {:induction false} DirectorySucceeds(cfg: Config, s: State, w: Work, path: string, world: World)
    requires path != "" && CleanDirectory(cfg, s, path, world.directory) && SpellingError(path, cfg.limits.maxPathBytes).None?
    requires w == s.work.(stringBytes := w.stringBytes) && SameMeta(w, path, world.directory.before.value.meta)
    requires w.stringBytes + |world.directory.physical.value| + TotalLength(EntryPaths(path, world.directory.names))
      <= cfg.limits.maxStringBytes
    ensures Succeeds(w, ObserveDirectory(cfg, w, path, world), Some(world.directory.physical.value))
  {
    DirectoryReads(cfg, s, w, path, world.directory);
    var noted := Note(w, path, world.directory.before.value.meta);
    EntriesFit(cfg.limits, Charge(cfg.limits, noted, |world.directory.physical.value|), EntryPaths(path, world.directory.names));
  }

  /** The earlier observations that an Open query looks at. */
  lemma EarlierAgrees(s: State, index: nat, kind: QueryKind, path: string, physical: Option<string>)
    requires KeysAgree(s) && Placed(s, index, kind, path, physical)
    requires kind == OpenQuery && index < |s.observations| && s.observations[index].kind == OpenQuery
    ensures Earlier(s, StatusQuery, path).Some? ==> Earlier(s, StatusQuery, path).value.error.None?
    ensures Earlier(s, RealPathQuery, path).Some? ==>
      Earlier(s, RealPathQuery, path).value.error.None? && physical == Some(Earlier(s, RealPathQuery, path).value.physical)
  {}

  /** All observations of the path but the new one agree with the physical path. */
  ghost predicate Placed(s: State, index: nat, kind: QueryKind, path: string, physical: Option<string>) {
    forall j :: 0 <= j < |s.observations| && j != index && s.observations[j].path == path ==>
      && s.observations[j].error.None?
      && (s.observations[j].kind == RealPathQuery || s.observations[j].physical != "" ==>
            kind == LocalityQuery || physical == Some(s.observations[j].physical))
  }

  lemma ObserveSucceeds(cfg: Config, s: State, s1: State, index: nat, kind: QueryKind, path: string, prior: Option<string>, world: World)
    requires KeysAgree(s1) && path != "" && SpellingError(path, cfg.limits.maxPathBytes).None?
    requires s1.work == s.work.(stringBytes := s1.work.stringBytes) && Clean(cfg, s, kind, path, world)
    requires s1.work.stringBytes + CleanText(kind, path, world) <= cfg.limits.maxStringBytes
    requires MetaAnswer(kind, world).Some? ==> SameMeta(s1.work, path, MetaAnswer(kind, world).value)
    requires kind == OpenQuery ==> SameBytes(s1.work, world.file)
    requires index < |s1.observations| && s1.observations[index].kind == kind
    requires Placed(s1, index, kind, path, PhysicalAnswer(kind, world))
    requires prior.Some? && kind != LocalityQuery ==> prior == PhysicalAnswer(kind, world)
    ensures Succeeds(s1.work, Observe(cfg, s1, kind, path, prior, world), PhysicalAnswer(kind, world))
  {
    match kind
    case StatusQuery => StatusSucceeds(cfg, s1.work, path, world);
    case OpenQuery =>
      EarlierAgrees(s1, index, kind, path, PhysicalAnswer(kind, world));
      OpenSucceeds(cfg, s, s1.work, path, Earlier(s1, StatusQuery, path), Earlier(s1, RealPathQuery, path), world);
    case RealPathQuery =>
    case DirectoryQuery => DirectorySucceeds(cfg, s, s1.work, path, world);
    case LocalityQuery =>
  }

  // --- The query ---------------------------------------------------------------------------------

  lemma {:induction false} PriorAgrees(s: State, index: nat, physical: Option<string>)
    requires KeysAgree(s) && index < |s.observations|
    requires Placed(s, index, s.observations[index].kind, s.observations[index].path, physical)
    ensures var r := Settled(s, index, CROSS_CHECKED, None);
      r.Ok? && (r.value.Some? && s.observations[index].kind != LocalityQuery ==> r.value == physical)
  {
    SettledNegative(s, index, CROSS_CHECKED, None);
    SettledPhysical(s, index, CROSS_CHECKED, None);
  }

  lemma RecordSucceeds(cfg: Config, s: State, s1: State, index: nat, world: World)
    requires KeysAgree(s1) && index < |s1.observations|
    requires var o := s1.observations[index];
      && Placed(s1, index, o.kind, o.path, PhysicalAnswer(o.kind, world))
      && (MetaAnswer(o.kind, world).Some? ==> SameMeta(s1.work, o.path, MetaAnswer(o.kind, world).value))
    requires var o := s1.observations[index];
      && o.path != "" && SpellingError(o.path, cfg.limits.maxPathBytes).None?
      && s1.work == s.work.(stringBytes := s1.work.stringBytes) && Clean(cfg, s, o.kind, o.path, world)
      && (o.kind == OpenQuery ==> SameBytes(s1.work, world.file))
      && s1.work.stringBytes + CleanText(o.kind, o.path, world) <= cfg.limits.maxStringBytes
    ensures var r := Recorded(cfg, s1, index, world); r.1.error.None? && r.0.failure == s1.work.failure
  {
    var o := s1.observations[index];
    PriorAgrees(s1, index, PhysicalAnswer(o.kind, world));
    var prior := Settled(s1, index, CROSS_CHECKED, None).value;
    ObserveSucceeds(cfg, s, s1, index, o.kind, o.path, prior, world);
    var (w, answer) := Observe(cfg, s1, o.kind, o.path, prior, world);
    LocalityPlain(cfg, s1, o.path, prior, world);
    CheckedSucceeds(w, answer, prior);
  }

  lemma LocalityPlain(cfg: Config, s: State, path: string, prior: Option<string>, world: World)
    requires KeysAgree(s)
    ensures Observe(cfg, s, LocalityQuery, path, prior, world).1.physical == ""
  {}

  lemma CheckedSucceeds(w: Work, o: Observation, prior: Option<string>)
    requires o.error.None? && (prior.Some? && o.physical != "" ==> o.physical == prior.value)
    ensures CrossCheck(w, o, prior) == (w, o)
  {}

  /**
   A clean answer within the quotas that agrees with all earlier ones is recorded as a success; the
   file system stays usable.
   */
  lemma CleanQuerySucceeds(cfg: Config, s: State, kind: QueryKind, path: string, world: World)
    requires KeysAgree(s) && path != "" && path[0] == '/' && '\0' !in path && |path| <= cfg.limits.maxPathBytes
    requires Clean(cfg, s, kind, path, world) && Consistent(s, kind, path, world) && Room(cfg, s, kind, path, CleanText(kind, path, world))
    ensures var (s1, r) := Query(cfg, s, kind, path, world);
      && r == Ok(|s.observations|) && |s1.observations| == |s.observations| + 1 && Complete(s1)
      && var o := s1.observations[|s.observations|]; o.kind == kind && o.path == path && o.error.None?
  {
    var s1, index := Asked(cfg, s, kind, path), |s.observations|;
    QueryRecords(cfg, s, kind, path, CleanText(kind, path, world), world);
    PlacedBefore(s, s1, kind, path, PhysicalAnswer(kind, world));
    RecordSucceeds(cfg, s, s1, index, world);
    RecordedKind(cfg, s1, index, world);
  }

  /** The state in which a new query is recorded. */
  function Asked(cfg: Config, s: State, kind: QueryKind, path: string): State {
    Append(s.(work := Charge(cfg.limits, s.work, 8 * |path|)), kind, path)
  }

  lemma QueryRecords(cfg: Config, s: State, kind: QueryKind, path: string, bytes: nat, world: World)
    requires KeysAgree(s) && path != "" && path[0] == '/' && '\0' !in path && |path| <= cfg.limits.maxPathBytes
    requires Room(cfg, s, kind, path, bytes)
    ensures var s1, index := Asked(cfg, s, kind, path), |s.observations|;
      && KeysAgree(s1) && s1.observations == s.observations + [Blank(kind, path)]
      && s1.work == s.work.(stringBytes := s.work.stringBytes + 8 * |path|)
      && Query(cfg, s, kind, path, world) == (Record(cfg, s1, index, world), Ok(index))
      && Record(cfg, s1, index, world).observations == s.observations + [Recorded(cfg, s1, index, world).1]
      && Record(cfg, s1, index, world).work == Recorded(cfg, s1, index, world).0
  {
    var charged := s.(work := Charge(cfg.limits, s.work, 8 * |path|));
    assert (kind, path) !in s.indices;
    AppendAgrees(charged, kind, path);
    RecordedLast(cfg, charged, kind, path, world);
    assert QueryNew(cfg, s, kind, path, world).0 == Record(cfg, Append(charged, kind, path), |s.observations|, world);
  }

  lemma PlacedBefore(s: State, s1: State, kind: QueryKind, path: string, physical: Option<string>)
    requires SamePlace(s, kind, path, physical) && s1.observations == s.observations + [Blank(kind, path)]
    ensures Placed(s1, |s.observations|, kind, path, physical)
  {
    assert forall j :: 0 <= j < |s.observations| ==> s1.observations[j] == s.observations[j] && s.observations[j] in s.observations;
  }

  lemma RecordedKind(cfg: Config, s: State, index: nat, world: World)
    requires KeysAgree(s) && index < |s.observations|
    ensures var o := Recorded(cfg, s, index, world).1;
      o.kind == s.observations[index].kind && o.path == s.observations[index].path
  {
    match Settled(s, index, CROSS_CHECKED, None)
    case Err(_) =>
    case Ok(prior) => ObserveSticky(cfg, s, s.observations[index].kind, s.observations[index].path, prior, world);
  }
}
