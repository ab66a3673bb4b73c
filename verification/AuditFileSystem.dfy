/**
 The recording file system of one audit: every operation's first answer is recorded and replayed,
 answers about one path are cross-checked, budgets are charged, and the first failure sticks.

 The disk is an adversary: each query brings a `World` of fresh answers, unrelated to any
 earlier one. The functions specify one query; the class performs it field by field.
 */
module AuditFileSystem {
  import opened Outcomes
  import opened NativeReader
  import HeaderText

  datatype QueryKind = StatusQuery | OpenQuery | RealPathQuery | DirectoryQuery | LocalityQuery

  datatype Limits = Limits(
    maxFileBytes: nat, maxTotalFileBytes: nat, maxQueries: nat, maxPathBytes: nat,
    maxStringBytes: nat, maxDirectoryEntries: nat, maxTotalDirectoryEntries: nat)

  datatype Config = Config(cwd: string, policy: Policy, limits: Limits)

  datatype Observation = Observation(
    kind: QueryKind, path: string, error: Option<Errc>, status: Option<Meta>, physical: string,
    bytes: Option<string>, entries: Option<seq<string>>, tail: Option<Errc>, isLocal: bool)

  /** The answers the disk gives while one query is performed. */
  datatype World = World(
    status: Result<Meta, Errc>, realPath: Result<string, Errc>, statusAfter: Result<Meta, Errc>,
    file: FileScript, directory: DirectoryScript, locality: Result<bool, Errc>)

  /** Everything an observation may change besides the record: failure, budgets, cross-check tables. */
  datatype Work = Work(
    failure: string, capturedBytes: nat, stringBytes: nat, directoryEntries: nat,
    statuses: map<string, Meta>, identities: map<int, Snapshot>)

  datatype State = State(isSealed: bool, work: Work, indices: map<(QueryKind, string), nat>, observations: seq<Observation>)

  /** A fresh file system; an unusable working directory has already failed it. */
  function Initial(cfg: Config, cwdAvailable: bool): State {
    var failure :=
      if |cfg.cwd| > cfg.limits.maxPathBytes || '\0' in cfg.cwd || !HeaderText.AbsolutePath(cfg.cwd)
      then "invalid working directory"
      else if !cwdAvailable then "unavailable working directory"
      else "";
    State(false, Work(failure, 0, 0, 0, map[], map[]), map[], [])
  }

  const MAX_SIZE: nat := 0xFFFF_FFFF_FFFF_FFFF

  function Blank(kind: QueryKind, path: string): Observation {
    Observation(kind, path, None, None, "", None, None, None, false)
  }

  // --- Failure, budgets, consistency -------------------------------------------------

  predicate Complete(s: State) {
    s.work.failure == ""
  }

  /** Only the first reason is kept. */
  function Fail(w: Work, reason: string): Work {
    if w.failure == "" then w.(failure := reason) else w
  }

  predicate Affordable(limits: Limits, w: Work, bytes: nat) {
    bytes <= limits.maxStringBytes - Min(w.stringBytes, limits.maxStringBytes)
  }

  function Charge(limits: Limits, w: Work, bytes: nat): Work {
    if Affordable(limits, w, bytes) then w.(stringBytes := w.stringBytes + bytes)
    else Fail(w, "observation string limit exceeded")
  }

  /** The metadata contradicts neither the path's earlier metadata nor that of an opened alias. */
  predicate Matches(w: Work, path: string, meta: Meta) {
    && (path in w.statuses ==> w.statuses[path] == meta)
    && (meta.id in w.identities ==> w.identities[meta.id].meta == meta)
  }

  /** Remembers a path's first metadata, or fails. */
  function Note(w: Work, path: string, meta: Meta): Work {
    if path in w.statuses && w.statuses[path] != meta then Fail(w, "file metadata changed between observations")
    else if meta.id in w.identities && w.identities[meta.id].meta != meta then
      Fail(w, "file identity changed between aliases")
    else if path in w.statuses then w
    else w.(statuses := w.statuses[path := meta])
  }

  function Absolute(cfg: Config, w: Work, text: string): (Work, Result<string, Errc>) {
    if '\0' in text then (Fail(w, "path contains null"), Err(InvalidArgument))
    else if |text| > cfg.limits.maxPathBytes then (Fail(w, "path limit exceeded"), Err(FilenameTooLong))
    else
      var name :=
        if HeaderText.AbsolutePath(text) then text
        else if text == "" then cfg.cwd
        else HeaderText.Join(cfg.cwd, text);
      if |name| > cfg.limits.maxPathBytes then (Fail(w, "absolute path limit exceeded"), Err(FilenameTooLong))
      else (w, Ok(name))
  }

  // --- Earlier answers about the same path ---------------------------------------------

  function KeyOf(o: Observation): (QueryKind, string) {
    (o.kind, o.path)
  }

  /** The key index and the list of observations describe each other. */
  ghost predicate KeysAgree(s: State) {
    && (forall k :: k in s.indices ==> (s.indices[k] < |s.observations| && KeyOf(s.observations[s.indices[k]]) == k))
    && (forall i :: 0 <= i < |s.observations| ==>
          (KeyOf(s.observations[i]) in s.indices && s.indices[KeyOf(s.observations[i])] == i))
  }

  /** A not-found answer; that a path is no directory is one only for other queries. */
  predicate NotFound(prior: Observation) {
    || prior.error == Some(NoSuchFile)
    || (prior.kind != DirectoryQuery && prior.error == Some(NotADirectory))
  }

  const CROSS_CHECKED := [StatusQuery, OpenQuery, RealPathQuery, DirectoryQuery]

  /**
   What earlier answers about the path already settle: a not-found answer to repeat, or the
   physical path every later answer must share.
   */
  function Settled(s: State, index: nat, kinds: seq<QueryKind>, physical: Option<string>): Result<Option<string>, Errc>
    requires KeysAgree(s) && index < |s.observations|
  {
    if kinds == [] then Ok(physical)
    else
      var key := (kinds[0], s.observations[index].path);
      if key !in s.indices || s.indices[key] == index then Settled(s, index, kinds[1..], physical)
      else
        var prior := s.observations[s.indices[key]];
        if s.observations[index].kind != LocalityQuery && NotFound(prior)
        then Err(prior.error.value)
        else Settled(s, index, kinds[1..],
                     if prior.error.None? && prior.physical != "" then Some(prior.physical) else physical)
  }

  // --- One query of each kind ------------------------------------------------------------

  function ObserveStatus(cfg: Config, w: Work, path: string, world: World): (Work, Observation) {
    var blank := Blank(StatusQuery, path);
    if path in w.statuses then (w, blank.(status := Some(w.statuses[path])))
    else if world.status.Err? then (w, blank.(error := Some(world.status.error)))
    else
      var meta := world.status.value;
      var noted := Note(w, path, meta);
      if !Matches(w, path, meta) then (noted, blank.(error := Some(NotRecoverable)))
      else if world.realPath.Err? then (noted, blank.(error := Some(world.realPath.error)))
      else if world.statusAfter != world.status then
        (Fail(noted, "metadata target changed while resolving"), blank.(error := Some(NotRecoverable)))
      else
        var physical := world.realPath.value;
        if |physical| > cfg.limits.maxPathBytes then
          (Fail(noted, "resolved path limit exceeded"), blank.(error := Some(FilenameTooLong)))
        else if !Affordable(cfg.limits, noted, |physical|) then
          (Charge(cfg.limits, noted, |physical|), blank.(error := Some(FilenameTooLong)))
        else (Charge(cfg.limits, noted, |physical|), blank.(status := Some(meta), physical := physical))
  }

  function RemainingFileBytes(cfg: Config, w: Work): nat {
    Min(cfg.limits.maxTotalFileBytes - Min(w.capturedBytes, cfg.limits.maxTotalFileBytes), cfg.limits.maxFileBytes)
  }

  /** Earlier answers to the Status and RealPath queries of the same path, where they exist. */
  function ObserveOpen(cfg: Config, w: Work, path: string, status: Option<Observation>, resolved: Option<Observation>,
                       world: World): (Work, Observation)
  {
    var blank := Blank(OpenQuery, path);
    if status.Some? && status.value.error.Some? then (w, blank.(error := status.value.error))
    else
      match ReadFile(path, cfg.policy, RemainingFileBytes(cfg, w), cfg.limits.maxPathBytes, world.file)
      case Err(e) => (OpenFailed(w, e), blank.(error := Some(e)))
      case Ok(current) =>
        if resolved.Some? && (resolved.value.error.Some? || resolved.value.physical != current.physical) then
          (Fail(w, "physical target changed before read"), blank.(error := Some(NotRecoverable)))
        else Capture(cfg, w, path, current)
  }

  function OpenFailed(w: Work, e: Errc): Work {
    match e
    case FileTooLarge => Fail(w, "file byte limit exceeded")
    case NotRecoverable => Fail(w, "file changed while reading")
    case PermissionDenied => Fail(w, "content access denied")
    case _ => w
  }

  /** Charges and cross-checks the content that was read. */
  function Capture(cfg: Config, w: Work, path: string, current: Snapshot): (Work, Observation) {
    var blank := Blank(OpenQuery, path);
    var charged := Charge(cfg.limits, w, 2 * |current.physical|);
    if !Affordable(cfg.limits, w, 2 * |current.physical|) then (charged, blank.(error := Some(NotRecoverable)))
    else
      var noted := Note(charged, path, current.meta);
      if !Matches(charged, path, current.meta) then (noted, blank.(error := Some(NotRecoverable)))
      else
        var captured := noted.(capturedBytes := noted.capturedBytes + |current.bytes|);
        var id := current.meta.id;
        if id in captured.identities && captured.identities[id].bytes != current.bytes then
          (Fail(captured, "file bytes changed between aliases"), blank.(error := Some(NotRecoverable)))
        else
          (if id in captured.identities then captured
           else captured.(identities := captured.identities[id := current]),
           blank.(status := Some(current.meta), physical := current.physical, bytes := Some(current.bytes)))
  }

  function ObserveRealPath(cfg: Config, w: Work, path: string, prior: Option<string>, world: World): (Work, Observation) {
    var blank := Blank(RealPathQuery, path);
    if prior.Some? then
      (Charge(cfg.limits, w, |prior.value|),
       if Affordable(cfg.limits, w, |prior.value|) then blank.(physical := prior.value)
       else blank.(error := Some(FileTooLarge)))
    else
      match world.realPath
      case Err(e) => (w, blank.(error := Some(e)))
      case Ok(physical) =>
        if |physical| > cfg.limits.maxPathBytes then
          (Fail(w, "resolved path limit exceeded"), blank.(error := Some(FilenameTooLong)))
        else if !Affordable(cfg.limits, w, |physical|) then
          (Charge(cfg.limits, w, |physical|), blank.(error := Some(FilenameTooLong)))
        else (Charge(cfg.limits, w, |physical|), blank.(physical := physical))
  }

  /** Charges every entry name in turn, up to the first that no longer fits. */
  function ChargeEntries(limits: Limits, w: Work, entries: seq<string>): Work
    decreases entries
  {
    if entries == [] then w
    else if Affordable(limits, w, |entries[0]|) then ChargeEntries(limits, Charge(limits, w, |entries[0]|), entries[1..])
    else Charge(limits, w, |entries[0]|)
  }

  predicate EntriesAffordable(limits: Limits, w: Work, entries: seq<string>)
    decreases entries
  {
    entries == []
    || (Affordable(limits, w, |entries[0]|) && EntriesAffordable(limits, Charge(limits, w, |entries[0]|), entries[1..]))
  }

  function RemainingEntries(cfg: Config, w: Work): nat {
    Min(cfg.limits.maxTotalDirectoryEntries - Min(w.directoryEntries, cfg.limits.maxTotalDirectoryEntries),
        cfg.limits.maxDirectoryEntries)
  }

  function RemainingStrings(cfg: Config, w: Work): nat {
    cfg.limits.maxStringBytes - Min(w.stringBytes, cfg.limits.maxStringBytes)
  }

  function ObserveDirectory(cfg: Config, w: Work, path: string, world: World): (Work, Observation) {
    var blank := Blank(DirectoryQuery, path);
    match ReadDirectory(path, cfg.policy, RemainingEntries(cfg, w), RemainingStrings(cfg, w), cfg.limits.maxPathBytes, world.directory)
    case Err(e) =>
      (if e == NoSuchFile || e == NotADirectory then w else Fail(w, "directory observation failed"),
       blank.(error := Some(e)))
    case Ok(current) =>
      var noted := Note(w, path, current.meta);
      if !Matches(w, path, current.meta) then (noted, blank.(error := Some(NotRecoverable)))
      else if !Affordable(cfg.limits, noted, |current.physical|) then
        (Charge(cfg.limits, noted, |current.physical|), blank.(error := Some(NotRecoverable)))
      else Enumerated(cfg, Charge(cfg.limits, noted, |current.physical|), path, current)
  }

  function Enumerated(cfg: Config, w: Work, path: string, current: DirectorySnapshot): (Work, Observation) {
    var blank := Blank(DirectoryQuery, path);
    var charged := ChargeEntries(cfg.limits, w, current.entries);
    if !EntriesAffordable(cfg.limits, w, current.entries) then (charged, blank.(error := Some(FileTooLarge)))
    else
      var counted := charged.(directoryEntries := charged.directoryEntries + |current.entries|);
      (if current.tail.Some? then Fail(counted, "directory iteration incomplete") else counted,
       blank.(status := Some(current.meta), physical := current.physical,
              entries := Some(current.entries), tail := current.tail))
  }

  function ObserveLocality(w: Work, path: string, world: World): (Work, Observation) {
    var blank := Blank(LocalityQuery, path);
    match world.locality
    case Err(e) => (w, blank.(error := Some(e)))
    case Ok(here) => (w, blank.(isLocal := here))
  }

  function Earlier(s: State, kind: QueryKind, path: string): Option<Observation>
    requires KeysAgree(s)
  {
    if (kind, path) in s.indices then Some(s.observations[s.indices[(kind, path)]]) else None
  }

  function Observe(cfg: Config, s: State, kind: QueryKind, path: string, prior: Option<string>, world: World): (Work, Observation)
    requires KeysAgree(s)
  {
    match kind
    case StatusQuery => ObserveStatus(cfg, s.work, path, world)
    case OpenQuery =>
      ObserveOpen(cfg, s.work, path, Earlier(s, StatusQuery, path), Earlier(s, RealPathQuery, path), world)
    case RealPathQuery => ObserveRealPath(cfg, s.work, path, prior, world)
    case DirectoryQuery => ObserveDirectory(cfg, s.work, path, world)
    case LocalityQuery => ObserveLocality(s.work, path, world)
  }

  /** The physical target of a path moved between two successful observations. */
  predicate Moved(o: Observation, prior: Option<string>) {
    o.error.None? && prior.Some? && o.physical != "" && prior.value != o.physical
  }

  /** A path that was observed before is now reported missing. */
  predicate Disappeared(w: Work, o: Observation, prior: Option<string>) {
    && (prior.Some? || o.path in w.statuses)
    && (|| o.error == Some(NoSuchFile)
        || (o.error == Some(NotADirectory)
            && (o.kind != DirectoryQuery || (o.path in w.statuses && w.statuses[o.path].kind == DirectoryFile))))
  }

  /** The closing cross-checks: a moved physical target, or an input that disappeared. */
  function CrossCheck(w: Work, o: Observation, prior: Option<string>): (Work, Observation) {
    if Moved(o, prior) then
      (Fail(w, "physical target changed between observations"), o.(error := Some(NotRecoverable)))
    else if Disappeared(w, o, prior) then
      (Fail(w, "existing input disappeared between observations"), o.(error := Some(NotRecoverable)))
    else (w, o)
  }

  /** Fills in the observation that was just appended at `index`. */
  function Record(cfg: Config, s: State, index: nat, world: World): State
    requires KeysAgree(s) && index < |s.observations|
  {
    var kind, path := s.observations[index].kind, s.observations[index].path;
    match Settled(s, index, CROSS_CHECKED, None)
    case Err(e) => s.(observations := s.observations[index := Blank(kind, path).(error := Some(e))])
    case Ok(prior) =>
      var (w, o) := Observe(cfg, s, kind, path, prior, world);
      var (final, checked) := CrossCheck(w, o, prior);
      s.(work := final, observations := s.observations[index := checked])
  }

  function Append(s: State, kind: QueryKind, path: string): State {
    s.(indices := s.indices[(kind, path) := |s.observations|],
       observations := s.observations + [Blank(kind, path)])
  }

  lemma AppendAgrees(s: State, kind: QueryKind, path: string)
    requires KeysAgree(s) && (kind, path) !in s.indices
    ensures KeysAgree(Append(s, kind, path))
  {}

  /** The internal query behind every public operation: an index into the observations. */
  function Query(cfg: Config, s: State, kind: QueryKind, text: string, world: World): (State, Result<nat, Errc>)
    requires KeysAgree(s)
  {
    if !Complete(s) then (s, Err(NotRecoverable))
    else
      match Absolute(cfg, s.work, text)
      case (w, Err(e)) => (s.(work := w), Err(e))
      case (_, Ok(name)) =>
        if (kind, name) in s.indices then (s, Ok(s.indices[(kind, name)]))
        else QueryNew(cfg, s, kind, name, world)
  }

  /** A query that was not observed before. */
  function QueryNew(cfg: Config, s: State, kind: QueryKind, name: string, world: World): (State, Result<nat, Errc>)
    requires KeysAgree(s) && (kind, name) !in s.indices
  {
    if s.isSealed then (s.(work := Fail(s.work, "unobserved query after seal")), Err(NotPermitted))
    else if |s.observations| >= cfg.limits.maxQueries then
      (s.(work := Fail(s.work, "observation count limit exceeded")), Err(FileTooLarge))
    else if |name| > MAX_SIZE / 8 then (s, Err(FileTooLarge))
    else
      var charged := s.(work := Charge(cfg.limits, s.work, 8 * |name|));
      if !Affordable(cfg.limits, s.work, 8 * |name|) then (charged, Err(FileTooLarge))
      else
        AppendAgrees(charged, kind, name);
        (Record(cfg, Append(charged, kind, name), |s.observations|, world), Ok(|s.observations|))
  }

  /** A working-directory change is accepted only when it changes nothing. */
  function ChangeDirectory(cfg: Config, s: State, text: string): (State, Option<Errc>) {
    match Absolute(cfg, s.work, text)
    case (w, Err(e)) => (s.(work := w), Some(e))
    case (w, Ok(name)) =>
      if name != cfg.cwd then (s.(work := Fail(w, "working directory change unsupported")), Some(NotSupported))
      else (s, None)
  }
}
