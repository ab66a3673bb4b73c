/** Where recorded answers come from: from what the disk answered when it was asked. */
module AuditSources {
  import opened Outcomes
  import HeaderText
  import opened PathParts
  import opened NativeReader
  import opened ReadPolicy
  import opened AuditFileSystem
  import opened AuditRuns

  // --- What the disk was asked and what it said -------------------------------------------

  /** The path that a query text names: absolute as it is, otherwise under the working directory. */
  predicate Names(cfg: Config, text: string, path: string) {
    if text == "" then path == cfg.cwd
    else if text[0] == '/' then path == text
    else NameUnder(path, cfg.cwd, text)
  }

  predicate AsksFor(cfg: Config, op: Op, path: string) {
    op.Ask? && Names(cfg, op.text, path)
  }

  predicate GaveMeta(op: Op, meta: Meta)
    requires op.Ask?
  {
    match op.kind
    case StatusQuery => op.world.status == Ok(meta)
    case OpenQuery => op.world.file.before.Ok? && op.world.file.before.value.meta == meta
    case DirectoryQuery => op.world.directory.before.Ok? && op.world.directory.before.value.meta == meta
    case _ => false
  }

  predicate GavePhysical(op: Op, physical: string)
    requires op.Ask?
  {
    match op.kind
    case StatusQuery => op.world.realPath == Ok(physical)
    case OpenQuery => op.world.file.physical == Ok(physical)
    case RealPathQuery => op.world.realPath == Ok(physical)
    case DirectoryQuery => op.world.directory.physical == Ok(physical)
    case LocalityQuery => false
  }

  /** Some answer of the disk to this query says that there is no such file. */
  predicate SaysMissing(op: Op)
    requires op.Ask?
  {
    match op.kind
    case StatusQuery => op.world.status == Err(NoSuchFile) || op.world.realPath == Err(NoSuchFile)
    case OpenQuery =>
      || op.world.file.openError == Some(NoSuchFile) || op.world.file.before == Err(NoSuchFile)
      || op.world.file.physical == Err(NoSuchFile) || op.world.file.after == Err(NoSuchFile)
      || Err(NoSuchFile) in op.world.file.answers
    case RealPathQuery => op.world.realPath == Err(NoSuchFile)
    case DirectoryQuery =>
      || op.world.directory.openError == Some(NoSuchFile) || op.world.directory.before == Err(NoSuchFile)
      || op.world.directory.physical == Err(NoSuchFile) || op.world.directory.after == Err(NoSuchFile)
    case LocalityQuery => op.world.locality == Err(NoSuchFile)
  }

  ghost predicate MetaKnown(cfg: Config, asked: seq<Op>, path: string, meta: Meta) {
    exists op :: op in asked && AsksFor(cfg, op, path) && GaveMeta(op, meta)
  }

  ghost predicate PhysicalKnown(cfg: Config, asked: seq<Op>, path: string, physical: string) {
    exists op :: op in asked && AsksFor(cfg, op, path) && GavePhysical(op, physical)
  }

  ghost predicate MissingKnown(cfg: Config, asked: seq<Op>, path: string) {
    exists op :: op in asked && AsksFor(cfg, op, path) && SaysMissing(op)
  }

  // --- Truthful observations --------------------------------------------------------------

  ghost predicate TrueStatus(cfg: Config, asked: seq<Op>, world: World, o: Observation) {
    && o.status.Some? && o.bytes.None? && o.entries.None?
    && ((world.status == Ok(o.status.value) && world.statusAfter == world.status && world.realPath == Ok(o.physical))
        || (o.physical == "" && MetaKnown(cfg, asked, o.path, o.status.value)))
  }

  /** The bytes are the chunks that were read, up to the size, and nothing changed while reading. */
  ghost predicate TrueOpen(cfg: Config, world: World, o: Observation) {
    var file := world.file;
    && o.status.Some? && o.bytes.Some? && o.entries.None?
    && file.openError.None? && file.before.Ok? && file.before.value.meta == o.status.value && file.after == file.before
    && o.status.value.kind == RegularFile
    && file.physical == Ok(o.physical) && file.finalPhysical == Ok(o.physical)
    && Usable(o.physical, cfg.limits.maxPathBytes) && Authorized(o.physical, cfg.policy, false)
    && exists count :: Whole(file.answers, count, o.status.value.size)
         && o.bytes.value == Chunks(file.answers, count, o.status.value.size)
  }

  ghost predicate TrueRealPath(cfg: Config, asked: seq<Op>, world: World, o: Observation) {
    && o.status.None? && o.bytes.None? && o.entries.None?
    && (world.realPath == Ok(o.physical) || PhysicalKnown(cfg, asked, o.path, o.physical))
  }

  function Undotted(names: seq<string>): seq<string> {
    if names == [] then []
    else (if names[0] == "." || names[0] == ".." then [] else [names[0]]) + Undotted(names[1..])
  }

  /** Every entry but the two dots, in order, under the directory's path. */
  ghost predicate Lists(path: string, names: seq<string>, entries: seq<string>) {
    && |entries| == |Undotted(names)|
    && forall i :: 0 <= i < |entries| && '/' !in Undotted(names)[i] ==> NameUnder(entries[i], path, Undotted(names)[i])
  }

  ghost predicate TrueDirectory(cfg: Config, world: World, o: Observation) {
    var directory := world.directory;
    && o.status.Some? && o.bytes.None? && o.entries.Some?
    && directory.openError.None? && directory.before.Ok? && directory.before.value.meta == o.status.value
    && directory.after == directory.before && o.status.value.kind == DirectoryFile
    && directory.physical == Ok(o.physical) && directory.finalPhysical == Ok(o.physical)
    && Usable(o.physical, cfg.limits.maxPathBytes) && Authorized(o.physical, cfg.policy, true)
    && Lists(o.path, directory.names, o.entries.value) && o.tail == directory.tail
  }

  ghost predicate TrueAnswer(cfg: Config, asked: seq<Op>, world: World, o: Observation) {
    match o.kind
    case StatusQuery => TrueStatus(cfg, asked, world, o)
    case OpenQuery => TrueOpen(cfg, world, o)
    case RealPathQuery => TrueRealPath(cfg, asked, world, o)
    case DirectoryQuery => TrueDirectory(cfg, world, o)
    case LocalityQuery => world.locality == Ok(o.isLocal) && o.physical == ""
  }

  /** A success is what the disk answered to one query of this kind for this path; a missing file was reported missing. */
  ghost predicate Truthful(cfg: Config, asked: seq<Op>, o: Observation) {
    && (o.error.None? ==> exists op :: op in asked && AsksFor(cfg, op, o.path) && op.kind == o.kind && TrueAnswer(cfg, asked, op.world, o))
    && (o.error == Some(NoSuchFile) ==> MissingKnown(cfg, asked, o.path))
  }

  ghost predicate Traced(cfg: Config, asked: seq<Op>, s: State) {
    && (forall p :: p in s.work.statuses ==> MetaKnown(cfg, asked, p, s.work.statuses[p]))
    && (forall o :: o in s.observations ==> Truthful(cfg, asked, o))
  }

  // --- One query -------------------------------------------------------------------------------

  lemma AbsoluteNames(cfg: Config, w: Work, text: string)
    ensures Absolute(cfg, w, text).1.Ok? ==> Names(cfg, text, Absolute(cfg, w, text).1.value)
  {
    if text != "" && !HeaderText.AbsolutePath(text) { UnderIsJoin(HeaderText.Join(cfg.cwd, text), cfg.cwd, text); }
  }

  lemma {:induction false} EntriesListed(path: string, names: seq<string>)
    requires path != ""
    ensures Lists(path, names, EntryPaths(path, names))
  {
    if names != [] {
      EntriesListed(path, names[1..]);
      var name, rest := names[0], Undotted(names[1..]);
      if !DotName(name) {
        if '/' !in name {
          UnderIsJoin(EntryPath(path, name), path, name);
        }
        assert EntryPaths(path, names) == [EntryPath(path, name)] + EntryPaths(path, names[1..]);
        assert Undotted(names) == [name] + rest;
      } else {
        assert EntryPaths(path, names) == EntryPaths(path, names[1..]);
        assert Undotted(names) == rest;
      }
    }
  }

  /** The tables only learn what this query was answered. */
  ghost predicate Learns(a: Work, b: Work, op: Op, path: string)
    requires op.Ask?
  {
    forall p :: p in b.statuses ==> (p in a.statuses && b.statuses[p] == a.statuses[p]) || (p == path && GaveMeta(op, b.statuses[p]))
  }

  ghost predicate MissingSaid(op: Op, o: Observation)
    requires op.Ask?
  {
    o.error == Some(NoSuchFile) ==> SaysMissing(op)
  }

  lemma NoteLearns(w: Work, op: Op, path: string, meta: Meta)
    requires op.Ask? && GaveMeta(op, meta)
    ensures Learns(w, Note(w, path, meta), op, path)
  {}

  lemma SameLearns(a: Work, b: Work, c: Work, op: Op, path: string)
    requires op.Ask? && Learns(a, b, op, path) && c.statuses == b.statuses
    ensures Learns(a, c, op, path)
  {}

  lemma {:induction false} ChargeEntriesKeeps(limits: Limits, w: Work, entries: seq<string>)
    ensures ChargeEntries(limits, w, entries).statuses == w.statuses
    decreases entries
  {
    if entries != [] { ChargeEntriesKeeps(limits, Charge(limits, w, |entries[0]|), entries[1..]); }
  }

  lemma StatusLearns(cfg: Config, w: Work, op: Op, path: string)
    requires op.Ask? && op.kind == StatusQuery
    ensures Learns(w, ObserveStatus(cfg, w, path, op.world).0, op, path)
  {
    if path !in w.statuses && op.world.status.Ok? {
      var noted := Note(w, path, op.world.status.value);
      NoteLearns(w, op, path, op.world.status.value);
      SameLearns(w, noted, ObserveStatus(cfg, w, path, op.world).0, op, path);
    }
  }

  lemma StatusTrue(cfg: Config, asked: seq<Op>, w: Work, op: Op, path: string)
    requires op.Ask? && op.kind == StatusQuery
    requires path in w.statuses ==> MetaKnown(cfg, asked, path, w.statuses[path])
    ensures var o := ObserveStatus(cfg, w, path, op.world).1;
      MissingSaid(op, o) && (o.error.None? ==> TrueStatus(cfg, asked, op.world, o))
  {}

  lemma ReadTrue(cfg: Config, w: Work, path: string, file: FileScript, maxBytes: nat)
    ensures var read := ReadFile(path, cfg.policy, maxBytes, cfg.limits.maxPathBytes, file);
      read.Ok? ==>
        && file.openError.None? && file.before.Ok? && file.before.value.meta == read.value.meta && file.after == file.before
        && read.value.meta.kind == RegularFile
        && Usable(read.value.physical, cfg.limits.maxPathBytes) && Authorized(read.value.physical, cfg.policy, false)
        && file.physical == Ok(read.value.physical) && file.finalPhysical == Ok(read.value.physical)
        && exists count :: (Whole(file.answers, count, read.value.meta.size)
             && read.value.bytes == Chunks(file.answers, count, read.value.meta.size))
  {
    var read := ReadFile(path, cfg.policy, maxBytes, cfg.limits.maxPathBytes, file);
    if read.Ok? { ReadAllExact(file.answers, file.before.value.meta.size); }
  }

  lemma {:induction false} ReadAllErrors(answers: seq<Result<string, Errc>>, remaining: nat)
    requires ReadAll(answers, remaining) == Err(NoSuchFile)
    ensures Err(NoSuchFile) in answers
  {
    if answers[0] != Err(NoSuchFile) {
      ReadAllErrors(answers[1..], remaining - |Delivered(answers[0].value, remaining)|);
    }
  }

  lemma ReadMissing(cfg: Config, path: string, op: Op, maxBytes: nat)
    requires op.Ask? && op.kind == OpenQuery
    ensures ReadFile(path, cfg.policy, maxBytes, cfg.limits.maxPathBytes, op.world.file) == Err(NoSuchFile) ==> SaysMissing(op)
  {
    var file := op.world.file;
    if file.before.Ok? && ReadAll(file.answers, file.before.value.meta.size) == Err(NoSuchFile) {
      ReadAllErrors(file.answers, file.before.value.meta.size);
    }
  }

  lemma CaptureTrue(cfg: Config, w: Work, op: Op, path: string, current: Snapshot)
    requires op.Ask? && op.kind == OpenQuery && GaveMeta(op, current.meta)
    ensures var (last, o) := Capture(cfg, w, path, current);
      && Learns(w, last, op, path) && o.error != Some(NoSuchFile)
      && (o.error.None? ==>
            o == Blank(OpenQuery, path).(status := Some(current.meta), physical := current.physical, bytes := Some(current.bytes)))
  {
    var charged := Charge(cfg.limits, w, 2 * |current.physical|);
    if Affordable(cfg.limits, w, 2 * |current.physical|) {
      NoteLearns(charged, op, path, current.meta);
      SameLearns(charged, Note(charged, path, current.meta), Capture(cfg, w, path, current).0, op, path);
    }
  }

  lemma OpenFailedKeeps(w: Work, e: Errc)
    ensures OpenFailed(w, e).statuses == w.statuses
  {}

  lemma OpenLearns(cfg: Config, w: Work, op: Op, path: string, status: Option<Observation>, resolved: Option<Observation>)
    requires op.Ask? && op.kind == OpenQuery
    ensures Learns(w, ObserveOpen(cfg, w, path, status, resolved, op.world).0, op, path)
  {
    if status.None? || status.value.error.None? {
      ReadTrue(cfg, w, path, op.world.file, RemainingFileBytes(cfg, w));
      match ReadFile(path, cfg.policy, RemainingFileBytes(cfg, w), cfg.limits.maxPathBytes, op.world.file)
      case Err(e) => OpenFailedKeeps(w, e);
      case Ok(current) => CaptureTrue(cfg, w, op, path, current);
    }
  }

  lemma OpenTrue(cfg: Config, w: Work, op: Op, path: string, status: Option<Observation>, resolved: Option<Observation>)
    requires op.Ask? && op.kind == OpenQuery
    ensures var o := ObserveOpen(cfg, w, path, status, resolved, op.world).1;
      && (o.error == Some(NoSuchFile) ==> SaysMissing(op) || (status.Some? && status.value.error == Some(NoSuchFile)))
      && (o.error.None? ==> TrueOpen(cfg, op.world, o))
  {
    if status.None? || status.value.error.None? {
      ReadTrue(cfg, w, path, op.world.file, RemainingFileBytes(cfg, w));
      ReadMissing(cfg, path, op, RemainingFileBytes(cfg, w));
      match ReadFile(path, cfg.policy, RemainingFileBytes(cfg, w), cfg.limits.maxPathBytes, op.world.file)
      case Err(_) =>
      case Ok(current) => CaptureTrue(cfg, w, op, path, current);
    }
  }

  lemma RealPathTrue(cfg: Config, asked: seq<Op>, w: Work, op: Op, path: string, prior: Option<string>)
    requires op.Ask? && op.kind == RealPathQuery
    requires prior.Some? ==> PhysicalKnown(cfg, asked, path, prior.value)
    ensures var (last, o) := ObserveRealPath(cfg, w, path, prior, op.world);
      Learns(w, last, op, path) && MissingSaid(op, o) && (o.error.None? ==> TrueRealPath(cfg, asked, op.world, o))
  {}

  lemma ListTrue(cfg: Config, path: string, directory: DirectoryScript, maxEntries: nat, maxStrings: nat)
    ensures var read := ReadDirectory(path, cfg.policy, maxEntries, maxStrings, cfg.limits.maxPathBytes, directory);
      read.Ok? ==>
        && directory.openError.None? && directory.before.Ok? && directory.before.value.meta == read.value.meta
        && directory.after == directory.before && read.value.meta.kind == DirectoryFile
        && directory.physical == Ok(read.value.physical) && directory.finalPhysical == Ok(read.value.physical)
        && Usable(read.value.physical, cfg.limits.maxPathBytes) && Authorized(read.value.physical, cfg.policy, true)
        && Lists(path, directory.names, read.value.entries) && read.value.tail == directory.tail
  {
    var read := ReadDirectory(path, cfg.policy, maxEntries, maxStrings, cfg.limits.maxPathBytes, directory);
    if read.Ok? {
      ListEntriesExact(path, directory.names, maxEntries, maxStrings, cfg.limits.maxPathBytes);
      EntriesListed(path, directory.names);
    }
  }

  lemma {:induction false} ListErrors(path: string, names: seq<string>, maxEntries: nat, maxStrings: nat, maxPathBytes: nat)
    requires path != ""
    ensures ListEntries(path, names, maxEntries, maxStrings, maxPathBytes) != Err(NoSuchFile)
    decreases names
  {
    if names != [] {
      ListErrors(path, names[1..], maxEntries, maxStrings, maxPathBytes);
      if maxEntries > 0 && |EntryPath(path, names[0])| <= maxStrings {
        ListErrors(path, names[1..], maxEntries - 1, maxStrings - |EntryPath(path, names[0])|, maxPathBytes);
      }
    }
  }

  lemma ListMissing(cfg: Config, path: string, op: Op, maxEntries: nat, maxStrings: nat)
    requires op.Ask? && op.kind == DirectoryQuery
    ensures ReadDirectory(path, cfg.policy, maxEntries, maxStrings, cfg.limits.maxPathBytes, op.world.directory) == Err(NoSuchFile)
      ==> SaysMissing(op)
  {
    if path != "" { ListErrors(path, op.world.directory.names, maxEntries, maxStrings, cfg.limits.maxPathBytes); }
  }

  lemma DirectoryLearns(cfg: Config, w: Work, op: Op, path: string)
    requires op.Ask? && op.kind == DirectoryQuery
    ensures Learns(w, ObserveDirectory(cfg, w, path, op.world).0, op, path)
  {
    var read := ReadDirectory(path, cfg.policy, RemainingEntries(cfg, w), RemainingStrings(cfg, w), cfg.limits.maxPathBytes, op.world.directory);
    ListTrue(cfg, path, op.world.directory, RemainingEntries(cfg, w), RemainingStrings(cfg, w));
    if read.Ok? {
      var current := read.value;
      var noted := Note(w, path, current.meta);
      NoteLearns(w, op, path, current.meta);
      ChargeEntriesKeeps(cfg.limits, Charge(cfg.limits, noted, |current.physical|), current.entries);
      SameLearns(w, noted, ObserveDirectory(cfg, w, path, op.world).0, op, path);
    }
  }

  lemma DirectoryTrue(cfg: Config, w: Work, op: Op, path: string)
    requires op.Ask? && op.kind == DirectoryQuery
    ensures var o := ObserveDirectory(cfg, w, path, op.world).1;
      MissingSaid(op, o) && (o.error.None? ==> TrueDirectory(cfg, op.world, o))
  {
    ListTrue(cfg, path, op.world.directory, RemainingEntries(cfg, w), RemainingStrings(cfg, w));
    ListMissing(cfg, path, op, RemainingEntries(cfg, w), RemainingStrings(cfg, w));
  }

  // --- The recorded observation ---------------------------------------------------------------------

  lemma KnownMore(cfg: Config, asked: seq<Op>, op: Op, s: State)
    requires Traced(cfg, asked, s)
    ensures Traced(cfg, asked + [op], s)
  {
    var more := asked + [op];
    forall p | p in s.work.statuses ensures MetaKnown(cfg, more, p, s.work.statuses[p]) {
      MetaMore(cfg, asked, op, p, s.work.statuses[p]);
    }
    forall o | o in s.observations ensures Truthful(cfg, more, o) { TruthfulMore(cfg, asked, op, o); }
  }

  lemma MetaMore(cfg: Config, asked: seq<Op>, op: Op, path: string, meta: Meta)
    requires MetaKnown(cfg, asked, path, meta)
    ensures MetaKnown(cfg, asked + [op], path, meta)
  {
    var x :| x in asked && AsksFor(cfg, x, path) && GaveMeta(x, meta);
    assert x in asked + [op];
  }

  lemma PhysicalMore(cfg: Config, asked: seq<Op>, op: Op, path: string, physical: string)
    requires PhysicalKnown(cfg, asked, path, physical)
    ensures PhysicalKnown(cfg, asked + [op], path, physical)
  {
    var x :| x in asked && AsksFor(cfg, x, path) && GavePhysical(x, physical);
    assert x in asked + [op];
  }

  lemma TruthfulMore(cfg: Config, asked: seq<Op>, op: Op, o: Observation)
    requires Truthful(cfg, asked, o)
    ensures Truthful(cfg, asked + [op], o)
  {
    var more := asked + [op];
    if o.error.None? {
      var x :| x in asked && AsksFor(cfg, x, o.path) && x.kind == o.kind && TrueAnswer(cfg, asked, x.world, o);
      assert x in more;
      if o.status.Some? && MetaKnown(cfg, asked, o.path, o.status.value) { MetaMore(cfg, asked, op, o.path, o.status.value); }
      if PhysicalKnown(cfg, asked, o.path, o.physical) { PhysicalMore(cfg, asked, op, o.path, o.physical); }
      assert TrueAnswer(cfg, more, x.world, o);
    }
    if MissingKnown(cfg, asked, o.path) {
      var x :| x in asked && AsksFor(cfg, x, o.path) && SaysMissing(x);
      assert x in more;
    }
  }

  /** The physical path of a truthful success was given for its path. */
  lemma TruePhysical(cfg: Config, asked: seq<Op>, o: Observation)
    requires Truthful(cfg, asked, o) && o.error.None? && o.physical != ""
    ensures PhysicalKnown(cfg, asked, o.path, o.physical)
  {
    var op :| op in asked && AsksFor(cfg, op, o.path) && op.kind == o.kind && TrueAnswer(cfg, asked, op.world, o);
    assert GavePhysical(op, o.physical) || PhysicalKnown(cfg, asked, o.path, o.physical);
  }

  /** The query itself, or an earlier observation, told what this observation says. */
  ghost predicate Answered(cfg: Config, asked: seq<Op>, op: Op, path: string, o: Observation)
    requires op.Ask?
  {
    && o.path == path && o.kind == op.kind
    && (o.error.None? ==> TrueAnswer(cfg, asked, op.world, o))
    && (o.error == Some(NoSuchFile) ==> SaysMissing(op) || MissingKnown(cfg, asked, path))
  }

  lemma ObserveTrue(cfg: Config, asked: seq<Op>, s: State, op: Op, path: string, prior: Option<string>)
    requires KeysAgree(s) && op.Ask? && (path in s.work.statuses ==> MetaKnown(cfg, asked, path, s.work.statuses[path]))
    requires op.kind == OpenQuery && Earlier(s, StatusQuery, path).Some? ==> Truthful(cfg, asked, Earlier(s, StatusQuery, path).value)
    requires prior.Some? ==> PhysicalKnown(cfg, asked, path, prior.value)
    ensures var (last, o) := Observe(cfg, s, op.kind, path, prior, op.world);
      Learns(s.work, last, op, path) && Answered(cfg, asked, op, path, o)
  {
    ObserveSticky(cfg, s, op.kind, path, prior, op.world);
    match op.kind
    case StatusQuery =>
      StatusTrue(cfg, asked, s.work, op, path);
      StatusLearns(cfg, s.work, op, path);
    case OpenQuery =>
      var status := Earlier(s, StatusQuery, path);
      OpenTrue(cfg, s.work, op, path, status, Earlier(s, RealPathQuery, path));
      OpenLearns(cfg, s.work, op, path, status, Earlier(s, RealPathQuery, path));
    case RealPathQuery => RealPathTrue(cfg, asked, s.work, op, path, prior);
    case DirectoryQuery =>
      DirectoryTrue(cfg, s.work, op, path);
      DirectoryLearns(cfg, s.work, op, path);
    case LocalityQuery =>
  }

  lemma CheckedTrue(cfg: Config, asked: seq<Op>, op: Op, path: string, w: Work, o: Observation, prior: Option<string>)
    requires op.Ask? && Answered(cfg, asked, op, path, o)
    ensures CrossCheck(w, o, prior).0.statuses == w.statuses
    ensures Answered(cfg, asked, op, path, CrossCheck(w, o, prior).1)
  {}

  lemma RecordedTrue(cfg: Config, asked: seq<Op>, s: State, index: nat, op: Op)
    requires KeysAgree(s) && index < |s.observations| && op.Ask? && s.observations[index].kind == op.kind
    requires forall p :: p in s.work.statuses ==> MetaKnown(cfg, asked, p, s.work.statuses[p])
    requires forall j :: 0 <= j < |s.observations| && j != index ==> Truthful(cfg, asked, s.observations[j])
    ensures var (last, o) := Recorded(cfg, s, index, op.world); var path := s.observations[index].path;
      Learns(s.work, last, op, path) && Answered(cfg, asked, op, path, o)
  {
    var path := s.observations[index].path;
    SettledNegative(s, index, CROSS_CHECKED, None);
    SettledPhysical(s, index, CROSS_CHECKED, None);
    match Settled(s, index, CROSS_CHECKED, None)
    case Err(e) =>
      var j :| Other(s, index, j, CROSS_CHECKED) && NotFound(s.observations[j]) && s.observations[j].error == Some(e);
      assert Truthful(cfg, asked, s.observations[j]);
    case Ok(prior) =>
      if prior.Some? {
        var j :| Other(s, index, j, CROSS_CHECKED) && Located(s.observations[j]) && prior == Some(s.observations[j].physical);
        TruePhysical(cfg, asked, s.observations[j]);
      }
      if op.kind == OpenQuery && (StatusQuery, path) in s.indices { assert s.indices[(StatusQuery, path)] != index; }
      ObserveTrue(cfg, asked, s, op, path, prior);
      var (w, o) := Observe(cfg, s, op.kind, path, prior, op.world);
      CheckedTrue(cfg, asked, op, path, w, o, prior);
  }

  /** The answered query is the last one asked. */
  lemma AnsweredTruthful(cfg: Config, asked: seq<Op>, op: Op, path: string, o: Observation)
    requires op.Ask? && AsksFor(cfg, op, path) && Answered(cfg, asked, op, path, o)
    ensures Truthful(cfg, asked + [op], o)
  {
    var more := asked + [op];
    assert op in more;
    if o.error.None? {
      if o.status.Some? && MetaKnown(cfg, asked, path, o.status.value) { MetaMore(cfg, asked, op, path, o.status.value); }
      if PhysicalKnown(cfg, asked, path, o.physical) { PhysicalMore(cfg, asked, op, path, o.physical); }
      assert TrueAnswer(cfg, more, op.world, o);
    }
    if MissingKnown(cfg, asked, path) {
      var x :| x in asked && AsksFor(cfg, x, path) && SaysMissing(x);
      assert x in more;
    }
  }

  lemma LearnsTraced(cfg: Config, asked: seq<Op>, op: Op, path: string, a: Work, b: Work)
    requires op.Ask? && AsksFor(cfg, op, path) && Learns(a, b, op, path)
    requires forall p :: p in a.statuses ==> MetaKnown(cfg, asked, p, a.statuses[p])
    ensures forall p :: p in b.statuses ==> MetaKnown(cfg, asked + [op], p, b.statuses[p])
  {
    forall p | p in b.statuses ensures MetaKnown(cfg, asked + [op], p, b.statuses[p]) {
      if p in a.statuses && b.statuses[p] == a.statuses[p] {
        MetaMore(cfg, asked, op, p, a.statuses[p]);
      } else {
        assert op in asked + [op];
      }
    }
  }

  /** Recording one query in a traced state. */
  lemma AppendTraced(cfg: Config, asked: seq<Op>, s: State, op: Op, path: string)
    requires KeysAgree(s) && Traced(cfg, asked, s) && op.Ask? && AsksFor(cfg, op, path) && (op.kind, path) !in s.indices
    ensures KeysAgree(Append(s, op.kind, path))
    ensures Traced(cfg, asked + [op], Record(cfg, Append(s, op.kind, path), |s.observations|, op.world))
  {
    AppendAgrees(s, op.kind, path);
    var s1, index := Append(s, op.kind, path), |s.observations|;
    var (last, o) := Recorded(cfg, s1, index, op.world);
    var s2 := Record(cfg, s1, index, op.world);
    assert forall j :: 0 <= j < |s.observations| ==> s1.observations[j] == s.observations[j];
    RecordedTrue(cfg, asked, s1, index, op);
    RecordedLast(cfg, s, op.kind, path, op.world);
    LearnsTraced(cfg, asked, op, path, s.work, last);
    AnsweredTruthful(cfg, asked, op, path, o);
    forall x | x in s2.observations ensures Truthful(cfg, asked + [op], x) {
      if x in s.observations { TruthfulMore(cfg, asked, op, x); }
    }
  }

  lemma SameTraced(cfg: Config, asked: seq<Op>, a: State, b: State)
    requires Traced(cfg, asked, a) && b.observations == a.observations && b.work.statuses == a.work.statuses
    ensures Traced(cfg, asked, b)
  {}

  lemma QueryNewTraced(cfg: Config, asked: seq<Op>, s: State, op: Op, path: string)
    requires KeysAgree(s) && Traced(cfg, asked, s) && op.Ask? && AsksFor(cfg, op, path) && (op.kind, path) !in s.indices
    ensures Traced(cfg, asked + [op], QueryNew(cfg, s, op.kind, path, op.world).0)
  {
    var charged := s.(work := Charge(cfg.limits, s.work, 8 * |path|));
    var after := QueryNew(cfg, s, op.kind, path, op.world).0;
    if !s.isSealed && |s.observations| < cfg.limits.maxQueries && |path| <= MAX_SIZE / 8
       && Affordable(cfg.limits, s.work, 8 * |path|)
    {
      SameTraced(cfg, asked, s, charged);
      AppendTraced(cfg, asked, charged, op, path);
    } else {
      SameTraced(cfg, asked, s, after);
      KnownMore(cfg, asked, op, after);
    }
  }

  lemma AbsoluteKeeps(cfg: Config, w: Work, text: string)
    ensures Absolute(cfg, w, text).0.statuses == w.statuses
  {}

  lemma QueryTraced(cfg: Config, asked: seq<Op>, s: State, op: Op)
    requires KeysAgree(s) && Traced(cfg, asked, s) && op.Ask?
    ensures Traced(cfg, asked + [op], Query(cfg, s, op.kind, op.text, op.world).0)
  {
    var (w, name) := Absolute(cfg, s.work, op.text);
    AbsoluteNames(cfg, s.work, op.text);
    AbsoluteKeeps(cfg, s.work, op.text);
    if Complete(s) && name.Ok? && (op.kind, name.value) !in s.indices {
      QueryNewTraced(cfg, asked, s, op, name.value);
    } else {
      var after := Query(cfg, s, op.kind, op.text, op.world).0;
      SameTraced(cfg, asked, s, after);
      KnownMore(cfg, asked, op, after);
    }
  }

  // --- Runs -------------------------------------------------------------------------------------------

  lemma ApplyTraced(cfg: Config, asked: seq<Op>, s: State, op: Op)
    requires KeysAgree(s) && Traced(cfg, asked, s)
    ensures Traced(cfg, asked + [op], Apply(cfg, s, op))
  {
    match op
    case Ask(_, _, _) => QueryTraced(cfg, asked, s, op);
    case Seal =>
      SameTraced(cfg, asked, s, Apply(cfg, s, op));
      KnownMore(cfg, asked, op, Apply(cfg, s, op));
    case Change(text) =>
      AbsoluteKeeps(cfg, s.work, text);
      ChangeEvolves(cfg, s, text);
      SameTraced(cfg, asked, s, Apply(cfg, s, op));
      KnownMore(cfg, asked, op, Apply(cfg, s, op));
  }

  lemma {:induction false} RunTraced(cfg: Config, asked: seq<Op>, s: State, ops: seq<Op>)
    requires KeysAgree(s) && Traced(cfg, asked, s)
    ensures Traced(cfg, asked + ops, Run(cfg, s, ops))
    decreases ops
  {
    if ops == [] {
      assert asked + ops == asked;
    } else {
      ApplyTraced(cfg, asked, s, ops[0]);
      ApplyEvolves(cfg, s, ops[0]);
      RunTraced(cfg, asked + [ops[0]], Apply(cfg, s, ops[0]), ops[1..]);
      assert asked + [ops[0]] + ops[1..] == asked + ops;
    }
  }

  /**
   Every recorded success of any run is what the disk answered: to a query of this kind for this path
   that was asked in the run, or, for metadata and physical paths, to an earlier one for this path.
   A path is only recorded as missing when the disk said so.
   */
  lemma {:induction false} RecordIsTrue(cfg: Config, cwdAvailable: bool, ops: seq<Op>, o: Observation)
    requires o in Run(cfg, Initial(cfg, cwdAvailable), ops).observations
    ensures Truthful(cfg, ops, o)
  {
    RunTraced(cfg, [], Initial(cfg, cwdAvailable), ops);
    assert [] + ops == ops;
  }

  // --- The working directory ----------------------------------------------------------------------

  /** A change of directory fails the file system for good, unless it names the directory it has. */
  lemma {:induction false} OtherDirectoryFails(cfg: Config, s: State, text: string, path: string)
    requires KeysAgree(s) && Complete(s) && Names(cfg, text, path)
    ensures Complete(Apply(cfg, s, Change(text))) <==>
      path == cfg.cwd && '\0' !in text && |text| <= cfg.limits.maxPathBytes && |path| <= cfg.limits.maxPathBytes
    ensures Complete(Apply(cfg, s, Change(text))) ==> Apply(cfg, s, Change(text)) == s
  {
    if text != "" && text[0] != '/' { UnderIsJoin(path, cfg.cwd, text); }
  }
}
