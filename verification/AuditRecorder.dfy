/**
 The recording file system as the object that performs it: each method updates its fields step
 by step and arrives exactly where the specification of one query says.
 */
module AuditRecorder {
  import opened Outcomes
  import opened NativeReader
  import opened AuditFileSystem
  import AuditRuns
  import HeaderText

  /** What a recorded observation answers, now and whenever it is replayed. */
  function Pinned<T>(o: Observation, value: T): Result<T, Errc> {
    if o.error.Some? then Err(o.error.value) else Ok(value)
  }

  class Recorder {
    const cfg: Config
    var failure: string
    var isSealed: bool
    var capturedBytes: nat
    var stringBytes: nat
    var directoryEntries: nat
    var indices: map<(QueryKind, string), nat>
    var statuses: map<string, Meta>
    var identities: map<int, Snapshot>
    var observations: seq<Observation>

    ghost function Effort(): Work
      reads this
    {
      Work(failure, capturedBytes, stringBytes, directoryEntries, statuses, identities)
    }

    ghost function Now(): State
      reads this
    {
      State(isSealed, Effort(), indices, observations)
    }

    ghost predicate Valid()
      reads this
    {
      KeysAgree(Now())
    }

    constructor (cfg: Config, cwdAvailable: bool)
      ensures this.cfg == cfg && Valid() && Now() == Initial(cfg, cwdAvailable)
    {
      this.cfg, isSealed, capturedBytes, stringBytes, directoryEntries := cfg, false, 0, 0, 0;
      indices, statuses, identities, observations := map[], map[], map[], [];
      if |cfg.cwd| > cfg.limits.maxPathBytes || '\0' in cfg.cwd || !HeaderText.AbsolutePath(cfg.cwd) {
        failure := "invalid working directory";
      } else if !cwdAvailable {
        failure := "unavailable working directory";
      } else {
        failure := "";
      }
    }

    method Seal()
      requires Valid()
      modifies `isSealed
      ensures Valid() && Now() == old(Now()).(isSealed := true)
    {
      isSealed := true;
    }

    method FailWith(reason: string)
      modifies `failure
      ensures Effort() == Fail(old(Effort()), reason)
    {
      if failure == "" {
        failure := reason;
      }
    }

    method ChargeStrings(bytes: nat) returns (paid: bool)
      modifies `failure, `stringBytes
      ensures paid == Affordable(cfg.limits, old(Effort()), bytes)
      ensures Effort() == Charge(cfg.limits, old(Effort()), bytes)
    {
      if bytes > cfg.limits.maxStringBytes - Min(stringBytes, cfg.limits.maxStringBytes) {
        FailWith("observation string limit exceeded");
        return false;
      }
      stringBytes := stringBytes + bytes;
      return true;
    }

    method NoteMetadata(path: string, meta: Meta) returns (same: bool)
      modifies `failure, `statuses
      ensures same == Matches(old(Effort()), path, meta)
      ensures Effort() == Note(old(Effort()), path, meta)
    {
      if path in statuses && statuses[path] != meta {
        FailWith("file metadata changed between observations");
        return false;
      }
      if meta.id in identities && identities[meta.id].meta != meta {
        FailWith("file identity changed between aliases");
        return false;
      }
      if path !in statuses {
        statuses := statuses[path := meta];
      }
      return true;
    }

    method AbsoluteName(text: string) returns (r: Result<string, Errc>)
      modifies `failure
      ensures (Effort(), r) == Absolute(cfg, old(Effort()), text)
    {
      if '\0' in text {
        FailWith("path contains null");
        return Err(InvalidArgument);
      }
      if |text| > cfg.limits.maxPathBytes {
        FailWith("path limit exceeded");
        return Err(FilenameTooLong);
      }
      var name := text;
      if !HeaderText.AbsolutePath(name) {
        name := if text == "" then cfg.cwd else HeaderText.Join(cfg.cwd, text);
      }
      if |name| > cfg.limits.maxPathBytes {
        FailWith("absolute path limit exceeded");
        return Err(FilenameTooLong);
      }
      return Ok(name);
    }

    // --- One observation of each kind --------------------------------------------------

    method RecordStatus(path: string, world: World) returns (o: Observation)
      modifies `failure, `stringBytes, `statuses
      ensures (Effort(), o) == ObserveStatus(cfg, old(Effort()), path, world)
    {
      o := Blank(StatusQuery, path);
      if path in statuses {
        return o.(status := Some(statuses[path]));
      }
      if world.status.Err? {
        return o.(error := Some(world.status.error));
      }
      var same := NoteMetadata(path, world.status.value);
      if !same {
        return o.(error := Some(NotRecoverable));
      }
      if world.realPath.Err? {
        return o.(error := Some(world.realPath.error));
      }
      if world.statusAfter != world.status {
        FailWith("metadata target changed while resolving");
        return o.(error := Some(NotRecoverable));
      }
      var physical := world.realPath.value;
      if |physical| > cfg.limits.maxPathBytes {
        FailWith("resolved path limit exceeded");
        return o.(error := Some(FilenameTooLong));
      }
      var paid := ChargeStrings(|physical|);
      if !paid {
        FailWith("resolved path limit exceeded");
        return o.(error := Some(FilenameTooLong));
      }
      return o.(status := Some(world.status.value), physical := physical);
    }

    method RecordOpen(path: string, world: World) returns (o: Observation)
      requires Valid()
      modifies `failure, `stringBytes, `statuses, `capturedBytes, `identities
      ensures (Effort(), o) == ObserveOpen(cfg, old(Effort()), path, Earlier(old(Now()), StatusQuery, path),
                                           Earlier(old(Now()), RealPathQuery, path), world)
    {
      o := Blank(OpenQuery, path);
      if (StatusQuery, path) in indices && observations[indices[(StatusQuery, path)]].error.Some? {
        return o.(error := observations[indices[(StatusQuery, path)]].error);
      }
      var remaining := cfg.limits.maxTotalFileBytes - Min(capturedBytes, cfg.limits.maxTotalFileBytes);
      var read := ReadNativeFile(path, cfg.policy, Min(remaining, cfg.limits.maxFileBytes), cfg.limits.maxPathBytes, world.file);
      if read.Err? {
        if read.error == FileTooLarge {
          FailWith("file byte limit exceeded");
        } else if read.error == NotRecoverable {
          FailWith("file changed while reading");
        } else if read.error == PermissionDenied {
          FailWith("content access denied");
        }
        return o.(error := Some(read.error));
      }
      if (RealPathQuery, path) in indices {
        var earlier := observations[indices[(RealPathQuery, path)]];
        if earlier.error.Some? || earlier.physical != read.value.physical {
          FailWith("physical target changed before read");
          return o.(error := Some(NotRecoverable));
        }
      }
      o := CaptureContent(path, read.value);
    }

    method CaptureContent(path: string, current: Snapshot) returns (o: Observation)
      modifies `failure, `stringBytes, `statuses, `capturedBytes, `identities
      ensures (Effort(), o) == Capture(cfg, old(Effort()), path, current)
    {
      o := Blank(OpenQuery, path);
      var paid := ChargeStrings(2 * |current.physical|);
      if !paid {
        return o.(error := Some(NotRecoverable));
      }
      var same := NoteMetadata(path, current.meta);
      if !same {
        return o.(error := Some(NotRecoverable));
      }
      capturedBytes := capturedBytes + |current.bytes|;
      if current.meta.id in identities {
        if identities[current.meta.id].bytes != current.bytes {
          FailWith("file bytes changed between aliases");
          return o.(error := Some(NotRecoverable));
        }
      } else {
        identities := identities[current.meta.id := current];
      }
      return o.(status := Some(current.meta), physical := current.physical, bytes := Some(current.bytes));
    }

    method RecordRealPath(path: string, prior: Option<string>, world: World) returns (o: Observation)
      modifies `failure, `stringBytes
      ensures (Effort(), o) == ObserveRealPath(cfg, old(Effort()), path, prior, world)
    {
      o := Blank(RealPathQuery, path);
      if prior.Some? {
        var repeated := ChargeStrings(|prior.value|);
        return if repeated then o.(physical := prior.value) else o.(error := Some(FileTooLarge));
      }
      if world.realPath.Err? {
        return o.(error := Some(world.realPath.error));
      }
      var physical := world.realPath.value;
      if |physical| > cfg.limits.maxPathBytes {
        FailWith("resolved path limit exceeded");
        return o.(error := Some(FilenameTooLong));
      }
      var paid := ChargeStrings(|physical|);
      if !paid {
        FailWith("resolved path limit exceeded");
        return o.(error := Some(FilenameTooLong));
      }
      return o.(physical := physical);
    }

    method RecordDirectory(path: string, world: World) returns (o: Observation)
      modifies `failure, `stringBytes, `statuses, `directoryEntries
      ensures (Effort(), o) == ObserveDirectory(cfg, old(Effort()), path, world)
    {
      o := Blank(DirectoryQuery, path);
      var remaining := cfg.limits.maxTotalDirectoryEntries - Min(directoryEntries, cfg.limits.maxTotalDirectoryEntries);
      var read := ReadNativeDirectory(path, cfg.policy, Min(remaining, cfg.limits.maxDirectoryEntries),
                                      cfg.limits.maxStringBytes - Min(stringBytes, cfg.limits.maxStringBytes),
                                      cfg.limits.maxPathBytes, world.directory);
      if read.Err? {
        if read.error != NoSuchFile && read.error != NotADirectory {
          FailWith("directory observation failed");
        }
        return o.(error := Some(read.error));
      }
      var same := NoteMetadata(path, read.value.meta);
      if !same {
        return o.(error := Some(NotRecoverable));
      }
      var paid := ChargeStrings(|read.value.physical|);
      if !paid {
        return o.(error := Some(NotRecoverable));
      }
      o := EnumerateEntries(path, read.value);
    }

    method EnumerateEntries(path: string, current: DirectorySnapshot) returns (o: Observation)
      modifies `failure, `stringBytes, `directoryEntries
      ensures (Effort(), o) == Enumerated(cfg, old(Effort()), path, current)
    {
      o := Blank(DirectoryQuery, path);
      var named := ChargeAll(current.entries);
      if !named {
        return o.(error := Some(FileTooLarge));
      }
      directoryEntries := directoryEntries + |current.entries|;
      if current.tail.Some? {
        FailWith("directory iteration incomplete");
      }
      return o.(status := Some(current.meta), physical := current.physical,
                entries := Some(current.entries), tail := current.tail);
    }

    method ChargeAll(entries: seq<string>) returns (named: bool)
      modifies `failure, `stringBytes
      ensures named == EntriesAffordable(cfg.limits, old(Effort()), entries)
      ensures Effort() == ChargeEntries(cfg.limits, old(Effort()), entries)
    {
      assert entries[0..] == entries;
      for i := 0 to |entries|
        invariant ChargeEntries(cfg.limits, Effort(), entries[i..]) == ChargeEntries(cfg.limits, old(Effort()), entries)
        invariant EntriesAffordable(cfg.limits, Effort(), entries[i..]) == EntriesAffordable(cfg.limits, old(Effort()), entries)
      {
        assert entries[i..][0] == entries[i] && entries[i..][1..] == entries[i + 1..];
        var paid := ChargeStrings(|entries[i]|);
        if !paid {
          return false;
        }
      }
      return true;
    }

    // --- The query ------------------------------------------------------------------------

    /** Looks at the earlier answers about the path being recorded at `index`. */
    method SettleEarlier(index: nat) returns (r: Result<Option<string>, Errc>)
      requires Valid() && index < |observations|
      ensures r == Settled(Now(), index, CROSS_CHECKED, None)
    {
      var prior: Option<string> := None;
      var kinds := CROSS_CHECKED;
      for i := 0 to |kinds|
        invariant Settled(Now(), index, kinds[i..], prior) == Settled(Now(), index, CROSS_CHECKED, None)
      {
        assert kinds[i..][0] == kinds[i] && kinds[i..][1..] == kinds[i + 1..];
        var key := (kinds[i], observations[index].path);
        if key in indices && indices[key] != index {
          var previous := observations[indices[key]];
          if observations[index].kind != LocalityQuery && NotFound(previous) {
            return Err(previous.error.value);
          }
          if previous.error.None? && previous.physical != "" {
            prior := Some(previous.physical);
          }
        }
      }
      return Ok(prior);
    }

    method RecordAt(index: nat, world: World)
      requires Valid() && index < |observations|
      modifies this
      ensures Now() == Record(cfg, old(Now()), index, world)
    {
      var kind, path := observations[index].kind, observations[index].path;
      var settled := SettleEarlier(index);
      if settled.Err? {
        observations := observations[index := Blank(kind, path).(error := Some(settled.error))];
        return;
      }
      var prior := settled.value;
      var o := ObserveNow(kind, path, prior, world);
      o := CrossCheckNow(o, prior);
      observations := observations[index := o];
    }

    method ObserveNow(kind: QueryKind, path: string, prior: Option<string>, world: World) returns (o: Observation)
      requires Valid()
      modifies `failure, `stringBytes, `capturedBytes, `directoryEntries, `statuses, `identities
      ensures (Effort(), o) == Observe(cfg, old(Now()), kind, path, prior, world)
    {
      match kind {
        case StatusQuery => o := RecordStatus(path, world);
        case OpenQuery => o := RecordOpen(path, world);
        case RealPathQuery => o := RecordRealPath(path, prior, world);
        case DirectoryQuery => o := RecordDirectory(path, world);
        case LocalityQuery =>
          o := Blank(LocalityQuery, path);
          o := match world.locality case Ok(here) => o.(isLocal := here) case Err(e) => o.(error := Some(e));
      }
    }

    method CrossCheckNow(o: Observation, prior: Option<string>) returns (checked: Observation)
      modifies `failure
      ensures (Effort(), checked) == CrossCheck(old(Effort()), o, prior)
    {
      if o.error.None? && prior.Some? && o.physical != "" && prior.value != o.physical {
        FailWith("physical target changed between observations");
        return o.(error := Some(NotRecoverable));
      }
      var known := o.path in statuses;
      var lostParent := o.error == Some(NotADirectory)
                        && (o.kind != DirectoryQuery || (known && statuses[o.path].kind == DirectoryFile));
      if (prior.Some? || known) && (o.error == Some(NoSuchFile) || lostParent) {
        FailWith("existing input disappeared between observations");
        return o.(error := Some(NotRecoverable));
      }
      return o;
    }

    method QueryIndex(kind: QueryKind, text: string, world: World) returns (r: Result<nat, Errc>)
      requires Valid()
      modifies this
      ensures (Now(), r) == Query(cfg, old(Now()), kind, text, world)
      ensures Valid() && (r.Ok? ==> r.value < |observations|)
    {
      if failure != "" {
        return Err(NotRecoverable);
      }
      var name := AbsoluteName(text);
      if name.Err? {
        return Err(name.error);
      }
      assert Now() == old(Now());
      if (kind, name.value) in indices {
        return Ok(indices[(kind, name.value)]);
      }
      r := QueryUnseen(kind, name.value, world);
    }

    method QueryUnseen(kind: QueryKind, name: string, world: World) returns (r: Result<nat, Errc>)
      requires Valid() && (kind, name) !in indices
      modifies this
      ensures (Now(), r) == QueryNew(cfg, old(Now()), kind, name, world)
      ensures Valid() && (r.Ok? ==> r.value < |observations|)
    {
      if isSealed {
        FailWith("unobserved query after seal");
        return Err(NotPermitted);
      }
      if |observations| >= cfg.limits.maxQueries {
        FailWith("observation count limit exceeded");
        return Err(FileTooLarge);
      }
      if |name| > MAX_SIZE / 8 {
        return Err(FileTooLarge);
      }
      var paid := ChargeStrings(8 * |name|);
      if !paid {
        return Err(FileTooLarge);
      }
      r := RecordNew(kind, name, world);
    }

    /** Appends a blank observation, points the key index at it and fills it in. */
    method RecordNew(kind: QueryKind, path: string, world: World) returns (r: Result<nat, Errc>)
      requires Valid() && (kind, path) !in indices
      modifies this
      ensures KeysAgree(Append(old(Now()), kind, path))
      ensures Now() == Record(cfg, Append(old(Now()), kind, path), |old(observations)|, world)
      ensures Valid() && r == Ok(|old(observations)|) && |old(observations)| < |observations|
    {
      var index := |observations|;
      AppendAgrees(Now(), kind, path);
      ghost var appended := Append(Now(), kind, path);
      indices := indices[(kind, path) := index];
      observations := observations + [Blank(kind, path)];
      assert Now() == appended;
      AuditRuns.RecordEvolves(cfg, appended, index, world);
      RecordAt(index, world);
      return Ok(index);
    }

    // --- Public operations: pinned answers ----------------------------------------------------

    method Status(text: string, world: World) returns (r: Result<Option<Meta>, Errc>)
      requires Valid()
      modifies this
      ensures Valid() && Now() == Query(cfg, old(Now()), StatusQuery, text, world).0
      ensures match Query(cfg, old(Now()), StatusQuery, text, world).1
        case Err(e) => r == Err(e)
        case Ok(i) => i < |observations| && r == Pinned(observations[i], observations[i].status)
    {
      var index := QueryIndex(StatusQuery, text, world);
      if index.Err? {
        return Err(index.error);
      }
      return Pinned(observations[index.value], observations[index.value].status);
    }

    method OpenFileForRead(text: string, world: World) returns (r: Result<Option<string>, Errc>)
      requires Valid()
      modifies this
      ensures Valid() && Now() == Query(cfg, old(Now()), OpenQuery, text, world).0
      ensures match Query(cfg, old(Now()), OpenQuery, text, world).1
        case Err(e) => r == Err(e)
        case Ok(i) => i < |observations| && r == Pinned(observations[i], observations[i].bytes)
    {
      var index := QueryIndex(OpenQuery, text, world);
      if index.Err? {
        return Err(index.error);
      }
      return Pinned(observations[index.value], observations[index.value].bytes);
    }

    method GetRealPath(text: string, world: World) returns (r: Result<string, Errc>)
      requires Valid()
      modifies this
      ensures Valid() && Now() == Query(cfg, old(Now()), RealPathQuery, text, world).0
      ensures match Query(cfg, old(Now()), RealPathQuery, text, world).1
        case Err(e) => r == Err(e)
        case Ok(i) => i < |observations| && r == Pinned(observations[i], observations[i].physical)
    {
      var index := QueryIndex(RealPathQuery, text, world);
      if index.Err? {
        return Err(index.error);
      }
      return Pinned(observations[index.value], observations[index.value].physical);
    }

    method IsLocal(text: string, world: World) returns (r: Result<bool, Errc>)
      requires Valid()
      modifies this
      ensures Valid() && Now() == Query(cfg, old(Now()), LocalityQuery, text, world).0
      ensures match Query(cfg, old(Now()), LocalityQuery, text, world).1
        case Err(e) => r == Err(e)
        case Ok(i) => i < |observations| && r == Pinned(observations[i], observations[i].isLocal)
    {
      var index := QueryIndex(LocalityQuery, text, world);
      if index.Err? {
        return Err(index.error);
      }
      return Pinned(observations[index.value], observations[index.value].isLocal);
    }

    /** The entries and the end of iteration; an empty directory answers its end at once. */
    method DirBegin(text: string, world: World) returns (r: Result<(seq<string>, Option<Errc>), Errc>)
      requires Valid()
      modifies this
      ensures Valid() && Now() == Query(cfg, old(Now()), DirectoryQuery, text, world).0
      ensures match Query(cfg, old(Now()), DirectoryQuery, text, world).1
        case Err(e) => r == Err(e)
        case Ok(i) =>
          i < |observations| &&
          var o := observations[i];
          var entries := if o.entries.Some? then o.entries.value else [];
          r == if o.error.None? && entries == [] && o.tail.Some? then Err(o.tail.value) else Pinned(o, (entries, o.tail))
    {
      var index := QueryIndex(DirectoryQuery, text, world);
      if index.Err? {
        return Err(index.error);
      }
      var o := observations[index.value];
      if o.error.Some? {
        return Err(o.error.value);
      }
      if o.entries.None? || o.entries.value == [] {
        return if o.tail.Some? then Err(o.tail.value) else Ok(([], None));
      }
      return Ok((o.entries.value, o.tail));
    }

    method SetCurrentWorkingDirectory(text: string) returns (r: Option<Errc>)
      requires Valid()
      modifies this
      ensures (Now(), r) == ChangeDirectory(cfg, old(Now()), text)
    {
      var name := AbsoluteName(text);
      if name.Err? {
        return Some(name.error);
      }
      if name.value != cfg.cwd {
        FailWith("working directory change unsupported");
        return Some(NotSupported);
      }
      return None;
    }
  }

  /** Iterates over the entries pinned by one directory observation. */
  class PinnedDirectory {
    const entries: seq<string>
    const tail: Option<Errc>
    var index: nat
    var current: Option<string>

    constructor (o: Observation)
      requires o.entries.Some?
      ensures entries == o.entries.value && tail == o.tail && index == 0
      ensures current == if entries == [] then None else Some(entries[0])
    {
      entries, tail, index := o.entries.value, o.tail, 0;
      current := if o.entries.value == [] then None else Some(o.entries.value[0]);
    }

    method Increment() returns (error: Option<Errc>)
      modifies this
      ensures index == old(index) + 1
      ensures current == if index < |entries| then Some(entries[index]) else None
      ensures error == if index < |entries| then None else tail
    {
      index := index + 1;
      if index < |entries| {
        current := Some(entries[index]);
        return None;
      }
      current := None;
      return tail;
    }
  }

  /** A full iteration replays the recorded entries in order, then the recorded end of iteration. */
  method ReplayDirectory(o: Observation) returns (seen: seq<string>, end: Option<Errc>)
    requires o.entries.Some? && o.entries.value != []
    ensures seen == o.entries.value && end == o.tail
  {
    var directory := new PinnedDirectory(o);
    seen, end := [], None;
    while directory.current.Some?
      invariant directory.entries == o.entries.value && directory.tail == o.tail
      invariant directory.index <= |directory.entries|
      invariant seen == directory.entries[..directory.index]
      invariant directory.current ==
        if directory.index < |directory.entries| then Some(directory.entries[directory.index]) else None
      invariant directory.index == |directory.entries| ==> end == directory.tail
      decreases |directory.entries| - directory.index
    {
      seen := seen + [directory.current.value];
      end := directory.Increment();
    }
  }
}
