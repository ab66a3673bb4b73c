/** The bounded native reader of authorized files and directories. */
module NativeReader {

  // A file or directory is opened, authorized by the physical path of the opened object, read
  // within its budgets, and rejected when it changed meanwhile. The kernel's answers are a script;
  // nothing relates one answer to the next.

  import opened Outcomes
  import HeaderText

  datatype Errc =
    | NoSuchFile | NotADirectory | IsADirectory | PermissionDenied | FilenameTooLong | FileTooLarge
    | NotRecoverable | InvalidArgument | NotSupported | NotPermitted | Native(code: int)

  datatype FileType = RegularFile | DirectoryFile | OtherFile

  /** The metadata two observations are compared by; the name is not part of it. */
  datatype Meta = Meta(id: int, kind: FileType, size: nat, modified: int, permissions: nat, user: int, group: int)

  /** One fstat answer: the metadata, and what only the before/after comparison looks at. */
  datatype Stat = Stat(meta: Meta, links: nat, changed: int)

  datatype Policy = Policy(roots: seq<string>, files: seq<string>)

  datatype Snapshot = Snapshot(meta: Meta, physical: string, bytes: string)

  datatype FileScript = FileScript(
    openError: Option<Errc>, before: Result<Stat, Errc>, physical: Result<string, Errc>,
    answers: seq<Result<string, Errc>>, after: Result<Stat, Errc>, finalPhysical: Result<string, Errc>)

  datatype DirectoryScript = DirectoryScript(
    openError: Option<Errc>, before: Result<Stat, Errc>, physical: Result<string, Errc>,
    names: seq<string>, tail: Option<Errc>, after: Result<Stat, Errc>, finalPhysical: Result<string, Errc>)

  datatype DirectorySnapshot = DirectorySnapshot(meta: Meta, physical: string, entries: seq<string>, tail: Option<Errc>)

  const CHUNK: nat := 64 * 1024
  const NAME_CAPACITY: nat := 256

  function Min(a: nat, b: nat): nat {
    if a < b then a else b
  }

  // --- Authorization -------------------------------------------------------------------

  /** A policy path without trailing separators. */
  function Stripped(path: string): string {
    if |path| > 1 && path[|path| - 1] == '/' then Stripped(path[..|path| - 1]) else path
  }

  predicate UnderRoot(target: string, root: string) {
    && root != ""
    && (|| target == root
        || (|target| > |root| && root <= target && (root[|root| - 1] == '/' || target[|root|] == '/')))
  }

  predicate Authorized(physical: string, policy: Policy, directory: bool) {
    || (exists root | root in policy.roots :: UnderRoot(Stripped(physical), Stripped(root)))
    || (!directory && exists file | file in policy.files :: Stripped(physical) == Stripped(file))
  }

  lemma {:induction false} ComponentsJoin(a: string, b: string)
    ensures HeaderText.Components(a + "/" + b) == HeaderText.Components(a) + HeaderText.Components(b)
    ensures HeaderText.Components(a) != []
  {
    if a == "" {
      assert a + "/" + b == "/" + b;
      assert ("/" + b)[1..] == b;
    } else {
      assert (a + "/" + b)[1..] == a[1..] + "/" + b;
      ComponentsJoin(a[1..], b);
    }
  }

  function Glue(components: seq<string>): string
    requires components != []
  {
    if |components| == 1 then components[0] else components[0] + "/" + Glue(components[1..])
  }

  lemma {:induction false} GlueConcat(a: seq<string>, b: seq<string>)
    requires a != [] && b != []
    ensures Glue(a + b) == Glue(a) + "/" + Glue(b)
  {
    if |a| == 1 {
      assert (a + b)[1..] == b;
    } else {
      assert (a + b)[1..] == a[1..] + b;
      GlueConcat(a[1..], b);
      assert a[0] + "/" + (Glue(a[1..]) + "/" + Glue(b)) == a[0] + "/" + Glue(a[1..]) + "/" + Glue(b);
    }
  }

  lemma {:induction false} GlueComponents(path: string)
    ensures HeaderText.Components(path) != [] && Glue(HeaderText.Components(path)) == path
  {
    if path != "" {
      GlueComponents(path[1..]);
      var rest := HeaderText.Components(path[1..]);
      assert path == [path[0]] + path[1..];
      if path[0] == '/' {
        assert ([""] + rest)[1..] == rest;
      } else {
        var all := [[path[0]] + rest[0]] + rest[1..];
        assert all[1..] == rest[1..];
        assert |rest| > 1 ==> Glue(rest) == rest[0] + "/" + Glue(rest[1..]);
      }
    }
  }

  lemma {:induction false} ComponentsPrefix(target: string, root: string)
    requires HeaderText.Components(root) <= HeaderText.Components(target)
    ensures root == target || root + "/" <= target
  {
    var whole, first := HeaderText.Components(target), HeaderText.Components(root);
    GlueComponents(target);
    GlueComponents(root);
    var rest := whole[|first|..];
    assert whole == first + rest;
    if rest == [] {
      assert whole == first;
    } else {
      GlueConcat(first, rest);
    }
  }

  /**
   A root authorizes whole path components only: a stripped root other than "/" covers a path
   exactly when its components are the path's first components.
   */
  lemma {:induction false} RootCoversComponents(target: string, root: string)
    requires root != "" && root[|root| - 1] != '/'
    ensures UnderRoot(target, root) <==> HeaderText.Components(root) <= HeaderText.Components(target)
  {
    if UnderRoot(target, root) && target != root {
      assert target == root + "/" + target[|root| + 1..];
      ComponentsJoin(root, target[|root| + 1..]);
    }
    if HeaderText.Components(root) <= HeaderText.Components(target) {
      ComponentsPrefix(target, root);
    }
  }

  // --- Reading a file ------------------------------------------------------------------

  /** The chunk one read delivers when `remaining` bytes are still expected. */
  function Delivered(data: string, remaining: nat): string {
    data[..Min(|data|, if remaining == 0 then 1 else Min(remaining, CHUNK))]
  }

  /** The bytes read until the declared size is reached and one more read confirms the end. */
  function ReadAll(answers: seq<Result<string, Errc>>, remaining: nat): Result<string, Errc> {
    if answers == [] then if remaining == 0 then Ok("") else Err(NotRecoverable)
    else
      match answers[0]
      case Err(e) => Err(e)
      case Ok(data) =>
        var chunk := Delivered(data, remaining);
        if chunk == "" then if remaining == 0 then Ok("") else Err(NotRecoverable)
        else if remaining == 0 then Err(NotRecoverable)
        else
          match ReadAll(answers[1..], remaining - |chunk|)
          case Err(e) => Err(e)
          case Ok(rest) => Ok(chunk + rest)
  }

  /** The chunks of the first `count` answers, concatenated. */
  function Chunks(answers: seq<Result<string, Errc>>, count: nat, remaining: nat): string
    requires count <= |answers|
  {
    if count == 0 || answers[0].Err? then ""
    else
      var chunk := Delivered(answers[0].value, remaining);
      chunk + Chunks(answers[1..], count - 1, if |chunk| <= remaining then remaining - |chunk| else 0)
  }

  /** The next read reports the end of the file. */
  predicate AtEnd(answers: seq<Result<string, Errc>>) {
    answers == [] || answers[0] == Ok("")
  }

  /** The first `count` answers deliver exactly `size` bytes, and the next one confirms the end. */
  ghost predicate Whole(answers: seq<Result<string, Errc>>, count: nat, size: nat) {
    && count <= |answers|
    && (forall i :: 0 <= i < count ==> answers[i].Ok? && answers[i].value != "")
    && |Chunks(answers, count, size)| == size && AtEnd(answers[count..])
  }

  lemma {:induction false} WholeIsRead(answers: seq<Result<string, Errc>>, count: nat, size: nat)
    requires Whole(answers, count, size)
    ensures ReadAll(answers, size) == Ok(Chunks(answers, count, size))
  {
    if count == 0 {
      assert answers[0..] == answers;
    } else {
      var chunk := Delivered(answers[0].value, size);
      assert |chunk| > 0 && size > 0;
      assert answers[1..][count - 1..] == answers[count..];
      WholeIsRead(answers[1..], count - 1, size - |chunk|);
    }
  }

  lemma {:induction false} ReadIsWhole(answers: seq<Result<string, Errc>>, size: nat) returns (count: nat)
    requires ReadAll(answers, size).Ok?
    ensures Whole(answers, count, size)
  {
    if answers == [] || Delivered(answers[0].value, size) == "" {
      count := 0;
      assert answers[0..] == answers;
      assert answers == [] || answers[0].value == "";
    } else {
      var chunk := Delivered(answers[0].value, size);
      var rest := ReadIsWhole(answers[1..], size - |chunk|);
      count := rest + 1;
      WholeStep(answers, rest, size);
    }
  }

  lemma WholeStep(answers: seq<Result<string, Errc>>, rest: nat, size: nat)
    requires answers != [] && answers[0].Ok? && answers[0].value != "" && size > 0
    requires Whole(answers[1..], rest, size - |Delivered(answers[0].value, size)|)
    ensures Whole(answers, rest + 1, size)
  {
    assert answers[1..][rest..] == answers[rest + 1..];
    forall i | 0 <= i < rest + 1 ensures answers[i].Ok? && answers[i].value != "" {
      if i > 0 { assert answers[i] == answers[1..][i - 1]; }
    }
    assert Chunks(answers, rest + 1, size)
      == Delivered(answers[0].value, size) + Chunks(answers[1..], rest, size - |Delivered(answers[0].value, size)|);
  }

  /**
   A read succeeds exactly when some number of non-empty chunks has the declared length and the
   end of the file is confirmed after them, and then it is the concatenation of these chunks.
   */
  lemma {:induction false} ReadAllExact(answers: seq<Result<string, Errc>>, size: nat)
    ensures ReadAll(answers, size).Ok? <==> exists count :: Whole(answers, count, size)
    ensures forall count :: Whole(answers, count, size) ==> ReadAll(answers, size) == Ok(Chunks(answers, count, size))
    ensures ReadAll(answers, size).Ok? ==> |ReadAll(answers, size).value| == size
  {
    forall count | Whole(answers, count, size)
      ensures ReadAll(answers, size) == Ok(Chunks(answers, count, size)) && |ReadAll(answers, size).value| == size
    {
      WholeIsRead(answers, count, size);
    }
    if ReadAll(answers, size).Ok? {
      var count := ReadIsWhole(answers, size);
    }
  }

  function Prepend<T>(first: seq<T>, r: Result<seq<T>, Errc>): Result<seq<T>, Errc> {
    match r
    case Ok(rest) => Ok(first + rest)
    case Err(e) => Err(e)
  }

  lemma PrependNothing<T>(first: seq<T>, r: Result<seq<T>, Errc>)
    requires first == []
    ensures Prepend(first, r) == r
  {
    if r.Ok? { assert first + r.value == r.value; }
  }

  lemma PrependTwice<T>(first: seq<T>, second: seq<T>, r: Result<seq<T>, Errc>)
    ensures Prepend(first, Prepend(second, r)) == Prepend(first + second, r)
  {
    if r.Ok? { assert first + (second + r.value) == first + second + r.value; }
  }

  /** The read loop over one preallocated buffer. */
  method ReadLoop(answers: seq<Result<string, Errc>>, size: nat) returns (r: Result<string, Errc>)
    ensures r == ReadAll(answers, size)
  {
    var bytes := new char[size];
    var remaining: nat, next: nat := size, 0;
    assert answers[0..] == answers;
    PrependNothing(bytes[..0], ReadAll(answers, size));
    while true
      invariant remaining <= size && next <= |answers|
      invariant ReadAll(answers, size) == Prepend(bytes[..size - remaining], ReadAll(answers[next..], remaining))
      decreases |answers| - next
    {
      if next < |answers| && answers[next].Err? {
        return Err(answers[next].error);
      }
      var chunk := if next == |answers| then "" else Delivered(answers[next].value, remaining);
      if chunk == "" {
        if remaining != 0 {
          return Err(NotRecoverable);
        }
        assert bytes[..size - remaining] + "" == bytes[..];
        return Ok(bytes[..]);
      }
      if remaining == 0 {
        return Err(NotRecoverable);
      }
      var offset := size - remaining;
      ghost var before := bytes[..offset];
      forall j | 0 <= j < |chunk| {
        bytes[offset + j] := chunk[j];
      }
      assert bytes[..offset + |chunk|] == before + chunk;
      assert answers[next..][1..] == answers[next + 1..];
      PrependTwice(before, chunk, ReadAll(answers[next + 1..], remaining - |chunk|));
      remaining, next := remaining - |chunk|, next + 1;
    }
  }

  function SpellingError(spelling: string, limit: nat): Option<Errc> {
    if |spelling| > limit then Some(FilenameTooLong)
    else if '\0' in spelling || !HeaderText.AbsolutePath(spelling) then Some(InvalidArgument)
    else None
  }

  /** The physical path of an opened descriptor: bounded, absolute and not a deleted object. */
  function PhysicalPath(answer: Result<string, Errc>, limit: nat): Result<string, Errc> {
    match answer
    case Err(e) => Err(e)
    case Ok(path) =>
      if |path| > limit then Err(FilenameTooLong)
      else if " (deleted)" == path[if |path| >= 10 then |path| - 10 else 0..] then Err(NotRecoverable)
      else if !HeaderText.AbsolutePath(path) then Err(NotSupported)
      else Ok(path)
  }

  /** The whole native file read. */
  function ReadFile(spelling: string, policy: Policy, maxBytes: nat, maxPathBytes: nat, script: FileScript): Result<Snapshot, Errc> {
    if SpellingError(spelling, maxPathBytes).Some? then Err(SpellingError(spelling, maxPathBytes).value)
    else if script.openError.Some? then Err(script.openError.value)
    else if script.before.Err? then Err(script.before.error)
    else
      var before := script.before.value;
      if before.meta.kind != RegularFile then Err(if before.meta.kind == DirectoryFile then IsADirectory else NotSupported)
      else
        var physical := PhysicalPath(script.physical, maxPathBytes);
        if physical.Err? then Err(physical.error)
        else if !Authorized(physical.value, policy, false) then Err(PermissionDenied)
        else if before.meta.size > maxBytes then Err(FileTooLarge)
        else
          var bytes := ReadAll(script.answers, before.meta.size);
          if bytes.Err? then Err(bytes.error)
          else if script.after.Err? then Err(script.after.error)
          else if script.after.value != before || PhysicalPath(script.finalPhysical, maxPathBytes) != physical
          then Err(NotRecoverable)
          else Ok(Snapshot(before.meta, physical.value, bytes.value))
  }

  method ReadNativeFile(spelling: string, policy: Policy, maxBytes: nat, maxPathBytes: nat, script: FileScript)
    returns (r: Result<Snapshot, Errc>)
    ensures r == ReadFile(spelling, policy, maxBytes, maxPathBytes, script)
    ensures r.Ok? ==>
      && Authorized(r.value.physical, policy, false)
      && |r.value.bytes| == r.value.meta.size <= maxBytes
      && r.value.physical != "" && |r.value.physical| <= maxPathBytes
      && script.after == Ok(script.before.value)
  {
    var invalid := SpellingError(spelling, maxPathBytes);
    if invalid.Some? {
      return Err(invalid.value);
    }
    if script.openError.Some? {
      return Err(script.openError.value);
    }
    if script.before.Err? {
      return Err(script.before.error);
    }
    var before := script.before.value;
    if before.meta.kind != RegularFile {
      return Err(if before.meta.kind == DirectoryFile then IsADirectory else NotSupported);
    }
    var physical := PhysicalPath(script.physical, maxPathBytes);
    if physical.Err? {
      return Err(physical.error);
    }
    if !Authorized(physical.value, policy, false) {
      return Err(PermissionDenied);
    }
    if before.meta.size > maxBytes {
      return Err(FileTooLarge);
    }
    var bytes := ReadLoop(script.answers, before.meta.size);
    if bytes.Err? {
      return Err(bytes.error);
    }
    ReadAllExact(script.answers, before.meta.size);
    if script.after.Err? {
      return Err(script.after.error);
    }
    if script.after.value != before || PhysicalPath(script.finalPhysical, maxPathBytes) != physical {
      return Err(NotRecoverable);
    }
    return Ok(Snapshot(before.meta, physical.value, bytes.value));
  }

  // --- Reading a directory ---------------------------------------------------------------

  function EntryPath(spelling: string, name: string): string
    requires spelling != ""
  {
    if spelling[|spelling| - 1] == '/' then spelling + name else spelling + "/" + name
  }

  predicate DotName(name: string) {
    name == "." || name == ".."
  }

  /** The paths of all entries except "." and "..", in native order. */
  function EntryPaths(spelling: string, names: seq<string>): seq<string>
    requires spelling != ""
  {
    if names == [] then []
    else (if DotName(names[0]) then [] else [EntryPath(spelling, names[0])]) + EntryPaths(spelling, names[1..])
  }

  function TotalLength(paths: seq<string>): nat {
    if paths == [] then 0 else |paths[0]| + TotalLength(paths[1..])
  }

  predicate NamesFit(spelling: string, names: seq<string>, maxPathBytes: nat)
    requires spelling != ""
  {
    forall name | name in names :: |name| < NAME_CAPACITY && (DotName(name) || |EntryPath(spelling, name)| <= maxPathBytes)
  }

  /** The bounded enumeration, with the entries and string bytes already used. */
  function ListEntries(spelling: string, names: seq<string>, maxEntries: nat, maxStrings: nat, maxPathBytes: nat): Result<seq<string>, Errc>
    requires spelling != ""
  {
    if names == [] then Ok([])
    else if |names[0]| >= NAME_CAPACITY then Err(FilenameTooLong)
    else if DotName(names[0]) then ListEntries(spelling, names[1..], maxEntries, maxStrings, maxPathBytes)
    else
      var path := EntryPath(spelling, names[0]);
      if |path| > maxPathBytes then Err(FilenameTooLong)
      else if maxEntries == 0 || |path| > maxStrings then Err(FileTooLarge)
      else
        match ListEntries(spelling, names[1..], maxEntries - 1, maxStrings - |path|, maxPathBytes)
        case Err(e) => Err(e)
        case Ok(rest) => Ok([path] + rest)
  }

  /** The enumeration succeeds exactly when every budget holds, and then it is complete and in order. */
  lemma {:induction false} ListEntriesExact(spelling: string, names: seq<string>, maxEntries: nat, maxStrings: nat, maxPathBytes: nat)
    requires spelling != ""
    ensures
      var paths := EntryPaths(spelling, names);
      var r := ListEntries(spelling, names, maxEntries, maxStrings, maxPathBytes);
      && (r.Ok? <==> NamesFit(spelling, names, maxPathBytes) && |paths| <= maxEntries && TotalLength(paths) <= maxStrings)
      && (r.Ok? ==> r.value == paths)
  {
    if names != [] {
      assert names == [names[0]] + names[1..];
      assert NamesFit(spelling, names, maxPathBytes) <==>
        NamesFit(spelling, [names[0]], maxPathBytes) && NamesFit(spelling, names[1..], maxPathBytes);
      assert names[0] in [names[0]];
      if DotName(names[0]) {
        ListEntriesExact(spelling, names[1..], maxEntries, maxStrings, maxPathBytes);
        assert EntryPaths(spelling, names) == EntryPaths(spelling, names[1..]);
      } else {
        var path := EntryPath(spelling, names[0]);
        assert EntryPaths(spelling, names) == [path] + EntryPaths(spelling, names[1..]);
        assert ([path] + EntryPaths(spelling, names[1..]))[1..] == EntryPaths(spelling, names[1..]);
        if maxEntries > 0 && |path| <= maxStrings {
          ListEntriesExact(spelling, names[1..], maxEntries - 1, maxStrings - |path|, maxPathBytes);
        }
      }
    }
  }

  /** The loop of the enumeration: budgets are checked before anything is appended. */
  method ListLoop(spelling: string, names: seq<string>, maxEntries: nat, maxStrings: nat, maxPathBytes: nat)
    returns (r: Result<seq<string>, Errc>)
    requires spelling != ""
    ensures r == ListEntries(spelling, names, maxEntries, maxStrings, maxPathBytes)
  {
    var entries: seq<string> := [];
    var stringBytes: nat := 0;
    PrependNothing(entries, ListEntries(spelling, names, maxEntries, maxStrings, maxPathBytes));
    for i := 0 to |names|
      invariant |entries| <= maxEntries && stringBytes <= maxStrings
      invariant ListEntries(spelling, names, maxEntries, maxStrings, maxPathBytes) ==
        Prepend(entries, ListEntries(spelling, names[i..], maxEntries - |entries|, maxStrings - stringBytes, maxPathBytes))
    {
      var name := names[i];
      assert names[i..][0] == name && names[i..][1..] == names[i + 1..];
      if |name| >= NAME_CAPACITY {
        return Err(FilenameTooLong);
      }
      if !DotName(name) {
        var path := EntryPath(spelling, name);
        if |path| > maxPathBytes {
          return Err(FilenameTooLong);
        }
        if |entries| >= maxEntries || |path| > maxStrings - stringBytes {
          return Err(FileTooLarge);
        }
        PrependTwice(entries, [path], ListEntries(spelling, names[i + 1..], maxEntries - |entries| - 1,
                                                  maxStrings - stringBytes - |path|, maxPathBytes));
        entries, stringBytes := entries + [path], stringBytes + |path|;
      }
    }
    assert entries + [] == entries;
    return Ok(entries);
  }

  function ReadDirectory(spelling: string, policy: Policy, maxEntries: nat, maxStrings: nat, maxPathBytes: nat,
                         script: DirectoryScript): Result<DirectorySnapshot, Errc> {
    if SpellingError(spelling, maxPathBytes).Some? then Err(SpellingError(spelling, maxPathBytes).value)
    else if script.openError.Some? then Err(script.openError.value)
    else if script.before.Err? then Err(script.before.error)
    else if script.before.value.meta.kind != DirectoryFile then Err(NotADirectory)
    else
      var physical := PhysicalPath(script.physical, maxPathBytes);
      if physical.Err? then Err(physical.error)
      else if !Authorized(physical.value, policy, true) then Err(PermissionDenied)
      else
        var entries := ListEntries(spelling, script.names, maxEntries, maxStrings, maxPathBytes);
        if entries.Err? then Err(entries.error)
        else if script.after.Err? then Err(script.after.error)
        else if script.after.value != script.before.value || PhysicalPath(script.finalPhysical, maxPathBytes) != physical
        then Err(NotRecoverable)
        else Ok(DirectorySnapshot(script.before.value.meta, physical.value, entries.value, script.tail))
  }

  method ReadNativeDirectory(spelling: string, policy: Policy, maxEntries: nat, maxStrings: nat, maxPathBytes: nat,
                             script: DirectoryScript)
    returns (r: Result<DirectorySnapshot, Errc>)
    ensures r == ReadDirectory(spelling, policy, maxEntries, maxStrings, maxPathBytes, script)
    ensures r.Ok? ==>
      && Authorized(r.value.physical, policy, true)
      && r.value.entries == EntryPaths(spelling, script.names)
      && |r.value.entries| <= maxEntries && TotalLength(r.value.entries) <= maxStrings
      && r.value.physical != "" && r.value.meta.kind == DirectoryFile
  {
    var invalid := SpellingError(spelling, maxPathBytes);
    if invalid.Some? {
      return Err(invalid.value);
    }
    if script.openError.Some? {
      return Err(script.openError.value);
    }
    if script.before.Err? {
      return Err(script.before.error);
    }
    if script.before.value.meta.kind != DirectoryFile {
      return Err(NotADirectory);
    }
    var physical := PhysicalPath(script.physical, maxPathBytes);
    if physical.Err? {
      return Err(physical.error);
    }
    if !Authorized(physical.value, policy, true) {
      return Err(PermissionDenied);
    }
    var entries := ListLoop(spelling, script.names, maxEntries, maxStrings, maxPathBytes);
    if entries.Err? {
      return Err(entries.error);
    }
    ListEntriesExact(spelling, script.names, maxEntries, maxStrings, maxPathBytes);
    if script.after.Err? {
      return Err(script.after.error);
    }
    if script.after.value != script.before.value || PhysicalPath(script.finalPhysical, maxPathBytes) != physical {
      return Err(NotRecoverable);
    }
    return Ok(DirectorySnapshot(script.before.value.meta, physical.value, entries.value, script.tail));
  }
}
