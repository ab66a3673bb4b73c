/** What a read policy allows, by the components of paths. */
module ReadPolicy {
  import opened Outcomes
  import opened HeaderText
  import opened PathParts
  import opened NativeReader

  /** The components of a path without the empty ones behind trailing separators. */
  function Parts(path: string): seq<string> {
    WithoutEmpty(Components(path))
  }

  function WithoutEmpty(cs: seq<string>): seq<string> {
    if |cs| > 1 && cs[|cs| - 1] == "" then WithoutEmpty(cs[..|cs| - 1]) else cs
  }

  lemma {:induction false} StrippedParts(path: string)
    requires path != "" && path[0] == '/'
    ensures Components(Stripped(path)) == (if Stripped(path) == "/" then ["", ""] else Parts(path))
    ensures Stripped(path) == "/" <==> Parts(path) == [""]
    ensures Stripped(path) != "" && Stripped(path)[0] == '/'
    decreases |path|
  {
    var cs := Components(path);
    LastComponent(path);
    if path[|path| - 1] == '/' {
      var e := path[..|path| - 1];
      assert path == e + "/";
      EndsInSeparator(e);
      assert cs[..|cs| - 1] == Components(e);
      if e == "" {
        assert Components("") == [""] && path == "/";
        assert WithoutEmpty(["", ""]) == WithoutEmpty(["", ""][..1]) && ["", ""][..1] == [""];
      } else {
        StrippedParts(e);
      }
    } else {
      assert cs[|cs| - 1] != "";
      GlueComponents(path);
    }
  }

  lemma {:induction false} StrippedEnds(path: string)
    requires path != ""
    ensures Stripped(path) != "" && (Stripped(path) == "/" || Stripped(path)[|Stripped(path)| - 1] != '/')
    decreases |path|
  {
    if |path| > 1 && path[|path| - 1] == '/' { StrippedEnds(path[..|path| - 1]); }
  }

  lemma {:induction false} FirstPart(path: string)
    requires path != "" && path[0] == '/'
    ensures Components(path)[0] == "" && Parts(path) != [] && Parts(path)[0] == ""
  {
    FirstKept(Components(path));
  }

  lemma {:induction false} FirstKept(cs: seq<string>)
    requires cs != []
    ensures WithoutEmpty(cs) != [] && WithoutEmpty(cs)[0] == cs[0]
    ensures |WithoutEmpty(cs)| > 1 ==> WithoutEmpty(cs)[|WithoutEmpty(cs)| - 1] != ""
    decreases |cs|
  {
    if |cs| > 1 && cs[|cs| - 1] == "" { FirstKept(cs[..|cs| - 1]); }
  }

  /** Whole components only: a root covers a path when its parts are the path's first parts. */
  lemma {:induction false} RootCovers(target: string, root: string)
    requires target != "" && target[0] == '/' && root != "" && root[0] == '/'
    ensures UnderRoot(Stripped(target), Stripped(root)) <==> Parts(root) <= Parts(target)
  {
    StrippedParts(target);
    StrippedParts(root);
    FirstPart(target);
    FirstPart(root);
    FirstKept(Components(root));
    StrippedEnds(root);
    var t, r := Stripped(target), Stripped(root);
    if r == "/" {
      assert Parts(root) == [""];
    } else {
      RootCoversComponents(t, r);
    }
  }

  /** A file is readable under a root, or when it is named itself; a directory only under a root. */
  lemma AuthorizedIff(physical: string, policy: Policy, directory: bool)
    requires physical != "" && physical[0] == '/'
    requires forall p :: p in policy.roots || p in policy.files ==> p != "" && p[0] == '/'
    ensures Authorized(physical, policy, directory) <==>
      || (exists root :: root in policy.roots && Parts(root) <= Parts(physical))
      || (!directory && exists file :: file in policy.files && Parts(file) == Parts(physical))
  {
    forall root | root in policy.roots
      ensures UnderRoot(Stripped(physical), Stripped(root)) <==> Parts(root) <= Parts(physical)
    {
      RootCovers(physical, root);
    }
    forall file | file in policy.files ensures Stripped(physical) == Stripped(file) <==> Parts(file) == Parts(physical) {
      SameParts(physical, file);
    }
  }

  lemma {:induction false} SameParts(a: string, b: string)
    requires a != "" && a[0] == '/' && b != "" && b[0] == '/'
    ensures Stripped(a) == Stripped(b) <==> Parts(a) == Parts(b)
  {
    StrippedParts(a);
    StrippedParts(b);
    if Parts(a) == Parts(b) { SamePath(Stripped(a), Stripped(b)); }
  }

  /** A physical path that is usable: absolute, short enough, and not of a deleted file. */
  predicate Usable(physical: string, limit: nat) {
    && 0 < |physical| <= limit && physical[0] == '/'
    && (|physical| < 10 || physical[|physical| - 10..] != " (deleted)")
  }

  // --- Refusals ------------------------------------------------------------------------------

  /** The path that was asked for, or a physical path, is none that can be read. */
  predicate PathRefused(path: string, limit: nat, e: Errc) {
    match e
    case FilenameTooLong => |path| > limit
    case InvalidArgument => '\0' in path || path == "" || path[0] != '/'
    case _ => false
  }

  predicate PhysicalRefused(physical: string, limit: nat, e: Errc) {
    match e
    case FilenameTooLong => |physical| > limit
    case NotRecoverable => |physical| >= 10 && physical[|physical| - 10..] == " (deleted)"
    case NotSupported => physical == "" || physical[0] != '/'
    case _ => false
  }

  /** An answer of the kernel to this read has the error code. */
  predicate FileGave(file: FileScript, e: Errc) {
    || file.openError == Some(e) || file.before == Err(e) || file.physical == Err(e) || file.after == Err(e)
    || Err(e) in file.answers
  }

  /** What the reader itself finds wrong with a file. */
  ghost predicate FileRefused(path: string, policy: Policy, maxBytes: nat, limit: nat, file: FileScript, e: Errc) {
    || PathRefused(path, limit, e)
    || (file.physical.Ok? && PhysicalRefused(file.physical.value, limit, e))
    || (file.physical.Ok? && e == PermissionDenied && !Authorized(file.physical.value, policy, false))
    || (file.before.Ok?
        && match e
           case IsADirectory => file.before.value.meta.kind == DirectoryFile
           case NotSupported => file.before.value.meta.kind == OtherFile
           case FileTooLarge => file.before.value.meta.size > maxBytes
           case NotRecoverable =>
             || file.after != file.before || file.finalPhysical != file.physical
             || !exists count :: Whole(file.answers, count, file.before.value.meta.size)
           case _ => false)
  }

  lemma {:induction false} ReadAllGave(answers: seq<Result<string, Errc>>, remaining: nat)
    requires ReadAll(answers, remaining).Err?
    ensures ReadAll(answers, remaining).error == NotRecoverable || Err(ReadAll(answers, remaining).error) in answers
  {
    if answers != [] && answers[0].Ok? {
      var chunk := Delivered(answers[0].value, remaining);
      if chunk != "" && remaining > 0 { ReadAllGave(answers[1..], remaining - |chunk|); }
    }
  }

  /** A file that is not read was refused by the kernel, or for the reason its code says. */
  lemma FileReason(path: string, policy: Policy, maxBytes: nat, limit: nat, file: FileScript)
    requires ReadFile(path, policy, maxBytes, limit, file).Err?
    ensures var e := ReadFile(path, policy, maxBytes, limit, file).error;
      FileGave(file, e) || FileRefused(path, policy, maxBytes, limit, file, e)
  {
    if file.before.Ok? {
      var size := file.before.value.meta.size;
      ReadAllExact(file.answers, size);
      if ReadAll(file.answers, size).Err? { ReadAllGave(file.answers, size); }
    }
  }

  predicate DirectoryGave(directory: DirectoryScript, e: Errc) {
    || directory.openError == Some(e) || directory.before == Err(e) || directory.physical == Err(e) || directory.after == Err(e)
  }

  /** What the reader itself finds wrong with a directory. */
  predicate DirectoryRefused(path: string, policy: Policy, maxEntries: nat, maxStrings: nat, limit: nat, directory: DirectoryScript, e: Errc)
    requires path != ""
  {
    || PathRefused(path, limit, e)
    || (directory.physical.Ok? && PhysicalRefused(directory.physical.value, limit, e))
    || (directory.physical.Ok? && e == PermissionDenied && !Authorized(directory.physical.value, policy, true))
    || (e == FilenameTooLong && !NamesFit(path, directory.names, limit))
    || (e == FileTooLarge && (|EntryPaths(path, directory.names)| > maxEntries || TotalLength(EntryPaths(path, directory.names)) > maxStrings))
    || (directory.before.Ok?
        && match e
           case NotADirectory => directory.before.value.meta.kind != DirectoryFile
           case NotRecoverable => directory.after != directory.before || directory.finalPhysical != directory.physical
           case _ => false)
  }

  lemma {:induction false} ListGave(path: string, names: seq<string>, maxEntries: nat, maxStrings: nat, limit: nat)
    requires path != "" && ListEntries(path, names, maxEntries, maxStrings, limit).Err?
    ensures match ListEntries(path, names, maxEntries, maxStrings, limit).error
      case FilenameTooLong => !NamesFit(path, names, limit)
      case FileTooLarge => |EntryPaths(path, names)| > maxEntries || TotalLength(EntryPaths(path, names)) > maxStrings
      case _ => false
    decreases names
  {
    if |names[0]| < NAME_CAPACITY {
      if DotName(names[0]) {
        ListGave(path, names[1..], maxEntries, maxStrings, limit);
        assert EntryPaths(path, names) == EntryPaths(path, names[1..]);
      } else {
        var entry := EntryPath(path, names[0]);
        if |entry| <= limit && maxEntries > 0 && |entry| <= maxStrings {
          ListGave(path, names[1..], maxEntries - 1, maxStrings - |entry|, limit);
          assert EntryPaths(path, names)[1..] == EntryPaths(path, names[1..]);
        }
      }
    }
  }

  lemma DirectoryReason(path: string, policy: Policy, maxEntries: nat, maxStrings: nat, limit: nat, directory: DirectoryScript)
    requires path != "" && ReadDirectory(path, policy, maxEntries, maxStrings, limit, directory).Err?
    ensures var e := ReadDirectory(path, policy, maxEntries, maxStrings, limit, directory).error;
      DirectoryGave(directory, e) || DirectoryRefused(path, policy, maxEntries, maxStrings, limit, directory, e)
  {
    if ListEntries(path, directory.names, maxEntries, maxStrings, limit).Err? {
      ListGave(path, directory.names, maxEntries, maxStrings, limit);
    }
  }
}
