/** The header closure behind the audit cache key: what a translation unit could open, define and ask for. */
module HeaderClosure {
  import opened Outcomes
  import opened HeaderText
  import opened HeaderExpansion

  const MAX_CANDIDATES: nat := 32768
  const MAX_LOOKUPS: nat := 32768
  const MAX_SCANNED_FILES: nat := 4096
  const MAX_SCANNED_BYTES: nat := 64 * 1024 * 1024
  const MAX_FILE_BYTES: nat := 8 * 1024 * 1024
  const MAX_UNSCANNED_BYTES: nat := 1024 * 1024 * 1024
  const MAX_ROUNDS: nat := 128

  /** A `-D` or `-U` argument, comments removed, and what it means. */
  datatype MacroArgument = DefineArgument(text: string) | UndefineArgument(text: string)

  datatype CommandMacro = Defines(name: string, tail: string) | Undefines(name: string) | Rejected

  /** One translation unit: its sources, its search roots and its command-line macros, in order. */
  datatype Unit = Unit(
    file: string, roots: seq<string>, quotedRoots: seq<string>,
    forced: seq<string>, defines: seq<MacroArgument>, inputs: seq<string>)

  datatype Kind = MissingKind | DirectoryKind | SpecialKind | FileKind

  datatype CandidateState = CandidateState(kind: Kind, resolved: string, parentResolved: string)

  /** What a captured file contributes to the key; equal digests stand for equal content. */
  datatype InputRecord = InputRecord(resolved: string, source: Source)

  datatype Identity = Identity(inputs: map<string, InputRecord>, candidates: map<string, CandidateState>)

  datatype Closure = Closure(files: set<string>, macros: Macros)

  function KindOf(node: Node): Kind {
    match node
    case Missing => MissingKind
    case Directory => DirectoryKind
    case Special => SpecialKind
    case File(_, _) => FileKind
  }

  function StateOf(disk: Disk, path: string): CandidateState {
    CandidateState(KindOf(disk.node(path)), disk.physical(path), disk.physical(Parent(path)))
  }

  function SourceOf(disk: Disk, path: string): Source {
    match disk.node(path)
    case File(source, _) => source
    case _ => Source([], 0)
  }

  function SizeOf(disk: Disk, path: string): nat {
    SourceOf(disk, path).size
  }

  /** A file too large by itself, or one scanned file or byte too many. */
  predicate OverLimits(size: nat, scan: bool, files: nat, bytes: nat) {
    || size > (if scan then 0x80_0000 else 0x4000_0000)
    || (scan && (files >= 4096 || bytes + size > 0x400_0000))
  }

  /** A key describes a disk when everything it recorded is true of that disk. */
  ghost predicate DescribesDisk(disk: Disk, key: Identity) {
    && (forall p :: p in key.candidates ==> key.candidates[p] == StateOf(disk, p))
    && (forall p :: p in key.inputs ==>
          disk.node(p).File? && key.inputs[p] == InputRecord(disk.physical(p), disk.node(p).source))
  }

  // --- Command-line macros ---------------------------------------------------------

  /** The length of the identifier characters at the start of s. */
  function WordLength(s: string): (n: nat)
    ensures n <= |s|
  {
    if s != "" && (Letter(s[0]) || '0' <= s[0] <= '9') then 1 + WordLength(s[1..]) else 0
  }

  function SkipSpace(s: string): string {
    if s != "" && (Blank(s[0]) || s[0] == '\U{0B}' || s[0] == '\U{0C}') then SkipSpace(s[1..]) else s
  }

  /** A definition starts with an identifier and stays on one line. */
  function Definition(text: string): CommandMacro {
    var s := SkipSpace(text);
    var n := WordLength(s);
    if n == 0 || !Letter(s[0]) || '\n' in s[n..] || '\r' in s[n..] then Rejected else Defines(s[..n], s[n..])
  }

  function EqualsAt(s: string): (n: nat)
    ensures n <= |s|
  {
    if s == "" || s[0] == '=' then 0 else 1 + EqualsAt(s[1..])
  }

  /** `N=v` defines N as v and `N` defines it as 1; include probes, line breaks and malformed names are refused. */
  function Command(a: MacroArgument): CommandMacro {
    if Contains(a.text, "__has_include") || '\n' in a.text then Rejected
    else
      match a
      case DefineArgument(text) =>
        var n := EqualsAt(text);
        Definition(if n == |text| then text + " 1" else text[..n] + " " + text[n + 1..])
      case UndefineArgument(text) => if Identifier(text) then Undefines(text) else Rejected
  }

  function ApplyCommand(macros: Macros, command: CommandMacro): Macros {
    match command
    case Defines(name, tail) => macros[name := {Replacement(tail)}]
    case Undefines(name) => macros - {name}
    case Rejected => macros
  }

  function CommandTable(commands: seq<MacroArgument>): (r: Macros)
    ensures NoEmptyEntry(r)
  {
    if commands == [] then map[]
    else ApplyCommand(CommandTable(commands[..|commands| - 1]), Command(commands[|commands| - 1]))
  }

  // --- The closure, as a property of a pair (files, macros) --------------------------

  function SearchDirs(disk: Disk, unit: Unit, file: string, quoted: bool): seq<string> {
    unit.roots +
    if quoted then unit.quotedRoots + [Parent(file), Parent(disk.physical(file))] else []
  }

  ghost predicate SearchedFor(disk: Disk, unit: Unit, file: string, lookup: Lookup, path: string) {
    exists dir :: dir in SearchDirs(disk, unit, file, lookup.quoted) && path == Join(dir, lookup.name)
  }

  /** A lookup of `operand` in `file` may ask for `path`. */
  ghost predicate LookedUp(disk: Disk, unit: Unit, macros: Macros, file: string, operand: string, path: string) {
    exists lookup :: Denotes(macros, operand, lookup) && SearchedFor(disk, unit, file, lookup, path)
  }

  /** A lookup in `file`, under some choice of alternatives, may ask for `path`. */
  ghost predicate Searched(disk: Disk, unit: Unit, macros: Macros, file: string, path: string) {
    exists operand :: Asks(SourceOf(disk, file), operand) && LookedUp(disk, unit, macros, file, operand, path)
  }

  ghost predicate FilesClosed(disk: Disk, unit: Unit, c: Closure) {
    forall f, path :: f in c.files && Searched(disk, unit, c.macros, f, path) && disk.node(path).File? ==> path in c.files
  }

  ghost predicate MacrosClosed(disk: Disk, c: Closure) {
    forall f, n, a :: f in c.files && Supplies(SourceOf(disk, f), n, a) ==> HasAlternative(c.macros, n, a)
  }

  /** Contains the unit's own files and macros, and is closed under lookups and definitions. */
  ghost predicate IsClosed(disk: Disk, unit: Unit, c: Closure) {
    && unit.file in c.files
    && (forall f :: f in unit.forced ==> f in c.files)
    && MacrosWithin(CommandTable(unit.defines), c.macros)
    && MacrosClosed(disk, c)
    && FilesClosed(disk, unit, c)
  }

  ghost predicate Within(small: Closure, large: Closure) {
    small.files <= large.files && MacrosWithin(small.macros, large.macros)
  }

  /** Below every closed pair. */
  ghost predicate BelowEveryClosed(disk: Disk, unit: Unit, small: Closure) {
    forall c :: IsClosed(disk, unit, c) ==> Within(small, c)
  }

  ghost predicate IsLeastClosed(disk: Disk, unit: Unit, c: Closure) {
    IsClosed(disk, unit, c) && NoEmptyEntry(c.macros) && BelowEveryClosed(disk, unit, c)
  }

  /** Every file is readable, and every lookup in it has a settled, complete meaning. */
  ghost predicate FullyResolved(disk: Disk, c: Closure) {
    && (forall f :: f in c.files ==> disk.node(f).File?)
    && (forall f, d :: f in c.files && d in SourceOf(disk, f).directives ==> Classified(d))
    && (forall f, op :: f in c.files && Asks(SourceOf(disk, f), op) ==>
          AllAdmissible(c.macros, op, false) && Acyclic(c.macros, op) && AllDefined(c.macros, op))
  }

  /** No file of the closure has a second name on the disk. */
  ghost predicate SingleLinked(disk: Disk, c: Closure) {
    forall f :: f in c.files ==> disk.node(f).File? && disk.node(f).links <= 1
  }

  /** The key records every file of the closure and every path its lookups search. */
  ghost predicate Covers(disk: Disk, unit: Unit, key: Identity, c: Closure) {
    && (forall f :: f in c.files ==> f in key.inputs)
    && (forall f, path :: f in c.files && Searched(disk, unit, c.macros, f, path) ==> path in key.candidates)
  }

  ghost predicate KeyWithin(small: Identity, large: Identity) {
    small.inputs.Keys <= large.inputs.Keys && small.candidates.Keys <= large.candidates.Keys
  }

  /**
   The least closed pair is unique, so the order in which pending files are
   drained cannot matter.
   */
  lemma LeastClosedUnique(disk: Disk, unit: Unit, a: Closure, b: Closure)
    requires IsLeastClosed(disk, unit, a) && IsLeastClosed(disk, unit, b)
    ensures a == b
  {
    assert Within(a, b) && Within(b, a);
    forall n | n in a.macros || n in b.macros ensures n in a.macros && n in b.macros && a.macros[n] == b.macros[n] {
      assert exists t :: HasAlternative(a.macros, n, t) || HasAlternative(b.macros, n, t) by {
        if n in a.macros {
          var t :| t in a.macros[n];
          assert HasAlternative(a.macros, n, t);
        } else {
          var t :| t in b.macros[n];
          assert HasAlternative(b.macros, n, t);
        }
      }
      forall t ensures HasAlternative(a.macros, n, t) <==> HasAlternative(b.macros, n, t) {}
      forall t ensures t in a.macros[n] <==> t in b.macros[n] {
        assert HasAlternative(a.macros, n, t) <==> HasAlternative(b.macros, n, t);
      }
    }
  }

  // --- Capture -------------------------------------------------------------------------

  /** The records shared by all units of one identity computation. */
  class Capture {
    const disk: Disk
    var inputs: map<string, InputRecord>
    var candidates: map<string, CandidateState>
    var bytes: nat
    var scannedFiles: nat

    constructor (disk: Disk)
      ensures this.disk == disk && inputs == map[] && candidates == map[] && Valid()
    {
      this.disk, inputs, candidates, bytes, scannedFiles := disk, map[], map[], 0, 0;
    }

    ghost function Key(): Identity
      reads this
    {
      Identity(inputs, candidates)
    }

    ghost predicate Valid()
      reads this
    {
      DescribesDisk(disk, Key())
    }

    /** Records the state of one search candidate, present or not. */
    method Describe(path: string) returns (r: Result<bool, Refusal>)
      requires Valid()
      modifies `candidates
      ensures Valid() && KeyWithin(old(Key()), Key())
      ensures r.Ok? ==> path in candidates && r.value == disk.node(path).File? && !disk.node(path).Special?
      ensures r.Err? <==> disk.node(path).Special? || (|old(candidates)| >= 32768 && path !in old(candidates))
      ensures r.Err? ==> if r.error.Unfit? then disk.node(path).Special? else |old(candidates)| >= 32768 && path !in old(candidates)
    {
      if |candidates| >= MAX_CANDIDATES && path !in candidates {
        return Err(AtLimit("header candidate limit exceeded"));
      }
      if disk.node(path).Special? {
        return Err(Unfit("special file in include search"));
      }
      candidates := candidates[path := StateOf(disk, path)];
      return Ok(disk.node(path).File?);
    }

    /** Records one file's content; a scanned file also counts against the closure limits. */
    method CaptureFile(file: string, scan: bool) returns (r: Result<Source, Refusal>)
      requires Valid()
      modifies this
      ensures Valid() && KeyWithin(old(Key()), Key())
      ensures r.Ok? ==> disk.node(file).File? && r.value == disk.node(file).source && file in inputs
      ensures r.Ok? ==> !OverLimits(SizeOf(disk, file), scan, old(scannedFiles), old(bytes))
      ensures r.Ok? && scan ==> disk.node(file).links <= 1
      ensures r.Err? && r.error.Unfit? ==> !disk.node(file).File? || (scan && disk.node(file).links > 1)
      ensures r.Err? && r.error.AtLimit? ==>
        (|old(candidates)| >= 32768 && file !in old(candidates)) || OverLimits(SizeOf(disk, file), scan, old(scannedFiles), old(bytes))
      ensures r.Ok? ==>
        && bytes == old(bytes) + (if scan then SizeOf(disk, file) else 0)
        && scannedFiles == old(scannedFiles) + (if scan then 1 else 0)
    {
      var regular := Describe(file);
      if regular.Err? {
        return Err(regular.error);
      }
      assert candidates[file] == StateOf(disk, file);
      if !regular.value {
        return Err(Unfit("cache input unavailable"));
      }
      var node := disk.node(file);
      if node.source.size > (if scan then MAX_FILE_BYTES else MAX_UNSCANNED_BYTES) {
        return Err(AtLimit("cache input exceeds size limit"));
      }
      if scan {
        if node.links > 1 {
          return Err(Unfit("hardlinked preprocessing input requires uncached analysis"));
        }
        bytes, scannedFiles := bytes + node.source.size, scannedFiles + 1;
        if scannedFiles > MAX_SCANNED_FILES || bytes > MAX_SCANNED_BYTES {
          return Err(AtLimit("header closure limit exceeded"));
        }
      }
      inputs := inputs[file := InputRecord(disk.physical(file), node.source)];
      return Ok(node.source);
    }

    /** Scans one file: its operands join the lookups and its definitions join the macro table. */
    method ScanFile(unit: Unit, file: string, c: Closure, lookups: seq<(string, string)>, ghost pending: seq<string>)
      returns (r: Result<(Closure, seq<(string, string)>), Refusal>)
      requires Valid() && Scanned(disk, unit, Key(), c, lookups) && file !in c.files
      requires BelowEveryClosed(disk, unit, Closure(c.files + Elements(pending) + {file}, c.macros))
      modifies this
      ensures Valid() && KeyWithin(old(Key()), Key())
      ensures r.Ok? ==> Scanned(disk, unit, Key(), r.value.0, r.value.1) && r.value.0.files == c.files + {file}
      ensures r.Ok? ==> BelowEveryClosed(disk, unit, Closure(r.value.0.files + Elements(pending), r.value.0.macros))
      ensures r.Err? && r.error.Unfit? ==> Hopeless(disk, unit)
    {
      UnfitFile(disk, unit, Closure(c.files + Elements(pending) + {file}, c.macros), file);
      var source := CaptureFile(file, true);
      if source.Err? {
        return Err(source.error);
      }
      var found := HeaderLookups(source.value, c.macros);
      if found.Err? {
        return Err(found.error);
      }
      var added := AppendLookups(file, found.value.0, lookups);
      if added.Err? {
        return Err(added.error);
      }
      var wider := Closure(c.files + {file}, found.value.1);
      DrainStep(disk, unit, c, file, wider, pending);
      return Ok((wider, added.value));
    }

    /**
     Drains the pending files: each one not visited yet is scanned, its operands
     join the lookups and its definitions join the macro table.
     */
    method Drain(unit: Unit, pending0: seq<string>, closure: Closure, lookups0: seq<(string, string)>)
      returns (r: Result<(Closure, seq<(string, string)>), Refusal>)
      requires Valid() && Scanned(disk, unit, Key(), closure, lookups0)
      requires BelowEveryClosed(disk, unit, Closure(closure.files + Elements(pending0), closure.macros))
      modifies this
      ensures Valid() && KeyWithin(old(Key()), Key())
      ensures r.Ok? ==> Scanned(disk, unit, Key(), r.value.0, r.value.1)
      ensures r.Ok? ==> r.value.0.files == closure.files + Elements(pending0)
      ensures r.Ok? ==> BelowEveryClosed(disk, unit, r.value.0)
      ensures r.Err? && r.error.Unfit? ==> Hopeless(disk, unit)
    {
      var pending, visited, macros, lookups := pending0, closure.files, closure.macros, lookups0;
      while pending != []
        invariant Valid() && KeyWithin(old(Key()), Key())
        invariant Scanned(disk, unit, Key(), Closure(visited, macros), lookups)
        invariant visited + Elements(pending) == closure.files + Elements(pending0)
        invariant BelowEveryClosed(disk, unit, Closure(visited + Elements(pending), macros))
        decreases |pending|
      {
        var file := pending[|pending| - 1];
        ghost var before := pending;
        pending := pending[..|pending| - 1];
        assert before == pending + [file];
        assert Elements(before) == Elements(pending) + {file};
        if file !in visited {
          var scanned := ScanFile(unit, file, Closure(visited, macros), lookups, pending);
          if scanned.Err? {
            return Err(scanned.error);
          }
          visited, macros, lookups := scanned.value.0.files, scanned.value.0.macros, scanned.value.1;
          assert visited + Elements(pending) == closure.files + Elements(pending0);
        } else {
          assert visited + Elements(pending) == visited + Elements(before);
        }
      }
      assert visited + Elements(pending) == visited;
      return Ok((Closure(visited, macros), lookups));
    }

    /**
     Asks the disk about one header name in every search directory; candidates
     that exist and are new become pending.
     */
    method SearchCandidates(unit: Unit, c: Closure, file: string, lookup: Lookup,
                            pending0: seq<string>, expanded0: set<string>)
      returns (r: Result<(seq<string>, set<string>), Refusal>)
      requires Valid() && Tracked(disk, Key(), c, pending0, expanded0)
      modifies `candidates
      ensures Valid() && KeyWithin(old(Key()), Key())
      ensures r.Ok? ==> Tracked(disk, Key(), c, r.value.0, r.value.1) && expanded0 <= r.value.1
      ensures r.Ok? ==> forall path :: SearchedFor(disk, unit, file, lookup, path) ==> path in r.value.1
      ensures r.Ok? ==> Found(disk, unit, file, lookup, pending0, r.value.0)
      ensures r.Err? && r.error.Unfit? ==> exists path :: SearchedFor(disk, unit, file, lookup, path) && disk.node(path).Special?
    {
      var search := SearchDirs(disk, unit, file, lookup.quoted);
      var pending, expanded := pending0, expanded0;
      for i := 0 to |search|
        invariant Valid() && KeyWithin(old(Key()), Key())
        invariant Tracked(disk, Key(), c, pending, expanded) && expanded0 <= expanded
        invariant forall j :: 0 <= j < i ==> Join(search[j], lookup.name) in expanded
        invariant Found(disk, unit, file, lookup, pending0, pending)
      {
        var candidate := Join(search[i], lookup.name);
        assert search[i] in search;
        var tried := TryCandidate(unit, c, file, lookup, candidate, pending0, pending, expanded);
        if tried.Err? {
          return Err(tried.error);
        }
        pending, expanded := tried.value.0, tried.value.1;
      }
      return Ok((pending, expanded));
    }

    /** One candidate: described when it is new, and pending when it exists and was not visited. */
    method TryCandidate(ghost unit: Unit, c: Closure, ghost file: string, ghost lookup: Lookup, candidate: string,
                        ghost pending0: seq<string>, pending: seq<string>, expanded: set<string>)
      returns (r: Result<(seq<string>, set<string>), Refusal>)
      requires Valid() && Tracked(disk, Key(), c, pending, expanded)
      requires SearchedFor(disk, unit, file, lookup, candidate) && Found(disk, unit, file, lookup, pending0, pending)
      modifies `candidates
      ensures Valid() && KeyWithin(old(Key()), Key())
      ensures r.Ok? ==> Tracked(disk, Key(), c, r.value.0, r.value.1) && r.value.1 == expanded + {candidate}
      ensures r.Ok? ==> Found(disk, unit, file, lookup, pending0, r.value.0)
      ensures r.Err? && r.error.Unfit? ==> disk.node(candidate).Special?
    {
      if candidate in expanded {
        assert expanded + {candidate} == expanded;
        return Ok((pending, expanded));
      }
      var present := Describe(candidate);
      if present.Err? {
        return Err(present.error);
      }
      return Ok((if present.value && candidate !in c.files then pending + [candidate] else pending, expanded + {candidate}));
    }

    /** Searches for every header name that an operand denotes. */
    method SearchAll(unit: Unit, c: Closure, file: string, ghost operand: string, resolved: seq<Lookup>,
                     pending0: seq<string>, expanded0: set<string>)
      returns (r: Result<(seq<string>, set<string>), Refusal>)
      requires Valid() && Tracked(disk, Key(), c, pending0, expanded0)
      requires forall l :: l in resolved ==> Denotes(c.macros, operand, l)
      modifies `candidates
      ensures Valid() && KeyWithin(old(Key()), Key())
      ensures r.Ok? ==> Tracked(disk, Key(), c, r.value.0, r.value.1) && expanded0 <= r.value.1
      ensures r.Ok? ==> forall j, path :: 0 <= j < |resolved| && SearchedFor(disk, unit, file, resolved[j], path) ==>
        path in r.value.1
      ensures r.Ok? ==> forall p :: p in r.value.0 ==>
        p in pending0 || (disk.node(p).File? && LookedUp(disk, unit, c.macros, file, operand, p))
      ensures r.Err? && r.error.Unfit? ==> SpecialLookup(disk, unit, c.macros, file, operand)
    {
      var pending, expanded := pending0, expanded0;
      for i := 0 to |resolved|
        invariant Valid() && KeyWithin(old(Key()), Key())
        invariant Tracked(disk, Key(), c, pending, expanded) && expanded0 <= expanded
        invariant forall j, path :: 0 <= j < i && SearchedFor(disk, unit, file, resolved[j], path) ==> path in expanded
        invariant forall p :: p in pending ==>
          p in pending0 || (disk.node(p).File? && LookedUp(disk, unit, c.macros, file, operand, p))
      {
        var searched := SearchCandidates(unit, c, file, resolved[i], pending, expanded);
        if searched.Err? {
          assert resolved[i] in resolved;
          return Err(searched.error);
        }
        assert resolved[i] in resolved;
        pending, expanded := searched.value.0, searched.value.1;
      }
      return Ok((pending, expanded));
    }

    /** Expands one recorded lookup and searches for everything it denotes. */
    method ResolveLookup(unit: Unit, c: Closure, file: string, operand: string, round: Round)
      returns (r: Result<Round, Refusal>)
      requires Valid() && round.Valid() && Tracked(disk, Key(), c, round.pending, round.expanded)
      modifies `candidates
      ensures Valid() && KeyWithin(old(Key()), Key())
      ensures r.Ok? ==> r.value.Valid() && Tracked(disk, Key(), c, r.value.pending, r.value.expanded)
      ensures r.Ok? ==> round.expanded <= r.value.expanded
      ensures r.Ok? ==> Resolved(disk, unit, c.macros, r.value.expanded, file, operand)
      ensures r.Ok? ==> (r.value.complete <==> round.complete && AllDefined(c.macros, operand))
      ensures r.Ok? ==> forall p :: p in r.value.pending ==>
        p in round.pending || (disk.node(p).File? && LookedUp(disk, unit, c.macros, file, operand, p))
      ensures r.Err? && r.error.Unfit? ==>
        !Settled(c.macros, operand, false, {}) || SpecialLookup(disk, unit, c.macros, file, operand)
    {
      var expansion := new Expansion(round.expansions, round.expansionBytes);
      var outcome := expansion.Expand(operand, c.macros, false);
      if !outcome.Done() {
        return Err(if outcome.Refused? then Unfit(outcome.reason) else AtLimit(outcome.limit));
      }
      var resolved := expansion.result;
      assert expansion.result[0..] == resolved;
      var expansions, expansionBytes := expansion.expansions, expansion.expansionBytes;
      var searched := SearchAll(unit, c, file, operand, resolved, round.pending, round.expanded);
      if searched.Err? {
        return Err(searched.error);
      }
      ResolvedHere(disk, unit, c.macros, searched.value.1, file, operand, resolved);
      return Ok(Round(searched.value.0, searched.value.1, round.complete && outcome.Complete?, expansions, expansionBytes));
    }

    /** One round over all lookups with the current macro table. */
    method ResolveAll(unit: Unit, c: Closure, lookups: seq<(string, string)>, round0: Round)
      returns (r: Result<Round, Refusal>)
      requires Valid() && forall j :: 0 <= j < |lookups| ==>
        lookups[j].0 in c.files && Asks(SourceOf(disk, lookups[j].0), lookups[j].1)
      requires round0.Valid() && round0.pending == [] && Tracked(disk, Key(), c, [], round0.expanded)
      requires BelowEveryClosed(disk, unit, c)
      modifies `candidates
      ensures Valid() && KeyWithin(old(Key()), Key())
      ensures r.Ok? ==> r.value.Valid() && Tracked(disk, Key(), c, r.value.pending, r.value.expanded)
      ensures r.Ok? ==> AllResolved(disk, unit, c.macros, r.value.expanded, lookups)
      ensures r.Ok? ==> (r.value.complete <==> AllKnown(c.macros, lookups))
      ensures r.Ok? ==> BelowEveryClosed(disk, unit, Closure(c.files + Elements(r.value.pending), c.macros))
      ensures r.Err? && r.error.Unfit? ==> Hopeless(disk, unit)
    {
      var round := round0.(complete := true);
      for i := 0 to |lookups|
        invariant Valid() && KeyWithin(old(Key()), Key())
        invariant round.Valid() && Tracked(disk, Key(), c, round.pending, round.expanded)
        invariant Progress(disk, unit, c, lookups[..i], round)
      {
        var file, operand := lookups[i].0, lookups[i].1;
        ghost var before := round;
        var next := ResolveLookup(unit, c, file, operand, round);
        if next.Err? {
          if next.error.Unfit? { UnfitLookup(disk, unit, c, file, operand); }
          return Err(next.error);
        }
        round := next.value;
        ProgressStep(disk, unit, c, lookups, i, before, round);
      }
      assert lookups[..|lookups|] == lookups;
      PendingBelow(disk, unit, c, round.pending);
      return Ok(round);
    }

    /** Computes the closure of one unit: drain, resolve every lookup, until nothing is pending. */
    method CloseUnit(unit: Unit, table: Macros) returns (r: Result<Closure, Refusal>)
      requires Valid() && table == CommandTable(unit.defines)
      modifies this
      ensures Valid() && KeyWithin(old(Key()), Key())
      ensures r.Ok? ==> IsLeastClosed(disk, unit, r.value)
      ensures r.Ok? ==> FullyResolved(disk, r.value) && SingleLinked(disk, r.value)
      ensures r.Ok? ==> Covers(disk, unit, Key(), r.value)
      ensures r.Err? && r.error.Unfit? ==> Hopeless(disk, unit)
    {
      var closure := Closure({}, table);
      var lookups: seq<(string, string)> := [];
      var round := Round([unit.file] + unit.forced, {}, true, 0, 0);
      for rounds := 0 to MAX_ROUNDS
        invariant Valid() && KeyWithin(old(Key()), Key())
        invariant round.Valid() && Tracked(disk, Key(), closure, round.pending, round.expanded)
        invariant Scanned(disk, unit, Key(), closure, lookups)
        invariant forall f :: f in [unit.file] + unit.forced ==> f in closure.files + Elements(round.pending)
        invariant BelowEveryClosed(disk, unit, Closure(closure.files + Elements(round.pending), closure.macros))
      {
        var drained := Drain(unit, round.pending, closure, lookups);
        if drained.Err? {
          return Err(drained.error);
        }
        closure, lookups := drained.value.0, drained.value.1;
        var resolved := ResolveAll(unit, closure, lookups, round.(pending := []));
        if resolved.Err? {
          return Err(resolved.error);
        }
        round := resolved.value;
        if round.pending == [] {
          if !round.complete {
            assert closure.files + Elements(round.pending) == closure.files;
            UndefinedRemains(disk, unit, Key(), closure, lookups, round.expanded);
            return Err(Unfit("undefined header macro requires uncached analysis"));
          }
          assert closure.files + Elements(round.pending) == closure.files;
          ClosureReached(disk, unit, Key(), closure, lookups, round.expanded);
          return Ok(closure);
        }
      }
      return Err(AtLimit("header closure round limit exceeded"));
    }

    /** Describes the search roots. */
    method DescribeRoots(roots: seq<string>) returns (r: Result<(), Refusal>)
      requires Valid()
      modifies `candidates
      ensures Valid() && KeyWithin(old(Key()), Key())
      ensures r.Ok? ==> forall p :: p in roots ==> p in candidates
      ensures r.Err? && r.error.Unfit? ==> exists p :: p in roots && disk.node(p).Special?
    {
      for i := 0 to |roots|
        invariant Valid() && KeyWithin(old(Key()), Key())
        invariant forall j :: 0 <= j < i ==> roots[j] in candidates
      {
        assert roots[i] in roots;
        var root := Describe(roots[i]);
        if root.Err? {
          return Err(root.error);
        }
      }
      return Ok(());
    }

    /** Captures the declared inputs. */
    method CaptureInputs(files: seq<string>) returns (r: Result<(), Refusal>)
      requires Valid()
      modifies this
      ensures Valid() && KeyWithin(old(Key()), Key())
      ensures r.Ok? ==> forall p :: p in files ==> p in inputs
      ensures r.Err? && r.error.Unfit? ==> exists p :: p in files && !disk.node(p).File?
    {
      for i := 0 to |files|
        invariant Valid() && KeyWithin(old(Key()), Key())
        invariant forall j :: 0 <= j < i ==> files[j] in inputs
      {
        assert files[i] in files;
        var input := CaptureFile(files[i], false);
        if input.Err? {
          return Err(input.error);
        }
      }
      return Ok(());
    }

    /** The records one unit adds to the key: search roots, declared inputs and the closure. */
    method CaptureUnit(unit: Unit) returns (r: Result<(), Refusal>)
      requires Valid()
      modifies this
      ensures Valid() && KeyWithin(old(Key()), Key())
      ensures r.Ok? ==> Audited(disk, unit, Key()) && Declared(unit, Key())
      ensures r.Err? && r.error.Unfit? ==> Unacceptable(disk, unit)
    {
      var table := BuildCommandTable(unit.defines);
      if table.Err? {
        return Err(table.error);
      }
      var roots := DescribeRoots(unit.roots + unit.quotedRoots);
      if roots.Err? {
        return Err(roots.error);
      }
      var declared := CaptureInputs(unit.inputs);
      if declared.Err? {
        return Err(declared.error);
      }
      DeclaredHere(unit, Key());
      var closure := CloseUnit(unit, table.value);
      if closure.Err? {
        return Err(closure.error);
      }
      assert AuditedBy(disk, unit, Key(), closure.value);
      return Ok(());
    }
  }

  function Elements<T>(s: seq<T>): set<T> {
    set x | x in s
  }

  /**
   The state between drains: all files of the pair are captured and classified,
   the lookups are exactly theirs, and the macros exactly the command line's and theirs.
   */
  ghost predicate Scanned(disk: Disk, unit: Unit, key: Identity, c: Closure, lookups: seq<(string, string)>) {
    && NoEmptyEntry(c.macros)
    && (forall f :: f in c.files ==> disk.node(f).File? && disk.node(f).links <= 1 && f in key.inputs)
    && (forall f, d :: f in c.files && d in SourceOf(disk, f).directives ==> Classified(d))
    && (forall f, op :: (f, op) in lookups <==> f in c.files && Asks(SourceOf(disk, f), op))
    && (forall n, a :: HasAlternative(c.macros, n, a) <==>
          || HasAlternative(CommandTable(unit.defines), n, a)
          || exists f :: f in c.files && Supplies(SourceOf(disk, f), n, a))
  }

  method AppendLookups(file: string, operands: seq<string>, lookups: seq<(string, string)>)
    returns (r: Result<seq<(string, string)>, Refusal>)
    ensures r.Ok? ==> forall f, op :: (f, op) in r.value <==> (f, op) in lookups || (f == file && op in operands)
    ensures r.Ok? ==> |r.value| == |lookups| + |operands| && (operands == [] || |r.value| <= 32768)
    ensures r.Err? ==> r.error.AtLimit? && |lookups| + |operands| > 32768
  {
    var all := lookups;
    for i := 0 to |operands|
      invariant |all| == |lookups| + i && (i == 0 || |all| <= 32768)
      invariant forall f, op :: (f, op) in all <==> (f, op) in lookups || (f == file && op in operands[..i])
    {
      if |all| >= MAX_LOOKUPS {
        return Err(AtLimit("header lookup limit exceeded"));
      }
      all := all + [(file, operands[i])];
      assert operands[..i + 1] == operands[..i] + [operands[i]];
    }
    assert operands[..|operands|] == operands;
    return Ok(all);
  }

  /** Scanning a file that every closed pair contains keeps the macros below every closed pair. */
  lemma DrainStep(disk: Disk, unit: Unit, c: Closure, file: string, wider: Closure, pending: seq<string>)
    requires BelowEveryClosed(disk, unit, Closure(c.files + Elements(pending) + {file}, c.macros))
    requires wider.files == c.files + {file}
    requires forall n, a :: HasAlternative(wider.macros, n, a) <==>
      HasAlternative(c.macros, n, a) || Supplies(SourceOf(disk, file), n, a)
    ensures BelowEveryClosed(disk, unit, Closure(wider.files + Elements(pending), wider.macros))
  {
    forall closed | IsClosed(disk, unit, closed)
      ensures Within(Closure(wider.files + Elements(pending), wider.macros), closed)
    {
      assert Within(Closure(c.files + Elements(pending) + {file}, c.macros), closed);
      assert file in closed.files;
      assert MacrosClosed(disk, closed);
    }
  }

  /** The pending files of one round, the candidates seen so far, and the spent budgets. */
  datatype Round = Round(pending: seq<string>, expanded: set<string>, complete: bool,
                         expansions: nat, expansionBytes: nat) {
    predicate Valid() {
      expansions <= 262144 && expansionBytes <= 0x400_0000
    }
  }

  /** Every candidate seen is in the key; one that exists is in the closure or pending. */
  ghost predicate Tracked(disk: Disk, key: Identity, c: Closure, pending: seq<string>, expanded: set<string>) {
    forall p :: p in expanded ==>
      p in key.candidates && (disk.node(p).File? ==> p in c.files || p in pending)
  }

  /** Only existing candidates of the lookup have become pending. */
  ghost predicate Found(disk: Disk, unit: Unit, file: string, lookup: Lookup, pending0: seq<string>, pending: seq<string>) {
    forall p :: p in pending ==> p in pending0 || (SearchedFor(disk, unit, file, lookup, p) && disk.node(p).File?)
  }

  ghost predicate Resolved(disk: Disk, unit: Unit, macros: Macros, expanded: set<string>, file: string, operand: string) {
    && AllAdmissible(macros, operand, false)
    && Acyclic(macros, operand)
    && (forall path :: LookedUp(disk, unit, macros, file, operand, path) ==> path in expanded)
  }

  ghost predicate AllResolved(disk: Disk, unit: Unit, macros: Macros, expanded: set<string>, lookups: seq<(string, string)>) {
    forall j :: 0 <= j < |lookups| ==> Resolved(disk, unit, macros, expanded, lookups[j].0, lookups[j].1)
  }

  /** An existing file some lookup of the pair asks for. */
  ghost predicate Hit(disk: Disk, unit: Unit, c: Closure, path: string) {
    disk.node(path).File? && exists f :: f in c.files && Searched(disk, unit, c.macros, f, path)
  }

  lemma ResolvedGrows(disk: Disk, unit: Unit, macros: Macros, small: set<string>, large: set<string>,
                      lookups: seq<(string, string)>, file: string, operand: string)
    requires small <= large && AllResolved(disk, unit, macros, small, lookups)
    requires Resolved(disk, unit, macros, large, file, operand)
    ensures AllResolved(disk, unit, macros, large, lookups + [(file, operand)])
  {
    forall j | 0 <= j < |lookups| ensures Resolved(disk, unit, macros, large, lookups[j].0, lookups[j].1) {
      assert Resolved(disk, unit, macros, small, lookups[j].0, lookups[j].1);
    }
  }

  ghost predicate AllKnown(macros: Macros, lookups: seq<(string, string)>) {
    forall j :: 0 <= j < |lookups| ==> AllDefined(macros, lookups[j].1)
  }

  lemma PrefixStep<T>(s: seq<T>, i: nat)
    requires i < |s|
    ensures s[..i + 1] == s[..i] + [s[i]]
  {}

  lemma KnownGrows(macros: Macros, lookups: seq<(string, string)>, file: string, operand: string)
    ensures AllKnown(macros, lookups + [(file, operand)]) <==> AllKnown(macros, lookups) && AllDefined(macros, operand)
  {
    var longer := lookups + [(file, operand)];
    assert longer[|lookups|].1 == operand;
    forall j | 0 <= j < |lookups| ensures longer[j] == lookups[j] {}
    if AllKnown(macros, longer) {
      forall j | 0 <= j < |lookups| ensures AllDefined(macros, lookups[j].1) {
        assert AllDefined(macros, longer[j].1);
      }
      assert AllDefined(macros, longer[|lookups|].1);
    }
  }

  /** What a round has done for the lookups so far. */
  ghost predicate Progress(disk: Disk, unit: Unit, c: Closure, done: seq<(string, string)>, round: Round) {
    && AllResolved(disk, unit, c.macros, round.expanded, done)
    && (round.complete <==> AllKnown(c.macros, done))
    && forall p :: p in round.pending ==> Hit(disk, unit, c, p)
  }

  lemma ProgressStep(disk: Disk, unit: Unit, c: Closure, lookups: seq<(string, string)>, i: nat, before: Round, after: Round)
    requires i < |lookups| && lookups[i].0 in c.files && Asks(SourceOf(disk, lookups[i].0), lookups[i].1)
    requires Progress(disk, unit, c, lookups[..i], before) && before.expanded <= after.expanded
    requires Resolved(disk, unit, c.macros, after.expanded, lookups[i].0, lookups[i].1)
    requires after.complete <==> before.complete && AllDefined(c.macros, lookups[i].1)
    requires forall p :: p in after.pending ==>
      p in before.pending || (disk.node(p).File? && LookedUp(disk, unit, c.macros, lookups[i].0, lookups[i].1, p))
    ensures Progress(disk, unit, c, lookups[..i + 1], after)
  {
    var file, operand := lookups[i].0, lookups[i].1;
    PrefixStep(lookups, i);
    ResolvedGrows(disk, unit, c.macros, before.expanded, after.expanded, lookups[..i], file, operand);
    KnownGrows(c.macros, lookups[..i], file, operand);
    HitsGrow(disk, unit, c, file, operand, before.pending, after.pending);
  }

  lemma HitsGrow(disk: Disk, unit: Unit, c: Closure, file: string, operand: string, before: seq<string>, after: seq<string>)
    requires file in c.files && Asks(SourceOf(disk, file), operand)
    requires forall p :: p in before ==> Hit(disk, unit, c, p)
    requires forall p :: p in after ==>
      p in before || (disk.node(p).File? && LookedUp(disk, unit, c.macros, file, operand, p))
    ensures forall p :: p in after ==> Hit(disk, unit, c, p)
  {
    forall p | p in after ensures Hit(disk, unit, c, p) {
      if p !in before { assert Searched(disk, unit, c.macros, file, p); }
    }
  }

  // --- Refusals ----------------------------------------------------------------------------

  /** No search of the closure meets a device, socket or the like. */
  ghost predicate NoSpecial(disk: Disk, unit: Unit, c: Closure) {
    forall f, path :: f in c.files && Searched(disk, unit, c.macros, f, path) ==> !disk.node(path).Special?
  }

  /** A closure from which a key can be built. */
  ghost predicate Fit(disk: Disk, unit: Unit, c: Closure) {
    FullyResolved(disk, c) && SingleLinked(disk, c) && NoSpecial(disk, unit, c)
  }

  /** The unit's least closed pair, if it has one, is of no use. */
  ghost predicate Hopeless(disk: Disk, unit: Unit) {
    forall c :: IsLeastClosed(disk, unit, c) ==> !Fit(disk, unit, c)
  }

  ghost predicate Undeclarable(disk: Disk, unit: Unit) {
    || (exists p :: p in unit.roots + unit.quotedRoots && disk.node(p).Special?)
    || (exists p :: p in unit.inputs && !disk.node(p).File?)
  }

  /** The unit itself is one no key is built from. */
  ghost predicate Unacceptable(disk: Disk, unit: Unit) {
    || (exists a :: a in unit.defines && Command(a).Rejected?)
    || Undeclarable(disk, unit) || Hopeless(disk, unit)
  }

  ghost predicate SpecialLookup(disk: Disk, unit: Unit, macros: Macros, file: string, operand: string) {
    exists path :: LookedUp(disk, unit, macros, file, operand, path) && disk.node(path).Special?
  }

  /** A file of every closed pair must be usable. */
  lemma UnfitFile(disk: Disk, unit: Unit, below: Closure, file: string)
    requires BelowEveryClosed(disk, unit, below) && file in below.files
    ensures !disk.node(file).File? || disk.node(file).links > 1 ==> Hopeless(disk, unit)
    ensures (exists d :: d in SourceOf(disk, file).directives && !Classified(d)) ==> Hopeless(disk, unit)
  {
    forall c | IsLeastClosed(disk, unit, c) ensures file in c.files {
      assert Within(below, c);
    }
  }

  lemma SettledSmaller(small: Macros, large: Macros, operand: string)
    requires MacrosWithin(small, large) && AllAdmissible(large, operand, false) && Acyclic(large, operand)
    ensures Settled(small, operand, false, {})
  {
    forall text | Reaches(small, operand, text) ensures Reaches(large, operand, text) {
      ReachesMonotone(small, large, operand, text);
    }
    forall text, next | Reaches(small, operand, text) && AliasStep(small, text, next) ensures !Reaches(small, next, text) {
      if Reaches(small, next, text) { ReachesMonotone(small, large, next, text); }
    }
  }

  /** A lookup of every closed pair must be settled, and must not meet a special file. */
  lemma UnfitLookup(disk: Disk, unit: Unit, below: Closure, file: string, operand: string)
    requires BelowEveryClosed(disk, unit, below) && file in below.files && Asks(SourceOf(disk, file), operand)
    requires !Settled(below.macros, operand, false, {}) || SpecialLookup(disk, unit, below.macros, file, operand)
    ensures Hopeless(disk, unit)
  {
    forall c | IsLeastClosed(disk, unit, c) ensures !Fit(disk, unit, c) {
      assert Within(below, c);
      if Fit(disk, unit, c) {
        SettledSmaller(below.macros, c.macros, operand);
        var path :| LookedUp(disk, unit, below.macros, file, operand, path) && disk.node(path).Special?;
        assert Searched(disk, unit, below.macros, file, path);
        SearchedMonotone(disk, unit, below.macros, c.macros, file, path);
        assert false;
      }
    }
  }

  /** A closed pair with a name left undefined is the least one, and not resolved. */
  lemma UndefinedRemains(disk: Disk, unit: Unit, key: Identity, c: Closure, lookups: seq<(string, string)>, expanded: set<string>)
    requires Scanned(disk, unit, key, c, lookups) && Tracked(disk, key, c, [], expanded)
    requires forall f :: f in [unit.file] + unit.forced ==> f in c.files
    requires AllResolved(disk, unit, c.macros, expanded, lookups) && !AllKnown(c.macros, lookups)
    requires BelowEveryClosed(disk, unit, c)
    ensures Hopeless(disk, unit)
  {
    var j :| 0 <= j < |lookups| && !AllDefined(c.macros, lookups[j].1);
    assert (lookups[j].0, lookups[j].1) in lookups;
    ClosedHere(disk, unit, key, c, lookups, expanded);
    forall other | IsLeastClosed(disk, unit, other) ensures !Fit(disk, unit, other) {
      LeastClosedUnique(disk, unit, c, other);
    }
  }

  /** The search over all expanded header names covers everything the operand may look up. */
  lemma ResolvedHere(disk: Disk, unit: Unit, macros: Macros, expanded: set<string>, file: string, operand: string,
                     resolved: seq<Lookup>)
    requires Settled(macros, operand, false, {})
    requires forall l :: l in resolved <==> Denotes(macros, operand, l)
    requires forall j, path :: 0 <= j < |resolved| && SearchedFor(disk, unit, file, resolved[j], path) ==> path in expanded
    ensures Resolved(disk, unit, macros, expanded, file, operand)
  {
    forall path | LookedUp(disk, unit, macros, file, operand, path) ensures path in expanded {
      var l :| Denotes(macros, operand, l) && SearchedFor(disk, unit, file, l, path);
      assert l in resolved;
    }
  }

  lemma SearchedMonotone(disk: Disk, unit: Unit, small: Macros, large: Macros, file: string, path: string)
    requires MacrosWithin(small, large) && Searched(disk, unit, small, file, path)
    ensures Searched(disk, unit, large, file, path)
  {
    var operand :| Asks(SourceOf(disk, file), operand) && LookedUp(disk, unit, small, file, operand, path);
    var lookup :| Denotes(small, operand, lookup) && SearchedFor(disk, unit, file, lookup, path);
    var text :| Reaches(small, operand, text) && LiteralText(text) && ParseLiteral(text) == Some(lookup);
    ReachesMonotone(small, large, operand, text);
    assert Denotes(large, operand, lookup);
    assert LookedUp(disk, unit, large, file, operand, path);
  }

  /** Existing candidates of a pair below every closed pair are in every closed pair. */
  lemma PendingBelow(disk: Disk, unit: Unit, c: Closure, pending: seq<string>)
    requires BelowEveryClosed(disk, unit, c)
    requires forall p :: p in pending ==> Hit(disk, unit, c, p)
    ensures BelowEveryClosed(disk, unit, Closure(c.files + Elements(pending), c.macros))
  {
    forall closed | IsClosed(disk, unit, closed)
      ensures Within(Closure(c.files + Elements(pending), c.macros), closed)
    {
      assert Within(c, closed);
      forall p | p in pending ensures p in closed.files {
        var f :| f in c.files && Searched(disk, unit, c.macros, f, p);
        SearchedMonotone(disk, unit, c.macros, closed.macros, f, p);
      }
    }
  }

  /** Nothing pending: the pair is closed and the key covers it. */
  lemma ClosedHere(disk: Disk, unit: Unit, key: Identity, c: Closure, lookups: seq<(string, string)>, expanded: set<string>)
    requires Scanned(disk, unit, key, c, lookups) && Tracked(disk, key, c, [], expanded)
    requires forall f :: f in [unit.file] + unit.forced ==> f in c.files
    requires AllResolved(disk, unit, c.macros, expanded, lookups)
    ensures IsClosed(disk, unit, c) && Covers(disk, unit, key, c)
  {
    forall f, path | f in c.files && Searched(disk, unit, c.macros, f, path) ensures path in expanded {
      var operand :| Asks(SourceOf(disk, f), operand) && LookedUp(disk, unit, c.macros, f, operand, path);
      var j :| 0 <= j < |lookups| && lookups[j] == (f, operand);
      assert Resolved(disk, unit, c.macros, expanded, f, operand);
    }
    assert unit.file in [unit.file] + unit.forced;
  }

  /** And after a complete round it is resolved. */
  lemma ClosureReached(disk: Disk, unit: Unit, key: Identity, c: Closure, lookups: seq<(string, string)>, expanded: set<string>)
    requires Scanned(disk, unit, key, c, lookups) && Tracked(disk, key, c, [], expanded)
    requires forall f :: f in [unit.file] + unit.forced ==> f in c.files
    requires AllResolved(disk, unit, c.macros, expanded, lookups)
    requires AllKnown(c.macros, lookups)
    ensures IsClosed(disk, unit, c) && FullyResolved(disk, c) && SingleLinked(disk, c) && Covers(disk, unit, key, c)
  {
    ClosedHere(disk, unit, key, c, lookups, expanded);
    forall f, op | f in c.files && Asks(SourceOf(disk, f), op)
      ensures AllAdmissible(c.macros, op, false) && Acyclic(c.macros, op) && AllDefined(c.macros, op)
    {
      assert (f, op) in lookups;
      var j :| 0 <= j < |lookups| && lookups[j] == (f, op);
      assert Resolved(disk, unit, c.macros, expanded, f, op);
    }
  }

  lemma CommandTableStep(commands: seq<MacroArgument>, i: nat)
    requires i < |commands|
    ensures CommandTable(commands[..i + 1]) == ApplyCommand(CommandTable(commands[..i]), Command(commands[i]))
    ensures CommandsFine(commands[..i + 1]) <==>
      CommandsFine(commands[..i]) && CommandFine(CommandTable(commands[..i + 1]), Command(commands[i]))
  {
    var longer := commands[..i + 1];
    assert longer[..i] == commands[..i];
  }

  predicate CommandFine(table: Macros, command: CommandMacro) {
    !command.Rejected? && (command.Defines? ==> |table| <= 4096)
  }

  /** No argument is refused, and no definition makes the table too large. */
  predicate CommandsFine(commands: seq<MacroArgument>) {
    commands == [] ||
      (CommandsFine(commands[..|commands| - 1]) && CommandFine(CommandTable(commands), Command(commands[|commands| - 1])))
  }

  lemma {:induction false} CommandsFinePrefix(commands: seq<MacroArgument>, i: nat)
    requires i <= |commands| && CommandsFine(commands)
    ensures CommandsFine(commands[..i])
    decreases |commands|
  {
    if i < |commands| {
      var shorter := commands[..|commands| - 1];
      assert CommandsFine(shorter);
      CommandsFinePrefix(shorter, i);
      assert shorter[..i] == commands[..i];
    } else {
      assert commands[..i] == commands;
    }
  }

  lemma {:induction false} CommandRefused(commands: seq<MacroArgument>, i: nat)
    requires i < |commands| && !CommandFine(CommandTable(commands[..i + 1]), Command(commands[i]))
    ensures !CommandsFine(commands)
  {
    CommandTableStep(commands, i);
    if CommandsFine(commands) { CommandsFinePrefix(commands, i + 1); }
  }

  /** Definitions replace earlier ones and undefinitions erase them, in command-line order. */
  method BuildCommandTable(commands: seq<MacroArgument>) returns (r: Result<Macros, Refusal>)
    ensures r.Ok? ==> r.value == CommandTable(commands)
    ensures r.Ok? <==> CommandsFine(commands)
    ensures r.Err? && r.error.Unfit? ==> exists a :: a in commands && Command(a).Rejected?
  {
    var table: Macros := map[];
    assert commands[..0] == [];
    for i := 0 to |commands|
      invariant table == CommandTable(commands[..i]) && CommandsFine(commands[..i])
    {
      var command := Command(commands[i]);
      CommandTableStep(commands, i);
      table := ApplyCommand(table, command);
      if command.Rejected? {
        assert commands[i] in commands;
        CommandRefused(commands, i);
        return Err(Unfit("unsupported compiler macro"));
      }
      if command.Defines? && |table| > MAX_HEADER_MACROS {
        CommandRefused(commands, i);
        return Err(AtLimit("header macro definition limit exceeded"));
      }
    }
    assert commands[..|commands|] == commands;
    return Ok(table);
  }

  /** The closure that a key was computed from. */
  ghost predicate AuditedBy(disk: Disk, unit: Unit, key: Identity, c: Closure) {
    IsLeastClosed(disk, unit, c) && FullyResolved(disk, c) && SingleLinked(disk, c) && Covers(disk, unit, key, c)
  }

  /** A key good for one unit: it covers that unit's fully resolved least closure. */
  ghost predicate Audited(disk: Disk, unit: Unit, key: Identity) {
    exists c :: AuditedBy(disk, unit, key, c)
  }

  /** The key records the unit's declared inputs and its search roots. */
  ghost predicate Declared(unit: Unit, key: Identity) {
    && (forall p :: p in unit.inputs ==> p in key.inputs)
    && (forall p :: p in unit.roots || p in unit.quotedRoots ==> p in key.candidates)
  }

  lemma DeclaredHere(unit: Unit, key: Identity)
    requires forall p :: p in unit.roots + unit.quotedRoots ==> p in key.candidates
    requires forall p :: p in unit.inputs ==> p in key.inputs
    ensures Declared(unit, key)
  {
    forall p | p in unit.roots || p in unit.quotedRoots ensures p in key.candidates {
      assert p in unit.roots + unit.quotedRoots;
    }
  }

  lemma AuditedGrows(disk: Disk, unit: Unit, small: Identity, large: Identity)
    requires Audited(disk, unit, small) && KeyWithin(small, large)
    ensures Audited(disk, unit, large)
  {
    var c :| AuditedBy(disk, unit, small, c);
    assert AuditedBy(disk, unit, large, c);
  }

  /** The cache key of a compile model: what it recorded is true of the disk and covers every unit. */
  method AuditInputIdentity(disk: Disk, modelPath: string, units: seq<Unit>) returns (r: Result<Identity, Refusal>)
    ensures r.Ok? ==> DescribesDisk(disk, r.value)
    ensures r.Ok? ==> modelPath in r.value.inputs
    ensures r.Ok? ==> forall i :: 0 <= i < |units| ==> Audited(disk, units[i], r.value) && Declared(units[i], r.value)
    ensures r.Err? && r.error.Unfit? ==> !disk.node(modelPath).File? || exists u :: u in units && Unacceptable(disk, u)
  {
    var capture := new Capture(disk);
    var model := capture.CaptureFile(modelPath, false);
    if model.Err? {
      return Err(model.error);
    }
    for i := 0 to |units|
      invariant capture.Valid() && capture.disk == disk && modelPath in capture.inputs
      invariant forall j :: 0 <= j < i ==> Audited(disk, units[j], capture.Key()) && Declared(units[j], capture.Key())
    {
      ghost var before := capture.Key();
      assert units[i] in units;
      var unit := capture.CaptureUnit(units[i]);
      if unit.Err? {
        return Err(unit.error);
      }
      forall j | 0 <= j < i ensures Audited(disk, units[j], capture.Key()) && Declared(units[j], capture.Key()) {
        AuditedGrows(disk, units[j], before, capture.Key());
      }
    }
    return Ok(Identity(capture.inputs, capture.candidates));
  }
}
