/** Every run of the preprocessor over a unit, against the header closure. */
module PreprocessorRuns {

  // A run follows C++17 sections 19.2 and 19.3 with all decisions left open: a
  // `Control` looks at everything the run has seen so far and decides which
  // directives are live, whether a found file is entered again, and in which order
  // the unit's search directories are tried. The directories themselves, physical
  // paths and file identities come from the disk of the run. An operand that does not
  // expand to a header name may open any file at all.

  import opened Outcomes
  import opened HeaderText
  import opened HeaderExpansion
  import opened HeaderClosure

  /** One definition per name, as at one point of a run. */
  type LiveMacros = map<string, string>

  /** Everything a run can learn from the disk, and its own decisions. */
  datatype Event =
    | Opened(path: string, physical: string, source: Source)
    | Met(path: string, physical: string, same: seq<string>) // found, with the opened paths of the same file
    | Asked(path: string, present: bool)
    | Decided(live: bool)

  datatype Control = Control(
    entry: seq<string>,
    live: seq<Event> -> bool,
    enter: seq<Event> -> bool,
    order: (seq<Event>, string, bool) -> seq<nat>, // positions in the search list
    wild: seq<Event> -> string)

  datatype Frame = Frame(file: string, rest: seq<Directive>)

  datatype Machine = Machine(stack: seq<Frame>, live: LiveMacros, history: seq<Event>, halted: bool)

  datatype Expanded = Header(lookup: Lookup) | Opaque | Stuck

  // --- The run -----------------------------------------------------------------

  /** Expansion of an operand with the live definitions; a name is not expanded twice. */
  function LiveExpand(live: LiveMacros, text: string, used: set<string>): Expanded
    decreases live.Keys - used
  {
    if LiteralText(text) then
      if ParseLiteral(text).Some? then Header(ParseLiteral(text).value) else Opaque
    else if !Identifier(text) then Opaque
    else if text in used || text !in live then Stuck
    else LiveExpand(live, live[text], used + {text})
  }

  /** Tries the directories in order up to the first existing file. */
  function SearchFirst(disk: Disk, dirs: seq<string>, name: string): (seq<Event>, Option<string>) {
    if dirs == [] then ([], None)
    else
      var path := Join(dirs[0], name);
      if disk.node(path).File? then ([Asked(path, true)], Some(path))
      else
        var (events, found) := SearchFirst(disk, dirs[1..], name);
        ([Asked(path, false)] + events, found)
  }

  /** The directories at these positions. */
  function Chosen(dirs: seq<string>, order: seq<nat>): (r: seq<string>)
    ensures forall dir :: dir in r ==> dir in dirs
  {
    if order == [] then []
    else (if order[0] < |dirs| then [dirs[order[0]]] else []) + Chosen(dirs, order[1..])
  }

  /** The directories a run tries for one lookup on this disk. */
  function Tried(disk: Disk, unit: Unit, control: Control, history: seq<Event>, file: string, quoted: bool): seq<string> {
    Chosen(SearchDirs(disk, unit, file, quoted), control.order(history, file, quoted))
  }

  function Find(disk: Disk, unit: Unit, control: Control, m: Machine, file: string, operand: string): (seq<Event>, Option<string>) {
    match LiveExpand(m.live, Trim(operand), {})
    case Header(l) => SearchFirst(disk, Tried(disk, unit, control, m.history, file, l.quoted), l.name)
    case Opaque => Wild(disk, control, m)
    case Stuck => ([], None)
  }

  function Wild(disk: Disk, control: Control, m: Machine): (seq<Event>, Option<string>) {
    var path := control.wild(m.history);
    ([Asked(path, disk.node(path).File?)], if disk.node(path).File? then Some(path) else None)
  }

  /** The opened paths that name the same file as `path`, as `#pragma once` compares them. */
  function SameFiles(disk: Disk, path: string, seen: seq<Event>): seq<string> {
    if seen == [] then []
    else
      (if seen[0].Opened? && disk.id(seen[0].path) == disk.id(path) then [seen[0].path] else [])
      + SameFiles(disk, path, seen[1..])
  }

  function Open(disk: Disk, control: Control, m: Machine, found: (seq<Event>, Option<string>)): Machine {
    var seen := m.history + found.0;
    if found.1.None? then m.(history := seen, halted := true)
    else
      var path := found.1.value;
      var met := seen + [Met(path, disk.physical(path), SameFiles(disk, path, seen))];
      if !control.enter(met) then m.(history := met)
      else
        var source := SourceOf(disk, path);
        m.(stack := [Frame(path, source.directives)] + m.stack,
           history := met + [Opened(path, disk.physical(path), source)])
  }

  function Execute(disk: Disk, unit: Unit, control: Control, m: Machine, file: string, d: Directive): Machine {
    match d
    case Include(operand) => Open(disk, control, m, Find(disk, unit, control, m, file, operand))
    case Probe(operand) =>
      if LiveExpand(m.live, Trim(operand), {}).Stuck? then m.(halted := true)
      else m.(history := m.history + Find(disk, unit, control, m, file, operand).0)
    case Define(name, tail) => m.(live := m.live[name := Replacement(tail)])
    case Undef(name) => m.(live := m.live - {Trim(name)})
    case Neutral => m
    case Unclassified => Open(disk, control, m, Wild(disk, control, m))
  }

  predicate Running(m: Machine) {
    !m.halted && m.stack != [] && m.stack[0].rest != []
  }

  /** The machine after the decision on its next directive. */
  function Decide(control: Control, m: Machine): Machine
    requires Running(m)
  {
    m.(stack := [Frame(m.stack[0].file, m.stack[0].rest[1..])] + m.stack[1..],
       history := m.history + [Decided(control.live(m.history))])
  }

  function Step(disk: Disk, unit: Unit, control: Control, m: Machine): Machine {
    if m.halted || m.stack == [] then m
    else if m.stack[0].rest == [] then m.(stack := m.stack[1..])
    else if control.live(m.history) then
      Execute(disk, unit, control, Decide(control, m), m.stack[0].file, m.stack[0].rest[0])
    else Decide(control, m)
  }

  /** The definitions in force when the first file is entered. */
  function LiveCommands(builtins: LiveMacros, commands: seq<MacroArgument>): LiveMacros {
    if commands == [] then builtins
    else
      var before := LiveCommands(builtins, commands[..|commands| - 1]);
      match Command(commands[|commands| - 1])
      case Defines(name, tail) => before[name := Replacement(tail)]
      case Undefines(name) => before - {name}
      case Rejected => before
  }

  function EntryFrames(disk: Disk, entry: seq<string>): seq<Frame> {
    if entry == [] then []
    else [Frame(entry[0], SourceOf(disk, entry[0]).directives)] + EntryFrames(disk, entry[1..])
  }

  function EntryEvents(disk: Disk, entry: seq<string>): seq<Event> {
    if entry == [] then []
    else [Opened(entry[0], disk.physical(entry[0]), SourceOf(disk, entry[0]))] + EntryEvents(disk, entry[1..])
  }

  function Start(disk: Disk, unit: Unit, control: Control, builtins: LiveMacros): Machine {
    Machine(EntryFrames(disk, control.entry), LiveCommands(builtins, unit.defines),
            EntryEvents(disk, control.entry), false)
  }

  function Run(disk: Disk, unit: Unit, control: Control, builtins: LiveMacros, steps: nat): Machine {
    if steps == 0 then Start(disk, unit, control, builtins)
    else Step(disk, unit, control, Run(disk, unit, control, builtins, steps - 1))
  }

  /** A control enters the unit by its own files. */
  predicate Fits(unit: Unit, control: Control) {
    forall f :: f in control.entry ==> f == unit.file || f in unit.forced
  }

  // --- Runs stay inside the closure ------------------------------------------------

  /** A live definition was collected, or is still the one the run started with. */
  ghost predicate LiveWithin(live: LiveMacros, macros: Macros, start: LiveMacros) {
    forall n :: n in live ==> HasAlternative(macros, n, live[n]) || (n in start && live[n] == start[n])
  }

  ghost predicate EventInside(disk: Disk, unit: Unit, c: Closure, e: Event) {
    match e
    case Opened(path, physical, source) =>
      path in c.files && physical == disk.physical(path) && source == SourceOf(disk, path)
    case Met(path, physical, same) =>
      path in c.files && physical == disk.physical(path) && forall p :: p in same ==> p in c.files
    case Asked(path, present) =>
      (exists f :: f in c.files && Searched(disk, unit, c.macros, f, path)) && present == disk.node(path).File?
    case Decided(_) => true
  }

  ghost predicate FrameInside(disk: Disk, c: Closure, frame: Frame) {
    frame.file in c.files && forall d :: d in frame.rest ==> d in SourceOf(disk, frame.file).directives
  }

  ghost predicate HistoryInside(disk: Disk, unit: Unit, c: Closure, history: seq<Event>) {
    forall e :: e in history ==> EventInside(disk, unit, c, e)
  }

  /** Open files, live definitions and everything seen come from the closure. */
  ghost predicate Inside(disk: Disk, unit: Unit, c: Closure, start: LiveMacros, m: Machine) {
    && (forall frame :: frame in m.stack ==> FrameInside(disk, c, frame))
    && LiveWithin(m.live, c.macros, start)
    && HistoryInside(disk, unit, c, m.history)
  }

  /** The starting text of a name is one of its alternatives, or a header name these alternatives denote. */
  ghost predicate Meant(macros: Macros, name: string, text: string) {
    || HasAlternative(macros, name, text)
    || (LiteralText(text) && ParseLiteral(text).Some? && Denotes(macros, name, ParseLiteral(text).value))
  }

  /** Wherever a lookup reaches a name the run starts with, the closure accounts for its text. */
  ghost predicate Harmless(disk: Disk, c: Closure, start: LiveMacros) {
    forall f, op, n ::
      (f in c.files && Asks(SourceOf(disk, f), op) && Reaches(c.macros, op, n) && !LiteralText(n) && n in start) ==>
        Meant(c.macros, n, start[n])
  }

  /** The closure holds for this disk and accounts for the names the run starts with. */
  ghost predicate Sound(disk: Disk, unit: Unit, c: Closure, start: LiveMacros) {
    IsClosed(disk, unit, c) && FullyResolved(disk, c) && Harmless(disk, c, start)
  }

  /** An expansion is stuck, or yields a header name the alternatives denote. */
  ghost predicate Understood(macros: Macros, operand: string, x: Expanded) {
    match x
    case Header(l) => Denotes(macros, operand, l)
    case Opaque => false
    case Stuck => true
  }

  lemma {:induction false} LiveMeaning(live: LiveMacros, macros: Macros, start: LiveMacros, operand: string, text: string, used: set<string>)
    requires LiveWithin(live, macros, start)
    requires AllAdmissible(macros, operand, false)
    requires forall n :: Reaches(macros, operand, n) && !LiteralText(n) && n in start ==> Meant(macros, n, start[n])
    requires Reaches(macros, operand, text)
    ensures Understood(macros, operand, LiveExpand(live, text, used))
    decreases live.Keys - used
  {
    assert Admissible(text, text != operand);
    if !LiteralText(text) && text !in used && text in live {
      if HasAlternative(macros, text, live[text]) {
        ReachesExtends(macros, operand, text, live[text]);
        LiveMeaning(live, macros, start, operand, live[text], used + {text});
      } else {
        assert Meant(macros, text, start[text]);
        DenotesThrough(macros, operand, text, ParseLiteral(live[text]).value);
      }
    }
  }

  lemma DenotesThrough(macros: Macros, operand: string, name: string, lookup: Lookup)
    requires Reaches(macros, operand, name) && Denotes(macros, name, lookup)
    ensures Denotes(macros, operand, lookup)
  {
    var text :| Reaches(macros, name, text) && LiteralText(text) && ParseLiteral(text) == Some(lookup);
    ReachesTransitive(macros, operand, name, text);
  }

  lemma ReachesTransitive(macros: Macros, from: string, mid: string, to: string)
    requires Reaches(macros, from, mid) && Reaches(macros, mid, to)
    ensures Reaches(macros, from, to)
  {
    var first :| ChainBetween(macros, from, mid, first);
    var second :| ChainBetween(macros, mid, to, second);
    var both := first + second[1..];
    forall i | 0 < i < |both| ensures AliasStep(macros, both[i - 1], both[i]) {
      if i >= |first| {
        assert both[i] == second[i - |first| + 1] && both[i - 1] == second[i - |first|];
      }
    }
    assert ChainBetween(macros, from, to, both);
  }

  lemma {:induction false} SearchFirstInside(disk: Disk, unit: Unit, c: Closure, file: string, dirs: seq<string>, lookup: Lookup)
    requires file in c.files && FilesClosed(disk, unit, c)
    requires forall dir :: dir in dirs ==> Searched(disk, unit, c.macros, file, Join(dir, lookup.name))
    ensures HistoryInside(disk, unit, c, SearchFirst(disk, dirs, lookup.name).0)
    ensures SearchFirst(disk, dirs, lookup.name).1.Some? ==> SearchFirst(disk, dirs, lookup.name).1.value in c.files
  {
    if dirs != [] {
      assert dirs[0] in dirs;
      assert EventInside(disk, unit, c, Asked(Join(dirs[0], lookup.name), disk.node(Join(dirs[0], lookup.name)).File?));
      SearchFirstInside(disk, unit, c, file, dirs[1..], lookup);
    }
  }

  lemma SearchedHere(disk: Disk, unit: Unit, c: Closure, file: string, operand: string, lookup: Lookup)
    requires Asks(SourceOf(disk, file), operand) && Denotes(c.macros, operand, lookup)
    ensures forall dir :: dir in SearchDirs(disk, unit, file, lookup.quoted) ==>
      Searched(disk, unit, c.macros, file, Join(dir, lookup.name))
  {
    forall dir | dir in SearchDirs(disk, unit, file, lookup.quoted)
      ensures Searched(disk, unit, c.macros, file, Join(dir, lookup.name))
    {
      assert SearchedFor(disk, unit, file, lookup, Join(dir, lookup.name));
      assert LookedUp(disk, unit, c.macros, file, operand, Join(dir, lookup.name));
    }
  }

  /** A lookup in a closure file is understood, whatever definitions the run has made so far. */
  lemma {:induction false} LookupUnderstood(disk: Disk, unit: Unit, c: Closure, start: LiveMacros, live: LiveMacros, file: string, operand: string)
    requires Sound(disk, unit, c, start) && LiveWithin(live, c.macros, start)
    requires file in c.files && Asks(SourceOf(disk, file), operand)
    ensures Understood(c.macros, operand, LiveExpand(live, operand, {}))
  {
    ReachesSelf(c.macros, operand);
    LiveMeaning(live, c.macros, start, operand, operand, {});
  }

  lemma {:induction false} FindInside(disk: Disk, unit: Unit, c: Closure, control: Control, start: LiveMacros, m: Machine,
                   file: string, operand: string)
    requires Sound(disk, unit, c, start)
    requires LiveWithin(m.live, c.macros, start) && file in c.files && Asks(SourceOf(disk, file), Trim(operand))
    ensures HistoryInside(disk, unit, c, Find(disk, unit, control, m, file, operand).0)
    ensures Find(disk, unit, control, m, file, operand).1.Some? ==>
      Find(disk, unit, control, m, file, operand).1.value in c.files
  {
    LookupUnderstood(disk, unit, c, start, m.live, file, Trim(operand));
    match LiveExpand(m.live, Trim(operand), {})
    case Header(l) =>
      SearchedHere(disk, unit, c, file, Trim(operand), l);
      SearchFirstInside(disk, unit, c, file, Tried(disk, unit, control, m.history, file, l.quoted), l);
    case _ =>
  }

  lemma {:induction false} SameFilesInside(disk: Disk, unit: Unit, c: Closure, path: string, seen: seq<Event>)
    requires HistoryInside(disk, unit, c, seen)
    ensures forall p :: p in SameFiles(disk, path, seen) ==> p in c.files
  {
    if seen != [] {
      assert EventInside(disk, unit, c, seen[0]);
      SameFilesInside(disk, unit, c, path, seen[1..]);
    }
  }

  lemma OpenInside(disk: Disk, unit: Unit, c: Closure, control: Control, start: LiveMacros, m: Machine,
                   found: (seq<Event>, Option<string>))
    requires Inside(disk, unit, c, start, m) && HistoryInside(disk, unit, c, found.0)
    requires found.1.Some? ==> found.1.value in c.files
    ensures Inside(disk, unit, c, start, Open(disk, control, m, found))
  {
    if found.1.Some? {
      SameFilesInside(disk, unit, c, found.1.value, m.history + found.0);
    }
  }

  lemma ExecuteInside(disk: Disk, unit: Unit, c: Closure, control: Control, start: LiveMacros, m: Machine,
                      file: string, d: Directive)
    requires Sound(disk, unit, c, start) && Inside(disk, unit, c, start, m)
    requires file in c.files && d in SourceOf(disk, file).directives
    ensures Inside(disk, unit, c, start, Execute(disk, unit, control, m, file, d))
  {
    assert Classified(d);
    match d
    case Include(operand) =>
      assert Operand(d) == Some(Trim(operand));
      FindInside(disk, unit, c, control, start, m, file, operand);
      OpenInside(disk, unit, c, control, start, m, Find(disk, unit, control, m, file, operand));
    case Probe(operand) =>
      assert Operand(d) == Some(Trim(operand));
      FindInside(disk, unit, c, control, start, m, file, operand);
    case Define(name, tail) =>
      assert Alternative(d) == Some((name, Replacement(tail)));
      assert Supplies(SourceOf(disk, file), name, Replacement(tail));
    case Undef(name) =>
    case Neutral =>
  }

  lemma StepInside(disk: Disk, unit: Unit, c: Closure, control: Control, start: LiveMacros, m: Machine)
    requires Sound(disk, unit, c, start) && Inside(disk, unit, c, start, m)
    ensures Inside(disk, unit, c, start, Step(disk, unit, control, m))
  {
    if Running(m) {
      var top, next := m.stack[0], Decide(control, m);
      assert FrameInside(disk, c, top) && top.rest[0] in top.rest;
      assert FrameInside(disk, c, Frame(top.file, top.rest[1..]));
      assert Inside(disk, unit, c, start, next);
      if control.live(m.history) { ExecuteInside(disk, unit, c, control, start, next, top.file, top.rest[0]); }
    }
  }

  lemma {:induction false} EntryInside(disk: Disk, unit: Unit, c: Closure, entry: seq<string>)
    requires forall f :: f in entry ==> f in c.files
    ensures forall frame :: frame in EntryFrames(disk, entry) ==> FrameInside(disk, c, frame)
    ensures HistoryInside(disk, unit, c, EntryEvents(disk, entry))
  {
    if entry != [] { EntryInside(disk, unit, c, entry[1..]); }
  }

  /**
   The closure over-approximates every run: whatever the control decides, after any
   number of steps every opened file is in the closure, every path asked for is one
   its lookups search, and every live definition is collected or the one it started with.
   */
  lemma {:induction false} RunStaysInside(disk: Disk, unit: Unit, c: Closure, control: Control, builtins: LiveMacros, steps: nat)
    requires Sound(disk, unit, c, LiveCommands(builtins, unit.defines)) && Fits(unit, control)
    ensures Inside(disk, unit, c, LiveCommands(builtins, unit.defines), Run(disk, unit, control, builtins, steps))
  {
    if steps == 0 {
      EntryInside(disk, unit, c, control.entry);
    } else {
      RunStaysInside(disk, unit, c, control, builtins, steps - 1);
      StepInside(disk, unit, c, control, LiveCommands(builtins, unit.defines), Run(disk, unit, control, builtins, steps - 1));
    }
  }

  // --- Equal keys, equal runs --------------------------------------------------------

  /** The two disks agree on everything the key recorded about the closure. */
  ghost predicate SameView(a: Disk, b: Disk, unit: Unit, c: Closure) {
    && (forall f :: f in c.files ==> SourceOf(a, f) == SourceOf(b, f) && a.physical(f) == b.physical(f))
    && (forall f, path :: f in c.files && Searched(a, unit, c.macros, f, path) ==>
          (a.node(path).File? <==> b.node(path).File?))
  }

  /** They also agree on which files of the closure are the same file. */
  ghost predicate SameIdentities(a: Disk, b: Disk, c: Closure) {
    forall f, g :: f in c.files && g in c.files ==> (a.id(f) == a.id(g) <==> b.id(f) == b.id(g))
  }

  ghost predicate AgreeOn(a: Disk, b: Disk, unit: Unit, c: Closure) {
    SameView(a, b, unit, c) && SameIdentities(a, b, c)
  }

  lemma {:induction false} SearchFirstAgrees(a: Disk, b: Disk, unit: Unit, c: Closure, file: string, dirs: seq<string>, name: string)
    requires SameView(a, b, unit, c) && file in c.files
    requires forall dir :: dir in dirs ==> Searched(a, unit, c.macros, file, Join(dir, name))
    ensures SearchFirst(a, dirs, name) == SearchFirst(b, dirs, name)
  {
    if dirs != [] {
      assert dirs[0] in dirs;
      SearchFirstAgrees(a, b, unit, c, file, dirs[1..], name);
    }
  }

  lemma {:induction false} FindAgrees(a: Disk, b: Disk, unit: Unit, c: Closure, control: Control, start: LiveMacros, m: Machine,
                   file: string, operand: string)
    requires Sound(a, unit, c, start) && SameView(a, b, unit, c)
    requires LiveWithin(m.live, c.macros, start) && file in c.files && Asks(SourceOf(a, file), Trim(operand))
    ensures Find(a, unit, control, m, file, operand) == Find(b, unit, control, m, file, operand)
  {
    LookupUnderstood(a, unit, c, start, m.live, file, Trim(operand));
    match LiveExpand(m.live, Trim(operand), {})
    case Header(l) =>
      SearchedHere(a, unit, c, file, Trim(operand), l);
      assert SearchDirs(a, unit, file, l.quoted) == SearchDirs(b, unit, file, l.quoted);
      SearchFirstAgrees(a, b, unit, c, file, Tried(a, unit, control, m.history, file, l.quoted), l.name);
    case _ =>
  }

  lemma {:induction false} SameFilesAgree(a: Disk, b: Disk, unit: Unit, c: Closure, path: string, seen: seq<Event>)
    requires SameIdentities(a, b, c) && path in c.files && HistoryInside(a, unit, c, seen)
    ensures SameFiles(a, path, seen) == SameFiles(b, path, seen)
  {
    if seen != [] {
      assert EventInside(a, unit, c, seen[0]);
      SameFilesAgree(a, b, unit, c, path, seen[1..]);
    }
  }

  lemma OpenAgrees(a: Disk, b: Disk, unit: Unit, c: Closure, control: Control, m: Machine, found: (seq<Event>, Option<string>))
    requires AgreeOn(a, b, unit, c) && HistoryInside(a, unit, c, m.history + found.0)
    requires found.1.Some? ==> found.1.value in c.files
    ensures Open(a, control, m, found) == Open(b, control, m, found)
  {
    if found.1.Some? { SameFilesAgree(a, b, unit, c, found.1.value, m.history + found.0); }
  }

  lemma StepAgrees(a: Disk, b: Disk, unit: Unit, c: Closure, control: Control, start: LiveMacros, m: Machine)
    requires Sound(a, unit, c, start) && AgreeOn(a, b, unit, c) && Inside(a, unit, c, start, m)
    ensures Step(a, unit, control, m) == Step(b, unit, control, m)
  {
    if Running(m) {
      var top, next := m.stack[0], Decide(control, m);
      assert FrameInside(a, c, top) && top.rest[0] in top.rest;
      var d := top.rest[0];
      assert Classified(d);
      if d.Include? || d.Probe? {
        assert Operand(d) == Some(Trim(d.operand));
        FindInside(a, unit, c, control, start, next, top.file, d.operand);
        FindAgrees(a, b, unit, c, control, start, next, top.file, d.operand);
        OpenAgrees(a, b, unit, c, control, next, Find(a, unit, control, next, top.file, d.operand));
      }
    }
  }

  lemma {:induction false} StartAgrees(a: Disk, b: Disk, entry: seq<string>)
    requires forall f :: f in entry ==> SourceOf(a, f) == SourceOf(b, f) && a.physical(f) == b.physical(f)
    ensures EntryFrames(a, entry) == EntryFrames(b, entry) && EntryEvents(a, entry) == EntryEvents(b, entry)
  {
    if entry != [] { StartAgrees(a, b, entry[1..]); }
  }

  lemma {:induction false} FirstAgrees(a: Disk, b: Disk, unit: Unit, c: Closure, control: Control, builtins: LiveMacros)
    requires IsClosed(a, unit, c) && Fits(unit, control) && SameView(a, b, unit, c)
    ensures Run(a, unit, control, builtins, 0) == Run(b, unit, control, builtins, 0)
  {
    StartAgrees(a, b, control.entry);
  }

  /** Disks that agree on the closure have the same runs, each with its own directories and files. */
  lemma {:induction false} RunsAgree(a: Disk, b: Disk, unit: Unit, c: Closure, control: Control, builtins: LiveMacros, steps: nat)
    requires Sound(a, unit, c, LiveCommands(builtins, unit.defines)) && Fits(unit, control) && AgreeOn(a, b, unit, c)
    ensures Run(a, unit, control, builtins, steps) == Run(b, unit, control, builtins, steps)
  {
    if steps == 0 {
      FirstAgrees(a, b, unit, c, control, builtins);
    } else {
      RunsAgree(a, b, unit, c, control, builtins, steps - 1);
      NextAgrees(a, b, unit, c, control, builtins, steps - 1);
    }
  }

  lemma NextAgrees(a: Disk, b: Disk, unit: Unit, c: Closure, control: Control, builtins: LiveMacros, steps: nat)
    requires Sound(a, unit, c, LiveCommands(builtins, unit.defines)) && Fits(unit, control) && AgreeOn(a, b, unit, c)
    requires Run(a, unit, control, builtins, steps) == Run(b, unit, control, builtins, steps)
    ensures Run(a, unit, control, builtins, steps + 1) == Run(b, unit, control, builtins, steps + 1)
  {
    RunStaysInside(a, unit, c, control, builtins, steps);
    StepAgrees(a, b, unit, c, control, LiveCommands(builtins, unit.defines), Run(a, unit, control, builtins, steps));
  }

  lemma KeyGivesView(a: Disk, b: Disk, unit: Unit, key: Identity, c: Closure)
    requires DescribesDisk(a, key) && DescribesDisk(b, key) && Covers(a, unit, key, c)
    ensures SameView(a, b, unit, c) && forall f :: f in c.files ==> b.node(f).File?
  {
    forall f | f in c.files ensures SourceOf(a, f) == SourceOf(b, f) && a.physical(f) == b.physical(f) {
      assert key.inputs[f] == InputRecord(b.physical(f), b.node(f).source);
    }
    forall f, path | f in c.files && Searched(a, unit, c.macros, f, path)
      ensures a.node(path).File? <==> b.node(path).File?
    {
      assert key.candidates[path] == StateOf(a, path) && key.candidates[path] == StateOf(b, path);
    }
  }

  /** Files with one name each are the same file exactly when their physical paths are equal. */
  lemma ViewGivesIdentities(a: Disk, b: Disk, unit: Unit, c: Closure)
    requires SameView(a, b, unit, c) && Coherent(a) && Coherent(b) && SingleLinked(a, c) && SingleLinked(b, c)
    ensures SameIdentities(a, b, c)
  {}

  // The closure of the first disk is the closure of the second one.

  lemma SearchedSame(a: Disk, b: Disk, unit: Unit, c: Closure, macros: Macros, f: string, path: string)
    requires SameView(a, b, unit, c) && f in c.files
    ensures Searched(a, unit, macros, f, path) <==> Searched(b, unit, macros, f, path)
  {
    assert forall q :: SearchDirs(a, unit, f, q) == SearchDirs(b, unit, f, q);
    forall operand ensures LookedUp(a, unit, macros, f, operand, path) <==> LookedUp(b, unit, macros, f, operand, path) {
      forall l ensures SearchedFor(a, unit, f, l, path) <==> SearchedFor(b, unit, f, l, path) {}
    }
  }

  function Common(small: Macros, large: Macros): Macros {
    map n | n in small && n in large :: small[n] * large[n]
  }

  /** What a closed pair of the second disk shares with the first disk's closure is closed on the first disk. */
  lemma CommonClosed(a: Disk, b: Disk, unit: Unit, c: Closure, other: Closure)
    requires SameView(a, b, unit, c) && IsClosed(a, unit, c) && IsClosed(b, unit, other)
    ensures IsClosed(a, unit, Closure(c.files * other.files, Common(c.macros, other.macros)))
  {
    var common := Closure(c.files * other.files, Common(c.macros, other.macros));
    assert forall n, t :: HasAlternative(common.macros, n, t) <==>
      HasAlternative(c.macros, n, t) && HasAlternative(other.macros, n, t);
    forall f, path | f in common.files && Searched(a, unit, common.macros, f, path) && a.node(path).File?
      ensures path in common.files
    {
      SearchedMonotone(a, unit, common.macros, c.macros, f, path);
      SearchedMonotone(a, unit, common.macros, other.macros, f, path);
      SearchedSame(a, b, unit, c, other.macros, f, path);
    }
  }

  lemma LeastClosedSame(a: Disk, b: Disk, unit: Unit, c: Closure)
    requires SameView(a, b, unit, c) && IsLeastClosed(a, unit, c)
    ensures IsLeastClosed(b, unit, c)
  {
    forall f, path | f in c.files && Searched(b, unit, c.macros, f, path) && b.node(path).File? ensures path in c.files {
      SearchedSame(a, b, unit, c, c.macros, f, path);
    }
    assert IsClosed(b, unit, c);
    forall other | IsClosed(b, unit, other) ensures Within(c, other) {
      CommonClosed(a, b, unit, c, other);
      assert Within(c, Closure(c.files * other.files, Common(c.macros, other.macros)));
    }
  }

  /** An event names nothing that the key has not recorded as it is. */
  ghost predicate InKey(key: Identity, e: Event) {
    match e
    case Opened(path, physical, source) => path in key.inputs && key.inputs[path] == InputRecord(physical, source)
    case Met(path, physical, _) => path in key.inputs && key.inputs[path].resolved == physical
    case Asked(path, present) => path in key.candidates && (present <==> key.candidates[path].kind == FileKind)
    case Decided(_) => true
  }

  /**
   Cache-key soundness. Two successful computations that return the same key, one on each disk,
   fix every run of the unit: under every control the run takes the same course on both disks,
   each with its own search directories, physical paths and file identities, and sees nothing
   that the key has not recorded.
   */
  lemma {:induction false} CacheKeySound(a: Disk, b: Disk, unit: Unit, key: Identity, c: Closure, control: Control, builtins: LiveMacros, steps: nat)
    requires Coherent(a) && DescribesDisk(a, key) && AuditedBy(a, unit, key, c)
    requires Coherent(b) && DescribesDisk(b, key) && Audited(b, unit, key)
    requires Harmless(a, c, LiveCommands(builtins, unit.defines)) && Fits(unit, control)
    ensures Run(a, unit, control, builtins, steps) == Run(b, unit, control, builtins, steps)
    ensures forall e :: e in Run(b, unit, control, builtins, steps).history ==> InKey(key, e)
  {
    KeyGivesView(a, b, unit, key, c);
    LeastClosedSame(a, b, unit, c);
    var other :| AuditedBy(b, unit, key, other);
    LeastClosedUnique(b, unit, c, other);
    ViewGivesIdentities(a, b, unit, c);
    RunsAgree(a, b, unit, c, control, builtins, steps);
    RunStaysInside(a, unit, c, control, builtins, steps);
    forall e | e in Run(a, unit, control, builtins, steps).history ensures InKey(key, e) {
      assert EventInside(a, unit, c, e);
      if e.Asked? { assert key.candidates[e.path] == StateOf(a, e.path); }
    }
  }

  // --- Predefined names ----------------------------------------------------------------

  /** The lookup this machine makes next, if it makes one, is one the closure understands. */
  ghost predicate NextUnderstood(c: Closure, control: Control, m: Machine) {
    Running(m) && control.live(m.history) && Operand(m.stack[0].rest[0]).Some? ==>
      var operand := Operand(m.stack[0].rest[0]).value;
      Understood(c.macros, operand, LiveExpand(m.live, operand, {}))
  }

  /** No run ever looks up anything that the closure has not considered. */
  ghost predicate RunsUnderstood(disk: Disk, unit: Unit, c: Closure, builtins: LiveMacros) {
    forall control, steps | Fits(unit, control) :: NextUnderstood(c, control, Run(disk, unit, control, builtins, steps))
  }

  lemma {:induction false} SoundUnderstands(disk: Disk, unit: Unit, c: Closure, builtins: LiveMacros)
    requires Sound(disk, unit, c, LiveCommands(builtins, unit.defines))
    ensures RunsUnderstood(disk, unit, c, builtins)
  {
    var start := LiveCommands(builtins, unit.defines);
    forall control, steps | Fits(unit, control) ensures NextUnderstood(c, control, Run(disk, unit, control, builtins, steps)) {
      var m := Run(disk, unit, control, builtins, steps);
      RunStaysInside(disk, unit, c, control, builtins, steps);
      if Running(m) && Operand(m.stack[0].rest[0]).Some? {
        assert FrameInside(disk, c, m.stack[0]) && m.stack[0].rest[0] in m.stack[0].rest;
        LookupUnderstood(disk, unit, c, start, m.live, m.stack[0].file, Operand(m.stack[0].rest[0]).value);
      }
    }
  }

  predicate IsEntry(unit: Unit, file: string) {
    file == unit.file || file in unit.forced
  }

  /** Enters `file`, skips the directives before the i-th, and tries the k-th search directory only. */
  function Reaching(file: string, i: nat, k: nat): Control {
    Control([file], h => |h| == 1 + i, h => true, (h, f, q) => [k], h => "")
  }

  lemma {:induction false} SkippedRun(disk: Disk, unit: Unit, builtins: LiveMacros, file: string, i: nat, k: nat, steps: nat)
    requires steps <= i <= |SourceOf(disk, file).directives|
    ensures var m := Run(disk, unit, Reaching(file, i, k), builtins, steps);
      && m.stack == [Frame(file, SourceOf(disk, file).directives[steps..])] && !m.halted
      && m.live == LiveCommands(builtins, unit.defines) && |m.history| == 1 + steps
  {
    var directives := SourceOf(disk, file).directives;
    if steps == 0 {
      var none: seq<string> := [];
      assert [file][1..] == none && EntryFrames(disk, none) == [] && EntryEvents(disk, none) == [];
    } else {
      SkippedRun(disk, unit, builtins, file, i, k, steps - 1);
      assert directives[steps - 1..][1..] == directives[steps..];
    }
  }

  /** Every header name that a starting text of an own operand spells can be opened, from any search directory. */
  lemma {:induction false} StartLookupOpens(disk: Disk, unit: Unit, builtins: LiveMacros, file: string, i: nat, lookup: Lookup, k: nat)
    requires IsEntry(unit, file) && i < |SourceOf(disk, file).directives| && SourceOf(disk, file).directives[i].Include?
    requires LiveExpand(LiveCommands(builtins, unit.defines), Trim(SourceOf(disk, file).directives[i].operand), {}) == Header(lookup)
    requires k < |SearchDirs(disk, unit, file, lookup.quoted)|
    requires disk.node(Join(SearchDirs(disk, unit, file, lookup.quoted)[k], lookup.name)).File?
    ensures Fits(unit, Reaching(file, i, k))
    ensures var path := Join(SearchDirs(disk, unit, file, lookup.quoted)[k], lookup.name);
      Opened(path, disk.physical(path), SourceOf(disk, path)) in Run(disk, unit, Reaching(file, i, k), builtins, i + 1).history
  {
    var control := Reaching(file, i, k);
    SkippedRun(disk, unit, builtins, file, i, k, i);
    var m := Run(disk, unit, control, builtins, i);
    var d := SourceOf(disk, file).directives[i];
    var dirs := SearchDirs(disk, unit, file, lookup.quoted);
    var path := Join(dirs[k], lookup.name);
    assert m.stack[0].rest[0] == d && control.live(m.history);
    var next := Decide(control, m);
    assert Chosen(dirs, [k]) == [dirs[k]];
    assert SearchFirst(disk, [dirs[k]], lookup.name) == ([Asked(path, true)], Some(path));
    assert Find(disk, unit, control, next, file, d.operand) == ([Asked(path, true)], Some(path));
    var after := Open(disk, control, next, ([Asked(path, true)], Some(path)));
    assert after == Run(disk, unit, control, builtins, i + 1);
    assert after.history[|after.history| - 1] == Opened(path, disk.physical(path), SourceOf(disk, path));
  }

  /** When every run is understood, so is each own operand under the definitions the run starts with. */
  lemma {:induction false} OwnOperandUnderstood(disk: Disk, unit: Unit, c: Closure, builtins: LiveMacros, file: string, operand: string)
    requires RunsUnderstood(disk, unit, c, builtins)
    requires IsEntry(unit, file) && Asks(SourceOf(disk, file), operand)
    ensures Understood(c.macros, operand, LiveExpand(LiveCommands(builtins, unit.defines), operand, {}))
  {
    var directives := SourceOf(disk, file).directives;
    var d :| d in directives && Operand(d) == Some(operand);
    var i :| 0 <= i < |directives| && directives[i] == d;
    SkippedRun(disk, unit, builtins, file, i, 0, i);
    assert directives[i..][0] == d;
    assert NextUnderstood(c, Reaching(file, i, 0), Run(disk, unit, Reaching(file, i, 0), builtins, i));
  }

  /** The name is itself an operand of the unit's own files, and starts as a header name. */
  ghost predicate AskedOutright(disk: Disk, unit: Unit, start: LiveMacros, name: string) {
    name in start && LiteralText(start[name]) && exists f :: IsEntry(unit, f) && Asks(SourceOf(disk, f), name)
  }

  /**
   The condition on starting names is exact where redefined names are looked up outright: then no
   run looks up anything unconsidered if and only if the closure accounts for the starting texts.
   */
  lemma {:induction false} PredefinedIff(disk: Disk, unit: Unit, c: Closure, builtins: LiveMacros)
    requires IsClosed(disk, unit, c) && FullyResolved(disk, c)
    requires forall f, op, n | f in c.files && Asks(SourceOf(disk, f), op) && Reaches(c.macros, op, n)
                               && !LiteralText(n) && n in LiveCommands(builtins, unit.defines) ::
      || HasAlternative(c.macros, n, LiveCommands(builtins, unit.defines)[n])
      || AskedOutright(disk, unit, LiveCommands(builtins, unit.defines), n)
    ensures RunsUnderstood(disk, unit, c, builtins) <==> Harmless(disk, c, LiveCommands(builtins, unit.defines))
  {
    var start := LiveCommands(builtins, unit.defines);
    if Harmless(disk, c, start) {
      SoundUnderstands(disk, unit, c, builtins);
    }
    if RunsUnderstood(disk, unit, c, builtins) {
      forall f, op, n | f in c.files && Asks(SourceOf(disk, f), op) && Reaches(c.macros, op, n)
                        && !LiteralText(n) && n in start
        ensures Meant(c.macros, n, start[n])
      {
        assert AllAdmissible(c.macros, op, false);
        if !HasAlternative(c.macros, n, start[n]) {
          var g :| IsEntry(unit, g) && Asks(SourceOf(disk, g), n);
          OwnOperandUnderstood(disk, unit, c, builtins, g, n);
          assert LiveExpand(start, n, {}) == LiveExpand(start, start[n], {} + {n});
        }
      }
    }
  }

  const REDEFINING_MAIN: Source := Source([Define("B", "\"x\""), Include("B")], 0)
  const REDEFINING_UNIT: Unit := Unit("/m", ["/"], [], [], [], [])

  function RedefiningDisk(): Disk {
    Disk(p => if p == "/m" then File(REDEFINING_MAIN, 1) else if p == "/y" then File(Source([], 0), 1) else Missing,
         p => p, p => if p == "/m" then 0 else 1)
  }

  /**
   The condition is needed: here the unit redefines the predefined name `B` in a branch that is not
   taken. The least closure, single-linked and fully resolved, only knows the redefinition; a run
   opens the header that the predefined text names, which the closure does not contain.
   */
  lemma RedefinedBuiltinEscapes()
    ensures exists c, builtins: LiveMacros, control, steps ::
      && Coherent(RedefiningDisk()) && IsLeastClosed(RedefiningDisk(), REDEFINING_UNIT, c)
      && FullyResolved(RedefiningDisk(), c) && SingleLinked(RedefiningDisk(), c) && Fits(REDEFINING_UNIT, control)
      && "/y" !in c.files
      && Opened("/y", "/y", Source([], 0)) in Run(RedefiningDisk(), REDEFINING_UNIT, control, builtins, steps).history
  {
    var c := RedefiningClosure();
    RedefiningClosed();
    RedefiningLeast();
    RedefiningRun();
    assert "/y" !in c.files;
  }

  function RedefiningClosure(): Closure {
    Closure({"/m"}, map["B" := {"\"x\""}])
  }

  lemma RedefiningDirectives()
    ensures SourceOf(RedefiningDisk(), "/m").directives == [Define("B", "\"x\""), Include("B")]
    ensures forall op :: Asks(SourceOf(RedefiningDisk(), "/m"), op) ==> op == "B"
    ensures forall n, a :: Supplies(SourceOf(RedefiningDisk(), "/m"), n, a) <==> n == "B" && a == "\"x\""
  {
    assert Replacement("\"x\"") == "\"x\"";
    var directives := [Define("B", "\"x\""), Include("B")];
    assert SourceOf(RedefiningDisk(), "/m").directives == directives;
    assert directives[0] in directives && Alternative(directives[0]) == Some(("B", "\"x\""));
  }

  lemma RedefiningSearches(path: string)
    requires Searched(RedefiningDisk(), REDEFINING_UNIT, RedefiningClosure().macros, "/m", path)
    ensures path == "/x"
  {
    var disk, unit, macros := RedefiningDisk(), REDEFINING_UNIT, RedefiningClosure().macros;
    RedefiningDirectives();
    RedefinedMeaning(macros);
    var operand :| Asks(SourceOf(disk, "/m"), operand) && LookedUp(disk, unit, macros, "/m", operand, path);
    var l :| Denotes(macros, operand, l) && SearchedFor(disk, unit, "/m", l, path);
    assert Parent("/m") == Parent("/") == "/";
    assert SearchDirs(disk, unit, "/m", true) == ["/", "/", "/"];
    assert Join("/", "x") == "/x";
  }

  lemma RedefiningClosed()
    ensures IsClosed(RedefiningDisk(), REDEFINING_UNIT, RedefiningClosure())
    ensures FullyResolved(RedefiningDisk(), RedefiningClosure())
  {
    var disk, unit, c := RedefiningDisk(), REDEFINING_UNIT, RedefiningClosure();
    RedefiningDirectives();
    RedefinedMeaning(c.macros);
    assert CommandTable(unit.defines) == map[];
    forall f, path | f in c.files && Searched(disk, unit, c.macros, f, path) ensures path == "/x" {
      RedefiningSearches(path);
    }
  }

  lemma RedefiningLeast()
    ensures BelowEveryClosed(RedefiningDisk(), REDEFINING_UNIT, RedefiningClosure())
    ensures Coherent(RedefiningDisk())
  {
    RedefiningDirectives();
    forall other | IsClosed(RedefiningDisk(), REDEFINING_UNIT, other) ensures Within(RedefiningClosure(), other) {
      assert Supplies(SourceOf(RedefiningDisk(), "/m"), "B", "\"x\"");
    }
  }

  lemma RedefiningRun()
    ensures Fits(REDEFINING_UNIT, Reaching("/m", 1, 0))
    ensures Opened("/y", "/y", Source([], 0)) in
      Run(RedefiningDisk(), REDEFINING_UNIT, Reaching("/m", 1, 0), map["B" := "\"y\""], 2).history
  {
    var disk, unit, builtins: LiveMacros := RedefiningDisk(), REDEFINING_UNIT, map["B" := "\"y\""];
    RedefiningDirectives();
    QuotedText("y");
    assert "\"" + "y" + "\"" == "\"y\"";
    assert LiveExpand(builtins, "\"y\"", {} + {"B"}) == Header(Lookup("y", true));
    assert LiveExpand(builtins, "B", {}) == Header(Lookup("y", true));
    assert SearchDirs(disk, unit, "/m", true)[0] == "/" && Join("/", "y") == "/y";
    StartLookupOpens(disk, unit, builtins, "/m", 1, Lookup("y", true), 0);
  }

  lemma QuotedText(name: string)
    requires |name| == 1 && name[0] != '"' && name[0] != '/' && name[0] != '.'
    ensures ParseLiteral("\"" + name + "\"") == Some(Lookup(name, true)) && PlainName(name)
  {
    var text := "\"" + name + "\"";
    assert Trim(text) == text;
    assert text[1..|text| - 1] == name;
    assert name[1..] == "";
    assert Components(name) == [[name[0]] + ""];
    assert Components(name)[0][0] != '.';
  }

  lemma RedefinedMeaning(macros: Macros)
    requires macros == map["B" := {"\"x\""}]
    ensures forall l :: Denotes(macros, "B", l) <==> l == Lookup("x", true)
    ensures AllAdmissible(macros, "B", false) && Acyclic(macros, "B") && AllDefined(macros, "B")
  {
    var text := "\"x\"";
    QuotedText("x");
    assert "\"" + "x" + "\"" == text;
    LeafReaches(macros, text);
    assert AliasStep(macros, "B", text);
    ReachesSelf(macros, "B");
    ReachesThroughStep(macros, "B", text, text);
    forall t | Reaches(macros, "B", t) ensures t == "B" || t == text {
      if t != "B" { ReachesCases(macros, "B", t); }
    }
  }
}
