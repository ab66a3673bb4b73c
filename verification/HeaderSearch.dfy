/** The places in which a header name is searched, by the components of their paths. */
module HeaderSearch {
  import opened Outcomes
  import opened HeaderText
  import opened HeaderExpansion
  import opened HeaderClosure
  import opened PreprocessorRuns
  import opened PathParts

  // --- The places of a lookup ------------------------------------------------------------

  /** Where `f` searches for a header: the roots, and for a quoted form also beside `f`, as named and as it is. */
  ghost predicate SearchPlace(disk: Disk, unit: Unit, f: string, quoted: bool, d: string) {
    || d in unit.roots
    || (quoted && (d in unit.quotedRoots || ParentOf(d, f) || ParentOf(d, disk.physical(f))))
  }

  lemma PlacesAreSearched(disk: Disk, unit: Unit, f: string, n: string, quoted: bool, path: string)
    requires !AbsolutePath(n)
    ensures SearchedFor(disk, unit, f, Lookup(n, quoted), path) <==>
      exists d :: SearchPlace(disk, unit, f, quoted, d) && NameUnder(path, d, n)
  {
    forall d ensures d in SearchDirs(disk, unit, f, quoted) <==> SearchPlace(disk, unit, f, quoted, d) {
      ParentIsParent(d, f);
      ParentIsParent(d, disk.physical(f));
    }
    forall d ensures NameUnder(path, d, n) <==> path == Join(d, n) {
      UnderIsJoin(path, d, n);
    }
  }

  /** The text of an include of `n`. */
  function Spelled(n: string, quoted: bool): string {
    if quoted then "\"" + n + "\"" else "<" + n + ">"
  }

  lemma SpelledMeans(macros: Macros, n: string, quoted: bool)
    requires (if quoted then '"' else '>') !in n
    ensures Denotes(macros, Spelled(n, quoted), Lookup(n, quoted))
  {
    var text := Spelled(n, quoted);
    assert Trim(text) == text;
    assert text[1..|text| - 1] == n;
    ReachesSelf(macros, text);
    assert ParseLiteral(text) == Some(Lookup(n, quoted));
  }

  /**
   Every path that an include of a covered closure may mean is in the key, and in the closure when
   it exists.
   */
  lemma PlacesCovered(disk: Disk, unit: Unit, key: Identity, c: Closure, f: string, n: string, quoted: bool, d: string, path: string)
    requires IsClosed(disk, unit, c) && Covers(disk, unit, key, c) && f in c.files
    requires Asks(SourceOf(disk, f), Spelled(n, quoted)) && (if quoted then '"' else '>') !in n && !AbsolutePath(n)
    requires SearchPlace(disk, unit, f, quoted, d) && NameUnder(path, d, n)
    ensures path in key.candidates && (disk.node(path).File? ==> path in c.files)
  {
    SpelledMeans(c.macros, n, quoted);
    DenotedCovered(disk, unit, key, c, f, Spelled(n, quoted), n, quoted, d, path);
  }

  /** The same for any operand, through the alternatives of its macros. */
  lemma DenotedCovered(disk: Disk, unit: Unit, key: Identity, c: Closure, f: string, operand: string, n: string, quoted: bool,
                       d: string, path: string)
    requires IsClosed(disk, unit, c) && Covers(disk, unit, key, c) && f in c.files
    requires Asks(SourceOf(disk, f), operand) && Denotes(c.macros, operand, Lookup(n, quoted)) && !AbsolutePath(n)
    requires SearchPlace(disk, unit, f, quoted, d) && NameUnder(path, d, n)
    ensures path in key.candidates && (disk.node(path).File? ==> path in c.files)
  {
    PlacesAreSearched(disk, unit, f, n, quoted, path);
    assert LookedUp(disk, unit, c.macros, f, operand, path);
    assert Searched(disk, unit, c.macros, f, path);
  }

  /** `f` asks for the header `n`, of which `path` is a candidate. */
  ghost predicate ReachedFrom(disk: Disk, unit: Unit, c: Closure, path: string, f: string, l: Lookup, d: string) {
    && f in c.files && (exists operand :: Asks(SourceOf(disk, f), operand) && Denotes(c.macros, operand, l))
    && SearchPlace(disk, unit, f, l.quoted, d) && NameUnder(path, d, l.name)
  }

  /** Some file of the closure asks for a header of which `path` is a candidate. */
  ghost predicate Reached(disk: Disk, unit: Unit, c: Closure, path: string) {
    exists f, l, d :: ReachedFrom(disk, unit, c, path, f, l, d)
  }

  lemma SearchedIsReached(disk: Disk, unit: Unit, c: Closure, f: string, path: string)
    requires FullyResolved(disk, c) && f in c.files && Searched(disk, unit, c.macros, f, path)
    ensures Reached(disk, unit, c, path)
  {
    var operand :| Asks(SourceOf(disk, f), operand) && LookedUp(disk, unit, c.macros, f, operand, path);
    assert AllAdmissible(c.macros, operand, false);
    var l, d := LookedUpPlace(disk, unit, c.macros, f, operand, path);
    assert ReachedFrom(disk, unit, c, path, f, l, d);
  }

  lemma LookedUpPlace(disk: Disk, unit: Unit, macros: Macros, f: string, operand: string, path: string) returns (l: Lookup, d: string)
    requires AllAdmissible(macros, operand, false) && LookedUp(disk, unit, macros, f, operand, path)
    ensures Denotes(macros, operand, l) && SearchPlace(disk, unit, f, l.quoted, d) && NameUnder(path, d, l.name)
  {
    l :| Denotes(macros, operand, l) && SearchedFor(disk, unit, f, l, path);
    DenotedPlain(macros, operand, l);
    d := PlaceOf(disk, unit, f, l, path);
  }

  lemma DenotedPlain(macros: Macros, operand: string, l: Lookup)
    requires AllAdmissible(macros, operand, false) && Denotes(macros, operand, l)
    ensures !AbsolutePath(l.name)
  {
    var text :| Reaches(macros, operand, text) && LiteralText(text) && ParseLiteral(text) == Some(l);
    assert Admissible(text, text != operand);
  }

  lemma PlaceOf(disk: Disk, unit: Unit, f: string, l: Lookup, path: string) returns (d: string)
    requires !AbsolutePath(l.name) && SearchedFor(disk, unit, f, l, path)
    ensures SearchPlace(disk, unit, f, l.quoted, d) && NameUnder(path, d, l.name)
  {
    PlacesAreSearched(disk, unit, f, l.name, l.quoted, path);
    assert l == Lookup(l.name, l.quoted);
    d :| SearchPlace(disk, unit, f, l.quoted, d) && NameUnder(path, d, l.name);
  }

  /** The closure holds nothing else: every other file than the unit's own is such a candidate. */
  lemma OnlyReached(disk: Disk, unit: Unit, c: Closure, path: string)
    requires IsLeastClosed(disk, unit, c) && FullyResolved(disk, c)
    requires path in c.files && path != unit.file && path !in unit.forced
    ensures Reached(disk, unit, c, path)
  {
    var smaller := Closure(c.files - {path}, c.macros);
    assert !IsClosed(disk, unit, smaller) by {
      assert !Within(c, smaller);
    }
    var f :| f in c.files && Searched(disk, unit, c.macros, f, path);
    SearchedIsReached(disk, unit, c, f, path);
  }

  // --- The same of runs --------------------------------------------------------------------

  /** A run asks for no other path. */
  lemma {:induction false} RunAsksReached(disk: Disk, unit: Unit, c: Closure, control: Control, builtins: LiveMacros, steps: nat, path: string, present: bool)
    requires Sound(disk, unit, c, LiveCommands(builtins, unit.defines)) && Fits(unit, control)
    requires Asked(path, present) in Run(disk, unit, control, builtins, steps).history
    ensures Reached(disk, unit, c, path) && present == disk.node(path).File?
  {
    RunStaysInside(disk, unit, c, control, builtins, steps);
    assert EventInside(disk, unit, c, Asked(path, present));
    var f :| f in c.files && Searched(disk, unit, c.macros, f, path);
    SearchedIsReached(disk, unit, c, f, path);
  }

  /** And every path beside or under a root is asked for by some run. */
  lemma EveryPlaceAsked(disk: Disk, unit: Unit, builtins: LiveMacros, f: string, i: nat, n: string, quoted: bool, d: string, path: string)
    requires IsEntry(unit, f) && i < |SourceOf(disk, f).directives| && SourceOf(disk, f).directives[i] == Include(Spelled(n, quoted))
    requires (if quoted then '"' else '>') !in n && !AbsolutePath(n)
    requires SearchPlace(disk, unit, f, quoted, d) && NameUnder(path, d, n)
    ensures exists control, steps ::
      Fits(unit, control) && Asked(path, disk.node(path).File?) in Run(disk, unit, control, builtins, steps).history
  {
    PlacesAreSearched(disk, unit, f, n, quoted, path);
    var dirs := SearchDirs(disk, unit, f, quoted);
    var dir :| dir in dirs && path == Join(dir, n);
    var k :| 0 <= k < |dirs| && dirs[k] == dir;
    PositionAsked(disk, unit, builtins, f, i, n, quoted, k);
  }

  lemma PositionAsked(disk: Disk, unit: Unit, builtins: LiveMacros, f: string, i: nat, n: string, quoted: bool, k: nat)
    requires IsEntry(unit, f) && i < |SourceOf(disk, f).directives| && SourceOf(disk, f).directives[i] == Include(Spelled(n, quoted))
    requires (if quoted then '"' else '>') !in n && k < |SearchDirs(disk, unit, f, quoted)|
    ensures Fits(unit, Reaching(f, i, k))
    ensures var path := Join(SearchDirs(disk, unit, f, quoted)[k], n);
      Asked(path, disk.node(path).File?) in Run(disk, unit, Reaching(f, i, k), builtins, i + 1).history
  {
    var control := Reaching(f, i, k);
    SkippedRun(disk, unit, builtins, f, i, k, i);
    var m := Run(disk, unit, control, builtins, i);
    AsksHere(disk, unit, control, f, n, quoted, k, m);
    assert Step(disk, unit, control, m) == Run(disk, unit, control, builtins, i + 1);
  }

  lemma {:induction false} AsksOne(disk: Disk, dir: string, n: string)
    ensures SearchFirst(disk, [dir], n).0 == [Asked(Join(dir, n), disk.node(Join(dir, n)).File?)]
  {
    assert [dir][1..] == [];
  }

  lemma OpenKeeps(disk: Disk, control: Control, m: Machine, found: (seq<Event>, Option<string>), e: Event)
    requires e in found.0
    ensures e in Open(disk, control, m, found).history
  {}

  lemma {:induction false} SpelledExpands(live: LiveMacros, n: string, quoted: bool)
    requires (if quoted then '"' else '>') !in n
    ensures LiveExpand(live, Trim(Spelled(n, quoted)), {}) == Header(Lookup(n, quoted))
  {
    var text := Spelled(n, quoted);
    assert Trim(text) == text && text[1..|text| - 1] == n;
  }

  lemma AsksHere(disk: Disk, unit: Unit, control: Control, f: string, n: string, quoted: bool, k: nat, m: Machine)
    requires (if quoted then '"' else '>') !in n && k < |SearchDirs(disk, unit, f, quoted)|
    requires Running(m) && m.stack[0].file == f && m.stack[0].rest[0] == Include(Spelled(n, quoted))
    requires control.live(m.history) && forall h, g, q :: control.order(h, g, q) == [k]
    ensures var path := Join(SearchDirs(disk, unit, f, quoted)[k], n);
      Asked(path, disk.node(path).File?) in Step(disk, unit, control, m).history
  {
    var dirs, next, none: seq<nat> := SearchDirs(disk, unit, f, quoted), Decide(control, m), [];
    SpelledExpands(next.live, n, quoted);
    AsksOne(disk, dirs[k], n);
    assert [k][1..] == none;
    assert Chosen(dirs, [k]) == [dirs[k]];
    var found := Find(disk, unit, control, next, f, Spelled(n, quoted));
    OpenKeeps(disk, control, next, found, Asked(Join(dirs[k], n), disk.node(Join(dirs[k], n)).File?));
  }

  /** Asked directory by directory, as far as the first file that exists. */
  ghost predicate InOrder(disk: Disk, dirs: seq<string>, n: string, events: seq<Event>, found: Option<string>) {
    && |events| <= |dirs|
    && (forall k :: 0 <= k < |events| ==> AskedHere(disk, dirs[k], n, events[k], k == |events| - 1 && found.Some?))
    && (found.None? ==> |events| == |dirs|)
    && (found.Some? ==> events != [] && found == Some(Join(dirs[|events| - 1], n)))
  }

  predicate AskedHere(disk: Disk, dir: string, n: string, e: Event, present: bool) {
    e == Asked(Join(dir, n), present) && present == disk.node(Join(dir, n)).File?
  }

  lemma OneFurther(disk: Disk, dirs: seq<string>, n: string, more: seq<Event>, found: Option<string>)
    requires dirs != [] && !disk.node(Join(dirs[0], n)).File? && InOrder(disk, dirs[1..], n, more, found)
    ensures InOrder(disk, dirs, n, [Asked(Join(dirs[0], n), false)] + more, found)
  {
    var events := [Asked(Join(dirs[0], n), false)] + more;
    forall k | 0 <= k < |events| ensures AskedHere(disk, dirs[k], n, events[k], k == |events| - 1 && found.Some?) {
      if k > 0 { assert events[k] == more[k - 1] && dirs[k] == dirs[1..][k - 1]; }
    }
  }

  lemma {:induction false} SearchInOrder(disk: Disk, dirs: seq<string>, n: string)
    ensures InOrder(disk, dirs, n, SearchFirst(disk, dirs, n).0, SearchFirst(disk, dirs, n).1)
  {
    if dirs != [] && !disk.node(Join(dirs[0], n)).File? {
      SearchInOrder(disk, dirs[1..], n);
      var (more, found) := SearchFirst(disk, dirs[1..], n);
      OneFurther(disk, dirs, n, more, found);
    }
  }

  /** A file met again is compared with exactly the files opened before. */
  lemma {:induction false} SameFilesAre(disk: Disk, path: string, seen: seq<Event>, p: string)
    ensures p in SameFiles(disk, path, seen) <==> exists e :: e in seen && e.Opened? && e.path == p && disk.id(p) == disk.id(path)
  {
    if seen != [] {
      SameFilesAre(disk, path, seen[1..], p);
      assert seen == [seen[0]] + seen[1..];
    }
  }

  /** Nothing a run has seen is forgotten, and a live lookup adds what its search asks. */
  lemma HistoryGrows(disk: Disk, unit: Unit, control: Control, builtins: LiveMacros, steps: nat)
    ensures var m, next := Run(disk, unit, control, builtins, steps), Run(disk, unit, control, builtins, steps + 1);
      && m.history <= next.history
      && (Running(m) && control.live(m.history) && Operand(m.stack[0].rest[0]).Some? && !next.halted ==>
            m.history + [Decided(true)]
              + Find(disk, unit, control, Decide(control, m), m.stack[0].file, LookedUpText(m.stack[0].rest[0])).0 <= next.history)
  {
    var m := Run(disk, unit, control, builtins, steps);
    assert Run(disk, unit, control, builtins, steps + 1) == Step(disk, unit, control, m);
    StepGrows(disk, unit, control, m);
  }

  function LookedUpText(d: Directive): string {
    match d
    case Include(operand) => operand
    case Probe(operand) => operand
    case _ => ""
  }

  lemma StepGrows(disk: Disk, unit: Unit, control: Control, m: Machine)
    ensures var next := Step(disk, unit, control, m);
      && m.history <= next.history
      && (Running(m) && control.live(m.history) && Operand(m.stack[0].rest[0]).Some? && !next.halted ==>
            m.history + [Decided(true)]
              + Find(disk, unit, control, Decide(control, m), m.stack[0].file, LookedUpText(m.stack[0].rest[0])).0 <= next.history)
  {
    if Running(m) && control.live(m.history) {
      var d := m.stack[0].rest[0];
      var decided := Decide(control, m);
      assert decided.history == m.history + [Decided(true)];
      if Operand(d).Some? {
        var found := Find(disk, unit, control, decided, m.stack[0].file, LookedUpText(d));
        OpenGrows(disk, control, decided, found);
      } else if d.Unclassified? {
        OpenGrows(disk, control, decided, Wild(disk, control, decided));
      }
    }
  }

  lemma OpenGrows(disk: Disk, control: Control, m: Machine, found: (seq<Event>, Option<string>))
    ensures m.history + found.0 <= Open(disk, control, m, found).history
  {}
}
