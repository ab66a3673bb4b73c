/** Macro-only scanning: the call sites of preprocessed text that the unexpanded file does not contain. */
module MacroScan {
  import opened Outcomes
  import opened LineMarkers

  datatype Site = Site(file: string, line: int, callee: string, text: string)

  datatype Key = Key(line: int, callee: string)

  function KeyOf(s: Site): Key {
    Key(s.line, s.callee)
  }

  type Extractor = string -> Result<seq<Site>, string>

  /** One compile command's output: its lines, and what the extractor finds in them. */
  datatype Output = Output(lines: seq<Line>, sites: Result<seq<Site>, string>)

  /** How often this key occurs among the sites. */
  function Occurrences(sites: seq<Site>, key: Key): nat {
    if sites == [] then 0
    else Occurrences(sites[..|sites| - 1], key) + (if KeyOf(sites[|sites| - 1]) == key then 1 else 0)
  }

  /** How often this key occurs in this file. */
  function OccurrencesIn(sites: seq<Site>, file: string, key: Key): nat {
    if sites == [] then 0
    else
      var last := sites[|sites| - 1];
      OccurrencesIn(sites[..|sites| - 1], file, key) + (if last.file == file && KeyOf(last) == key then 1 else 0)
  }

  /** A site moved to its original line, unless it has none or is a system header's. */
  function Mapped(m: map<nat, Location>, s: Site): Option<Site> {
    if s.line < 0 || s.line !in m || m[s.line].systemHeader then None
    else Some(s.(file := m[s.line].file, line := m[s.line].line))
  }

  function MappedAll(m: map<nat, Location>, sites: seq<Site>): seq<Site> {
    if sites == [] then []
    else
      var front, last := MappedAll(m, sites[..|sites| - 1]), Mapped(m, sites[|sites| - 1]);
      if last.Some? then front + [last.value] else front
  }

  /** What the unexpanded file contains. */
  function Raw(extract: Extractor, s: Site): nat {
    match extract(s.file)
    case Ok(sites) => Occurrences(sites, KeyOf(s))
    case Err(_) => 0
  }

  /** The sites that remain: those whose key came up at least as often before as the file has it unexpanded. */
  function Remaining(extract: Extractor, sites: seq<Site>): seq<Site> {
    if sites == [] then []
    else
      var front, last := sites[..|sites| - 1], sites[|sites| - 1];
      if OccurrencesIn(front, last.file, KeyOf(last)) >= Raw(extract, last)
      then Remaining(extract, front) + [last] else Remaining(extract, front)
  }

  function Positive(n: int): nat {
    if n < 0 then 0 else n
  }

  /** Per file, line and callee: the expanded count minus the unexpanded one, and never below zero. */
  lemma {:induction false} RemainingCount(extract: Extractor, sites: seq<Site>, s: Site)
    ensures OccurrencesIn(Remaining(extract, sites), s.file, KeyOf(s))
            == Positive(OccurrencesIn(sites, s.file, KeyOf(s)) - Raw(extract, s))
  {
    if sites != [] {
      var front, last := sites[..|sites| - 1], sites[|sites| - 1];
      RemainingCount(extract, front, s);
      OneMore(Remaining(extract, front), last, s.file, KeyOf(s));
    }
  }

  predicate IsAt(s: Site, file: string, line: int, callee: string) {
    s.file == file && s.line == line && s.callee == callee
  }

  /** How many sites are in this line of this file and call this callee. */
  function CountAt(sites: seq<Site>, file: string, line: int, callee: string): nat {
    |set i | 0 <= i < |sites| && IsAt(sites[i], file, line, callee)|
  }

  lemma CountNext(front: seq<Site>, last: Site, file: string, line: int, callee: string)
    ensures CountAt(front + [last], file, line, callee)
      == CountAt(front, file, line, callee) + (if IsAt(last, file, line, callee) then 1 else 0)
  {
    var sites, n := front + [last], |front|;
    var here := set i | 0 <= i < |sites| && IsAt(sites[i], file, line, callee);
    var before := set i | 0 <= i < |front| && IsAt(front[i], file, line, callee);
    assert forall i :: 0 <= i < n ==> sites[i] == front[i];
    assert sites[n] == last;
    assert here == if IsAt(last, file, line, callee) then before + {n} else before;
  }

  lemma {:induction false} CountIs(sites: seq<Site>, file: string, line: int, callee: string)
    ensures OccurrencesIn(sites, file, Key(line, callee)) == CountAt(sites, file, line, callee)
  {
    if sites != [] {
      var n := |sites| - 1;
      CountIs(sites[..n], file, line, callee);
      CountNext(sites[..n], sites[n], file, line, callee);
      assert sites == sites[..n] + [sites[n]];
    }
  }

  /** How many of the file's own sites are in this line and call this callee. */
  function RawAt(extract: Extractor, file: string, line: int, callee: string): nat {
    if extract(file).Err? then 0
    else
      var own := extract(file).value;
      |set i | 0 <= i < |own| && own[i].line == line && own[i].callee == callee|
  }

  lemma {:induction false} OwnCountIs(own: seq<Site>, line: int, callee: string)
    ensures Occurrences(own, Key(line, callee)) == |set i | 0 <= i < |own| && own[i].line == line && own[i].callee == callee|
  {
    var here := set i | 0 <= i < |own| && own[i].line == line && own[i].callee == callee;
    if own == [] {
      assert here == {};
    } else {
      var n := |own| - 1;
      var front := own[..n];
      OwnCountIs(front, line, callee);
      var before := set i | 0 <= i < |front| && front[i].line == line && front[i].callee == callee;
      if own[n].line == line && own[n].callee == callee {
        assert here == before + {n};
      } else {
        assert here == before;
      }
    }
  }

  /** Per file, line and callee, as many sites remain as there are more of them expanded than unexpanded. */
  lemma {:induction false} RemainingAt(extract: Extractor, sites: seq<Site>, file: string, line: int, callee: string)
    ensures CountAt(Remaining(extract, sites), file, line, callee)
      == Positive(CountAt(sites, file, line, callee) - RawAt(extract, file, line, callee))
  {
    var s := Site(file, line, callee, "");
    RemainingCount(extract, sites, s);
    CountIs(sites, file, line, callee);
    CountIs(Remaining(extract, sites), file, line, callee);
    if extract(file).Ok? { OwnCountIs(extract(file).value, line, callee); }
  }

  lemma {:induction false} OneMore(sites: seq<Site>, s: Site, file: string, key: Key)
    ensures OccurrencesIn(sites + [s], file, key)
            == OccurrencesIn(sites, file, key) + (if s.file == file && KeyOf(s) == key then 1 else 0)
  {
    assert (sites + [s])[..|sites|] == sites;
  }

  // --- The scan ---------------------------------------------------------------------------------

  /** The counts of one unexpanded file. */
  method CountSites(sites: seq<Site>) returns (counts: map<Key, nat>)
    ensures forall key :: (if key in counts then counts[key] else 0) == Occurrences(sites, key)
  {
    counts := map[];
    for i := 0 to |sites|
      invariant forall key :: (if key in counts then counts[key] else 0) == Occurrences(sites[..i], key)
    {
      var key := KeyOf(sites[i]);
      assert sites[..i + 1][..i] == sites[..i];
      counts := counts[key := (if key in counts then counts[key] else 0) + 1];
    }
    assert sites[..|sites|] == sites;
  }

  type Counts = map<string, map<Key, nat>>

  function Held(counts: map<Key, nat>, key: Key): nat {
    if key in counts then counts[key] else 0
  }

  function Less(counts: map<Key, nat>, key: Key): map<Key, nat>
    requires Held(counts, key) > 0
  {
    var left: nat := counts[key] - 1;
    counts[key := left]
  }

  /** The counts that are left after the sites processed so far. */
  ghost predicate Left(extract: Extractor, counts: Counts, done: seq<Site>) {
    && (forall s :: s in done ==> s.file in counts)
    && (forall file :: file in counts ==> extract(file).Ok?)
    && (forall file, key :: file in counts ==>
          Held(counts[file], key) == Positive(Occurrences(extract(file).value, key) - OccurrencesIn(done, file, key)))
  }

  lemma {:induction false} NoneIn(sites: seq<Site>, file: string, key: Key)
    requires forall s :: s in sites ==> s.file != file
    ensures OccurrencesIn(sites, file, key) == 0
  {
    if sites != [] {
      assert sites[|sites| - 1] in sites;
      NoneIn(sites[..|sites| - 1], file, key);
    }
  }

  /** The first site of a file brings in its counts. */
  lemma Insert(extract: Extractor, counts: Counts, done: seq<Site>, file: string, added: map<Key, nat>)
    requires Left(extract, counts, done) && file !in counts && extract(file).Ok?
    requires forall key :: Held(added, key) == Occurrences(extract(file).value, key)
    ensures Left(extract, counts[file := added], done)
  {
    forall key ensures OccurrencesIn(done, file, key) == 0 {
      NoneIn(done, file, key);
    }
  }

  /** Each further site uses one occurrence up. */
  lemma {:induction false} UseOne(extract: Extractor, counts: Counts, done: seq<Site>, s: Site, after: Counts)
    requires Left(extract, counts, done) && s.file in counts
    requires after == if Held(counts[s.file], KeyOf(s)) > 0 then counts[s.file := Less(counts[s.file], KeyOf(s))] else counts
    ensures Left(extract, after, done + [s])
    ensures Held(counts[s.file], KeyOf(s)) > 0 <==> OccurrencesIn(done, s.file, KeyOf(s)) < Raw(extract, s)
  {
    forall file, key ensures OccurrencesIn(done + [s], file, key)
                             == OccurrencesIn(done, file, key) + (if s.file == file && KeyOf(s) == key then 1 else 0)
    {
      OneMore(done, s, file, key);
    }
  }

  predicate Extractable(extract: Extractor, sites: seq<Site>) {
    forall s :: s in sites ==> extract(s.file).Ok?
  }

  /** What a scan of one output reports. */
  function Reported(extract: Extractor, macroOnly: bool, mapped: seq<Site>): seq<Site> {
    if macroOnly then Remaining(extract, mapped) else mapped
  }

  lemma {:induction false} MappedNext(m: map<nat, Location>, sites: seq<Site>, i: nat)
    requires i < |sites|
    ensures MappedAll(m, sites[..i + 1])
            == MappedAll(m, sites[..i]) + (if Mapped(m, sites[i]).Some? then [Mapped(m, sites[i]).value] else [])
  {
    assert sites[..i + 1][..i] == sites[..i];
  }

  /** A prefix that cannot be extracted makes the whole impossible to extract. */
  lemma {:induction false} MappedPrefix(m: map<nat, Location>, sites: seq<Site>, i: nat)
    requires i <= |sites|
    ensures MappedAll(m, sites[..i]) <= MappedAll(m, sites)
    decreases |sites| - i
  {
    if i == |sites| {
      assert sites[..i] == sites;
    } else {
      MappedNext(m, sites, i);
      MappedPrefix(m, sites, i + 1);
    }
  }

  /** The raw counts of a file, read when its first site comes up. */
  method Counted(extract: Extractor, counts: Counts, file: string, ghost done: seq<Site>) returns (r: Result<Counts, string>)
    requires Left(extract, counts, done)
    ensures r.Ok? <==> extract(file).Ok?
    ensures r.Ok? ==> file in r.value && Left(extract, r.value, done)
  {
    if file in counts {
      return Ok(counts);
    }
    var raw := extract(file);
    if raw.Err? {
      return Err(raw.error);
    }
    var added := CountSites(raw.value);
    Insert(extract, counts, done, file, added);
    return Ok(counts[file := added]);
  }

  /** Whether a site is to be reported; it uses up one raw occurrence otherwise. */
  method Consider(extract: Extractor, macroOnly: bool, counts: Counts, s: Site, ghost mapped: seq<Site>)
    returns (r: Result<(Counts, bool), string>)
    requires macroOnly ==> Left(extract, counts, mapped)
    ensures r.Ok? <==> (macroOnly ==> extract(s.file).Ok?)
    ensures r.Ok? && macroOnly ==> Left(extract, r.value.0, mapped + [s])
    ensures r.Ok? ==> r.value.1 == (!macroOnly || OccurrencesIn(mapped, s.file, KeyOf(s)) >= Raw(extract, s))
  {
    if !macroOnly {
      return Ok((counts, true));
    }
    var counted := Counted(extract, counts, s.file, mapped);
    if counted.Err? {
      return Err(counted.error);
    }
    var before, after := counted.value, counted.value;
    var held := Held(before[s.file], KeyOf(s));
    if held > 0 {
      after := before[s.file := Less(before[s.file], KeyOf(s))];
    }
    UseOne(extract, before, mapped, s, after);
    return Ok((after, held == 0));
  }

  lemma {:induction false} ReportedNext(extract: Extractor, macroOnly: bool, mapped: seq<Site>, s: Site)
    ensures Reported(extract, macroOnly, mapped + [s]) == Reported(extract, macroOnly, mapped)
              + (if !macroOnly || OccurrencesIn(mapped, s.file, KeyOf(s)) >= Raw(extract, s) then [s] else [])
  {
    assert (mapped + [s])[..|mapped|] == mapped;
  }

  lemma {:induction false} NotExtractable(extract: Extractor, m: map<nat, Location>, sites: seq<Site>, i: nat)
    requires i < |sites| && Mapped(m, sites[i]).Some? && extract(Mapped(m, sites[i]).value.file).Err?
    ensures !Extractable(extract, MappedAll(m, sites))
  {
    MappedNext(m, sites, i);
    MappedPrefix(m, sites, i + 1);
    assert Mapped(m, sites[i]).value in MappedAll(m, sites[..i + 1]);
  }

  /** The sites of one output, appended to the ones found so far. */
  method ScanOutput(extract: Extractor, macroOnly: bool, m: map<nat, Location>, sites: seq<Site>, found: seq<Site>)
    returns (results: seq<Site>, complete: bool)
    ensures complete <==> (macroOnly ==> Extractable(extract, MappedAll(m, sites)))
    ensures complete ==> results == found + Reported(extract, macroOnly, MappedAll(m, sites))
    ensures found <= results
  {
    results := found;
    var counts: Counts, i := map[], 0;
    ghost var mapped: seq<Site> := [];
    while i < |sites|
      invariant 0 <= i <= |sites| && mapped == MappedAll(m, sites[..i])
      invariant macroOnly ==> Left(extract, counts, mapped) && Extractable(extract, mapped)
      invariant results == found + Reported(extract, macroOnly, mapped)
    {
      MappedNext(m, sites, i);
      var site := Mapped(m, sites[i]);
      if site.Some? {
        var s := site.value;
        var considered := Consider(extract, macroOnly, counts, s, mapped);
        if considered.Err? {
          NotExtractable(extract, m, sites, i);
          return results, false;
        }
        counts := considered.value.0;
        if considered.value.1 {
          results := results + [s];
        }
        ReportedNext(extract, macroOnly, mapped, s);
        mapped := mapped + [s];
      }
      i := i + 1;
    }
    assert sites[..i] == sites;
    complete := true;
  }

  predicate LinesReadable(lines: seq<Line>) {
    forall i :: 0 <= i < |lines| ==> Readable(lines[i])
  }

  /** The sites of an output at their original lines. */
  function MappedOf(o: Output): seq<Site>
    requires o.sites.Ok?
  {
    MappedAll(LineMap(o.lines), o.sites.value)
  }

  /** An output can be scanned when its markers, its text and every file it names can be read. */
  predicate Scannable(extract: Extractor, macroOnly: bool, o: Output) {
    LinesReadable(o.lines) && o.sites.Ok? && (macroOnly ==> Extractable(extract, MappedOf(o)))
  }

  /** What a scan of these outputs reports; each output subtracts its own counts. */
  function ReportedAll(extract: Extractor, macroOnly: bool, outputs: seq<Output>): seq<Site>
    requires forall i :: 0 <= i < |outputs| ==> Scannable(extract, macroOnly, outputs[i])
  {
    if outputs == [] then []
    else
      var n := |outputs| - 1;
      assert Scannable(extract, macroOnly, outputs[n]);
      ReportedAll(extract, macroOnly, outputs[..n]) + Reported(extract, macroOnly, MappedOf(outputs[n]))
  }

  /** How often a scan of these outputs must report a call: in each output as often as it remains there. */
  function Expected(extract: Extractor, macroOnly: bool, outputs: seq<Output>, file: string, line: int, callee: string): nat
    requires forall i :: 0 <= i < |outputs| ==> Scannable(extract, macroOnly, outputs[i])
  {
    if outputs == [] then 0
    else
      var n := |outputs| - 1;
      assert Scannable(extract, macroOnly, outputs[n]);
      var here := CountAt(MappedOf(outputs[n]), file, line, callee);
      Expected(extract, macroOnly, outputs[..n], file, line, callee)
      + (if macroOnly then Positive(here - RawAt(extract, file, line, callee)) else here)
  }

  lemma {:induction false} CountTwo(a: seq<Site>, b: seq<Site>, file: string, line: int, callee: string)
    ensures CountAt(a + b, file, line, callee) == CountAt(a, file, line, callee) + CountAt(b, file, line, callee)
  {
    if b == [] {
      assert a + b == a;
    } else {
      var n := |b| - 1;
      CountTwo(a, b[..n], file, line, callee);
      CountNext(a + b[..n], b[n], file, line, callee);
      CountNext(b[..n], b[n], file, line, callee);
      assert a + b == (a + b[..n]) + [b[n]] && b == b[..n] + [b[n]];
    }
  }

  /** The whole scan reports every call as often as it should, over all outputs together. */
  lemma {:induction false} ReportedCount(extract: Extractor, macroOnly: bool, outputs: seq<Output>, file: string, line: int, callee: string)
    requires forall i :: 0 <= i < |outputs| ==> Scannable(extract, macroOnly, outputs[i])
    ensures CountAt(ReportedAll(extract, macroOnly, outputs), file, line, callee)
      == Expected(extract, macroOnly, outputs, file, line, callee)
  {
    if outputs != [] {
      var n := |outputs| - 1;
      assert Scannable(extract, macroOnly, outputs[n]);
      ReportedCount(extract, macroOnly, outputs[..n], file, line, callee);
      var mapped := MappedOf(outputs[n]);
      CountTwo(ReportedAll(extract, macroOnly, outputs[..n]), Reported(extract, macroOnly, mapped), file, line, callee);
      RemainingAt(extract, mapped, file, line, callee);
    }
  }

  method ScanDetailed(outputs: Result<seq<Output>, string>, extract: Extractor, macroOnly: bool)
    returns (sites: seq<Site>, complete: bool)
    ensures complete <==> outputs.Ok? && forall i :: 0 <= i < |outputs.value| ==> Scannable(extract, macroOnly, outputs.value[i])
    ensures complete ==> sites == ReportedAll(extract, macroOnly, outputs.value)
  {
    sites := [];
    if outputs.Err? {
      return sites, false;
    }
    var all := outputs.value;
    for i := 0 to |all|
      invariant forall j :: 0 <= j < i ==> Scannable(extract, macroOnly, all[j])
      invariant sites == ReportedAll(extract, macroOnly, all[..i])
    {
      var m := BuildLineMap(all[i].lines);
      if m.Err? || all[i].sites.Err? {
        return sites, false;
      }
      sites, complete := ScanOutput(extract, macroOnly, m.value, all[i].sites.value, sites);
      if !complete {
        return sites, false;
      }
      assert all[..i + 1][..i] == all[..i];
    }
    assert all[..|all|] == all;
    complete := true;
  }

  // --- Order --------------------------------------------------------------------------------------

  /** `part` arises from `whole` by leaving sites out. */
  predicate Subsequence(part: seq<Site>, whole: seq<Site>) {
    part == [] || (whole != [] &&
      (if part[|part| - 1] == whole[|whole| - 1] && Subsequence(part[..|part| - 1], whole[..|whole| - 1]) then true
       else Subsequence(part, whole[..|whole| - 1])))
  }

  /** The remaining sites keep their order. */
  lemma {:induction false} RemainingInOrder(extract: Extractor, sites: seq<Site>)
    ensures Subsequence(Remaining(extract, sites), sites)
  {
    if sites != [] {
      var front, last := sites[..|sites| - 1], sites[|sites| - 1];
      RemainingInOrder(extract, front);
      assert (Remaining(extract, front) + [last])[..|Remaining(extract, front)|] == Remaining(extract, front);
    }
  }

  // --- Where sites come from ----------------------------------------------------------------------

  /** The site of preprocessed text, moved to where its line comes from; other than its place it is the same. */
  predicate MovedTo(lines: seq<Line>, s: Site, moved: Site) {
    && s.line >= 1 && s.line <= |lines|
    && Origin(lines, s.line - 1) == Some(Location(moved.file, moved.line, false))
    && moved.callee == s.callee && moved.text == s.text
  }

  lemma MappedIs(lines: seq<Line>, s: Site, moved: Site)
    ensures Mapped(LineMap(lines), s) == Some(moved) <==> MovedTo(lines, s, moved)
  {
    if s.line >= 1 { assert s.line in LineMap(lines) <==> s.line <= |lines| && OriginAt(lines, s.line).Some?; }
  }

  /** Mapping keeps exactly the sites whose line comes from no system header, in order. */
  lemma {:induction false} MappedSites(lines: seq<Line>, sites: seq<Site>, moved: Site)
    ensures moved in MappedAll(LineMap(lines), sites) <==> exists s :: s in sites && MovedTo(lines, s, moved)
  {
    if sites != [] {
      var front, last := sites[..|sites| - 1], sites[|sites| - 1];
      MappedSites(lines, front, moved);
      MappedIs(lines, last, moved);
      assert sites == front + [last];
      if Mapped(LineMap(lines), last).Some? { MappedIs(lines, last, Mapped(LineMap(lines), last).value); }
    }
  }
}
