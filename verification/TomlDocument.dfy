/**
 The document writer and the line-oriented reader, and the round trip between them.
 */
module TomlDocument {
  import opened Outcomes
  import opened ConfigValues
  import opened TomlText
  import opened TomlValues
  import opened TomlTables

  // --- Sorting ---------------------------------------------------------------------------

  function InsertSorted(f: (string, ConfigValue), sorted: Fields): Fields {
    if sorted == [] || Before(f.0, sorted[0].0) then [f] + sorted else [sorted[0]] + InsertSorted(f, sorted[1..])
  }

  /** The fields in key order; sorting moves fields but neither adds nor drops one. */
  function Sorted(fields: Fields): Fields {
    if fields == [] then [] else InsertSorted(fields[0], Sorted(fields[1..]))
  }

  lemma {:induction false} InsertSortedMembers(f: (string, ConfigValue), sorted: Fields)
    ensures forall g :: g in InsertSorted(f, sorted) <==> g == f || g in sorted
  {
    if sorted != [] && !Before(f.0, sorted[0].0) {
      InsertSortedMembers(f, sorted[1..]);
      assert sorted == [sorted[0]] + sorted[1..];
    }
  }

  lemma {:induction false} SortedMembers(fields: Fields)
    ensures forall g :: g in Sorted(fields) <==> g in fields
  {
    if fields != [] {
      SortedMembers(fields[1..]);
      InsertSortedMembers(fields[0], Sorted(fields[1..]));
      assert fields == [fields[0]] + fields[1..];
    }
  }

  /** No key comes behind a greater one. */
  ghost predicate Ascending(fields: Fields) {
    forall i, j :: 0 <= i < j < |fields| ==> !Before(fields[j].0, fields[i].0)
  }

  lemma {:induction false} InsertSortedAscends(f: (string, ConfigValue), sorted: Fields)
    requires Ascending(sorted)
    ensures Ascending(InsertSorted(f, sorted)) && multiset(InsertSorted(f, sorted)) == multiset(sorted) + multiset{f}
  {
    if sorted == [] || Before(f.0, sorted[0].0) {
      var r := [f] + sorted;
      forall i, j | 0 <= i < j < |r| ensures !Before(r[j].0, r[i].0) {
        if i == 0 { BehindFirst(f.0, sorted, j - 1); }
      }
    } else {
      var rest := sorted[1..];
      InsertSortedAscends(f, rest);
      InsertSortedMembers(f, rest);
      var tail := InsertSorted(f, rest);
      var r := [sorted[0]] + tail;
      assert sorted == [sorted[0]] + rest;
      forall i, j | 0 <= i < j < |r| ensures !Before(r[j].0, r[i].0) {
        if i == 0 {
          assert tail[j - 1] in tail;
          if tail[j - 1] in rest {
            var k :| 0 <= k < |rest| && rest[k] == tail[j - 1];
            assert sorted[k + 1] == rest[k];
          }
        }
      }
    }
  }

  /** In front of an ascending list, a key before the first one is before none of them wrongly. */
  lemma {:induction false} BehindFirst(key: string, sorted: Fields, j: nat)
    requires Ascending(sorted) && j < |sorted| && Before(key, sorted[0].0)
    ensures !Before(sorted[j].0, key)
  {
    if Before(sorted[j].0, key) {
      BeforeTransitive(sorted[j].0, key, sorted[0].0);
      BeforeTotal(sorted[0].0, sorted[0].0);
      assert false;
    }
  }

  /** Sorting puts the same fields in ascending order of their keys. */
  lemma {:induction false} SortedAscends(fields: Fields)
    ensures Ascending(Sorted(fields)) && multiset(Sorted(fields)) == multiset(fields)
  {
    if fields != [] {
      SortedAscends(fields[1..]);
      InsertSortedAscends(fields[0], Sorted(fields[1..]));
      assert fields == [fields[0]] + fields[1..];
    }
  }

  // --- The writer ---------------------------------------------------------------------------

  function Scalars(fields: Fields): Fields {
    if fields == [] then []
    else (if IsTable(fields[0].1) then [] else [fields[0]]) + Scalars(fields[1..])
  }

  function Subtables(fields: Fields): Fields {
    if fields == [] then []
    else (if IsTable(fields[0].1) then [fields[0]] else []) + Subtables(fields[1..])
  }

  lemma {:induction false} ScalarsMembers(fields: Fields)
    ensures forall g :: g in Scalars(fields) <==> g in fields && !IsTable(g.1)
    ensures forall g :: g in Subtables(fields) <==> g in fields && IsTable(g.1)
  {
    if fields != [] {
      ScalarsMembers(fields[1..]);
      assert fields == [fields[0]] + fields[1..];
    }
  }

  lemma {:induction false} HalvesTogether(fields: Fields)
    ensures multiset(Scalars(fields)) + multiset(Subtables(fields)) == multiset(fields)
  {
    if fields != [] {
      var first, rest := fields[0], fields[1..];
      HalvesTogether(rest);
      assert fields == [first] + rest;
      if IsTable(first.1) {
        assert Scalars(fields) == [] + Scalars(rest) && Subtables(fields) == [first] + Subtables(rest);
      } else {
        assert Scalars(fields) == [first] + Scalars(rest) && Subtables(fields) == [] + Subtables(rest);
      }
    }
  }

  lemma RestAscends(fields: Fields)
    requires Ascending(fields) && fields != []
    ensures Ascending(fields[1..]) && forall g :: g in fields[1..] ==> !Before(g.0, fields[0].0)
  {
    forall g | g in fields[1..] ensures !Before(g.0, fields[0].0) {
      var k :| 0 <= k < |fields[1..]| && fields[1..][k] == g;
      assert fields[k + 1] == g;
    }
  }

  /** Of an ascending list, each half is ascending. */
  lemma {:induction false} HalvesAscend(fields: Fields)
    requires Ascending(fields)
    ensures Ascending(Scalars(fields)) && Ascending(Subtables(fields))
  {
    if fields != [] {
      var rest := fields[1..];
      RestAscends(fields);
      HalvesAscend(rest);
      ScalarsMembers(rest);
      if IsTable(fields[0].1) {
        FrontAscends(fields[0], Subtables(rest));
        assert [] + Scalars(rest) == Scalars(rest);
      } else {
        FrontAscends(fields[0], Scalars(rest));
        assert [] + Subtables(rest) == Subtables(rest);
      }
    }
  }

  lemma FrontAscends(first: (string, ConfigValue), rest: Fields)
    requires Ascending(rest) && forall g :: g in rest ==> !Before(g.0, first.0)
    ensures Ascending([first] + rest)
  {
    var r := [first] + rest;
    forall i, j | 0 <= i < j < |r| ensures !Before(r[j].0, r[i].0) {
      if i == 0 { assert rest[j - 1] in rest; }
    }
  }

  /** Texts one under the other. */
  function Lines(lines: seq<string>): string {
    if lines == [] then "" else if |lines| == 1 then lines[0] else lines[0] + "\n" + Lines(lines[1..])
  }

  lemma {:induction false} LinesBehind(joined: string, scalars: Fields)
    requires joined != "" && forall f :: f in scalars ==> Bridged(f.1)
    ensures ScalarEntries(scalars, joined) == Lines([joined] + KeyLines(scalars))
    decreases |scalars|
  {
    if scalars == [] {
      assert [joined] + KeyLines(scalars) == [joined];
    } else {
      var line, rest := KeyLine(scalars[0]), KeyLines(scalars[1..]);
      assert |line| >= 3;
      assert AppendEntry(joined, line) == joined + "\n" + line;
      LinesBehind(joined + "\n" + line, scalars[1..]);
      assert KeyLines(scalars) == [line] + rest;
      LinesMerge(joined, line, rest);
    }
  }

  lemma {:induction false} LinesMerge(a: string, b: string, rest: seq<string>)
    ensures Lines([a + "\n" + b] + rest) == Lines([a] + ([b] + rest))
  {
    assert ([a] + ([b] + rest))[1..] == [b] + rest;
    assert ([b] + rest)[1..] == rest && ([a + "\n" + b] + rest)[1..] == rest;
    if rest != [] { assert a + "\n" + b + "\n" + Lines(rest) == a + "\n" + (b + "\n" + Lines(rest)); }
  }

  function KeyLines(scalars: Fields): seq<string>
    requires forall f :: f in scalars ==> Bridged(f.1)
  {
    if scalars == [] then [] else [KeyLine(scalars[0])] + KeyLines(scalars[1..])
  }

  /** Appends one entry to the text, separated by a line break; empty entries are skipped. */
  function AppendEntry(joined: string, entry: string): string {
    if entry == "" then joined else if joined == "" then entry else joined + "\n" + entry
  }

  function KeyLine(f: (string, ConfigValue)): string
    requires Bridged(f.1)
  {
    f.0 + " = " + TextOf(f.1)
  }

  function ScalarEntries(scalars: Fields, joined: string): string
    requires forall f :: f in scalars ==> Bridged(f.1)
  {
    if scalars == [] then joined
    else ScalarEntries(scalars[1..], AppendEntry(joined, KeyLine(scalars[0])))
  }

  /** All tables and values below can be printed. */
  predicate Printable(v: ConfigValue)
    requires v.Record?
    decreases v
  {
    forall f | f in v.fields :: if IsTable(f.1) then Printable(f.1) else Bridged(f.1)
  }

  ghost function Depth(v: ConfigValue): nat
    requires v.Record?
    decreases v
  {
    DepthOf(v, 0)
  }

  ghost function DepthOf(v: ConfigValue, i: nat): nat
    requires v.Record? && i <= |v.fields|
    decreases v, |v.fields| - i
  {
    if i == |v.fields| then 1
    else
      var here := if v.fields[i].1.Record? then 1 + DepthOf(v.fields[i].1, 0) else 1;
      var rest := DepthOf(v, i + 1);
      if here > rest then here else rest
  }

  lemma {:induction false} DepthBelow(v: ConfigValue, i: nat, j: nat)
    requires v.Record? && i <= j < |v.fields| && v.fields[j].1.Record?
    ensures DepthOf(v.fields[j].1, 0) < DepthOf(v, i)
    decreases j - i
  {
    if i < j { DepthBelow(v, i + 1, j); }
  }

  lemma SubtableBelow(v: ConfigValue, f: (string, ConfigValue))
    requires v.Record? && f in v.fields && f.1.Record?
    ensures Depth(f.1) < Depth(v)
  {
    var j :| 0 <= j < |v.fields| && v.fields[j] == f;
    DepthBelow(v, 0, j);
  }

  lemma {:induction false} EntryFacts(v: ConfigValue)
    requires v.Record? && Printable(v)
    ensures forall f :: f in Scalars(Sorted(v.fields)) ==> Bridged(f.1)
    ensures forall f :: f in Subtables(Sorted(v.fields)) ==> f in v.fields && IsTable(f.1)
  {
    SortedMembers(v.fields);
    ScalarsMembers(Sorted(v.fields));
  }

  /** One table as text: its values, then every subtable under its own header. */
  function EmitText(v: ConfigValue, path: seq<string>): string
    requires v.Record? && Printable(v)
    decreases Depth(v), 1, 0
  {
    EntryFacts(v);
    SectionEntries(v, path, Subtables(Sorted(v.fields)), ScalarEntries(Scalars(Sorted(v.fields)), ""))
  }

  function Header(path: seq<string>): string {
    "\n[" + JoinDots(path) + "]"
  }

  function SectionEntries(v: ConfigValue, path: seq<string>, subtables: Fields, joined: string): string
    requires v.Record? && Printable(v)
    requires forall f :: f in subtables ==> f in v.fields && IsTable(f.1)
    decreases Depth(v), 0, |subtables|
  {
    if subtables == [] then joined
    else
      var f := subtables[0];
      SubtableBelow(v, f);
      var headed := AppendEntry(joined, Header(path + [f.0]));
      SectionEntries(v, path, subtables[1..], AppendEntry(headed, EmitText(f.1, path + [f.0])))
  }

  lemma Extended(joined: string, entry: string)
    ensures joined <= AppendEntry(joined, entry)
  {}

  lemma {:induction false} SectionsBehind(v: ConfigValue, path: seq<string>, subtables: Fields, joined: string)
    requires v.Record? && Printable(v)
    requires forall f :: f in subtables ==> f in v.fields && IsTable(f.1)
    ensures joined <= SectionEntries(v, path, subtables, joined)
    decreases |subtables|
  {
    if subtables != [] {
      var f := subtables[0];
      assert f in subtables;
      SubtableBelow(v, f);
      var headed := AppendEntry(joined, Header(path + [f.0]));
      var more := AppendEntry(headed, EmitText(f.1, path + [f.0]));
      Extended(joined, Header(path + [f.0]));
      Extended(headed, EmitText(f.1, path + [f.0]));
      SectionsBehind(v, path, subtables[1..], more);
    }
  }

  /**
   A table starts with its key lines, one under the other in ascending order of their keys; its
   subtables follow in ascending order too, and together they are its fields.
   */
  lemma {:induction false} TableInOrder(v: ConfigValue, path: seq<string>)
    requires v.Record? && Printable(v)
    ensures var scalars, subtables := Scalars(Sorted(v.fields)), Subtables(Sorted(v.fields));
      && (forall f :: f in scalars ==> Bridged(f.1))
      && Lines(KeyLines(scalars)) <= EmitText(v, path)
      && Ascending(scalars) && Ascending(subtables)
      && multiset(scalars) + multiset(subtables) == multiset(v.fields)
  {
    EntryFacts(v);
    SortedAscends(v.fields);
    HalvesAscend(Sorted(v.fields));
    HalvesTogether(Sorted(v.fields));
    var scalars := Scalars(Sorted(v.fields));
    SectionsBehind(v, path, Subtables(Sorted(v.fields)), ScalarEntries(scalars, ""));
    if scalars != [] {
      assert |KeyLine(scalars[0])| >= 3;
      LinesBehind(KeyLine(scalars[0]), scalars[1..]);
      assert KeyLines(scalars) == [KeyLine(scalars[0])] + KeyLines(scalars[1..]);
    }
  }

  /** The writer's loops over one table; it fails exactly on a value without a TOML form. */
  method EmitToml(v: ConfigValue, path: seq<string>) returns (r: Result<string, string>)
    requires v.Record?
    ensures r.Ok? <==> Printable(v)
    ensures r.Ok? ==> r.value == EmitText(v, path)
    decreases Depth(v)
  {
    var scalars, subtables := PartitionFields(v.fields);
    PartitionMembers(v);
    var lines := EmitScalars(scalars);
    if lines.Err? {
      return Err(lines.error);
    }
    var joined := lines.value;
    assert subtables[0..] == subtables;
    for i := 0 to |subtables|
      invariant forall j :: 0 <= j < i ==> Printable(subtables[j].1)
      invariant Printable(v) ==>
        SectionEntries(v, path, subtables[i..], joined) == SectionEntries(v, path, subtables, lines.value)
    {
      var f := subtables[i];
      assert f in subtables && subtables[i..][1..] == subtables[i + 1..];
      SubtableBelow(v, f);
      joined := AppendEntry(joined, "\n[" + JoinDots(path + [f.0]) + "]");
      var body := EmitToml(f.1, path + [f.0]);
      if body.Err? {
        return Err(body.error);
      }
      joined := AppendEntry(joined, body.value);
    }
    PrintableParts(v);
    return Ok(joined);
  }

  lemma PartitionMembers(v: ConfigValue)
    requires v.Record?
    ensures forall f :: f in Scalars(Sorted(v.fields)) <==> f in v.fields && !IsTable(f.1)
    ensures forall f :: f in Subtables(Sorted(v.fields)) <==> f in v.fields && IsTable(f.1)
  {
    SortedMembers(v.fields);
    ScalarsMembers(Sorted(v.fields));
  }

  lemma {:induction false} PrintableParts(v: ConfigValue)
    requires v.Record?
    ensures Printable(v) <==>
      && (forall f :: f in Scalars(Sorted(v.fields)) ==> Bridged(f.1))
      && (forall f :: f in Subtables(Sorted(v.fields)) ==> f.1.Record? && Printable(f.1))
  {
    PartitionMembers(v);
  }

  method PartitionFields(fields: Fields) returns (scalars: Fields, subtables: Fields)
    ensures scalars == Scalars(Sorted(fields)) && subtables == Subtables(Sorted(fields))
  {
    var sorted := SortFields(fields);
    scalars, subtables := [], [];
    for i := 0 to |sorted|
      invariant Scalars(sorted) == scalars + Scalars(sorted[i..])
      invariant Subtables(sorted) == subtables + Subtables(sorted[i..])
    {
      assert sorted[i..][1..] == sorted[i + 1..];
      if IsTable(sorted[i].1) {
        subtables := subtables + [sorted[i]];
      } else {
        scalars := scalars + [sorted[i]];
      }
    }
  }

  method EmitScalars(scalars: Fields) returns (r: Result<string, string>)
    ensures r.Ok? <==> forall f :: f in scalars ==> Bridged(f.1)
    ensures r.Ok? ==> r.value == ScalarEntries(scalars, "")
  {
    var joined := "";
    assert scalars[0..] == scalars;
    for i := 0 to |scalars|
      invariant forall j :: 0 <= j < i ==> Bridged(scalars[j].1)
      invariant (forall f :: f in scalars ==> Bridged(f.1)) ==>
        ScalarEntries(scalars[i..], joined) == ScalarEntries(scalars, "")
    {
      assert scalars[i] in scalars && scalars[i..][1..] == scalars[i + 1..];
      var value := ValueText(scalars[i].1);
      if value.Err? {
        return Err(value.error);
      }
      joined := AppendEntry(joined, scalars[i].0 + " = " + value.value);
    }
    return Ok(joined);
  }

  method SortFields(fields: Fields) returns (sorted: Fields)
    ensures sorted == Sorted(fields)
  {
    sorted := [];
    var i := |fields|;
    while i > 0
      invariant 0 <= i <= |fields| && sorted == Sorted(fields[i..])
    {
      i := i - 1;
      assert fields[i..][1..] == fields[i + 1..];
      sorted := InsertSorted(fields[i], sorted);
    }
    assert fields[0..] == fields;
  }

  // --- The reader ------------------------------------------------------------------------------

  datatype Reader = Reader(section: string, flat: map<string, ConfigValue>)

  function FindChar(t: string, c: char): (n: nat)
    ensures n <= |t| && (n < |t| ==> t[n] == c) && c !in t[..n]
  {
    if t == "" || t[0] == c then 0
    else
      assert t[..1 + FindChar(t[1..], c)] == [t[0]] + t[1..][..FindChar(t[1..], c)];
      1 + FindChar(t[1..], c)
  }

  /** Removes the inline marker of a stored record before it reaches the model. */
  function StripMarker(v: ConfigValue): ConfigValue {
    match v
    case Record(fields) => Record(StripFields(v, 0))
    case _ => v
  }

  function StripFields(v: ConfigValue, i: nat): Fields
    requires v.Record? && i <= |v.fields|
    decreases v, |v.fields| - i
  {
    if i == |v.fields| then []
    else
      (if v.fields[i].0 == INLINE_MARKER then [] else [(v.fields[i].0, StripMarker(v.fields[i].1))]) +
      StripFields(v, i + 1)
  }

  function ReadLine(line: string, r: Reader): Result<Reader, string> {
    var t := SkipBlanks(line);
    if t == "" || t[0] == '#' then Ok(r)
    else if t[0] == '[' then
      var close := FindChar(t, ']');
      if close == |t| then Err("unterminated section header") else Ok(r.(section := t[1..close]))
    else
      var eq := FindChar(t, '=');
      if eq == |t| then Err("expected key = value")
      else
        var key := TrimEnd(t[..eq]);
        match ParseValue(t[eq + 1..])
        case Err(e) => Err(e)
        case Ok((v, _)) =>
          Ok(r.(flat := r.flat[(if r.section == "" then key else r.section + "." + key) := StripMarker(v)]))
  }

  function ReadLines(lines: seq<string>, r: Reader): Result<Reader, string> {
    if lines == [] then Ok(r)
    else
      match ReadLine(lines[0], r)
      case Err(e) => Err(e)
      case Ok(next) => ReadLines(lines[1..], next)
  }

  /** The text between line breaks, also behind the last one. */
  function Pieces(text: string): (lines: seq<string>)
    ensures lines != []
  {
    if text == "" then [""]
    else if text[0] == '\n' then [""] + Pieces(text[1..])
    else
      var rest := Pieces(text[1..]);
      [[text[0]] + rest[0]] + rest[1..]
  }

  /** The library's line reader does not report an empty line behind the last line break. */
  function GetLines(text: string): seq<string> {
    var pieces := Pieces(text);
    if pieces[|pieces| - 1] == "" then pieces[..|pieces| - 1] else pieces
  }

  function ParseText(text: string): Result<map<string, ConfigValue>, string> {
    match ReadLines(GetLines(text), Reader("", map[]))
    case Err(e) => Err(e)
    case Ok(r) => Ok(r.flat)
  }

  /** The reader's loop over the lines of a document. */
  method ParseToml(text: string) returns (r: Result<map<string, ConfigValue>, string>)
    ensures r.Ok? ==> ParseText(text) == r
    ensures r.Err? ==> ParseText(text).Err?
  {
    var lines := GetLines(text);
    var reader := Reader("", map[]);
    assert lines[0..] == lines;
    for i := 0 to |lines|
      invariant ReadLines(lines[i..], reader) == ReadLines(lines, Reader("", map[]))
    {
      assert lines[i..][1..] == lines[i + 1..];
      var next := ReadDocumentLine(lines[i], reader);
      if next.Err? {
        return Err(next.error);
      }
      reader := next.value;
    }
    return Ok(reader.flat);
  }

  method ReadDocumentLine(line: string, reader: Reader) returns (r: Result<Reader, string>)
    ensures r.Ok? ==> ReadLine(line, reader) == r
    ensures r.Err? ==> ReadLine(line, reader).Err?
  {
    var start := SkipFrom(line, 0);
    assert line[0..] == line;
    var trimmed := line[start..];
    if trimmed == "" || trimmed[0] == '#' {
      return Ok(reader);
    }
    if trimmed[0] == '[' {
      var close := FindChar(trimmed, ']');
      if close == |trimmed| {
        return Err("unterminated section header");
      }
      return Ok(reader.(section := trimmed[1..close]));
    }
    var eq := FindChar(trimmed, '=');
    if eq == |trimmed| {
      return Err("expected key = value");
    }
    var key := TrimEnd(trimmed[..eq]);
    var value := ReadValue(trimmed, eq + 1);
    if value.Err? {
      return Err(value.error);
    }
    var full := if reader.section == "" then key else reader.section + "." + key;
    return Ok(reader.(flat := reader.flat[full := StripMarker(value.value.0)]));
  }
}
