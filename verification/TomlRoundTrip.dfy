/** Reading the written document gives the flat map back. */
module TomlRoundTrip {
  import opened Outcomes
  import opened ConfigValues
  import opened TomlText
  import opened TomlValues
  import opened TomlTables
  import opened TomlNesting
  import opened TomlDocument

  // --- Reading text piece by piece -------------------------------------------------------

  function RunText(text: string, r: Reader): Result<Reader, string> {
    ReadLines(Pieces(text), r)
  }

  lemma {:induction false} ReadLinesConcat(a: seq<string>, b: seq<string>, r: Reader)
    ensures ReadLines(a + b, r) ==
      match ReadLines(a, r)
      case Ok(next) => ReadLines(b, next)
      case Err(e) => Err(e)
  {
    if a == [] {
      assert a + b == b;
    } else {
      assert (a + b)[1..] == a[1..] + b;
      match ReadLine(a[0], r)
      case Ok(next) => ReadLinesConcat(a[1..], b, next);
      case Err(_) =>
    }
  }

  function WithFirst(c: char, pieces: seq<string>): seq<string>
    requires pieces != []
  {
    if c == '\n' then [""] + pieces else [[c] + pieces[0]] + pieces[1..]
  }

  lemma PrependPiece(c: char, a: seq<string>, b: seq<string>)
    requires a != []
    ensures WithFirst(c, a + b) == WithFirst(c, a) + b
  {}

  lemma {:induction false} PiecesConcat(a: string, b: string)
    ensures Pieces(a + "\n" + b) == Pieces(a) + Pieces(b)
  {
    if a == "" {
      assert a + "\n" + b == ['\n'] + b;
      assert (['\n'] + b)[1..] == b;
    } else {
      assert (a + "\n" + b)[1..] == a[1..] + "\n" + b;
      PiecesConcat(a[1..], b);
      PrependPiece(a[0], Pieces(a[1..]), Pieces(b));
    }
  }

  lemma {:induction false} PiecesOneLine(line: string)
    requires '\n' !in line
    ensures Pieces(line) == [line]
  {
    if line != "" {
      PiecesOneLine(line[1..]);
      assert line == [line[0]] + line[1..];
    }
  }

  lemma {:induction false} OneLineRun(line: string, r: Reader)
    ensures ReadLines([line], r) == ReadLine(line, r)
  {
    var lines := [line];
    assert lines[1..] == [];
  }

  lemma RunEmpty(r: Reader)
    ensures RunText("", r) == Ok(r)
  {
    OneLineRun("", r);
  }

  lemma RunAppended(joined: string, entry: string, start: Reader, r: Reader)
    requires RunText(joined, start) == Ok(r)
    ensures RunText(AppendEntry(joined, entry), start) == RunText(entry, r)
  {
    RunEmpty(start);
    RunEmpty(r);
    if entry != "" && joined != "" {
      PiecesConcat(joined, entry);
      ReadLinesConcat(Pieces(joined), Pieces(entry), start);
    }
  }

  lemma {:induction false} GetLinesRun(text: string, r: Reader)
    ensures ReadLines(GetLines(text), r) == RunText(text, r)
  {
    var pieces := Pieces(text);
    var last := |pieces| - 1;
    if pieces[last] == "" {
      assert pieces == pieces[..last] + [""];
      ReadLinesConcat(pieces[..last], [""], r);
      match ReadLines(pieces[..last], r) {
        case Ok(next) => OneLineRun("", next);
        case Err(_) =>
      }
    }
  }

  // --- Lines ----------------------------------------------------------------------------------

  ghost predicate CleanPath(path: seq<string>) {
    forall i :: 0 <= i < |path| ==> CleanName(path[i])
  }

  lemma {:induction false} CleanPathText(path: seq<string>)
    requires CleanPath(path)
    ensures path != [] ==> JoinDots(path) != "" && JoinDots(path)[0] != '\n'
    ensures ']' !in JoinDots(path) && '\n' !in JoinDots(path)
  {
    if path != [] {
      assert CleanName(path[0]);
      assert ']' !in path[0] && '\n' !in path[0];
      if |path| > 1 { CleanPathText(path[1..]); }
    }
  }

  lemma {:induction false} FindCharIn(a: string, c: char, b: string)
    requires c !in a
    ensures FindChar(a + [c] + b, c) == |a|
  {
    var t := a + [c] + b;
    if a != "" {
      assert t[1..] == a[1..] + [c] + b;
      FindCharIn(a[1..], c, b);
    }
  }

  lemma {:induction false} TrimEndBlank(name: string)
    requires CleanName(name)
    ensures TrimEnd(name + " ") == name
  {
    assert (name + " ")[..|name|] == name;
    assert CleanChar(name[|name| - 1]);
    assert TrimEnd(name) == name;
  }

  /** One key line stores one value. */
  lemma {:induction false} KeyLineRun(f: (string, ConfigValue), path: seq<string>, r: Reader)
    requires CleanName(f.0) && Tame(f.1) && Bridged(f.1) && CleanPath(path) && r.section == JoinDots(path)
    ensures RunText(KeyLine(f), r) == Ok(r.(flat := r.flat[JoinDots(path + [f.0]) := Misread(f.1)]))
  {
    var line := KeyLine(f);
    OneLine(f.1);
    assert '\n' !in f.0;
    PiecesOneLine(line);
    OneLineRun(line, r);
    KeyLineRead(f.0, TextOf(f.1), r);
    ValueBehindBlank(f.1);
    FullKey(path, f.0);
  }

  lemma {:induction false} KeyLineRead(name: string, text: string, r: Reader)
    requires CleanName(name)
    ensures ReadLine(name + " = " + text, r) ==
      match ParseValue(" " + text)
      case Err(e) => Err(e)
      case Ok((v, _)) =>
        Ok(r.(flat := r.flat[(if r.section == "" then name else r.section + "." + name) := StripMarker(v)]))
  {
    var line := name + " = " + text;
    assert CleanChar(name[0]) && line[0] == name[0];
    assert SkipBlanks(line) == line;
    assert line == name + " " + ['='] + (" " + text);
    assert '=' !in name + " ";
    FindCharIn(name + " ", '=', " " + text);
    var eq := |name| + 1;
    assert line[..eq] == name + " ";
    TrimEndBlank(name);
    assert line[eq + 1..] == " " + text;
  }

  lemma {:induction false} ValueBehindBlank(v: ConfigValue)
    requires Tame(v) && Bridged(v)
    ensures ParseValue(" " + TextOf(v)) == Ok((Misread(v), "")) && StripMarker(Misread(v)) == Misread(v)
  {
    var text := TextOf(v);
    assert (" " + text)[1..] == text;
    ValueRead(v, "");
    assert text + "" == text;
    TextStart(v);
  }

  lemma {:induction false} FullKey(path: seq<string>, name: string)
    requires CleanPath(path)
    ensures JoinDots(path + [name]) == if JoinDots(path) == "" then name else JoinDots(path) + "." + name
  {
    CleanPathText(path);
    if path == [] {
      assert path + [name] == [name];
    } else {
      JoinConcat(path, [name]);
    }
  }

  lemma {:induction false} HeaderRun(path: seq<string>, r: Reader)
    requires CleanPath(path) && path != []
    ensures RunText(Header(path), r) == Ok(r.(section := JoinDots(path)))
  {
    CleanPathText(path);
    var section := JoinDots(path);
    var line := "[" + section + "]";
    assert Header(path) == "" + "\n" + line;
    PiecesConcat("", line);
    assert '\n' !in line;
    PiecesOneLine(line);
    var lines := [""] + [line];
    assert lines[1..] == [line];
    assert ReadLine("", r) == Ok(r);
    OneLineRun(line, r);
    assert line == "[" + section + [']'] + "";
    FindCharIn("[" + section, ']', "");
    assert line[1..|line| - 1] == section;
    assert SkipBlanks(line) == line;
  }

  // --- Tables -----------------------------------------------------------------------------------

  /** Everything read so far is an entry of the map, as the reader understands it. */
  ghost predicate Fits(flat: map<string, ConfigValue>, r: Reader) {
    forall k :: k in r.flat ==> k in flat && r.flat[k] == Misread(flat[k])
  }

  ghost predicate Leads(flat: map<string, ConfigValue>, a: Reader, b: Reader) {
    Fits(flat, b) && a.flat.Keys <= b.flat.Keys
  }

  /** Everything stored below a table at `path` is an entry of the map. */
  ghost predicate StoredUnder(fields: Fields, path: seq<string>, flat: map<string, ConfigValue>) {
    forall at, x :: HasLeaf(fields, at, x) ==> JoinDots(path + at) in flat && flat[JoinDots(path + at)] == x
  }

  ghost predicate AllRead(fields: Fields, path: seq<string>, r: Reader) {
    forall at, x :: HasLeaf(fields, at, x) ==> JoinDots(path + at) in r.flat
  }

  lemma {:induction false} CleanPrintable(v: ConfigValue)
    requires v.Record? && CleanTable(v)
    ensures Printable(v)
  {
    forall f | f in v.fields ensures if IsTable(f.1) then Printable(f.1) else Bridged(f.1) {
      var i :| 0 <= i < |v.fields| && v.fields[i] == f;
      if f.1.Record? { CleanPrintable(f.1); } else { TameIsBridged(f.1); }
    }
  }

  lemma {:induction false} FieldIsLeaf(fields: Fields, path: seq<string>, f: (string, ConfigValue), flat: map<string, ConfigValue>)
    requires f in fields && !IsTable(f.1) && StoredUnder(fields, path, flat)
    ensures JoinDots(path + [f.0]) in flat && flat[JoinDots(path + [f.0])] == f.1
  {
    var i :| 0 <= i < |fields| && fields[i] == f;
    assert LeafAt(fields, i, [f.0], f.1);
    assert HasLeaf(fields, [f.0], f.1);
  }

  lemma SubtableStored(fields: Fields, path: seq<string>, f: (string, ConfigValue), flat: map<string, ConfigValue>)
    requires f in fields && IsTable(f.1) && StoredUnder(fields, path, flat)
    ensures StoredUnder(f.1.fields, path + [f.0], flat)
  {
    var i :| 0 <= i < |fields| && fields[i] == f;
    forall at, x | HasLeaf(f.1.fields, at, x)
      ensures JoinDots(path + [f.0] + at) in flat && flat[JoinDots(path + [f.0] + at)] == x
    {
      var longer := [f.0] + at;
      assert longer[1..] == at;
      assert LeafAt(fields, i, longer, x);
      assert HasLeaf(fields, longer, x);
      assert path + longer == path + [f.0] + at;
    }
  }

  /** Reading the key lines of one table stores exactly these keys. */
  lemma {:induction false} ScalarsRun(scalars: Fields, joined: string, path: seq<string>, flat: map<string, ConfigValue>,
                                      start: Reader, r: Reader) returns (end: Reader)
    requires CleanPath(path) && r.section == JoinDots(path) && Fits(flat, r) && RunText(joined, start) == Ok(r)
    requires forall f :: f in scalars ==> CleanName(f.0) && Tame(f.1) && Bridged(f.1)
    requires forall f :: f in scalars ==> JoinDots(path + [f.0]) in flat && flat[JoinDots(path + [f.0])] == f.1
    ensures RunText(ScalarEntries(scalars, joined), start) == Ok(end)
    ensures Leads(flat, r, end) && end.section == r.section
    ensures forall f :: f in scalars ==> JoinDots(path + [f.0]) in end.flat
  {
    end := r;
    if scalars != [] {
      var f := scalars[0];
      assert f in scalars;
      RunAppended(joined, KeyLine(f), start, r);
      KeyLineRun(f, path, r);
      var next := r.(flat := r.flat[JoinDots(path + [f.0]) := Misread(f.1)]);
      end := ScalarsRun(scalars[1..], AppendEntry(joined, KeyLine(f)), path, flat, start, next);
      assert JoinDots(path + [f.0]) in next.flat.Keys;
      assert scalars == [f] + scalars[1..];
    }
  }

  lemma {:induction false} TableRun(v: ConfigValue, path: seq<string>, flat: map<string, ConfigValue>, r: Reader) returns (end: Reader)
    requires v.Record? && CleanTable(v) && Printable(v) && CleanPath(path)
    requires StoredUnder(v.fields, path, flat) && Fits(flat, r) && r.section == JoinDots(path)
    ensures RunText(EmitText(v, path), r) == Ok(end)
    ensures Leads(flat, r, end) && AllRead(v.fields, path, end)
    decreases Depth(v), 1, 0
  {
    var scalars, subtables := Scalars(Sorted(v.fields)), Subtables(Sorted(v.fields));
    PartitionMembers(v);
    EntryFacts(v);
    forall f | f in scalars
      ensures CleanName(f.0) && Tame(f.1) && Bridged(f.1)
      ensures JoinDots(path + [f.0]) in flat && flat[JoinDots(path + [f.0])] == f.1
    {
      var i :| 0 <= i < |v.fields| && v.fields[i] == f;
      FieldIsLeaf(v.fields, path, f, flat);
    }
    RunEmpty(r);
    var middle := ScalarsRun(scalars, "", path, flat, r, r);
    end := SectionsRun(v, path, flat, subtables, ScalarEntries(scalars, ""), r, middle);
    TableComplete(v, path, middle, end);
  }

  lemma LeafWitness(fields: Fields, at: seq<string>, x: ConfigValue) returns (i: nat)
    requires HasLeaf(fields, at, x)
    ensures at != [] && i < |fields| && LeafAt(fields, i, at, x)
  {
    i :| 0 <= i < |fields| && LeafAt(fields, i, at, x);
  }

  /** The keys read in the two halves are all the leaves of the table. */
  lemma {:induction false} TableComplete(v: ConfigValue, path: seq<string>, middle: Reader, end: Reader)
    requires v.Record? && middle.flat.Keys <= end.flat.Keys
    requires forall f :: f in Scalars(Sorted(v.fields)) ==> JoinDots(path + [f.0]) in middle.flat
    requires forall f :: f in Subtables(Sorted(v.fields)) ==> f.1.Record? && AllRead(f.1.fields, path + [f.0], end)
    ensures AllRead(v.fields, path, end)
  {
    PartitionMembers(v);
    forall at, x | HasLeaf(v.fields, at, x) ensures JoinDots(path + at) in end.flat {
      var i := LeafWitness(v.fields, at, x);
      var f := v.fields[i];
      assert f in v.fields;
      if |at| == 1 {
        assert at == [f.0];
        assert JoinDots(path + [f.0]) in middle.flat.Keys;
      } else {
        assert at == [f.0] + at[1..];
        assert path + at == path + [f.0] + at[1..];
        assert AllRead(f.1.fields, path + [f.0], end);
      }
    }
  }

  lemma {:induction false} SectionsRun(v: ConfigValue, path: seq<string>, flat: map<string, ConfigValue>,
                                       subtables: Fields, joined: string, start: Reader, r: Reader) returns (end: Reader)
    requires v.Record? && CleanTable(v) && Printable(v) && CleanPath(path)
    requires StoredUnder(v.fields, path, flat) && Fits(flat, r) && RunText(joined, start) == Ok(r)
    requires forall f :: f in subtables ==> f in v.fields && IsTable(f.1)
    ensures RunText(SectionEntries(v, path, subtables, joined), start) == Ok(end)
    ensures Leads(flat, r, end)
    ensures forall f :: f in subtables ==> AllRead(f.1.fields, path + [f.0], end)
    decreases Depth(v), 0, |subtables|
  {
    end := r;
    if subtables != [] {
      var f := subtables[0];
      assert f in subtables;
      var under := path + [f.0];
      var headed, inner := SectionRun(v, path, flat, f, joined, start, r);
      end := SectionsRun(v, path, flat, subtables[1..], AppendEntry(headed, EmitText(f.1, under)), start, inner);
      assert AllRead(f.1.fields, under, end);
      assert subtables == [f] + subtables[1..];
    }
  }

  lemma {:induction false} SectionRun(v: ConfigValue, path: seq<string>, flat: map<string, ConfigValue>,
                                      f: (string, ConfigValue), joined: string, start: Reader, r: Reader)
    returns (headed: string, inner: Reader)
    requires v.Record? && CleanTable(v) && Printable(v) && CleanPath(path)
    requires StoredUnder(v.fields, path, flat) && Fits(flat, r) && RunText(joined, start) == Ok(r)
    requires f in v.fields && IsTable(f.1)
    ensures f.1.Record? && Printable(f.1) && headed == AppendEntry(joined, Header(path + [f.0]))
    ensures RunText(AppendEntry(headed, EmitText(f.1, path + [f.0])), start) == Ok(inner)
    ensures Leads(flat, r, inner) && AllRead(f.1.fields, path + [f.0], inner)
    decreases Depth(v), 0, 0
  {
    var i :| 0 <= i < |v.fields| && v.fields[i] == f;
    assert CleanName(v.fields[i].0);
    var under := path + [f.0];
    SubtableBelow(v, f);
    SubtableStored(v.fields, path, f, flat);
    headed := AppendEntry(joined, Header(under));
    RunAppended(joined, Header(under), start, r);
    HeaderRun(under, r);
    var entered := r.(section := JoinDots(under));
    inner := TableRun(f.1, under, flat, entered);
    RunAppended(headed, EmitText(f.1, under), start, entered);
  }

  // --- The round trip ---------------------------------------------------------------------------

  function MisreadAll(flat: map<string, ConfigValue>): map<string, ConfigValue> {
    map k | k in flat :: Misread(flat[k])
  }

  /** The reader's view of the written document is the map, with date-shaped integers misread. */
  lemma DocumentRead(root: Fields, flat: map<string, ConfigValue>)
    requires Nests(root, flat)
    ensures Printable(Record(root))
    ensures ParseText(EmitText(Record(root), [])) == Ok(MisreadAll(flat))
  {
    var v := Record(root);
    CleanPrintable(v);
    NestsStored(root, flat);
    var start := Reader("", map[]);
    var end := TableRun(v, [], flat, start);
    GetLinesRun(EmitText(v, []), start);
    NestsRead(root, flat, end);
  }

  lemma NestsStored(root: Fields, flat: map<string, ConfigValue>)
    requires StoresOnly(root, flat)
    ensures StoredUnder(root, [], flat)
  {
    forall at, x | HasLeaf(root, at, x) ensures JoinDots([] + at) in flat && flat[JoinDots([] + at)] == x {
      assert [] + at == at;
    }
  }

  lemma NestsRead(root: Fields, flat: map<string, ConfigValue>, end: Reader)
    requires StoresAll(root, flat) && Fits(flat, end) && AllRead(root, [], end)
    ensures end.flat == MisreadAll(flat)
  {
    forall k | k in flat ensures k in end.flat {
      KeyRead(root, flat, end, k);
    }
    FitsExactly(flat, end);
  }

  lemma KeyRead(root: Fields, flat: map<string, ConfigValue>, end: Reader, k: string)
    requires StoresAll(root, flat) && AllRead(root, [], end) && k in flat
    ensures k in end.flat
  {
    var parts := SplitDots(k);
    assert HasLeaf(root, parts, flat[k]);
    assert [] + parts == parts;
    JoinSplit(k);
  }

  lemma FitsExactly(flat: map<string, ConfigValue>, end: Reader)
    requires Fits(flat, end) && forall k :: k in flat ==> k in end.flat
    ensures end.flat == MisreadAll(flat)
  {}

  /**
   The bridge round trip: nesting, writing and reading a map gives the same map, exactly when no
   integer in it is negative with nine digits.
   */
  lemma BridgeRoundTrip(root: Fields, flat: map<string, ConfigValue>)
    requires Nests(root, flat) && forall k :: k in flat ==> Tame(flat[k])
    ensures Printable(Record(root))
    ensures ParseText(EmitText(Record(root), [])) == Ok(flat) <==> forall k :: k in flat ==> NoDateShape(flat[k])
  {
    DocumentRead(root, flat);
    forall k | k in flat ensures Misread(flat[k]) == flat[k] <==> NoDateShape(flat[k]) {
      MisreadOnlyDates(flat[k]);
    }
    if MisreadAll(flat) == flat {
      forall k | k in flat ensures NoDateShape(flat[k]) {
        assert MisreadAll(flat)[k] == flat[k];
      }
    }
    if forall k :: k in flat ==> NoDateShape(flat[k]) {
      assert MisreadAll(flat) == flat;
    }
  }

  /**
   Writing and reading any clean map: an entry whose key has a dotted prefix in the map is lost,
   and the whole map comes back exactly when there is none and no integer is date-shaped.
   */
  lemma WrittenMap(flat: map<string, ConfigValue>)
    requires CleanMap(flat)
    ensures Printable(Record(Nest(flat)))
    ensures var read := ParseText(EmitText(Record(Nest(flat)), []));
      && read == Ok(MisreadAll(Kept(flat)))
      && (read == Ok(flat) <==> PrefixFree(flat) && forall k :: k in flat ==> NoDateShape(flat[k]))
  {
    NestKeeps(flat);
    DocumentRead(Nest(flat), Kept(flat));
    BridgeRoundTrip(Nest(flat), Kept(flat));
    if MisreadAll(Kept(flat)) == flat {
      assert flat.Keys == Kept(flat).Keys;
      assert Kept(flat) == flat;
    }
  }

  /** Of two settings, one a dotted prefix of the other, the longer one is lost; `a` and `a.b` are such keys. */
  lemma {:induction false} PrefixLosesEntry(key: string, more: string, v: ConfigValue, w: ConfigValue)
    requires CleanKey(key) && CleanKey(key + "." + more) && Tame(v) && NoDateShape(v) && Tame(w)
    ensures var flat := map[key := v, key + "." + more := w];
      Printable(Record(Nest(flat))) && ParseText(EmitText(Record(Nest(flat)), [])) == Ok(map[key := v])
    ensures CleanKey("a") && CleanKey("a" + "." + "b")
  {
    var longer := key + "." + more;
    var flat := map[key := v, longer := w];
    CleanKeys();
    WrittenMap(flat);
    KeptFirst(key, longer, v, w);
    MisreadOnlyDates(v);
    assert MisreadAll(map[key := v]) == map[key := v];
  }

  lemma KeptFirst(key: string, longer: string, v: ConfigValue, w: ConfigValue)
    requires key + "." <= longer
    ensures Kept(map[key := v, longer := w]) == map[key := v]
  {
    var flat := map[key := v, longer := w];
    assert !NotBelow(flat, longer) && NotBelow(flat, key);
  }

  lemma CleanKeys()
    ensures CleanKey("a") && CleanKey("a" + "." + "b")
  {
    SplitName("a");
    SplitName("b");
    SplitConcat("a", "b");
    assert CleanName("a") && CleanName("b");
  }

  /** The three loops in sequence: nest, write, read. */
  method WriteAndRead(flat: map<string, ConfigValue>) returns (r: Result<map<string, ConfigValue>, string>)
    requires CleanMap(flat)
    ensures r == Ok(MisreadAll(Kept(flat)))
    ensures r == Ok(flat) <==> PrefixFree(flat) && forall k :: k in flat ==> NoDateShape(flat[k])
  {
    var root := SplitNested(flat);
    WrittenMap(flat);
    var text := EmitToml(Record(root), []);
    r := ParseToml(text.value);
  }
}
