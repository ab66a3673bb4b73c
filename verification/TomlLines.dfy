/** Hand-kept documents: comments, blank lines, indentation and malformed lines, on whole texts. */
module TomlLines {
  import opened Outcomes
  import opened ConfigValues
  import opened TomlText
  import opened TomlValues
  import opened TomlLayout
  import opened TomlTables
  import opened TomlDocument
  import opened TomlRoundTrip

  /** A line without a setting: only blanks, or a comment behind them. */
  predicate Idle(line: string) {
    '\n' !in line && exists n :: 0 <= n <= |line| && Blanks(line[..n]) && (n == |line| || line[n] == '#')
  }

  lemma IdleLine(line: string, r: Reader)
    requires Idle(line)
    ensures ReadLine(line, r) == Ok(r)
  {
    var n :| 0 <= n <= |line| && Blanks(line[..n]) && (n == |line| || line[n] == '#');
    SkipRun(line[..n], line[n..]);
    assert line == line[..n] + line[n..];
  }

  // --- Documents ------------------------------------------------------------------------------

  /** The meaning of a text, behind a text that was read. */
  lemma ParseRun(text: string)
    ensures ParseText(text) == match RunText(text, Reader("", map[])) case Ok(r) => Ok(r.flat) case Err(e) => Err(e)
  {
    GetLinesRun(text, Reader("", map[]));
  }

  lemma RunTwo(a: string, b: string, r: Reader)
    ensures RunText(a + "\n" + b, r) == match RunText(a, r) case Ok(next) => RunText(b, next) case Err(e) => Err(e)
  {
    PiecesConcat(a, b);
    ReadLinesConcat(Pieces(a), Pieces(b), r);
  }

  lemma IdleRun(line: string, r: Reader)
    requires Idle(line)
    ensures RunText(line, r) == Ok(r)
  {
    PiecesOneLine(line);
    OneLineRun(line, r);
    IdleLine(line, r);
  }

  /** Comments and blank lines mean nothing, in front of, between and behind any other lines. */
  lemma IdleAnywhere(line: string, a: string, b: string)
    requires Idle(line)
    ensures ParseText(line + "\n" + b) == ParseText(b)
    ensures ParseText(a + "\n" + line) == ParseText(a)
    ensures ParseText(a + "\n" + line + "\n" + b) == ParseText(a + "\n" + b)
  {
    var start := Reader("", map[]);
    ParseRun(line + "\n" + b);
    ParseRun(b);
    RunTwo(line, b, start);
    IdleRun(line, start);
    IdleBehind(line, a);
    IdleBetween(line, a, b);
  }

  lemma IdleBehind(line: string, a: string)
    requires Idle(line)
    ensures ParseText(a + "\n" + line) == ParseText(a)
    ensures RunText(a + "\n" + line, Reader("", map[])) == RunText(a, Reader("", map[]))
  {
    var start := Reader("", map[]);
    ParseRun(a + "\n" + line);
    ParseRun(a);
    RunTwo(a, line, start);
    if RunText(a, start).Ok? { IdleRun(line, RunText(a, start).value); }
  }

  lemma IdleBetween(line: string, a: string, b: string)
    requires Idle(line)
    ensures ParseText(a + "\n" + line + "\n" + b) == ParseText(a + "\n" + b)
  {
    var start := Reader("", map[]);
    ParseRun(a + "\n" + line + "\n" + b);
    ParseRun(a + "\n" + b);
    IdleBehind(line, a);
    RunTwo(a + "\n" + line, b, start);
    RunTwo(a, b, start);
  }

  /** Indentation means nothing. */
  lemma IndentedAnywhere(blanks: string, line: string, a: string, b: string)
    requires Blanks(blanks) && '\n' !in line
    ensures ParseText(a + "\n" + (blanks + line) + "\n" + b) == ParseText(a + "\n" + line + "\n" + b)
  {
    forall r ensures RunText(blanks + line, r) == RunText(line, r) {
      PiecesOneLine(blanks + line);
      PiecesOneLine(line);
      OneLineRun(blanks + line, r);
      OneLineRun(line, r);
      SkipRun(blanks, line);
    }
    SameLine(blanks + line, line, a, b);
  }

  lemma SameLine(x: string, y: string, a: string, b: string)
    requires forall r :: RunText(x, r) == RunText(y, r)
    ensures ParseText(a + "\n" + x + "\n" + b) == ParseText(a + "\n" + y + "\n" + b)
  {
    var start := Reader("", map[]);
    ParseRun(a + "\n" + x + "\n" + b);
    ParseRun(a + "\n" + y + "\n" + b);
    RunTwo(a + "\n" + x, b, start);
    RunTwo(a + "\n" + y, b, start);
    RunTwo(a, x, start);
    RunTwo(a, y, start);
  }

  /** A line that is no header and sets nothing, or a header that is not closed. */
  predicate Malformed(line: string) {
    && line != "" && line[0] !in [' ', '\t', '#', '\n'] && '\n' !in line
    && (if line[0] == '[' then ']' !in line else '=' !in line)
  }

  /** A malformed line anywhere is an error. */
  lemma MalformedFails(line: string, a: string, b: string)
    requires Malformed(line)
    ensures ParseText(a + "\n" + line + "\n" + b).Err?
  {
    var start := Reader("", map[]);
    ParseRun(a + "\n" + line + "\n" + b);
    RunTwo(a + "\n" + line, b, start);
    RunTwo(a, line, start);
    if RunText(a, start).Ok? { MalformedRun(line, RunText(a, start).value); }
  }

  lemma {:induction false} Unfound(t: string, c: char)
    requires c !in t
    ensures FindChar(t, c) == |t|
  {
    if t != "" { Unfound(t[1..], c); }
  }

  lemma MalformedRun(line: string, r: Reader)
    requires Malformed(line)
    ensures RunText(line, r).Err?
  {
    PiecesOneLine(line);
    OneLineRun(line, r);
    Unfound(line, if line[0] == '[' then ']' else '=');
    assert SkipBlanks(line) == line;
  }

  // --- Settings --------------------------------------------------------------------------------

  predicate KeyText(key: string) {
    && key != "" && key[0] !in [' ', '\t', '#', '['] && key[|key| - 1] !in [' ', '\t']
    && forall i :: 0 <= i < |key| ==> key[i] != '=' && key[i] != '\n'
  }

  predicate TitleText(title: string) {
    forall i :: 0 <= i < |title| ==> title[i] != ']' && title[i] != '\n'
  }

  /** A section header; what stands behind its bracket means nothing. */
  lemma HeaderLine(title: string, tail: string, r: Reader)
    requires TitleText(title) && '\n' !in tail
    ensures RunText("[" + title + "]" + tail, r) == Ok(r.(section := title))
  {
    var line := "[" + title + "]" + tail;
    assert line == ("[" + title) + [']'] + tail;
    FindCharIn("[" + title, ']', tail);
    PiecesOneLine(line);
    OneLineRun(line, r);
    assert SkipBlanks(line) == line;
    assert line[1..|title| + 1] == title;
  }

  lemma {:induction false} LooseOneLine(v: ConfigValue, y: Layout)
    requires Readable(v) && Fine(y)
    ensures '\n' !in Loose(v, y)
    decreases v, 2
  {
    match v
    case Bool(_) =>
    case Int(n) => IntTextShape(n);
    case Str(s) => EscapeOneLine(s);
    case Sequence(items) => ItemsLine(v, 0, y);
    case Record(fields) => FieldsLine(v, 0, y);
  }

  lemma {:induction false} ItemsLine(v: ConfigValue, i: nat, y: Layout)
    requires v.Sequence? && Readable(v) && Fine(y) && i <= |v.items|
    ensures '\n' !in LooseItems(v, i, y)
    decreases v, 1, |v.items| - i
  {
    if i < |v.items| {
      LooseOneLine(v.items[i], y);
      ItemsLine(v, i + 1, y);
    }
  }

  lemma {:induction false} FieldsLine(v: ConfigValue, i: nat, y: Layout)
    requires v.Record? && Readable(v) && Fine(y) && i <= |v.fields|
    ensures '\n' !in LooseFields(v, i, y)
    decreases v, 1, |v.fields| - i
  {
    if i < |v.fields| {
      LooseOneLine(v.fields[i].1, y);
      FieldsLine(v, i + 1, y);
      assert FieldName(v.fields[i].0);
    }
  }

  lemma KeyEnds(key: string, w: string, text: string)
    requires KeyText(key) && Blanks(w)
    ensures var line := key + w + "=" + text;
      FindChar(line, '=') == |key + w| && TrimEnd(line[..|key + w|]) == key && line[|key + w| + 1..] == text
  {
    var front := key + w;
    assert '=' !in front;
    FindCharIn(front, '=', text);
    var line := key + w + "=" + text;
    assert line == front + ['='] + text;
    TomlLayout.TrimRun(key, w);
    assert line[..|front|] == front && line[|front| + 1..] == text;
  }

  /** A setting, whatever the blanks around its parts and inside its value. */
  lemma {:induction false} SettingLine(key: string, w1: string, w2: string, v: ConfigValue, y: Layout, w3: string, r: Reader)
    requires KeyText(key) && Blanks(w1) && Blanks(w2) && Blanks(w3) && Readable(v) && Fine(y)
    ensures var full := if r.section == "" then key else r.section + "." + key;
      RunText(key + w1 + "=" + (w2 + (Loose(v, y) + w3)), r) == Ok(r.(flat := r.flat[full := StripMarker(ReadBack(v))]))
  {
    var value := Loose(v, y) + w3;
    var line := key + w1 + "=" + (w2 + value);
    KeyEnds(key, w1, w2 + value);
    LooseOneLine(v, y);
    assert '\n' !in line by { assert forall i :: 0 <= i < |key| ==> key[i] != '\n'; }
    PiecesOneLine(line);
    OneLineRun(line, r);
    assert line[0] == key[0] && SkipBlanks(line) == line;
    LooseStart(v, y);
    SkipTo(w2, value);
    assert w3 + "" == w3;
    var left := LooseRead(v, y, w3, "");
    ParseBehind(w2, value);
  }

  lemma {:induction false} ParseBehind(w: string, value: string)
    requires Blanks(w) && value != "" && value[0] !in [' ', '\t']
    ensures ParseValue(w + value) == ParseValue(value)
  {
    SkipTo(w, value);
    assert SkipBlanks(value) == value;
  }

  /** A section with one setting, behind any text that can be read: the setting is added, or replaced. */
  lemma {:induction false} SettingRead(a: string, title: string, tail: string, key: string, w1: string, w2: string, v: ConfigValue, y: Layout, w3: string)
    requires ParseText(a).Ok? && TitleText(title) && '\n' !in tail
    requires KeyText(key) && Blanks(w1) && Blanks(w2) && Blanks(w3) && Readable(v) && Fine(y)
    ensures var full := if title == "" then key else title + "." + key;
      ParseText(a + "\n" + ("[" + title + "]" + tail) + "\n" + (key + w1 + "=" + (w2 + (Loose(v, y) + w3))))
        == Ok(ParseText(a).value[full := StripMarker(ReadBack(v))])
  {
    var start := Reader("", map[]);
    var header, line := "[" + title + "]" + tail, key + w1 + "=" + (w2 + (Loose(v, y) + w3));
    ParseRun(a);
    ParseRun(a + "\n" + header + "\n" + line);
    RunTwo(a, header, start);
    RunTwo(a + "\n" + header, line, start);
    var read := RunText(a, start).value;
    HeaderLine(title, tail, read);
    SettingLine(key, w1, w2, v, y, w3, read.(section := title));
  }

  // --- Which values come back -------------------------------------------------------------------

  /** No table anywhere, and no integer with the shape of a date. */
  predicate Bare(v: ConfigValue)
    decreases v
  {
    match v
    case Int(n) => !DateShaped(n)
    case Sequence(items) => forall i | 0 <= i < |items| :: Bare(items[i])
    case Record(_) => false
    case _ => true
  }

  /** No table inside an array, and no integer with the shape of a date. */
  predicate Exact(v: ConfigValue)
    decreases v
  {
    match v
    case Record(fields) => forall i | 0 <= i < |fields| :: Exact(fields[i].1)
    case _ => Bare(v)
  }

  lemma {:induction false} BareIff(v: ConfigValue)
    requires Readable(v)
    ensures ReadBack(v) == v <==> Bare(v)
    decreases v
  {
    match v
    case Sequence(items) =>
      forall i | 0 <= i < |items| ensures ReadBack(items[i]) == items[i] <==> Bare(items[i]) { BareIff(items[i]); }
      var read := ReadBack(v).items;
      if Bare(v) { assert read == items; }
      if read == items {
        forall i | 0 <= i < |items| ensures Bare(items[i]) { assert read[i] == items[i]; }
      }
    case Record(fields) => assert |ReadBack(v).fields| == |fields| + 1;
    case _ =>
  }

  /** The fields from i on, read and without markers. */
  function StrippedFields(v: ConfigValue, i: nat): Fields
    requires v.Record? && i <= |v.fields|
  {
    seq(|v.fields| - i, k requires 0 <= k < |v.fields| - i => (v.fields[i + k].0, StripMarker(ReadBack(v.fields[i + k].1))))
  }

  lemma FirstStripped(v: ConfigValue, i: nat)
    requires v.Record? && i < |v.fields|
    ensures StrippedFields(v, i) == [(v.fields[i].0, StripMarker(ReadBack(v.fields[i].1)))] + StrippedFields(v, i + 1)
  {}

  lemma {:induction false} StripRead(v: ConfigValue, i: nat)
    requires Readable(v) && v.Record? && i <= |v.fields|
    ensures StripFields(ReadBack(v), i + 1) == StrippedFields(v, i)
    decreases |v.fields| - i
  {
    if i < |v.fields| {
      StripRead(v, i + 1);
      FirstStripped(v, i);
      assert FieldName(v.fields[i].0);
      assert ReadBack(v).fields[i + 1] == (v.fields[i].0, ReadBack(v.fields[i].1));
    }
  }

  /** A setting comes back as it is, exactly without tables in arrays and without date-shaped integers. */
  lemma {:induction false} ExactIff(v: ConfigValue)
    requires Readable(v)
    ensures StripMarker(ReadBack(v)) == v <==> Exact(v)
    decreases v
  {
    if v.Record? {
      var fields, read := v.fields, ReadBack(v);
      StripRead(v, 0);
      assert read.fields[0] == (INLINE_MARKER, Bool(true));
      assert StripFields(read, 0) == [] + StripFields(read, 1);
      var stripped := StripMarker(read).fields;
      assert |stripped| == |fields|;
      forall i | 0 <= i < |fields| ensures stripped[i] == fields[i] <==> Exact(fields[i].1) { ExactIff(fields[i].1); }
      if Exact(v) { assert stripped == fields; }
      if stripped == fields {
        forall i | 0 <= i < |fields| ensures Exact(fields[i].1) { assert stripped[i] == fields[i]; }
      }
    } else {
      BareIff(v);
    }
  }

  /** A table inside an array keeps the reader's marker as a field of its own. */
  lemma ArrayTableMarked(fields: seq<(string, ConfigValue)>)
    requires Readable(Sequence([Record(fields)]))
    ensures StripMarker(ReadBack(Sequence([Record(fields)]))) != Sequence([Record(fields)])
    ensures var read := StripMarker(ReadBack(Sequence([Record(fields)])));
      read.Sequence? && |read.items| == 1 && read.items[0].Record? && |read.items[0].fields| == |fields| + 1
      && read.items[0].fields[0] == ("\U{01}__inline__", Bool(true))
  {
    var v := Sequence([Record(fields)]);
    assert !Bare(v.items[0]);
    ExactIff(v);
    assert ReadBack(v).items[0] == ReadBack(v.items[0]);
  }
}
