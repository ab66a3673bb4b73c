/** Values laid out by hand: blanks anywhere between their parts, arrays and inline tables at any depth. */
module TomlLayout {
  import opened Outcomes
  import opened ConfigValues
  import opened TomlText
  import opened TomlValues

  /** A run of blanks and tabs. */
  predicate Blanks(s: string) {
    forall i :: 0 <= i < |s| ==> s[i] == ' ' || s[i] == '\t'
  }

  /** The blanks behind an opening bracket, around a comma, around an equals sign, in front of a closing bracket. */
  datatype Layout = Layout(open: string, before: string, after: string, left: string, right: string, close: string)

  predicate Fine(y: Layout) {
    Blanks(y.open) && Blanks(y.before) && Blanks(y.after) && Blanks(y.left) && Blanks(y.right) && Blanks(y.close)
  }

  predicate FieldName(name: string) {
    name != "" && name[0] != '}' && name != INLINE_MARKER
    && forall i :: 0 <= i < |name| ==> name[i] !in ['=', ' ', '\t', '\n']
  }

  /** Booleans, 64-bit integers, strings, and arrays and inline tables of these at any depth. */
  predicate Readable(v: ConfigValue)
    decreases v
  {
    match v
    case Bool(_) => true
    case Int(n) => Int64(n)
    case Str(_) => true
    case Sequence(items) => forall i | 0 <= i < |items| :: Readable(items[i])
    case Record(fields) => forall i | 0 <= i < |fields| :: FieldName(fields[i].0) && Readable(fields[i].1)
    case _ => false
  }

  /** The value that is read: integers with the shape of a date are dates, and tables carry the marker. */
  function ReadBack(v: ConfigValue): ConfigValue
    decreases v
  {
    match v
    case Int(n) => if DateShaped(n) then Datetime else v
    case Sequence(items) => Sequence(seq(|items|, i requires 0 <= i < |items| => ReadBack(items[i])))
    case Record(fields) =>
      Record([(INLINE_MARKER, Bool(true))]
             + seq(|fields|, i requires 0 <= i < |fields| => (fields[i].0, ReadBack(fields[i].1))))
    case _ => v
  }

  function Loose(v: ConfigValue, y: Layout): string
    requires Readable(v)
    decreases v, 2
  {
    match v
    case Bool(flag) => if flag then "true" else "false"
    case Int(n) => IntText(n)
    case Str(s) => "\"" + Escape(s) + "\""
    case Sequence(items) => "[" + (y.open + (LooseItems(v, 0, y) + "]"))
    case Record(fields) => "{" + (y.open + (LooseFields(v, 0, y) + "}"))
  }

  /** What stands behind the element before the i-th of n. */
  function Gap(i: nat, n: nat, y: Layout): string {
    if i == n then y.close else y.before + ("," + y.after)
  }

  function LooseItems(v: ConfigValue, i: nat, y: Layout): string
    requires v.Sequence? && Readable(v) && i <= |v.items|
    decreases v, 1, |v.items| - i
  {
    if i == |v.items| then ""
    else Loose(v.items[i], y) + (Gap(i + 1, |v.items|, y) + LooseItems(v, i + 1, y))
  }

  function LooseFields(v: ConfigValue, i: nat, y: Layout): string
    requires v.Record? && Readable(v) && i <= |v.fields|
    decreases v, 1, |v.fields| - i
  {
    if i == |v.fields| then ""
    else
      v.fields[i].0 + (y.left + ("=" + (y.right +
        (Loose(v.fields[i].1, y) + (Gap(i + 1, |v.fields|, y) + LooseFields(v, i + 1, y))))))
  }

  // --- Blanks ---------------------------------------------------------------------------------

  lemma {:induction false} SkipRun(blanks: string, rest: string)
    requires Blanks(blanks)
    ensures SkipBlanks(blanks + rest) == SkipBlanks(rest)
  {
    if blanks == "" {
      assert blanks + rest == rest;
    } else {
      SkipRun(blanks[1..], rest);
      assert (blanks + rest)[1..] == blanks[1..] + rest;
    }
  }

  lemma {:induction false} SkipTo(blanks: string, rest: string)
    requires Blanks(blanks) && rest != "" && rest[0] != ' ' && rest[0] != '\t'
    ensures SkipBlanks(blanks + rest) == rest
  {
    SkipRun(blanks, rest);
  }

  lemma {:induction false} TrimRun(token: string, blanks: string)
    requires Blanks(blanks) && token != "" && token[|token| - 1] != ' ' && token[|token| - 1] != '\t'
    ensures TrimEnd(token + blanks) == token
    decreases |blanks|
  {
    if blanks == "" {
      assert token + blanks == token;
    } else {
      var shorter := blanks[..|blanks| - 1];
      TrimRun(token, shorter);
      assert (token + blanks)[..|token + blanks| - 1] == token + shorter;
    }
  }

  /** The text behind a value and its blanks: the end of the line, a comma or a closing bracket. */
  predicate Stops(rest: string) {
    rest == "" || rest[0] in [',', ']', '}']
  }

  predicate Left(r: string, w: string, rest: string) {
    r == rest || r == w + rest
  }

  // --- Scalars ----------------------------------------------------------------------------------

  lemma {:induction false} TokenSpan(token: string, rest: string)
    requires Stops(rest) && forall i :: 0 <= i < |token| ==> token[i] !in [',', ']', '}']
    ensures TokenLength(token + rest) == |token|
  {
    if token == "" {
      assert token + rest == rest;
    } else {
      assert (token + rest)[1..] == token[1..] + rest;
      TokenSpan(token[1..], rest);
    }
  }

  predicate Token(token: string) {
    token != "" && token[0] !in ['"', '[', '{'] && forall i :: 0 <= i < |token| ==> token[i] !in [',', ']', '}', ' ', '\t']
  }

  lemma {:induction false} ScalarLoose(token: string, w: string, rest: string)
    requires Token(token) && Blanks(w) && Stops(rest) && ScalarOf(token).Ok?
    ensures ParseValue(token + (w + rest)) == Ok((ScalarOf(token).value, rest))
  {
    var text, span := token + (w + rest), token + w;
    assert text == span + rest;
    TokenSpan(span, rest);
    TrimRun(token, w);
    assert text[0] == token[0];
    assert text[..|span|] == span && text[|span|..] == rest;
  }

  lemma IntToken(n: int)
    requires Int64(n)
    ensures Token(IntText(n))
  {
    IntTextShape(n);
  }

  lemma {:induction false} StrLoose(s: string, more: string)
    ensures ParseValue("\"" + Escape(s) + "\"" + more) == Ok((Str(s), more))
  {
    EscapeRead(s, more);
    assert "\"" + Escape(s) + "\"" + more == ['"'] + (Escape(s) + "\"" + more);
    assert (['"'] + (Escape(s) + "\"" + more))[1..] == Escape(s) + "\"" + more;
  }

  lemma PlainLoose(v: ConfigValue, y: Layout, w: string, rest: string) returns (r: string)
    requires Readable(v) && (v.Bool? || v.Int? || v.Str?) && Blanks(w) && Stops(rest)
    ensures ParseValue(Loose(v, y) + (w + rest)) == Ok((ReadBack(v), r)) && Left(r, w, rest)
  {
    r := rest;
    match v
    case Bool(flag) => ScalarLoose(if flag then "true" else "false", w, rest);
    case Int(n) =>
      IntToken(n);
      IntRoundTrip(n);
      ScalarLoose(IntText(n), w, rest);
    case Str(s) =>
      StrLoose(s, w + rest);
      r := w + rest;
  }

  // --- Arrays and inline tables --------------------------------------------------------------------

  lemma {:induction false} LooseStart(v: ConfigValue, y: Layout)
    requires Readable(v)
    ensures Loose(v, y) != "" && Loose(v, y)[0] !in [' ', '\t', ']', ',', '}']
  {
    if v.Int? { IntToken(v.number); }
  }

  /** Behind an element: its blanks, the comma and the blanks behind that are skipped. */
  lemma GapSkipped(i: nat, n: nat, y: Layout, next: string, r: string, w: string, rest: string)
    requires Fine(y) && next != "" && next[0] !in [' ', '\t'] && (i == n ==> next[0] != ',')
    requires w == (if i == n then y.close else y.before) && rest == (if i == n then next else "," + (y.after + next))
    requires Left(r, w, rest)
    ensures AfterElement(r) == next
  {
    SkipRun(w, rest);
    if i != n {
      assert rest[1..] == y.after + next;
      SkipTo(y.after, next);
    }
  }

  lemma GapText(i: nat, n: nat, y: Layout, next: string)
    ensures Gap(i, n, y) + next == if i == n then y.close + next else y.before + ("," + (y.after + next))
  {}

  lemma {:induction false} LooseRead(v: ConfigValue, y: Layout, w: string, rest: string) returns (r: string)
    requires Readable(v) && Fine(y) && Blanks(w) && Stops(rest)
    ensures ParseValue(Loose(v, y) + (w + rest)) == Ok((ReadBack(v), r)) && Left(r, w, rest)
    decreases v, 2
  {
    if v.Sequence? {
      r := w + rest;
      ItemsLoose(v, 0, y, [], r);
      ArrayStart(v, y, r);
      assert [] + ReadBack(v).items[0..] == ReadBack(v).items;
    } else if v.Record? {
      r := w + rest;
      FieldsLoose(v, 0, y, [(INLINE_MARKER, Bool(true))], r);
      TableStart(v, y, r);
      ReadAllFields(v);
    } else {
      r := PlainLoose(v, y, w, rest);
    }
  }

  lemma {:induction false} ReadAllFields(v: ConfigValue)
    requires v.Record?
    ensures ReadBack(v) == Record([(INLINE_MARKER, Bool(true))] + ReadFields(v, 0))
  {}

  lemma {:induction false} ArrayStart(v: ConfigValue, y: Layout, more: string)
    requires Readable(v) && v.Sequence? && Fine(y)
    ensures ParseValue(Loose(v, y) + more) == ParseItems(LooseItems(v, 0, y) + ("]" + more), [])
  {
    var inner := LooseItems(v, 0, y) + ("]" + more);
    ItemsStart(v, 0, y, more);
    SkipTo(y.open, inner);
    assert Loose(v, y) + more == ['['] + (y.open + inner);
    assert (['['] + (y.open + inner))[1..] == y.open + inner;
  }

  lemma {:induction false} ItemsStart(v: ConfigValue, i: nat, y: Layout, more: string)
    requires Readable(v) && v.Sequence? && i <= |v.items|
    ensures var text := LooseItems(v, i, y) + ("]" + more);
      text != "" && text[0] !in [' ', '\t', ','] && (i < |v.items| ==> text[0] != ']')
  {
    if i < |v.items| { LooseStart(v.items[i], y); }
  }

  lemma {:induction false} ItemTaken(text: string, done: seq<ConfigValue>, x: ConfigValue, r: string, next: string)
    requires text != "" && text[0] != ']' && ParseValue(text) == Ok((x, r)) && AfterElement(r) == next
    ensures ParseItems(text, done) == ParseItems(next, done + [x])
  {}

  lemma {:induction false} ItemsEnd(done: seq<ConfigValue>, more: string)
    ensures ParseItems("]" + more, done) == Ok((Sequence(done), more))
  {
    assert ("]" + more)[1..] == more;
  }

  /** One element, given that it is read, leads to the next one. */
  lemma ItemStep(v: ConfigValue, i: nat, y: Layout, done: seq<ConfigValue>, more: string, w: string, rest: string, r: string)
    requires Readable(v) && v.Sequence? && i < |v.items| && Fine(y)
    requires var next := LooseItems(v, i + 1, y) + ("]" + more); var last := i + 1 == |v.items|;
      w == (if last then y.close else y.before) && rest == (if last then next else "," + (y.after + next))
    requires ParseValue(Loose(v.items[i], y) + (w + rest)) == Ok((ReadBack(v.items[i]), r)) && Left(r, w, rest)
    ensures ParseItems(LooseItems(v, i, y) + ("]" + more), done)
      == ParseItems(LooseItems(v, i + 1, y) + ("]" + more), done + [ReadBack(v.items[i])])
  {
    var next := LooseItems(v, i + 1, y) + ("]" + more);
    ItemsStart(v, i, y, more);
    ItemsStart(v, i + 1, y, more);
    ItemText(v, i, y, more);
    GapSkipped(i + 1, |v.items|, y, next, r, w, rest);
    ItemTaken(LooseItems(v, i, y) + ("]" + more), done, ReadBack(v.items[i]), r, next);
  }

  lemma {:induction false} ItemsLoose(v: ConfigValue, i: nat, y: Layout, done: seq<ConfigValue>, more: string)
    requires Readable(v) && v.Sequence? && i <= |v.items| && Fine(y)
    ensures ParseItems(LooseItems(v, i, y) + ("]" + more), done) == Ok((Sequence(done + ReadBack(v).items[i..]), more))
    decreases v, 1, |v.items| - i
  {
    if i == |v.items| {
      ItemsEnd(done, more);
      assert "" + ("]" + more) == "]" + more;
      assert done + ReadBack(v).items[i..] == done;
    } else {
      var next := LooseItems(v, i + 1, y) + ("]" + more);
      var last := i + 1 == |v.items|;
      var w, rest := if last then y.close else y.before, if last then next else "," + (y.after + next);
      assert last ==> rest == "]" + more;
      var r := LooseRead(v.items[i], y, w, rest);
      ItemStep(v, i, y, done, more, w, rest, r);
      ItemsLoose(v, i + 1, y, done + [ReadBack(v.items[i])], more);
      OneMore(done, ReadBack(v).items, i);
    }
  }

  lemma ItemText(v: ConfigValue, i: nat, y: Layout, more: string)
    requires Readable(v) && v.Sequence? && i < |v.items|
    ensures var next := LooseItems(v, i + 1, y) + ("]" + more); var last := i + 1 == |v.items|;
      LooseItems(v, i, y) + ("]" + more)
        == Loose(v.items[i], y) + ((if last then y.close else y.before) + (if last then next else "," + (y.after + next)))
      && (last ==> next == "]" + more)
  {
    var tail := LooseItems(v, i + 1, y);
    GapText(i + 1, |v.items|, y, tail + ("]" + more));
    Regroup(Loose(v.items[i], y), Gap(i + 1, |v.items|, y), tail, "]" + more);
  }

  lemma Regroup(a: string, b: string, c: string, d: string)
    ensures a + (b + c) + d == a + (b + (c + d))
  {}

  lemma OneMore<T>(done: seq<T>, all: seq<T>, i: nat)
    requires i < |all|
    ensures done + [all[i]] + all[i + 1..] == done + all[i..]
  {}

  function ReadFields(v: ConfigValue, i: nat): seq<(string, ConfigValue)>
    requires v.Record? && i <= |v.fields|
  {
    seq(|v.fields| - i, k requires 0 <= k < |v.fields| - i => (v.fields[i + k].0, ReadBack(v.fields[i + k].1)))
  }

  lemma {:induction false} TableStart(v: ConfigValue, y: Layout, more: string)
    requires Readable(v) && v.Record? && Fine(y)
    ensures ParseValue(Loose(v, y) + more) == ParseFields(LooseFields(v, 0, y) + ("}" + more), [(INLINE_MARKER, Bool(true))])
  {
    var inner := LooseFields(v, 0, y) + ("}" + more);
    FieldsStart(v, 0, y, more);
    SkipTo(y.open, inner);
    assert Loose(v, y) + more == ['{'] + (y.open + inner);
    assert (['{'] + (y.open + inner))[1..] == y.open + inner;
  }

  lemma {:induction false} FieldsStart(v: ConfigValue, i: nat, y: Layout, more: string)
    requires Readable(v) && v.Record? && i <= |v.fields|
    ensures var text := LooseFields(v, i, y) + ("}" + more);
      text != "" && text[0] !in [' ', '\t'] && (i < |v.fields| ==> text[0] != '}')
  {
    if i < |v.fields| {
      assert FieldName(v.fields[i].0);
      assert (LooseFields(v, i, y) + ("}" + more))[0] == v.fields[i].0[0];
    }
  }

  lemma {:induction false} NameSpan(name: string, rest: string)
    requires (forall i :: 0 <= i < |name| ==> name[i] !in ['=', ' ', '\t']) && rest != "" && rest[0] in ['=', ' ', '\t']
    ensures KeyLength(name + rest) == |name|
  {
    if name == "" {
      assert name + rest == rest;
    } else {
      assert (name + rest)[1..] == name[1..] + rest;
      NameSpan(name[1..], rest);
    }
  }

  /** A key with its equals sign, and the value behind them. */
  lemma {:induction false} FieldTaken(name: string, y: Layout, value: string, fields: seq<(string, ConfigValue)>, x: ConfigValue, r: string, next: string)
    requires FieldName(name) && Fine(y) && value != "" && value[0] !in [' ', '\t']
    requires ParseValue(value) == Ok((x, r)) && AfterElement(r) == next
    ensures ParseFields(name + (y.left + ("=" + (y.right + value))), fields) == ParseFields(next, fields + [(name, x)])
  {
    var behind := "=" + (y.right + value);
    var text := name + (y.left + behind);
    assert y.left != "" ==> (y.left + behind)[0] == y.left[0];
    NameSpan(name, y.left + behind);
    assert text[0] == name[0] && text[..|name|] == name && text[|name|..] == y.left + behind;
    SkipTo(y.left, behind);
    assert behind[1..] == y.right + value;
    SkipTo(y.right, value);
  }

  lemma FieldText(v: ConfigValue, i: nat, y: Layout, more: string)
    requires Readable(v) && v.Record? && i < |v.fields|
    ensures var next := LooseFields(v, i + 1, y) + ("}" + more); var last := i + 1 == |v.fields|;
      LooseFields(v, i, y) + ("}" + more)
        == v.fields[i].0 + (y.left + ("=" + (y.right +
             (Loose(v.fields[i].1, y) + ((if last then y.close else y.before) + (if last then next else "," + (y.after + next)))))))
      && (last ==> next == "}" + more)
  {
    var tail := LooseFields(v, i + 1, y);
    var value := Loose(v.fields[i].1, y);
    GapText(i + 1, |v.fields|, y, tail + ("}" + more));
    Regroup(value, Gap(i + 1, |v.fields|, y), tail, "}" + more);
    Behind(v.fields[i].0, y, value + (Gap(i + 1, |v.fields|, y) + tail), "}" + more);
  }

  lemma Behind(name: string, y: Layout, value: string, more: string)
    ensures name + (y.left + ("=" + (y.right + value))) + more == name + (y.left + ("=" + (y.right + (value + more))))
  {}

  lemma {:induction false} FieldsEnd(done: seq<(string, ConfigValue)>, more: string)
    ensures ParseFields("}" + more, done) == Ok((Record(done), more))
  {
    assert ("}" + more)[1..] == more;
  }

  lemma FieldStep(v: ConfigValue, i: nat, y: Layout, done: seq<(string, ConfigValue)>, more: string, w: string, rest: string, r: string)
    requires Readable(v) && v.Record? && i < |v.fields| && Fine(y)
    requires var next := LooseFields(v, i + 1, y) + ("}" + more); var last := i + 1 == |v.fields|;
      w == (if last then y.close else y.before) && rest == (if last then next else "," + (y.after + next))
    requires var x := v.fields[i].1; ParseValue(Loose(x, y) + (w + rest)) == Ok((ReadBack(x), r)) && Left(r, w, rest)
    ensures ParseFields(LooseFields(v, i, y) + ("}" + more), done)
      == ParseFields(LooseFields(v, i + 1, y) + ("}" + more), done + [(v.fields[i].0, ReadBack(v.fields[i].1))])
  {
    var name, x := v.fields[i].0, v.fields[i].1;
    var next := LooseFields(v, i + 1, y) + ("}" + more);
    FieldsStart(v, i + 1, y, more);
    FieldText(v, i, y, more);
    LooseStart(x, y);
    GapSkipped(i + 1, |v.fields|, y, next, r, w, rest);
    FieldTaken(name, y, Loose(x, y) + (w + rest), done, ReadBack(x), r, next);
  }

  /** The fields from i on are read behind `done`. */
  ghost predicate FieldsRead(v: ConfigValue, i: nat, y: Layout, done: seq<(string, ConfigValue)>, more: string)
    requires Readable(v) && v.Record? && i <= |v.fields|
  {
    ParseFields(LooseFields(v, i, y) + ("}" + more), done) == Ok((Record(done + ReadFields(v, i)), more))
  }

  lemma FieldsChain(v: ConfigValue, i: nat, y: Layout, done: seq<(string, ConfigValue)>, more: string, w: string, rest: string, r: string)
    requires Readable(v) && v.Record? && i < |v.fields| && Fine(y)
    requires var next := LooseFields(v, i + 1, y) + ("}" + more); var last := i + 1 == |v.fields|;
      w == (if last then y.close else y.before) && rest == (if last then next else "," + (y.after + next))
    requires var x := v.fields[i].1; ParseValue(Loose(x, y) + (w + rest)) == Ok((ReadBack(x), r)) && Left(r, w, rest)
    requires FieldsRead(v, i + 1, y, done + [(v.fields[i].0, ReadBack(v.fields[i].1))], more)
    ensures FieldsRead(v, i, y, done, more)
  {
    FieldStep(v, i, y, done, more, w, rest, r);
    NextField(v, i, done);
  }

  lemma {:induction false} FieldsNone(v: ConfigValue, y: Layout, done: seq<(string, ConfigValue)>, more: string)
    requires Readable(v) && v.Record?
    ensures FieldsRead(v, |v.fields|, y, done, more)
  {
    FieldsEnd(done, more);
    assert "" + ("}" + more) == "}" + more;
    assert done + ReadFields(v, |v.fields|) == done;
  }

  lemma {:induction false} FieldsLoose(v: ConfigValue, i: nat, y: Layout, done: seq<(string, ConfigValue)>, more: string)
    requires Readable(v) && v.Record? && i <= |v.fields| && Fine(y)
    ensures FieldsRead(v, i, y, done, more)
    decreases v, 1, |v.fields| - i
  {
    if i == |v.fields| {
      FieldsNone(v, y, done, more);
    } else {
      var next := LooseFields(v, i + 1, y) + ("}" + more);
      var last := i + 1 == |v.fields|;
      var w, rest := if last then y.close else y.before, if last then next else "," + (y.after + next);
      assert last ==> rest == "}" + more;
      var r := LooseRead(v.fields[i].1, y, w, rest);
      FieldsLoose(v, i + 1, y, done + [(v.fields[i].0, ReadBack(v.fields[i].1))], more);
      FieldsChain(v, i, y, done, more, w, rest, r);
    }
  }

  lemma NextField(v: ConfigValue, i: nat, done: seq<(string, ConfigValue)>)
    requires v.Record? && i < |v.fields|
    ensures done + [(v.fields[i].0, ReadBack(v.fields[i].1))] + ReadFields(v, i + 1) == done + ReadFields(v, i)
  {
    assert ReadFields(v, i) == [(v.fields[i].0, ReadBack(v.fields[i].1))] + ReadFields(v, i + 1);
  }

  // --- The writer's own layout --------------------------------------------------------------------------

  const WRITTEN: Layout := Layout("", "", " ", " ", " ", "")

  /** The writer's text of a value is one of these layouts. */
  lemma {:induction false} WrittenIsLoose(v: ConfigValue)
    requires Readable(v)
    ensures Bridged(v) && TextOf(v) == Loose(v, WRITTEN)
    decreases v, 2
  {
    match v
    case Sequence(items) =>
      ReadableBridged(v);
      WrittenItems(v, 0);
      assert ItemsText(v, 0) == LooseItems(v, 0, WRITTEN);
    case Record(fields) =>
      ReadableBridged(v);
      WrittenFields(v, 0);
      assert FieldsText(v, 0, true) == LooseFields(v, 0, WRITTEN);
    case _ =>
  }

  lemma {:induction false} ReadableBridged(v: ConfigValue)
    requires Readable(v)
    ensures Bridged(v)
    decreases v
  {
    match v
    case Sequence(items) => forall i | 0 <= i < |items| ensures Bridged(items[i]) { ReadableBridged(items[i]); }
    case Record(fields) => forall i | 0 <= i < |fields| ensures Bridged(fields[i].1) { ReadableBridged(fields[i].1); }
    case _ =>
  }

  lemma {:induction false} WrittenItems(v: ConfigValue, i: nat)
    requires Readable(v) && v.Sequence? && Bridged(v) && i <= |v.items|
    ensures ItemsText(v, i) == (if 0 < i < |v.items| then ", " else "") + LooseItems(v, i, WRITTEN)
    decreases v, 1, |v.items| - i
  {
    if i < |v.items| {
      WrittenIsLoose(v.items[i]);
      WrittenItems(v, i + 1);
      ItemWritten(TextOf(v.items[i]), i + 1, |v.items|, LooseItems(v, i + 1, WRITTEN));
    }
  }

  lemma ItemWritten(value: string, i: nat, n: nat, tail: string)
    requires i <= n
    ensures value + ((if i < n then ", " else "") + tail) == value + (Gap(i, n, WRITTEN) + tail)
  {}

  lemma FieldWritten(name: string, value: string, i: nat, n: nat, tail: string)
    requires i <= n
    ensures name + " = " + value + ((if i < n then ", " else "") + tail)
      == name + (WRITTEN.left + ("=" + (WRITTEN.right + (value + (Gap(i, n, WRITTEN) + tail)))))
  {
    var gap := if i < n then ", " else "";
    assert Gap(i, n, WRITTEN) == gap;
    SpacedEquals(name, value, gap + tail);
  }

  lemma SpacedEquals(name: string, value: string, more: string)
    ensures name + " = " + value + more == name + (" " + ("=" + (" " + (value + more))))
  {}

  lemma {:induction false} WrittenFields(v: ConfigValue, i: nat)
    requires Readable(v) && v.Record? && Bridged(v) && i <= |v.fields|
    ensures FieldsText(v, i, i == 0) == (if 0 < i < |v.fields| then ", " else "") + LooseFields(v, i, WRITTEN)
    decreases v, 1, |v.fields| - i
  {
    if i < |v.fields| {
      WrittenIsLoose(v.fields[i].1);
      WrittenFields(v, i + 1);
      FieldWritten(v.fields[i].0, Loose(v.fields[i].1, WRITTEN), i + 1, |v.fields|, LooseFields(v, i + 1, WRITTEN));
    }
  }
}
