/**
 Every value of the written vocabulary is read back, except for date-shaped integers.

 Reading is first followed on the text that is left, for any text behind the value; the second half
 are the index-advancing methods of the reader, each proved to agree with that reading. A list is
 read element by element, so the proof follows the elements from an index on.
 */
module TomlValues {
  import opened Outcomes
  import opened ConfigValues
  import opened TomlText

  /** Booleans, 64-bit integers, strings, and arrays of these at any depth. */
  predicate Tame(v: ConfigValue) {
    match v
    case Bool(_) => true
    case Int(n) => Int64(n)
    case Str(_) => true
    case Sequence(items) => forall i | 0 <= i < |items| :: Tame(items[i])
    case _ => false
  }

  /** What the reader makes of a written value: date-shaped integers become dates. */
  function Misread(v: ConfigValue): (r: ConfigValue)
    ensures Tame(v) ==> !r.Record?
  {
    match v
    case Int(n) => if DateShaped(n) then Datetime else v
    case Sequence(items) => Sequence(seq(|items|, i requires 0 <= i < |items| => Misread(items[i])))
    case _ => v
  }

  predicate NoDateShape(v: ConfigValue) {
    match v
    case Int(n) => !DateShaped(n)
    case Sequence(items) => forall i | 0 <= i < |items| :: NoDateShape(items[i])
    case _ => true
  }

  lemma {:induction false} MisreadOnlyDates(v: ConfigValue)
    requires Tame(v)
    ensures Misread(v) == v <==> NoDateShape(v)
  {
    if v.Sequence? {
      forall i | 0 <= i < |v.items| ensures Misread(v.items[i]) == v.items[i] <==> NoDateShape(v.items[i]) {
        MisreadOnlyDates(v.items[i]);
      }
      var read := Misread(v).items;
      if NoDateShape(v) {
        assert read == v.items;
      }
      if read == v.items {
        forall i | 0 <= i < |v.items| ensures NoDateShape(v.items[i]) {
          assert read[i] == Misread(v.items[i]);
        }
      }
    }
  }

  lemma {:induction false} TameIsBridged(v: ConfigValue)
    requires Tame(v)
    ensures Bridged(v)
    decreases v
  {
    if v.Sequence? {
      forall i | 0 <= i < |v.items| ensures Bridged(v.items[i]) { TameIsBridged(v.items[i]); }
    }
  }

  // --- Strings ---------------------------------------------------------------------------

  lemma {:induction false} EscapeRead(s: string, rest: string)
    ensures StringBody(Escape(s) + "\"" + rest) == Ok((s, rest))
  {
    if s == "" {
      assert Escape(s) + "\"" + rest == ['"'] + rest;
      assert (['"'] + rest)[1..] == rest;
    } else {
      EscapeRead(s[1..], rest);
      EscapeStep(s[0], s[1..], Escape(s[1..]) + "\"" + rest, rest);
      assert Escape(s) + "\"" + rest == EscapeChar(s[0]) + (Escape(s[1..]) + "\"" + rest);
      assert s == [s[0]] + s[1..];
    }
  }

  lemma {:induction false} EscapeStep(c: char, s: string, more: string, rest: string)
    requires StringBody(more) == Ok((s, rest))
    ensures StringBody(EscapeChar(c) + more) == Ok(([c] + s, rest))
  {
    var head := EscapeChar(c);
    if |head| == 2 {
      assert (head + more)[2..] == more;
    } else {
      assert (head + more)[1..] == more;
    }
  }

  // --- Tokens ----------------------------------------------------------------------------

  /** The text after a value: the end, a separator, or the end of an array. */
  predicate Follows(rest: string) {
    rest == "" || rest[0] == ',' || rest[0] == ']'
  }

  predicate TokenChar(c: char) {
    !Blank(c) && !EndsToken(c) && c != '"' && c != '[' && c != '{' && c != '\n'
  }

  lemma {:induction false} TokenLengthOf(token: string, rest: string)
    requires Follows(rest) && forall i :: 0 <= i < |token| ==> TokenChar(token[i])
    ensures TokenLength(token + rest) == |token|
  {
    if token == "" {
      assert token + rest == rest;
    } else {
      assert (token + rest)[1..] == token[1..] + rest;
      TokenLengthOf(token[1..], rest);
    }
  }

  lemma {:induction false} TokenRead(token: string, rest: string)
    requires Follows(rest) && token != "" && forall i :: 0 <= i < |token| ==> TokenChar(token[i])
    requires ScalarOf(token).Ok?
    ensures ParseValue(token + rest) == Ok((ScalarOf(token).value, rest))
  {
    TokenLengthOf(token, rest);
    var text := token + rest;
    assert text[0] == token[0];
    assert text[..|token|] == token && text[|token|..] == rest;
    assert TrimEnd(token) == token;
  }

  /** How a written value starts, and that it stays on one line. */
  lemma {:induction false} TextStart(v: ConfigValue)
    requires Tame(v) && Bridged(v)
    ensures TextOf(v) != "" && !Blank(TextOf(v)[0]) && TextOf(v)[0] != ']' && TextOf(v)[0] != ','
  {
    match v
    case Bool(flag) => assert TextOf(v)[0] == if flag then 't' else 'f';
    case Int(n) => IntTextShape(n);
    case Str(s) => assert TextOf(v)[0] == '"';
    case Sequence(items) => assert TextOf(v)[0] == '[';
  }

  lemma {:induction false} EscapeOneLine(s: string)
    ensures '\n' !in Escape(s)
  {
    if s != "" {
      EscapeOneLine(s[1..]);
      assert '\n' !in EscapeChar(s[0]);
    }
  }

  lemma {:induction false} OneLine(v: ConfigValue)
    requires Tame(v) && Bridged(v)
    ensures '\n' !in TextOf(v)
    decreases v, 1
  {
    match v
    case Bool(_) =>
    case Int(n) => IntTextShape(n);
    case Str(s) => EscapeOneLine(s);
    case Sequence(items) => ItemsOneLine(v, 0);
  }

  lemma {:induction false} ItemsOneLine(v: ConfigValue, i: nat)
    requires Tame(v) && Bridged(v) && v.Sequence? && i <= |v.items|
    ensures '\n' !in ItemsText(v, i)
    decreases v, 0, |v.items| - i
  {
    if i < |v.items| {
      OneLine(v.items[i]);
      ItemsOneLine(v, i + 1);
    }
  }

  // --- Values -----------------------------------------------------------------------------

  /** The written elements from `i` on, without a separator in front. */
  function TailText(v: ConfigValue, i: nat): string
    requires Bridged(v) && v.Sequence? && i <= |v.items|
  {
    if i == |v.items| then "" else TextOf(v.items[i]) + ItemsText(v, i + 1)
  }

  /** Reading a written value gives the value back with date-shaped integers misread, for any text behind it. */
  lemma {:induction false} ValueRead(v: ConfigValue, rest: string)
    requires Tame(v) && Bridged(v) && Follows(rest)
    ensures ParseValue(TextOf(v) + rest) == Ok((Misread(v), rest))
    decreases v, 1
  {
    if v.Sequence? {
      ItemsRead(v, 0, [], rest);
      assert [] + Misread(v).items[0..] == Misread(v).items;
      SequenceStart(v, rest);
    } else {
      ScalarRead(v, rest);
    }
  }

  lemma {:induction false} ScalarRead(v: ConfigValue, rest: string)
    requires Tame(v) && Bridged(v) && Follows(rest) && !v.Sequence?
    ensures ParseValue(TextOf(v) + rest) == Ok((Misread(v), rest))
  {
    match v
    case Bool(flag) => TokenRead(TextOf(v), rest);
    case Int(n) => IntRead(n, rest);
    case Str(s) =>
      StrRead(s, Escape(s) + "\"" + rest, rest);
      assert TextOf(v) + rest == ['"'] + (Escape(s) + "\"" + rest);
  }

  lemma {:induction false} IntRead(n: int, rest: string)
    requires Int64(n) && Follows(rest)
    ensures ParseValue(TextOf(Int(n)) + rest) == Ok((Misread(Int(n)), rest))
  {
    IntTextShape(n);
    IntRoundTrip(n);
    TokenRead(TextOf(Int(n)), rest);
  }

  lemma {:induction false} StrRead(s: string, inner: string, rest: string)
    requires inner == Escape(s) + "\"" + rest
    ensures ParseValue(['"'] + inner) == Ok((Str(s), rest))
  {
    EscapeRead(s, rest);
    assert (['"'] + inner)[1..] == inner;
  }

  lemma {:induction false} SequenceStart(v: ConfigValue, rest: string)
    requires Tame(v) && Bridged(v) && v.Sequence?
    ensures ParseValue(TextOf(v) + rest) == ParseItems(TailText(v, 0) + "]" + rest, [])
  {
    var inner := TailText(v, 0) + "]" + rest;
    assert ItemsText(v, 0) == TailText(v, 0);
    assert TextOf(v) == "[" + TailText(v, 0) + "]";
    Bracketed(TailText(v, 0), rest);
    assert (['['] + inner)[1..] == inner;
    TailStart(v, 0, rest);
  }

  lemma Bracketed(items: string, rest: string)
    ensures "[" + items + "]" + rest == ['['] + (items + "]" + rest)
  {}

  lemma {:induction false} TailStart(v: ConfigValue, i: nat, rest: string)
    requires Tame(v) && Bridged(v) && v.Sequence? && i <= |v.items|
    ensures SkipBlanks(TailText(v, i) + "]" + rest) == TailText(v, i) + "]" + rest
    ensures i < |v.items| ==> (TailText(v, i) + "]" + rest)[0] != ']'
  {
    if i < |v.items| { TextStart(v.items[i]); }
  }

  /** Behind one element: the separator leads to the next one. */
  lemma BehindElement(v: ConfigValue, i: nat, rest: string)
    requires Tame(v) && Bridged(v) && v.Sequence? && i < |v.items|
    ensures var behind := ItemsText(v, i + 1) + "]" + rest;
      Follows(behind) && AfterElement(behind) == TailText(v, i + 1) + "]" + rest
  {
    var behind := ItemsText(v, i + 1) + "]" + rest;
    var next := TailText(v, i + 1) + "]" + rest;
    TailStart(v, i + 1, rest);
    if i + 1 == |v.items| {
      assert behind == next;
    } else {
      assert behind == [','] + ([' '] + next);
      assert behind[1..] == [' '] + next;
      assert ([' '] + next)[1..] == next;
    }
  }

  lemma TakeOne<T>(done: seq<T>, items: seq<T>, i: nat)
    requires i < |items|
    ensures done + [items[i]] + items[i + 1..] == done + items[i..]
  {}

  lemma {:induction false} OneItem(v: ConfigValue, i: nat, done: seq<ConfigValue>, rest: string)
    requires Tame(v) && Bridged(v) && v.Sequence? && i < |v.items|
    requires var behind := ItemsText(v, i + 1) + "]" + rest;
             ParseValue(TextOf(v.items[i]) + behind) == Ok((Misread(v.items[i]), behind))
    ensures ParseItems(TailText(v, i) + "]" + rest, done)
            == ParseItems(TailText(v, i + 1) + "]" + rest, done + [Misread(v.items[i])])
  {
    var behind := ItemsText(v, i + 1) + "]" + rest;
    TailStart(v, i, rest);
    BehindElement(v, i, rest);
    assert TailText(v, i) + "]" + rest == TextOf(v.items[i]) + behind;
  }

  lemma {:induction false} ItemsRead(v: ConfigValue, i: nat, done: seq<ConfigValue>, rest: string)
    requires Tame(v) && Bridged(v) && v.Sequence? && i <= |v.items|
    ensures ParseItems(TailText(v, i) + "]" + rest, done) == Ok((Sequence(done + Misread(v).items[i..]), rest))
    decreases v, 0, |v.items| - i
  {
    var text := TailText(v, i) + "]" + rest;
    if i == |v.items| {
      assert text == [']'] + rest;
      assert text[1..] == rest;
      assert done + Misread(v).items[i..] == done;
    } else {
      BehindElement(v, i, rest);
      ValueRead(v.items[i], ItemsText(v, i + 1) + "]" + rest);
      OneItem(v, i, done, rest);
      ItemsRead(v, i + 1, done + [Misread(v.items[i])], rest);
      TakeOne(done, Misread(v).items, i);
    }
  }

  /** Exactly the values without a date-shaped integer come back. */
  lemma {:induction false} ValueRoundTrip(v: ConfigValue)
    requires Tame(v)
    ensures Bridged(v)
    ensures ParseValue(TextOf(v)) == Ok((v, "")) <==> NoDateShape(v)
  {
    TameIsBridged(v);
    ValueRead(v, "");
    assert TextOf(v) + "" == TextOf(v);
    MisreadOnlyDates(v);
  }

  // --- The index-advancing reader -----------------------------------------------------------

  /** The text left at an index agrees with a result on that text. */
  ghost predicate At<T>(s: string, start: nat, r: Result<(T, nat), string>, spec: Result<(T, string), string>) {
    match r
    case Err(_) => spec.Err?
    case Ok((v, i)) => start <= i <= |s| && spec == Ok((v, s[i..]))
  }

  method SkipFrom(s: string, start: nat) returns (i: nat)
    requires start <= |s|
    ensures start <= i <= |s| && s[i..] == SkipBlanks(s[start..])
  {
    i := start;
    while i < |s| && Blank(s[i])
      invariant start <= i <= |s| && SkipBlanks(s[i..]) == SkipBlanks(s[start..])
    {
      assert s[i..][1..] == s[i + 1..];
      i := i + 1;
    }
  }

  function Longer(first: string, r: Result<(string, string), string>): Result<(string, string), string> {
    match r
    case Ok((body, rest)) => Ok((first + body, rest))
    case Err(e) => Err(e)
  }

  lemma LongerNothing(r: Result<(string, string), string>)
    ensures Longer("", r) == r
  {
    if r.Ok? { assert "" + r.value.0 == r.value.0; }
  }

  lemma LongerTwice(first: string, c: char, r: Result<(string, string), string>)
    ensures Longer(first, Longer([c], r)) == Longer(first + [c], r)
  {
    if r.Ok? { assert first + ([c] + r.value.0) == first + [c] + r.value.0; }
  }

  lemma {:induction false} StringStep(t: string)
    requires t != "" && t[0] != '"'
    ensures StringBody(t) ==
      if t[0] == '\\' && |t| > 1 then Longer([Unescape(t[1])], StringBody(t[2..])) else Longer([t[0]], StringBody(t[1..]))
  {}

  /** The body `spec` of a string, of which `out` has been read up to `i`. */
  ghost predicate Reading(s: string, i: nat, out: string, spec: Result<(string, string), string>) {
    i <= |s| && spec == Longer(out, StringBody(s[i..]))
  }

  method ReadString(s: string, start: nat) returns (r: Result<(string, nat), string>)
    requires start < |s|
    ensures At(s, start, r, StringBody(s[start + 1..]))
    ensures r.Ok? ==> r.value.1 > start
  {
    var i := start + 1;
    var out := "";
    ghost var spec := StringBody(s[i..]);
    LongerNothing(spec);
    while i < |s| && s[i] != '"'
      invariant start < i && Reading(s, i, out, spec)
    {
      StringStepAt(s, i, out, spec);
      if s[i] == '\\' && i + 1 < |s| {
        out, i := out + [Unescape(s[i + 1])], i + 2;
      } else {
        out, i := out + [s[i]], i + 1;
      }
    }
    StringEnd(s, i, out, spec);
    return if i >= |s| then Err("unterminated string") else Ok((out, i + 1));
  }

  lemma StringStepAt(s: string, i: nat, out: string, spec: Result<(string, string), string>)
    requires Reading(s, i, out, spec) && i < |s| && s[i] != '"'
    ensures if s[i] == '\\' && i + 1 < |s| then Reading(s, i + 2, out + [Unescape(s[i + 1])], spec)
      else Reading(s, i + 1, out + [s[i]], spec)
  {
    StringStep(s[i..]);
    if s[i] == '\\' && i + 1 < |s| {
      assert s[i..][2..] == s[i + 2..];
      LongerTwice(out, Unescape(s[i + 1]), StringBody(s[i + 2..]));
    } else {
      assert s[i..][1..] == s[i + 1..];
      LongerTwice(out, s[i], StringBody(s[i + 1..]));
    }
  }

  lemma StringEnd(s: string, i: nat, out: string, spec: Result<(string, string), string>)
    requires Reading(s, i, out, spec) && (i < |s| ==> s[i] == '"')
    ensures if i == |s| then spec.Err? else spec == Ok((out, s[i + 1..]))
  {
    if i < |s| {
      assert s[i..][1..] == s[i + 1..] && out + "" == out;
    }
  }

  method SkipElementEnd(s: string, start: nat) returns (i: nat)
    requires start <= |s|
    ensures start <= i <= |s| && s[i..] == AfterElement(s[start..])
  {
    i := SkipFrom(s, start);
    if i < |s| && s[i] == ',' {
      assert s[i..][1..] == s[i + 1..];
      i := SkipFrom(s, i + 1);
    }
  }

  method ReadArray(s: string, start: nat) returns (r: Result<(ConfigValue, nat), string>)
    requires start < |s|
    ensures At(s, start, r, ParseItems(SkipBlanks(s[start + 1..]), []))
    decreases |s| - start, 0
  {
    var items: seq<ConfigValue> := [];
    var i := SkipFrom(s, start + 1);
    while i < |s| && s[i] != ']'
      invariant start < i <= |s|
      invariant ParseItems(SkipBlanks(s[start + 1..]), []) == ParseItems(s[i..], items)
      decreases |s| - i
    {
      var item := ReadValue(s, i);
      if item.Err? {
        return Err(item.error);
      }
      items := items + [item.value.0];
      i := SkipElementEnd(s, item.value.1);
    }
    if i >= |s| {
      return Err("unterminated array");
    }
    assert s[i..][1..] == s[i + 1..];
    return Ok((Sequence(items), i + 1));
  }

  method ReadInlineTable(s: string, start: nat) returns (r: Result<(ConfigValue, nat), string>)
    requires start < |s|
    ensures At(s, start, r, ParseFields(SkipBlanks(s[start + 1..]), [(INLINE_MARKER, Bool(true))]))
    decreases |s| - start, 0
  {
    var fields := [(INLINE_MARKER, Bool(true))];
    var i := SkipFrom(s, start + 1);
    while i < |s| && s[i] != '}'
      invariant start < i <= |s|
      invariant ParseFields(SkipBlanks(s[start + 1..]), [(INLINE_MARKER, Bool(true))]) == ParseFields(s[i..], fields)
      decreases |s| - i
    {
      var field := ReadField(s, i, fields);
      if field.Err? {
        return Err(field.error);
      }
      fields, i := field.value.0, field.value.1;
    }
    if i >= |s| {
      return Err("unterminated inline table");
    }
    assert s[i..][1..] == s[i + 1..];
    return Ok((Record(fields), i + 1));
  }

  /** One `key = value` of an inline table, with the separator behind it. */
  method ReadField(s: string, start: nat, fields: seq<(string, ConfigValue)>)
    returns (r: Result<(seq<(string, ConfigValue)>, nat), string>)
    requires start < |s| && s[start] != '}'
    ensures r.Err? ==> ParseFields(s[start..], fields).Err?
    ensures r.Ok? ==> start < r.value.1 <= |s| && ParseFields(s[start..], fields) == ParseFields(s[r.value.1..], r.value.0)
    decreases |s| - start, 0
  {
    ghost var t := s[start..];
    FieldStep(t, fields, BehindKey(t));
    var key := ReadEquals(s, start);
    if key.Err? {
      return Err(key.error);
    }
    var (n, at) := key.value;
    var item := ReadValue(s, at);
    if item.Err? {
      return Err(item.error);
    }
    var next := SkipElementEnd(s, item.value.1);
    return Ok((fields + [(s[start..n], item.value.0)], next));
  }

  /** What follows the key at the start of t. */
  function BehindKey(t: string): string {
    SkipBlanks(t[KeyLength(t)..])
  }

  /** The end of a key and the start of its value. */
  method ReadEquals(s: string, start: nat) returns (r: Result<(nat, nat), string>)
    requires start < |s|
    ensures var t := s[start..]; var u := BehindKey(t);
            if u == "" || u[0] != '=' then r.Err?
            else r.Ok? && start <= r.value.0 < r.value.1 <= |s|
                 && s[start..r.value.0] == t[..KeyLength(t)] && s[r.value.1..] == SkipBlanks(u[1..])
  {
    var n := ReadKey(s, start);
    var eq := SkipFrom(s, n);
    if eq >= |s| || s[eq] != '=' {
      return Err("expected '=' in inline table");
    }
    assert s[eq..][1..] == s[eq + 1..];
    var at := SkipFrom(s, eq + 1);
    return Ok((n, at));
  }

  lemma {:induction false} FieldStep(t: string, fields: seq<(string, ConfigValue)>, u: string)
    requires t != "" && t[0] != '}' && u == BehindKey(t)
    ensures u == "" || u[0] != '=' ==> ParseFields(t, fields).Err?
    ensures u != "" && u[0] == '=' ==>
              var r := ParseValue(SkipBlanks(u[1..]));
              if r.Err? then ParseFields(t, fields).Err?
              else ParseFields(t, fields) == ParseFields(AfterElement(r.value.1), fields + [(t[..KeyLength(t)], r.value.0)])
  {}

  method ReadKey(s: string, start: nat) returns (i: nat)
    requires start <= |s|
    ensures start <= i <= |s| && i == start + KeyLength(s[start..])
    ensures s[start..i] == s[start..][..KeyLength(s[start..])] && s[i..] == s[start..][KeyLength(s[start..])..]
  {
    i := start;
    while i < |s| && !EndsKey(s[i])
      invariant start <= i <= |s| && KeyLength(s[start..]) == i - start + KeyLength(s[i..])
    {
      assert s[i..][1..] == s[i + 1..];
      i := i + 1;
    }
  }

  method ReadValue(s: string, start: nat) returns (r: Result<(ConfigValue, nat), string>)
    requires start <= |s|
    ensures At(s, start, r, ParseValue(s[start..]))
    ensures r.Ok? ==> r.value.1 > start
    decreases |s| - start, 1
  {
    var i := SkipFrom(s, start);
    if i >= |s| {
      return Err("expected value");
    }
    assert s[i..][1..] == s[i + 1..];
    if s[i] == '"' {
      var body := ReadString(s, i);
      if body.Err? {
        return Err(body.error);
      }
      return Ok((Str(body.value.0), body.value.1));
    }
    if s[i] == '[' {
      r := ReadArray(s, i);
    } else if s[i] == '{' {
      r := ReadInlineTable(s, i);
    } else {
      r := ReadScalar(s, i);
    }
  }

  method ReadScalar(s: string, start: nat) returns (r: Result<(ConfigValue, nat), string>)
    requires start < |s|
    ensures var t := s[start..]; var n := TokenLength(t);
      match ScalarOf(TrimEnd(t[..n]))
      case Err(_) => r.Err?
      case Ok(v) => n > 0 && r == Ok((v, start + n))
  {
    var end := start;
    while end < |s| && !EndsToken(s[end])
      invariant start <= end <= |s| && TokenLength(s[start..]) == end - start + TokenLength(s[end..])
    {
      assert s[end..][1..] == s[end + 1..];
      end := end + 1;
    }
    assert s[start..][..end - start] == s[start..end];
    var scalar := ScalarOf(TrimEnd(s[start..end]));
    if scalar.Err? {
      return Err(scalar.error);
    }
    return Ok((scalar.value, end));
  }
}
