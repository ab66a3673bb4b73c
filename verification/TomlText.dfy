/**
 One value as TOML text and back: the deterministic writer and the index-advancing reader.
 The reader's meaning is given on the text that is left; its methods advance an index.
 */
module TomlText {
  import opened Outcomes
  import opened ConfigValues

  const INLINE_MARKER := "\U{01}__inline__"

  // --- Integers -----------------------------------------------------------------------

  function DigitChar(d: nat): char
    requires d < 10
  {
    "0123456789"[d]
  }

  predicate Digit(c: char) {
    '0' <= c <= '9'
  }

  function Digits(n: nat): string {
    if n < 10 then [DigitChar(n)] else Digits(n / 10) + [DigitChar(n % 10)]
  }

  function IntText(n: int): string {
    if n < 0 then "-" + Digits(-n) else Digits(n)
  }

  function DigitValue(c: char): nat
    requires Digit(c)
  {
    (c - '0') as nat
  }

  /** Reads a run of digits in front of anything else. */
  function ReadDigits(s: string, value: nat): nat {
    if s != "" && Digit(s[0]) then ReadDigits(s[1..], 10 * value + DigitValue(s[0])) else value
  }

  predicate Space(c: char) {
    c == ' ' || '\t' <= c <= '\r'
  }

  /** The library's integer parse: leading space, a sign, digits; the rest is ignored. */
  function ReadInteger(s: string): Option<int>
    decreases |s|
  {
    if s != "" && Space(s[0]) then ReadInteger(s[1..])
    else
      var negative := s != "" && s[0] == '-';
      var body := if s != "" && (s[0] == '-' || s[0] == '+') then s[1..] else s;
      if body == "" || !Digit(body[0]) then None
      else
        var value: int := ReadDigits(body, 0);
        var n: int := if negative then -value else value;
        if Int64(n) then Some(n) else None
  }

  // --- Scalars --------------------------------------------------------------------------

  predicate DateChar(c: char) {
    Digit(c) || c == '-' || c == ':' || c == 'T' || c == 'Z' || c == '.' || c == '+'
  }

  predicate LooksDatetime(token: string) {
    && |token| >= 8 && (forall i | 0 <= i < |token| :: DateChar(token[i]))
    && (':' in token || ('-' in token && |token| == 10))
  }

  function ScalarOf(token: string): Result<ConfigValue, string> {
    if token == "true" then Ok(Bool(true))
    else if token == "false" then Ok(Bool(false))
    else if LooksDatetime(token) then Ok(Datetime)
    else if '.' in token || 'e' in token || 'E' in token then Ok(Float(token))
    else
      match ReadInteger(token)
      case Some(n) => Ok(Int(n))
      case None => Err("unrecognised scalar token")
  }

  /** Negative integers of exactly nine digits have the shape of a calendar date. */
  predicate DateShaped(n: int) {
    -999_999_999 <= n <= -100_000_000
  }

  function Power10(k: nat): nat {
    if k == 0 then 1 else 10 * Power10(k - 1)
  }

  lemma {:induction false} DigitsShape(n: nat)
    ensures Digits(n) != "" && forall i :: 0 <= i < |Digits(n)| ==> Digit(Digits(n)[i])
  {
    if n >= 10 { DigitsShape(n / 10); }
  }

  lemma {:induction false} DigitsAtMost(n: nat, k: nat)
    requires k > 0 && n < Power10(k)
    ensures |Digits(n)| <= k
  {
    if n >= 10 {
      assert Power10(1) == 10;
      DigitsAtMost(n / 10, k - 1);
    }
  }

  lemma {:induction false} DigitsMoreThan(n: nat, k: nat)
    requires n >= Power10(k)
    ensures |Digits(n)| > k
  {
    DigitsShape(n);
    if k > 0 {
      assert Power10(k) == 10 * Power10(k - 1);
      assert Power10(k - 1) >= 1 by { PowerPositive(k - 1); }
      DigitsMoreThan(n / 10, k - 1);
    }
  }

  lemma {:induction false} PowerPositive(k: nat)
    ensures Power10(k) >= 1
  {
    if k > 0 { PowerPositive(k - 1); }
  }

  lemma {:induction false} NineDigits(n: nat)
    ensures |Digits(n)| == 9 <==> 100_000_000 <= n <= 999_999_999
  {
    assert Power10(4) == 10_000;
    assert Power10(8) == 100_000_000;
    assert Power10(9) == 1_000_000_000;
    if n < Power10(8) { DigitsAtMost(n, 8); } else { DigitsMoreThan(n, 8); }
    if n < Power10(9) { DigitsAtMost(n, 9); } else { DigitsMoreThan(n, 9); }
  }

  lemma {:induction false} ReadDigitsAppend(s: string, c: char, value: nat)
    requires Digit(c) && forall i :: 0 <= i < |s| ==> Digit(s[i])
    ensures ReadDigits(s + [c], value) == 10 * ReadDigits(s, value) + DigitValue(c)
  {
    if s == "" {
      assert (s + [c])[1..] == "";
    } else {
      assert (s + [c])[1..] == s[1..] + [c];
      ReadDigitsAppend(s[1..], c, 10 * value + DigitValue(s[0]));
    }
  }

  lemma {:induction false} DigitsRead(n: nat)
    ensures ReadDigits(Digits(n), 0) == n
  {
    DigitsShape(n);
    if n < 10 {
      assert Digits(n)[1..] == "";
    } else {
      DigitsShape(n / 10);
      DigitsRead(n / 10);
      ReadDigitsAppend(Digits(n / 10), DigitChar(n % 10), 0);
    }
  }

  lemma IntRead(n: int)
    requires Int64(n)
    ensures ReadInteger(IntText(n)) == Some(n)
  {
    var m := if n < 0 then -n else n;
    DigitsShape(m);
    DigitsRead(m);
    if n < 0 { assert IntText(n)[1..] == Digits(m); }
  }

  lemma IntTextShape(n: int)
    ensures IntText(n) != ""
    ensures forall i :: 0 <= i < |IntText(n)| ==> Digit(IntText(n)[i]) || (i == 0 && n < 0 && IntText(n)[i] == '-')
    ensures '-' in IntText(n) <==> n < 0
    ensures |IntText(n)| == 10 && n < 0 <==> DateShaped(n)
  {
    var m := if n < 0 then -n else n;
    DigitsShape(m);
    NineDigits(m);
    if n < 0 { assert IntText(n)[0] == '-'; }
  }

  /** The reader takes a printed 64-bit integer back, except the date-shaped ones. */
  lemma IntRoundTrip(n: int)
    requires Int64(n)
    ensures ScalarOf(IntText(n)) == Ok(if DateShaped(n) then Datetime else Int(n))
  {
    var token := IntText(n);
    IntTextShape(n);
    IntRead(n);
    assert forall i :: 0 <= i < |token| ==> DateChar(token[i]);
    assert token[0] != 't' && token[0] != 'f';
    assert "true"[0] == 't' && "false"[0] == 'f';
  }

  // --- The writer ------------------------------------------------------------------------

  function EscapeChar(c: char): string {
    match c
    case '\\' => "\\\\"
    case '"' => "\\\""
    case '\n' => "\\n"
    case '\t' => "\\t"
    case _ => [c]
  }

  function Escape(s: string): string {
    if s == "" then "" else EscapeChar(s[0]) + Escape(s[1..])
  }

  lemma EscapeStep(s: string, i: nat)
    requires i < |s|
    ensures Escape(s[..i + 1]) == Escape(s[..i]) + EscapeChar(s[i])
  {
    EscapeConcat(s[..i], [s[i]]);
    assert s[..i + 1] == s[..i] + [s[i]];
    assert [s[i]][1..] == "";
  }

  lemma {:induction false} EscapeConcat(a: string, b: string)
    ensures Escape(a + b) == Escape(a) + Escape(b)
  {
    if a == "" {
      assert a + b == b;
    } else {
      assert (a + b)[1..] == a[1..] + b;
      EscapeConcat(a[1..], b);
    }
  }

  method TomlEscape(s: string) returns (out: string)
    ensures out == Escape(s)
  {
    out := "";
    for i := 0 to |s|
      invariant out == Escape(s[..i])
    {
      EscapeStep(s, i);
      match s[i] {
        case '\\' => out := out + "\\\\";
        case '"' => out := out + "\\\"";
        case '\n' => out := out + "\\n";
        case '\t' => out := out + "\\t";
        case _ => out := out + [s[i]];
      }
    }
    assert s[..|s|] == s;
  }

  function TextOf(v: ConfigValue): string
    requires Bridged(v)
    decreases v, 2
  {
    match v
    case Bool(flag) => if flag then "true" else "false"
    case Int(n) => IntText(n)
    case Float(text) => text
    case Str(s) => "\"" + Escape(s) + "\""
    case Sequence(items) => "[" + ItemsText(v, 0) + "]"
    case Record(fields) => "{" + FieldsText(v, 0, true) + "}"
  }

  function ItemsText(v: ConfigValue, i: nat): string
    requires Bridged(v) && v.Sequence? && i <= |v.items|
    decreases v, 1, |v.items| - i
  {
    if i == |v.items| then ""
    else (if i > 0 then ", " else "") + TextOf(v.items[i]) + ItemsText(v, i + 1)
  }

  function FieldsText(v: ConfigValue, i: nat, first: bool): string
    requires Bridged(v) && v.Record? && i <= |v.fields|
    decreases v, 1, |v.fields| - i
  {
    if i == |v.fields| then ""
    else if v.fields[i].0 == INLINE_MARKER then FieldsText(v, i + 1, first)
    else
      (if first then "" else ", ") + v.fields[i].0 + " = " + TextOf(v.fields[i].1) + FieldsText(v, i + 1, false)
  }

  /** The writer fails exactly on values the model must have rejected. */
  method ValueText(v: ConfigValue) returns (r: Result<string, string>)
    ensures r.Ok? <==> Bridged(v)
    ensures r.Ok? ==> r.value == TextOf(v)
    decreases v, 1
  {
    match v {
      case Bool(flag) => return Ok(if flag then "true" else "false");
      case Int(n) => return Ok(IntText(n));
      case Float(text) => return Ok(text);
      case Str(s) =>
        var escaped := TomlEscape(s);
        return Ok("\"" + escaped + "\"");
      case Sequence(items) => r := SequenceText(v);
      case Record(fields) => r := RecordText(v);
      case _ => return Err("value has no stdlib bridge and must be rejected by the model before serialisation");
    }
  }

  method SequenceText(v: ConfigValue) returns (r: Result<string, string>)
    requires v.Sequence?
    ensures r.Ok? <==> Bridged(v)
    ensures r.Ok? ==> r.value == TextOf(v)
    decreases v, 0
  {
    var out := "";
    for i := 0 to |v.items|
      invariant forall j :: 0 <= j < i ==> Bridged(v.items[j])
      invariant Bridged(v) ==> out + ItemsText(v, i) == ItemsText(v, 0)
    {
      var item := ValueText(v.items[i]);
      if item.Err? {
        return Err(item.error);
      }
      ghost var before := out;
      var separator := if i > 0 then ", " else "";
      out := out + separator + item.value;
      if Bridged(v) {
        assert before + (separator + item.value + ItemsText(v, i + 1)) == out + ItemsText(v, i + 1);
      }
    }
    assert out + ItemsText(v, |v.items|) == out;
    return Ok("[" + out + "]");
  }

  method RecordText(v: ConfigValue) returns (r: Result<string, string>)
    requires v.Record?
    ensures r.Ok? <==> Bridged(v)
    ensures r.Ok? ==> r.value == TextOf(v)
    decreases v, 0
  {
    var out := "";
    var first := true;
    for i := 0 to |v.fields|
      invariant forall j :: 0 <= j < i ==> Bridged(v.fields[j].1)
      invariant Bridged(v) ==> out + FieldsText(v, i, first) == FieldsText(v, 0, true)
    {
      var item := ValueText(v.fields[i].1);
      if item.Err? {
        return Err(item.error);
      }
      if v.fields[i].0 != INLINE_MARKER {
        ghost var before := out;
        var entry := (if first then "" else ", ") + v.fields[i].0 + " = " + item.value;
        out := out + entry;
        if Bridged(v) {
          assert before + (entry + FieldsText(v, i + 1, false)) == out + FieldsText(v, i + 1, false);
        }
        first := false;
      }
    }
    assert out + FieldsText(v, |v.fields|, first) == out;
    return Ok("{" + out + "}");
  }

  // --- The reader ------------------------------------------------------------------------

  predicate Blank(c: char) {
    c == ' ' || c == '\t'
  }

  function SkipBlanks(t: string): (r: string)
    ensures |r| <= |t| && (r == "" || !Blank(r[0]))
  {
    if t != "" && Blank(t[0]) then SkipBlanks(t[1..]) else t
  }

  function TrimEnd(t: string): string {
    if t != "" && Blank(t[|t| - 1]) then TrimEnd(t[..|t| - 1]) else t
  }

  function Unescape(c: char): char {
    match c
    case 'n' => '\n'
    case 't' => '\t'
    case _ => c
  }

  /** The string after an opening quote, and the text after its closing quote. */
  function StringBody(t: string): (r: Result<(string, string), string>)
    ensures r.Ok? ==> |r.value.1| < |t|
  {
    if t == "" then Err("unterminated string")
    else if t[0] == '"' then Ok(("", t[1..]))
    else
      var escaped := t[0] == '\\' && |t| > 1;
      match StringBody(t[if escaped then 2 else 1..])
      case Err(e) => Err(e)
      case Ok((body, rest)) => Ok(([if escaped then Unescape(t[1]) else t[0]] + body, rest))
  }

  predicate EndsToken(c: char) {
    c == ',' || c == ']' || c == '}'
  }

  function TokenLength(t: string): (n: nat)
    ensures n <= |t| && (n < |t| ==> EndsToken(t[n]))
  {
    if t == "" || EndsToken(t[0]) then 0 else 1 + TokenLength(t[1..])
  }

  predicate EndsKey(c: char) {
    c == '=' || Blank(c)
  }

  function KeyLength(t: string): (n: nat)
    ensures n <= |t|
  {
    if t == "" || EndsKey(t[0]) then 0 else 1 + KeyLength(t[1..])
  }

  /** After an element: blanks, and at most one comma with blanks behind it. */
  function AfterElement(t: string): (r: string)
    ensures |r| <= |t|
  {
    var u := SkipBlanks(t);
    if u != "" && u[0] == ',' then SkipBlanks(u[1..]) else u
  }

  function ParseValue(t: string): (r: Result<(ConfigValue, string), string>)
    ensures r.Ok? ==> |r.value.1| < |t|
    decreases |t|, 0
  {
    var u := SkipBlanks(t);
    if u == "" then Err("expected value")
    else if u[0] == '"' then
      match StringBody(u[1..])
      case Err(e) => Err(e)
      case Ok((body, rest)) => Ok((Str(body), rest))
    else if u[0] == '[' then ParseItems(SkipBlanks(u[1..]), [])
    else if u[0] == '{' then ParseFields(SkipBlanks(u[1..]), [(INLINE_MARKER, Bool(true))])
    else
      var n := TokenLength(u);
      match ScalarOf(TrimEnd(u[..n]))
      case Err(e) => Err(e)
      case Ok(v) => Ok((v, u[n..]))
  }

  function ParseItems(t: string, items: seq<ConfigValue>): (r: Result<(ConfigValue, string), string>)
    ensures r.Ok? ==> |r.value.1| < |t|
    decreases |t|, 1
  {
    if t == "" then Err("unterminated array")
    else if t[0] == ']' then Ok((Sequence(items), t[1..]))
    else
      match ParseValue(t)
      case Err(e) => Err(e)
      case Ok((v, rest)) => ParseItems(AfterElement(rest), items + [v])
  }

  function ParseFields(t: string, fields: seq<(string, ConfigValue)>): (r: Result<(ConfigValue, string), string>)
    ensures r.Ok? ==> |r.value.1| < |t|
    decreases |t|, 1
  {
    if t == "" then Err("unterminated inline table")
    else if t[0] == '}' then Ok((Record(fields), t[1..]))
    else
      var n := KeyLength(t);
      var u := SkipBlanks(t[n..]);
      if u == "" || u[0] != '=' then Err("expected '=' in inline table")
      else
        match ParseValue(SkipBlanks(u[1..]))
        case Err(e) => Err(e)
        case Ok((v, rest)) => ParseFields(AfterElement(rest), fields + [(t[..n], v)])
  }
}
