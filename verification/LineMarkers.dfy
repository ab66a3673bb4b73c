/**
 Line markers of preprocessed text: the escaped file names and the map from its lines to the
 original lines. Characters stand for bytes.
 */
module LineMarkers {
  import opened Outcomes

  // --- File names ---------------------------------------------------------------------------------

  predicate IsOctal(c: char) {
    '0' <= c <= '7'
  }

  function Digit(c: char): (d: nat)
    requires IsOctal(c)
    ensures d < 8
  {
    c as nat - '0' as nat
  }

  /** What a backslash and this character stand for. */
  function Letter(c: char): Option<char> {
    match c
    case '\\' => Some(c)
    case '"' => Some(c)
    case '\'' => Some(c)
    case '?' => Some(c)
    case 'a' => Some('\U{07}')
    case 'b' => Some('\U{08}')
    case 'f' => Some('\U{0C}')
    case 'n' => Some('\n')
    case 'r' => Some('\r')
    case 't' => Some('\t')
    case 'v' => Some('\U{0B}')
    case _ => None
  }

  /** The octal digits at the start of s, at most `most` of them. */
  function OctalRun(s: string, most: nat): (n: nat)
    ensures n <= most && n <= |s| && forall i :: 0 <= i < n ==> IsOctal(s[i])
    decreases most
  {
    if most == 0 || s == [] || !IsOctal(s[0]) then 0 else 1 + OctalRun(s[1..], most - 1)
  }

  function OctalValue(s: string): nat
    requires forall i :: 0 <= i < |s| ==> IsOctal(s[i])
  {
    if s == [] then 0 else 8 * OctalValue(s[..|s| - 1]) + Digit(s[|s| - 1])
  }

  /** The character an escape stands for, and how many characters it takes after its backslash. */
  function Escape(s: string): (r: Option<(char, nat)>)
    ensures r.Some? ==> 1 <= r.value.1 <= |s|
  {
    if s == [] then None
    else if IsOctal(s[0]) then
      var n := 1 + OctalRun(s[1..], 2);
      assert forall i :: 0 <= i < n ==> IsOctal(s[i]);
      var byte := OctalValue(s[..n]);
      if byte == 0 || byte > 255 then None else Some((byte as char, n))
    else
      match Letter(s[0])
      case None => None
      case Some(c) => Some((c, 1))
  }

  function After(front: string, rest: Option<string>): Option<string> {
    if rest.Some? then Some(front + rest.value) else None
  }

  function Decode(s: string): Option<string>
    decreases |s|
  {
    if s == [] then Some([])
    else if s[0] != '\\' then After([s[0]], Decode(s[1..]))
    else
      match Escape(s[1..])
      case None => None
      case Some((c, n)) => After([c], Decode(s[1 + n..]))
  }

  lemma AfterAfter(a: string, b: string, rest: Option<string>)
    ensures After(a + b, rest) == After(a, After(b, rest))
  {
    if rest.Some? { assert a + b + rest.value == a + (b + rest.value); }
  }

  lemma AfterNothing(rest: Option<string>)
    ensures After([], rest) == rest
  {
    assert rest.Some? ==> [] + rest.value == rest.value;
  }

  /** Everything before `i` is decoded. */
  ghost predicate Decoding(escaped: string, i: nat, file: string) {
    i <= |escaped| && Decode(escaped) == After(file, Decode(escaped[i..]))
  }

  lemma PlainDecoded(escaped: string, i: nat, file: string)
    requires Decoding(escaped, i, file) && i < |escaped| && escaped[i] != '\\'
    ensures Decoding(escaped, i + 1, file + [escaped[i]])
  {
    var from := escaped[i..];
    assert from[1..] == escaped[i + 1..];
    AfterAfter(file, [escaped[i]], Decode(from[1..]));
  }

  lemma {:induction false} DecodeEscape(s: string)
    requires s != [] && s[0] == '\\'
    ensures Escape(s[1..]).None? ==> Decode(s).None?
    ensures Escape(s[1..]).Some? ==> Decode(s) == After([Escape(s[1..]).value.0], Decode(s[1 + Escape(s[1..]).value.1..]))
  {}

  lemma Forward(escaped: string, i: nat, n: nat, file: string, c: char)
    requires Decoding(escaped, i, file) && i + n <= |escaped|
    requires Decode(escaped[i..]) == After([c], Decode(escaped[i..][n..]))
    ensures Decoding(escaped, i + n, file + [c])
  {
    assert escaped[i..][n..] == escaped[i + n..];
    AfterAfter(file, [c], Decode(escaped[i + n..]));
  }

  lemma {:induction false} Stuck(escaped: string, i: nat, file: string)
    requires Decoding(escaped, i, file) && Decode(escaped[i..]).None?
    ensures Decode(escaped).None?
  {}

  /** The decoding of a text that starts with an escape, by what the escape stands for. */
  lemma {:induction false} EscapeStands(from: string, e: Option<(char, nat)>)
    requires from != [] && from[0] == '\\' && Escape(from[1..]) == e
    ensures e.None? ==> Decode(from).None?
    ensures e.Some? ==> 1 + e.value.1 <= |from| && Decode(from) == After([e.value.0], Decode(from[1 + e.value.1..]))
  {
    DecodeEscape(from);
  }

  lemma {:induction false} EscapeDecoded(escaped: string, i: nat, file: string, e: Option<(char, nat)>, n: nat, c: char)
    requires Decoding(escaped, i, file) && i < |escaped| && escaped[i] == '\\'
    requires Escape(escaped[i..][1..]) == e && (e.Some? ==> e == Some((c, n)))
    ensures e.None? ==> Decode(escaped).None?
    ensures e.Some? ==> Decoding(escaped, i + (1 + n), file + [c])
  {
    EscapeStands(escaped[i..], e);
    if e.Some? { Forward(escaped, i, 1 + n, file, c); } else { Stuck(escaped, i, file); }
  }

  method DecodeLineMarkerFile(escaped: string) returns (r: Result<string, string>)
    ensures r.Ok? <==> Decode(escaped).Some?
    ensures r.Ok? ==> r.value == Decode(escaped).value
  {
    var file: string, i := [], 0;
    assert escaped[0..] == escaped;
    AfterNothing(Decode(escaped));
    while i < |escaped|
      invariant Decoding(escaped, i, file)
    {
      if escaped[i] != '\\' {
        PlainDecoded(escaped, i, file);
        file, i := file + [escaped[i]], i + 1;
        continue;
      }
      ghost var e := Escape(escaped[i..][1..]);
      assert escaped[i..][1..] == escaped[i + 1..];
      EscapeDecoded(escaped, i, file, e, if e.Some? then e.value.1 else 0, if e.Some? then e.value.0 else ' ');
      i := i + 1;
      if i == |escaped| {
        return Err("unfinished escape in preprocessor filename");
      }
      var c, width := ReadEscape(escaped, i);
      if c.None? {
        return Err("invalid escape in preprocessor filename");
      }
      file, i := file + [c.value], i + width;
    }
    Decoded(escaped, file);
    return Ok(file);
  }

  lemma {:induction false} Decoded(escaped: string, file: string)
    requires Decoding(escaped, |escaped|, file)
    ensures Decode(escaped) == Some(file)
  {
    assert escaped[|escaped|..] == [] && file + [] == file;
  }

  /** One escape; the digit loop takes at most two octal digits after the first. */
  method ReadEscape(escaped: string, i: nat) returns (c: Option<char>, width: nat)
    requires i < |escaped|
    ensures c.Some? <==> Escape(escaped[i..]).Some?
    ensures c.Some? ==> Escape(escaped[i..]) == Some((c.value, width)) && width <= |escaped| - i
  {
    ghost var s := escaped[i..];
    if !IsOctal(escaped[i]) {
      return Letter(escaped[i]), 1;
    }
    var byte, n := Digit(escaped[i]), 1;
    assert s[..1] == [s[0]] && s[..1][..0] == [];
    while n < 3 && i + n < |escaped| && IsOctal(escaped[i + n])
      invariant 1 <= n <= 3 && n <= |s|
      invariant forall k :: 0 <= k < n ==> IsOctal(s[k])
      invariant byte == OctalValue(s[..n])
      invariant OctalRun(s[1..], 2) == n - 1 + OctalRun(s[n..], 3 - n)
    {
      assert s[n] == escaped[i + n];
      assert s[..n + 1][..n] == s[..n] && s[n..][1..] == s[n + 1..];
      byte, n := byte * 8 + Digit(escaped[i + n]), n + 1;
    }
    assert OctalRun(s[n..], 3 - n) == 0;
    if byte == 0 || byte > 255 {
      return None, n;
    }
    return Some(byte as char), n;
  }

  /** A byte as the compiler writes it in a marker: printable ones plain, others as three octal digits. */
  function EncodeByte(c: char): string
    requires c as nat < 256
  {
    match c
    case '\\' => "\\\\"
    case '\t' => "\\t"
    case '\n' => "\\n"
    case '"' => "\\\""
    case _ =>
      if ' ' <= c <= '~' then [c]
      else ['\\', OctalDigit(c as nat / 64), OctalDigit(c as nat / 8 % 8), OctalDigit(c as nat % 8)]
  }

  function OctalDigit(d: nat): (c: char)
    requires d < 8
    ensures IsOctal(c) && Digit(c) == d
  {
    ('0' as nat + d) as char
  }

  predicate Bytes(name: string) {
    forall i :: 0 <= i < |name| ==> 0 < name[i] as nat < 256
  }

  function Encode(name: string): string
    requires Bytes(name)
  {
    if name == [] then [] else EncodeByte(name[0]) + Encode(name[1..])
  }

  lemma {:induction false} DecodePlain(c: char, rest: string)
    requires c != '\\'
    ensures Decode([c] + rest) == After([c], Decode(rest))
  {
    assert ([c] + rest)[1..] == rest;
  }

  lemma {:induction false} DecodeLetter(letter: char, c: char, rest: string)
    requires !IsOctal(letter) && Letter(letter) == Some(c)
    ensures Decode(['\\', letter] + rest) == After([c], Decode(rest))
  {
    var s := ['\\', letter] + rest;
    assert s[1..] == [letter] + rest && s[2..] == rest;
    DecodeEscape(s);
  }

  lemma {:induction false} DecodeOctal(a: char, b: char, c: char, byte: nat, rest: string)
    requires IsOctal(a) && IsOctal(b) && IsOctal(c) && 0 < byte < 256
    requires Digit(a) == byte / 64 && Digit(b) == byte / 8 % 8 && Digit(c) == byte % 8
    ensures Decode(['\\', a, b, c] + rest) == After([byte as char], Decode(rest))
  {
    var s := ['\\', a, b, c] + rest;
    var octal := s[1..];
    assert octal == [a, b, c] + rest && s[4..] == rest;
    OctalRead(a, b, c, rest);
    OctalThree(octal, byte);
    DecodeEscape(s);
  }

  lemma OctalRead(a: char, b: char, c: char, rest: string)
    requires IsOctal(a) && IsOctal(b) && IsOctal(c)
    ensures OctalRun(([a, b, c] + rest)[1..], 2) == 2
  {
    var tail := ([a, b, c] + rest)[1..];
    assert tail[0] == b && tail[1..][0] == c;
  }

  lemma {:induction false} DecodeByte(c: char, rest: string)
    requires 0 < c as nat < 256
    ensures Decode(EncodeByte(c) + rest) == After([c], Decode(rest))
  {
    var text := EncodeByte(c);
    if |text| == 1 {
      DecodePlain(c, rest);
    } else if |text| == 2 {
      assert text == ['\\', text[1]];
      DecodeLetter(text[1], c, rest);
    } else {
      assert text == ['\\', text[1], text[2], text[3]];
      DecodeOctal(text[1], text[2], text[3], c as nat, rest);
    }
  }

  lemma OctalThree(s: string, byte: nat)
    requires |s| >= 3 && IsOctal(s[0]) && IsOctal(s[1]) && IsOctal(s[2]) && byte < 256
    requires Digit(s[0]) == byte / 64 && Digit(s[1]) == byte / 8 % 8 && Digit(s[2]) == byte % 8
    ensures OctalValue(s[..3]) == byte
  {
    assert s[..3][..2] == s[..2] && s[..2][..1] == s[..1] && s[..1][..0] == [];
    assert OctalValue(s[..1]) == Digit(s[0]);
    assert OctalValue(s[..2]) == 8 * Digit(s[0]) + Digit(s[1]);
  }

  /** Decoding gives back every NUL-free name. */
  lemma {:induction false} DecodeInvertsEncode(name: string)
    requires Bytes(name)
    ensures Decode(Encode(name)) == Some(name)
  {
    if name != [] {
      var c, rest := name[0], name[1..];
      DecodeInvertsEncode(rest);
      DecodeByte(c, Encode(rest));
      assert name == [c] + rest;
    }
  }

  // --- The line map -------------------------------------------------------------------------------

  const INT_MAX: nat := 0x7fff_ffff

  /** A line of preprocessed text: a marker, as its pattern splits it, or any other line. */
  datatype Line = Marker(number: nat, escaped: string, flags: seq<int>) | Source(text: string)

  datatype Location = Location(file: string, line: int, systemHeader: bool)

  /** Whether reading this line succeeds: a marker's number must fit and its name must decode. */
  predicate Readable(line: Line) {
    line.Marker? ==> line.number <= INT_MAX && Decode(line.escaped).Some?
  }

  /** The last marker among the first n lines. */
  function LastMarker(lines: seq<Line>, n: nat): (k: Option<nat>)
    requires n <= |lines|
    ensures k.Some? ==> k.value < n && lines[k.value].Marker? && forall j :: k.value < j < n ==> lines[j].Source?
    ensures k.None? ==> forall j :: 0 <= j < n ==> lines[j].Source?
  {
    if n == 0 then None else if lines[n - 1].Marker? then Some(n - 1) else LastMarker(lines, n - 1)
  }

  /** Where the n-th line (from 0) comes from: the last marker's file, at its line plus the distance. */
  function Origin(lines: seq<Line>, n: nat): Option<Location>
    requires n < |lines|
  {
    var k := LastMarker(lines, n);
    if lines[n].Marker? || k.None? || !Readable(lines[k.value]) then None
    else
      var marker := lines[k.value];
      var file := Decode(marker.escaped).value;
      if file == [] then None else Some(Location(file, marker.number + (n - k.value - 1), 3 in marker.flags))
  }

  /** The map of the first n lines, by line numbers from 1. */
  ghost predicate Maps(m: map<nat, Location>, lines: seq<Line>, n: nat)
    requires n <= |lines|
  {
    && (forall i :: i in m ==> 1 <= i <= n && Origin(lines, i - 1) == Some(m[i]))
    && (forall i :: 1 <= i <= n && Origin(lines, i - 1).Some? ==> i in m)
  }

  function LineMap(lines: seq<Line>): map<nat, Location> {
    map i: nat | 1 <= i <= |lines| && OriginAt(lines, i).Some? :: OriginAt(lines, i).value
  }

  /** The same by line numbers from 1. */
  function OriginAt(lines: seq<Line>, i: nat): Option<Location> {
    if 1 <= i <= |lines| then Origin(lines, i - 1) else None
  }

  lemma MapUnique(m: map<nat, Location>, lines: seq<Line>)
    requires Maps(m, lines, |lines|)
    ensures m == LineMap(lines)
  {
    assert m.Keys == LineMap(lines).Keys;
  }

  datatype Current = Current(file: string, line: int, systemHeader: bool)

  /** What the loop holds before the n-th line. */
  predicate Holds(c: Current, lines: seq<Line>, n: nat)
    requires n <= |lines|
  {
    match LastMarker(lines, n)
    case None => c.file == []
    case Some(k) =>
      && Readable(lines[k]) && Decode(lines[k].escaped) == Some(c.file)
      && c.systemHeader == (3 in lines[k].flags)
      && (c.file != [] ==> c.line == lines[k].number + (n - k - 1))
  }

  method ReadFlags(flags: seq<int>) returns (systemHeader: bool)
    ensures systemHeader <==> 3 in flags
  {
    systemHeader := false;
    for i := 0 to |flags|
      invariant systemHeader <==> 3 in flags[..i]
    {
      assert flags[..i + 1] == flags[..i] + [flags[i]];
      if flags[i] == 3 {
        systemHeader := true;
      }
    }
    assert flags[..|flags|] == flags;
  }

  lemma MapsNext(m: map<nat, Location>, lines: seq<Line>, n: nat, c: Current)
    requires n < |lines| && lines[n].Source? && Maps(m, lines, n) && Holds(c, lines, n)
    ensures Maps(if c.file == [] then m else m[n + 1 := Location(c.file, c.line, c.systemHeader)], lines, n + 1)
  {}

  method ReadMarker(marker: Line) returns (r: Result<Current, string>)
    requires marker.Marker?
    ensures r.Ok? <==> Readable(marker)
    ensures r.Ok? ==> Decode(marker.escaped) == Some(r.value.file) && r.value.line == marker.number
    ensures r.Ok? ==> r.value.systemHeader == (3 in marker.flags)
  {
    if marker.number > INT_MAX {
      return Err("stoi");
    }
    var file := DecodeLineMarkerFile(marker.escaped);
    if file.Err? {
      return Err(file.error);
    }
    var systemHeader := ReadFlags(marker.flags);
    return Ok(Current(file.value, marker.number, systemHeader));
  }

  lemma MarkerNext(m: map<nat, Location>, lines: seq<Line>, n: nat, c: Current)
    requires n < |lines| && lines[n].Marker? && Maps(m, lines, n)
    ensures Maps(m, lines, n + 1)
  {}

  /** Fails exactly when some marker cannot be read; otherwise gives every line's origin. */
  method BuildLineMap(lines: seq<Line>) returns (r: Result<map<nat, Location>, string>)
    ensures r.Ok? <==> forall i :: 0 <= i < |lines| && lines[i].Marker? ==> lines[i].number <= 0x7fff_ffff && Decode(lines[i].escaped).Some?
    ensures r.Ok? ==> r.value == LineMap(lines)
  {
    var m: map<nat, Location>, c, n := map[], Current([], 0, false), 0;
    while n < |lines|
      invariant 0 <= n <= |lines| && Maps(m, lines, n) && Holds(c, lines, n)
      invariant forall i :: 0 <= i < n ==> Readable(lines[i])
    {
      match lines[n] {
        case Marker(_, _, _) =>
          var marker := ReadMarker(lines[n]);
          if marker.Err? {
            return Err(marker.error);
          }
          c := marker.value;
          MarkerNext(m, lines, n, c);
        case Source(_) =>
          MapsNext(m, lines, n, c);
          if c.file != [] {
            m := m[n + 1 := Location(c.file, c.line, c.systemHeader)];
            c := c.(line := c.line + 1);
          }
      }
      n := n + 1;
    }
    MapUnique(m, lines);
    return Ok(m);
  }

  /** Between two markers, the lines of a file are numbered one by one. */
  lemma ConsecutiveLines(lines: seq<Line>, n: nat)
    requires n + 1 < |lines| && lines[n].Source? && lines[n + 1].Source? && Origin(lines, n).Some?
    ensures Origin(lines, n + 1) == Some(Origin(lines, n).value.(line := Origin(lines, n).value.line + 1))
  {}

  /** The lines behind a marker come from its file, numbered on from its number. */
  lemma {:induction false} OriginBehind(before: seq<Line>, number: nat, name: string, flags: seq<int>, behind: seq<Line>, j: nat)
    requires Bytes(name) && name != [] && number <= 0x7fff_ffff && j < |behind|
    requires forall i :: 0 <= i <= j ==> behind[i].Source?
    ensures var lines := before + [Marker(number, Encode(name), flags)] + behind;
      Origin(lines, |before| + 1 + j) == Some(Location(name, number + j, 3 in flags))
  {
    var marker := Marker(number, Encode(name), flags);
    var lines := before + [marker] + behind;
    DecodeInvertsEncode(name);
    MarkerBefore(lines, |before|, |before| + 1 + j);
  }

  lemma {:induction false} MarkerBefore(lines: seq<Line>, k: nat, n: nat)
    requires k < n <= |lines| && lines[k].Marker? && forall i :: k < i < n ==> lines[i].Source?
    ensures LastMarker(lines, n) == Some(k)
  {
    if n - 1 > k { MarkerBefore(lines, k, n - 1); }
  }

  /** Lines in front of every marker have no origin. */
  lemma {:induction false} NoOrigin(lines: seq<Line>, n: nat)
    requires n < |lines| && forall i :: 0 <= i <= n ==> lines[i].Source?
    ensures Origin(lines, n) == None
  {
    NoMarker(lines, n);
  }

  lemma {:induction false} NoMarker(lines: seq<Line>, n: nat)
    requires n <= |lines| && forall i :: 0 <= i < n ==> lines[i].Source?
    ensures LastMarker(lines, n) == None
  {
    if n > 0 { NoMarker(lines, n - 1); }
  }

  /** The escapes of C: quotes, the backslash, the question mark and the seven control letters. */
  predicate LetterFor(letter: char, c: char) {
    || (letter == c && letter in ['\\', '"', '\'', '?'])
    || (letter, c) in [('a', '\U{07}'), ('b', '\U{08}'), ('t', '\U{09}'), ('n', '\U{0A}'), ('v', '\U{0B}'), ('f', '\U{0C}'), ('r', '\U{0D}')]
  }

  lemma {:induction false} DecodeLetters(letter: char, c: char, rest: string)
    requires LetterFor(letter, c)
    ensures Decode(['\\', letter] + rest) == After([c], Decode(rest))
  {
    DecodeLetter(letter, c, rest);
  }

  /** A single octal digit, in front of anything but a further one. */
  lemma {:induction false} DecodeShortOctal(a: char, rest: string)
    requires '1' <= a <= '7' && (rest == "" || !('0' <= rest[0] <= '7'))
    ensures Decode(['\\', a] + rest) == After([((a as nat - '0' as nat) as char)], Decode(rest))
  {
    var s := ['\\', a] + rest;
    assert s[1..] == [a] + rest && s[2..] == rest && ([a] + rest)[1..] == rest;
    assert ([a] + rest)[..1] == [a] && [a][..0] == [];
    assert OctalRun(rest, 2) == 0;
    assert OctalValue([a]) == Digit(a);
    DecodeEscape(s);
  }

  /** An escape of any other letter, or at the very end, is an error. */
  lemma {:induction false} DecodeRefuses(letter: char, rest: string)
    requires letter !in ['\\', '"', '\'', '?', 'a', 'b', 'f', 'n', 'r', 't', 'v'] && !('0' <= letter <= '7')
    ensures Decode(['\\', letter] + rest) == None && Decode("\\") == None
  {
    var s := ['\\', letter] + rest;
    assert s[1..][0] == letter;
    DecodeEscape(s);
    assert "\\"[1..] == "";
    DecodeEscape("\\");
  }
}
