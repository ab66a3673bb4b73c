/** When a command line splits, and into which words: the texts each dialect accepts. */
module CommandGrammar {
  import opened Outcomes
  import opened CommandTokens

  // --- POSIX: a text is a list of pieces ---------------------------------------------------

  /** What separates arguments: blank, tab, line feed, vertical tab, form feed, carriage return. */
  predicate Separator(c: char) {
    c in [' ', '\t', '\n', '\U{0B}', '\U{0C}', '\r']
  }

  /** What a shell would evaluate outside of any quotes. */
  predicate Evaluated(c: char) {
    c in ['$', '`', ';', '&', '|', '<', '>', '(', ')']
  }

  datatype Piece = Bare(c: char) | Escaped(c: char) | Single(body: string) | Double(body: string)

  /** Between double quotes: characters without a meaning there, and escapes. */
  predicate DoubleBody(body: string)
    decreases |body|
  {
    body == "" ||
    if body[0] == '\\' then |body| > 1 && DoubleBody(body[2..])
    else body[0] !in ['\0', '"', '$', '`'] && DoubleBody(body[1..])
  }

  function Unescaped(body: string): string
    requires DoubleBody(body)
    decreases |body|
  {
    if body == "" then ""
    else if body[0] == '\\' then [body[1]] + Unescaped(body[2..])
    else [body[0]] + Unescaped(body[1..])
  }

  predicate FinePiece(p: Piece) {
    match p
    case Bare(c) => c !in ['\0', '\\', '\'', '"'] && !Evaluated(c)
    case Escaped(_) => true
    case Single(body) => '\0' !in body && '\'' !in body
    case Double(body) => DoubleBody(body)
  }

  function PieceText(p: Piece): string {
    match p
    case Bare(c) => [c]
    case Escaped(c) => ['\\', c]
    case Single(body) => ['\''] + (body + ['\''])
    case Double(body) => ['"'] + (body + ['"'])
  }

  function Contents(p: Piece): string
    requires FinePiece(p)
  {
    match p
    case Bare(c) => [c]
    case Escaped(c) => [c]
    case Single(body) => body
    case Double(body) => Unescaped(body)
  }

  predicate AllFine(ps: seq<Piece>) {
    ps == [] || (FinePiece(ps[0]) && AllFine(ps[1..]))
  }

  function Flat(ps: seq<Piece>): string {
    if ps == [] then "" else PieceText(ps[0]) + Flat(ps[1..])
  }

  /** The scanner behind one piece; bare blanks end a word, anything else belongs to one. */
  function AfterPiece(s: Scan, p: Piece): Scan
    requires FinePiece(p)
  {
    if p.Bare? && Separator(p.c) then if s.active then Scan(s.result + [s.token], "", s.quote, false) else s
    else s.(token := s.token + Contents(p), active := true)
  }

  /** The words of the pieces, an open word in front of them. */
  function Words(ps: seq<Piece>, s: Scan): seq<string>
    requires AllFine(ps)
  {
    if ps == [] then if s.active then s.result + [s.token] else s.result
    else Words(ps[1..], AfterPiece(s, ps[0]))
  }

  lemma {:induction false} PlainStep(c: char, later: string, s: Scan)
    requires c != '\0' && c != '\\' && Plain(s, c, false).Ok?
    ensures Tokens([c] + later, false, s) == Tokens(later, false, Plain(s, c, false).value)
  {
    assert ([c] + later)[1..] == later;
  }

  lemma {:induction false} InSingle(c: char, later: string, s: Scan)
    requires s.quote == Some('\'') && s.active && c != '\0' && c != '\''
    ensures Tokens([c] + later, false, s) == Tokens(later, false, s.(token := s.token + [c]))
  {
    assert ([c] + later)[1..] == later;
  }

  lemma {:induction false} EscapeStep(c: char, later: string, s: Scan)
    requires s.quote != Some('\'')
    ensures Tokens(['\\', c] + later, false, s) == Tokens(later, false, s.(token := s.token + [c], active := true))
  {
    assert (['\\', c] + later)[2..] == later;
  }

  lemma Front(a: string, b: string, c: string)
    requires a != ""
    ensures a + b == [a[0]] + (a[1..] + b)
    ensures c + a == c + [a[0]] + a[1..]
  {}

  lemma {:induction false} SingleRead(body: string, rest: string, s: Scan)
    requires s.quote == Some('\'') && s.active && FinePiece(Single(body))
    ensures Tokens(body + (['\''] + rest), false, s) == Tokens(rest, false, s.(token := s.token + body, quote := None))
  {
    var later := ['\''] + rest;
    if body == "" {
      PlainStep('\'', rest, s);
      assert body + later == later && s.token + body == s.token;
    } else {
      Front(body, later, s.token);
      InSingle(body[0], body[1..] + later, s);
      SingleRead(body[1..], rest, s.(token := s.token + [body[0]]));
    }
  }

  lemma Shift(token: string, front: string, tail: string)
    ensures token + (front + tail) == token + front + tail
  {}

  lemma {:induction false} DoubleRead(body: string, rest: string, s: Scan)
    requires s.quote == Some('"') && s.active && DoubleBody(body)
    ensures Tokens(body + (['"'] + rest), false, s) == Tokens(rest, false, s.(token := s.token + Unescaped(body), quote := None))
    decreases |body|
  {
    var later := ['"'] + rest;
    if body == "" {
      PlainStep('"', rest, s);
      assert body + later == later && s.token + Unescaped(body) == s.token;
    } else if body[0] == '\\' {
      var tail := body[2..];
      assert body + later == ['\\', body[1]] + (tail + later);
      EscapeStep(body[1], tail + later, s);
      DoubleRead(tail, rest, s.(token := s.token + [body[1]]));
      Shift(s.token, [body[1]], Unescaped(tail));
    } else {
      var tail := body[1..];
      assert body + later == [body[0]] + (tail + later);
      PlainStep(body[0], tail + later, s);
      DoubleRead(tail, rest, s.(token := s.token + [body[0]]));
      Shift(s.token, [body[0]], Unescaped(tail));
    }
  }

  lemma {:induction false} PieceRead(p: Piece, rest: string, s: Scan)
    requires FinePiece(p) && s.quote.None?
    ensures Tokens(PieceText(p) + rest, false, s) == Tokens(rest, false, AfterPiece(s, p))
  {
    match p
    case Bare(c) => PlainStep(c, rest, s);
    case Escaped(c) => EscapeStep(c, rest, s);
    case Single(body) =>
      QuotedText('\'', body, rest);
      PlainStep('\'', body + (['\''] + rest), s);
      SingleRead(body, rest, s.(quote := Some('\''), active := true));
    case Double(body) =>
      QuotedText('"', body, rest);
      PlainStep('"', body + (['"'] + rest), s);
      DoubleRead(body, rest, s.(quote := Some('"'), active := true));
  }

  lemma QuotedText(q: char, body: string, rest: string)
    ensures [q] + (body + [q]) + rest == [q] + (body + ([q] + rest))
  {}

  /** A text made of fine pieces splits into their words. */
  lemma {:induction false} PiecesSplit(ps: seq<Piece>, s: Scan)
    requires AllFine(ps) && s.quote.None?
    ensures Tokens(Flat(ps), false, s) == Ok(Words(ps, s))
  {
    if ps != [] {
      PieceRead(ps[0], Flat(ps[1..]), s);
      PiecesSplit(ps[1..], AfterPiece(s, ps[0]));
    }
  }

  /** A scan that succeeds inside single quotes finds the closing one. */
  lemma {:induction false} SingleCloses(text: string, s: Scan) returns (body: string, rest: string, next: Scan)
    requires s.quote == Some('\'') && s.active && Tokens(text, false, s).Ok?
    ensures text == body + (['\''] + rest) && FinePiece(Single(body))
    ensures next.quote.None? && Tokens(rest, false, next) == Tokens(text, false, s)
  {
    var c := text[0];
    assert text == [c] + text[1..];
    if c == '\'' {
      body, rest, next := "", text[1..], Plain(s, c, false).value;
      assert text == "" + (['\''] + rest);
    } else {
      var inner;
      inner, rest, next := SingleCloses(text[1..], Plain(s, c, false).value);
      body := [c] + inner;
      assert text == body + (['\''] + rest);
    }
  }

  /** One step of such a scan inside double quotes: one character, or an escaped one. */
  lemma DoubleStep(text: string, s: Scan) returns (n: nat, next: Scan)
    requires s.quote == Some('"') && s.active && Tokens(text, false, s).Ok? && text[0] != '"'
    ensures 0 < n <= |text| && next.quote == s.quote && next.active && Tokens(text[n..], false, next) == Tokens(text, false, s)
    ensures if text[0] == '\\' then n == 2 else n == 1 && text[0] !in ['\0', '$', '`']
  {
    if text[0] == '\\' {
      n, next := 2, s.(token := s.token + [text[1]], active := true);
    } else {
      n, next := 1, Plain(s, text[0], false).value;
    }
  }

  lemma {:induction false} DoubleCloses(text: string, s: Scan) returns (body: string, rest: string, next: Scan)
    requires s.quote == Some('"') && s.active && Tokens(text, false, s).Ok?
    ensures text == body + (['"'] + rest) && DoubleBody(body)
    ensures next.quote.None? && Tokens(rest, false, next) == Tokens(text, false, s)
    decreases |text|
  {
    if text[0] == '"' {
      body, rest, next := "", text[1..], Plain(s, text[0], false).value;
      assert text == "" + (['"'] + rest);
    } else {
      var n, stepped := DoubleStep(text, s);
      var inner;
      inner, rest, next := DoubleCloses(text[n..], stepped);
      body := text[..n] + inner;
      LongerBody(text, n, inner, ['"'] + rest);
    }
  }

  lemma LongerBody(text: string, n: nat, inner: string, behind: string)
    requires n <= |text| && text[n..] == inner + behind
    ensures text == text[..n] + inner + behind && (text[..n] + inner)[n..] == inner
  {}

  /** The first piece of a text that splits. */
  lemma FirstPiece(text: string, s: Scan) returns (p: Piece, rest: string, next: Scan)
    requires text != "" && s.quote.None? && Tokens(text, false, s).Ok?
    ensures FinePiece(p) && text == PieceText(p) + rest && |rest| < |text|
    ensures next.quote.None? && Tokens(rest, false, next) == Tokens(text, false, s)
  {
    var c := text[0];
    assert text == [c] + text[1..];
    if c == '\\' {
      p, rest, next := Escaped(text[1]), text[2..], s.(token := s.token + [text[1]], active := true);
      assert text == ['\\', text[1]] + rest;
    } else if c == '\'' {
      var body;
      body, rest, next := SingleCloses(text[1..], Plain(s, c, false).value);
      p := Single(body);
      QuotedText('\'', body, rest);
    } else if c == '"' {
      var body;
      body, rest, next := DoubleCloses(text[1..], Plain(s, c, false).value);
      p := Double(body);
      QuotedText('"', body, rest);
    } else {
      p, rest, next := Bare(c), text[1..], Plain(s, c, false).value;
    }
  }

  lemma {:induction false} SplitHasPieces(text: string, s: Scan) returns (ps: seq<Piece>)
    requires s.quote.None? && Tokens(text, false, s).Ok?
    ensures AllFine(ps) && Flat(ps) == text
    decreases |text|
  {
    if text == "" {
      ps := [];
    } else {
      var p, rest, next := FirstPiece(text, s);
      var more := SplitHasPieces(rest, next);
      ps := [p] + more;
      assert ps[1..] == more;
    }
  }

  /**
   The POSIX dialect accepts exactly the texts made of bare characters, escapes and closed quotes,
   and gives the words of any such reading.
   */
  lemma {:induction false} PosixSplitIff(text: string)
    ensures Tokens(text, false, START).Ok? <==> exists ps :: AllFine(ps) && Flat(ps) == text
    ensures forall ps :: AllFine(ps) && Flat(ps) == text ==> Tokens(text, false, START) == Ok(Words(ps, START))
  {
    forall ps | AllFine(ps) && Flat(ps) == text ensures Tokens(text, false, START) == Ok(Words(ps, START)) {
      PiecesSplit(ps, START);
    }
    if Tokens(text, false, START).Ok? {
      var ps := SplitHasPieces(text, START);
    }
  }

  // --- Windows: quotes that no backslash escapes ------------------------------------------------

  function RunBefore(text: string, i: nat): nat
    requires i <= |text|
  {
    if i > 0 && text[i - 1] == '\\' then 1 + RunBefore(text, i - 1) else 0
  }

  /** A quote behind an even number of backslashes opens or closes. */
  predicate LiveQuote(text: string, i: nat)
    requires i < |text|
  {
    text[i] == '"' && RunBefore(text, i) % 2 == 0
  }

  function LiveQuotes(text: string, i: nat): nat
    requires i <= |text|
    decreases |text| - i
  {
    if i == |text| then 0 else (if LiveQuote(text, i) then 1 else 0) + LiveQuotes(text, i + 1)
  }

  /** Where the scanner stands between two turns: no run of backslashes in front counts any more. */
  predicate Boundary(text: string, i: nat)
    requires i <= |text|
  {
    RunBefore(text, i) == 0 || i == |text| || (text[i] != '\\' && text[i] != '"')
  }

  lemma {:induction false} RunCounted(text: string, i: nat, n: nat)
    requires i + n <= |text| && RunBefore(text, i) == 0 && forall k :: i <= k < i + n ==> text[k] == '\\'
    ensures RunBefore(text, i + n) == n && LiveQuotes(text, i) == LiveQuotes(text, i + n)
    decreases n
  {
    if n > 0 {
      RunCounted(text, i, n - 1);
      assert !LiveQuote(text, i + n - 1);
    }
  }

  /** What a scan from `i` on gives: an error for any NUL, then for quotes left open. */
  ghost predicate WindowsFrom(text: string, i: nat, s: Scan)
    requires i <= |text|
  {
    var r := Tokens(text[i..], true, s);
    if '\0' in text[i..] then r == Err(NUL_ERROR)
    else if (LiveQuotes(text, i) % 2 == 0) == s.quote.None? then r.Ok?
    else r == Err(QUOTE_ERROR)
  }

  lemma {:induction false} WindowsScan(text: string, i: nat, s: Scan)
    requires i <= |text| && Boundary(text, i) && (s.quote.None? || s.quote == Some('"'))
    ensures WindowsFrom(text, i, s)
    decreases |text| - i
  {
    if i < |text| {
      if text[i] == '\\' {
        var n := Backslashes(text[i..]);
        assert forall k :: i <= k < i + n ==> text[k] == text[i..][k - i];
        RunCounted(text, i, n);
        RunScan(text, i, n, s);
      } else {
        assert text[i..][0] == text[i];
        PlainScan(text, i, s);
      }
    }
  }

  lemma {:induction false} PlainScan(text: string, i: nat, s: Scan)
    requires i < |text| && Boundary(text, i) && text[i] != '\\' && (s.quote.None? || s.quote == Some('"'))
    ensures WindowsFrom(text, i, s)
    decreases |text| - i, 0
  {
    var later := text[i + 1..];
    assert text[i..] == [text[i]] + later;
    assert text[i..][1..] == later;
    if text[i] != '\0' {
      assert Plain(s, text[i], true).Ok?;
      WindowsScan(text, i + 1, Plain(s, text[i], true).value);
    }
  }

  lemma {:induction false} RunScan(text: string, i: nat, n: nat, s: Scan)
    requires i < |text| && text[i] == '\\' && n == Backslashes(text[i..]) && i + n <= |text|
    requires forall k :: i <= k < i + n ==> text[k] == '\\'
    requires RunBefore(text, i + n) == n && LiveQuotes(text, i) == LiveQuotes(text, i + n)
    requires s.quote.None? || s.quote == Some('"')
    ensures WindowsFrom(text, i, s)
    decreases |text| - i, 0
  {
    var quoteNext := i + n < |text| && text[i + n] == '"';
    var next := if quoteNext then i + n + 1 else i + n;
    var after := AfterRun(s, n, quoteNext);
    RunTokens(text, i, n, s);
    SkipClean(text, i, next);
    RunQuotes(text, i, n, s);
    WindowsScan(text, next, after);
    ScanOn(text, i, s, next, after);
  }

  /** Whether quotes are balanced is the same before and behind the run. */
  lemma RunQuotes(text: string, i: nat, n: nat, s: Scan)
    requires i + n <= |text| && RunBefore(text, i + n) == n && (s.quote.None? || s.quote == Some('"'))
    ensures var quoteNext := i + n < |text| && text[i + n] == '"';
      (LiveQuotes(text, i + n) % 2 == 0 <==> s.quote.None?) <==>
      (LiveQuotes(text, if quoteNext then i + n + 1 else i + n) % 2 == 0 <==> AfterRun(s, n, quoteNext).quote.None?)
  {
    if i + n < |text| && text[i + n] == '"' {
      assert LiveQuotes(text, i + n) == (if n % 2 == 0 then 1 else 0) + LiveQuotes(text, i + n + 1);
    }
  }

  lemma {:induction false} ScanOn(text: string, i: nat, s: Scan, next: nat, after: Scan)
    requires i <= next <= |text| && Tokens(text[i..], true, s) == Tokens(text[next..], true, after)
    requires '\0' in text[i..] <==> '\0' in text[next..]
    requires (LiveQuotes(text, i) % 2 == 0 <==> s.quote.None?) <==> (LiveQuotes(text, next) % 2 == 0 <==> after.quote.None?)
    requires WindowsFrom(text, next, after)
    ensures WindowsFrom(text, i, s)
  {}

  lemma {:induction false} RunTokens(text: string, i: nat, n: nat, s: Scan)
    requires i < |text| && text[i] == '\\' && n == Backslashes(text[i..]) && i + n <= |text|
    ensures var quoteNext := i + n < |text| && text[i + n] == '"';
      Tokens(text[i..], true, s) == Tokens(text[if quoteNext then i + n + 1 else i + n..], true, AfterRun(s, n, quoteNext))
  {
    assert i + n < |text| ==> text[i..][n] == text[i + n] && text[i..][n + 1..] == text[i + n + 1..];
    assert text[i..][n..] == text[i + n..];
  }

  lemma SkipClean(text: string, i: nat, next: nat)
    requires i <= next <= |text| && forall k :: i <= k < next ==> text[k] != '\0'
    ensures '\0' in text[i..] <==> '\0' in text[next..]
  {
    assert text[i..] == text[i..next] + text[next..];
  }

  /**
   The Windows dialect accepts exactly the texts without a NUL in which an even number of quotes
   stands behind an even number of backslashes.
   */
  lemma {:induction false} WindowsSplitIff(text: string)
    ensures Tokens(text, true, START).Ok? <==> '\0' !in text && LiveQuotes(text, 0) % 2 == 0
    ensures Tokens(text, true, START).Err? ==>
      Tokens(text, true, START).error == if '\0' in text then NUL_ERROR else QUOTE_ERROR
  {
    assert text[0..] == text;
    WindowsScan(text, 0, START);
  }

  // --- Arguments between separators ----------------------------------------------------------------

  predicate Gap(s: string) {
    forall i :: 0 <= i < |s| ==> Separator(s[i])
  }

  /** An argument that needs no quotes; on Windows backslashes stand for themselves. */
  predicate BareWord(arg: string, windows: bool) {
    arg != "" && forall i :: 0 <= i < |arg| ==>
      && arg[i] != '\0' && arg[i] != '"' && !Separator(arg[i])
      && (windows || (arg[i] != '\\' && arg[i] != '\'' && !Evaluated(arg[i])))
  }

  predicate Ends(tail: string) {
    tail == "" || Separator(tail[0])
  }

  lemma {:induction false} RunOf(arg: string, tail: string, s: Scan) returns (n: nat)
    requires arg != "" && arg[0] == '\\' && BareWord(arg, true) && Ends(tail)
    ensures 0 < n <= |arg|
    ensures Tokens(arg + tail, true, s) == Tokens(arg[n..] + tail, true, s.(token := s.token + arg[..n], active := true))
  {
    n := Backslashes(arg);
    RepeatOnly(arg[..n]);
    var rest := arg[n..] + tail;
    assert arg + tail == Repeat('\\', n) + rest;
    assert rest == "" || rest[0] == if n < |arg| then arg[n] else tail[0];
    RunStep(s, n, rest);
  }

  lemma EvaluatedIs(c: char)
    ensures ShellSyntax(c, None) <==> Evaluated(c)
    ensures Space(c) <==> Separator(c)
  {
    var outside := ";&|<>()";
    assert outside[0] == ';' && outside[1] == '&' && outside[2] == '|' && outside[3] == '<';
    assert outside[4] == '>' && outside[5] == '(' && outside[6] == ')';
  }

  lemma PlainChar(c: char, windows: bool, s: Scan)
    requires BareWord([c], windows) && c != '\\' && s.quote.None?
    ensures Plain(s, c, windows) == Ok(s.(token := s.token + [c], active := true))
  {
    assert [c][0] == c;
    EvaluatedIs(c);
  }

  lemma {:induction false} BareStep(c: char, later: string, windows: bool, s: Scan)
    requires BareWord([c], windows) && c != '\\' && s.quote.None?
    ensures Tokens([c] + later, windows, s) == Tokens(later, windows, s.(token := s.token + [c], active := true))
  {
    var text := [c] + later;
    PlainChar(c, windows, s);
    assert text[1..] == later && text[0] == c && [c][0] == c;
    assert Tokens(text, windows, s) == Tokens(text[1..], windows, Plain(s, c, windows).value);
  }

  lemma BareParts(arg: string, n: nat, windows: bool)
    requires BareWord(arg, windows) && 0 < n <= |arg|
    ensures BareWord(arg[..n], windows) && (arg[n..] == "" || BareWord(arg[n..], windows))
  {}

  lemma {:induction false} BareRead(arg: string, windows: bool, tail: string, s: Scan)
    requires BareWord(arg, windows) && s.quote.None? && Ends(tail)
    ensures Tokens(arg + tail, windows, s) == Tokens(tail, windows, s.(token := s.token + arg, active := true))
    decreases |arg|
  {
    var n := 1;
    if arg[0] == '\\' {
      n := RunOf(arg, tail, s);
    } else {
      BareParts(arg, 1, windows);
      assert arg[..1] == [arg[0]] && arg + tail == [arg[0]] + (arg[1..] + tail);
      BareStep(arg[0], arg[1..] + tail, windows, s);
    }
    assert arg == arg[..n] + arg[n..];
    Shift(s.token, arg[..n], arg[n..]);
    if n < |arg| {
      BareParts(arg, n, windows);
      BareRead(arg[n..], windows, tail, s.(token := s.token + arg[..n], active := true));
    } else {
      assert arg[..n] == arg && arg[n..] == "" && "" + tail == tail;
    }
  }

  /** The scanner behind a separator. */
  function Closed(s: Scan): Scan {
    if s.active then Scan(s.result + [s.token], "", s.quote, false) else s
  }

  lemma {:induction false} GapStep(c: char, later: string, windows: bool, s: Scan)
    requires Separator(c) && s.quote.None?
    ensures Tokens([c] + later, windows, s) == Tokens(later, windows, Closed(s))
  {
    assert ([c] + later)[1..] == later;
  }

  lemma {:induction false} GapRead(gap: string, windows: bool, tail: string, s: Scan)
    requires Gap(gap) && s.quote.None?
    ensures Tokens(gap + tail, windows, s) == Tokens(tail, windows, if gap == "" then s else Closed(s))
  {
    if gap == "" {
      assert gap + tail == tail;
    } else {
      assert gap + tail == [gap[0]] + (gap[1..] + tail);
      GapStep(gap[0], gap[1..] + tail, windows, s);
      GapRead(gap[1..], windows, tail, Closed(s));
    }
  }

  /** The words with a gap in front of each and one behind all. */
  function Spaced(words: seq<string>, gaps: seq<string>): string
    requires |gaps| == |words| + 1
  {
    if words == [] then gaps[0] else gaps[0] + (words[0] + Spaced(words[1..], gaps[1..]))
  }

  predicate Stands(word: string, arg: string, windows: bool) {
    '\0' !in arg && (word == Quoted(arg, windows) || (word == arg && BareWord(arg, windows)))
  }

  lemma {:induction false} WordRead(word: string, arg: string, windows: bool, tail: string, s: Scan)
    requires Stands(word, arg, windows) && Ends(tail) && s.quote.None? && s.token == "" && !s.active
    ensures Tokens(word + tail, windows, s) == Tokens(tail, windows, s.(token := arg, active := true))
  {
    if word == Quoted(arg, windows) {
      QuotedArgument(arg, windows, tail, s);
    } else {
      BareRead(arg, windows, tail, s);
      assert s.token + arg == arg;
    }
  }

  /** A word behind a gap that ends the one before it. */
  lemma {:induction false} OneWord(gap: string, word: string, arg: string, windows: bool, behind: string, s: Scan)
    requires Gap(gap) && (s.active ==> gap != "") && (s.active || s.token == "") && s.quote.None?
    requires Stands(word, arg, windows) && Ends(behind)
    ensures Tokens(gap + (word + behind), windows, s) == Tokens(behind, windows, Closed(s).(token := arg, active := true))
  {
    GapRead(gap, windows, word + behind, s);
    WordRead(word, arg, windows, behind, Closed(s));
  }

  lemma {:induction false} SpacedTokens(words: seq<string>, args: seq<string>, gaps: seq<string>, windows: bool, s: Scan)
    requires |words| == |args| && |gaps| == |words| + 1 && s.quote.None? && (s.active || s.token == "")
    requires forall i :: 0 <= i < |words| ==> Stands(words[i], args[i], windows)
    requires forall i :: 0 <= i < |gaps| ==> Gap(gaps[i])
    requires forall i :: 0 <= i < |words| && (i > 0 || s.active) ==> gaps[i] != ""
    ensures Tokens(Spaced(words, gaps), windows, s) == Ok(Closed(s).result + args)
    decreases |words|
  {
    if words == [] {
      GapRead(gaps[0], windows, "", s);
      assert gaps[0] + "" == gaps[0] && args == [];
      assert Closed(s).result + args == Closed(s).result;
    } else {
      var behind := Spaced(words[1..], gaps[1..]);
      var next := Closed(s).(token := args[0], active := true);
      SpacedEnds(words[1..], gaps[1..]);
      OneWord(gaps[0], words[0], args[0], windows, behind, s);
      SpacedTokens(words[1..], args[1..], gaps[1..], windows, next);
      ArgumentAdded(s, args);
    }
  }

  lemma ArgumentAdded(s: Scan, args: seq<string>)
    requires args != []
    ensures Closed(Closed(s).(token := args[0], active := true)).result + args[1..] == Closed(s).result + args
  {
    var next := Closed(s).(token := args[0], active := true);
    assert Closed(next).result == Closed(s).result + [args[0]];
  }

  lemma {:induction false} SpacedEnds(words: seq<string>, gaps: seq<string>)
    requires |gaps| == |words| + 1 && (words != [] ==> gaps[0] != "")
    requires forall i :: 0 <= i < |gaps| ==> Gap(gaps[i])
    ensures Ends(Spaced(words, gaps))
  {}

  /**
   In both dialects any list of NUL-free arguments, each bare where it may be and quoted otherwise,
   is read back from between any runs of separators.
   */
  lemma {:induction false} ArgumentsRead(words: seq<string>, args: seq<string>, gaps: seq<string>, windows: bool)
    requires |words| == |args| && |gaps| == |words| + 1
    requires forall i :: 0 <= i < |words| ==> Stands(words[i], args[i], windows)
    requires forall i :: 0 <= i < |gaps| ==> Gap(gaps[i]) && (0 < i < |words| ==> gaps[i] != "")
    ensures Tokens(Spaced(words, gaps), windows, START) == Ok(args)
  {
    SpacedTokens(words, args, gaps, windows, START);
    assert [] + args == args;
  }
}
