/**
 The comment stripper: a six-state character machine, against the tokens of the text it reads.
 */
module StripComments {

  datatype State = Code | Slash | Line | Block | BlockStar | Str(quote: char)

  datatype Move = Move(emitted: string, next: State, width: nat)

  /** One turn of the machine; an escape inside a string takes two characters. */
  function Step(st: State, s: string): (m: Move)
    requires s != []
    ensures 1 <= m.width <= |s|
  {
    var c := s[0];
    match st
    case Code =>
      if c == '/' then Move([], Slash, 1)
      else Move([c], if c == '"' || c == '\'' then Str(c) else Code, 1)
    case Slash =>
      if c == '/' then Move([], Line, 1)
      else if c == '*' then Move([], Block, 1)
      else Move(['/', c], Code, 1)
    case Line =>
      Move(Kept(c), if c == '\n' then Code else Line, 1)
    case Block =>
      Move(Kept(c), if c == '*' then BlockStar else Block, 1)
    case BlockStar =>
      Move(Kept(c), if c == '/' then Code else if c == '*' then BlockStar else Block, 1)
    case Str(quote) =>
      if c == '\\' then
        if |s| > 1 then Move([c, s[1]], st, 2) else Move([c], st, 1)
      else Move([c], if c == quote then Code else st, 1)
  }

  /** What the machine still emits when it reads `s` from state `st`; a last lone slash is lost. */
  function Strip(st: State, s: string): string
    decreases |s|
  {
    if s == [] then [] else Step(st, s).emitted + Strip(Step(st, s).next, s[Step(st, s).width..])
  }

  /** Inside a block comment only newlines stay. */
  function Kept(c: char): string {
    if c == '\n' then [c] else []
  }

  /** The machine has emitted `out` and stands at `i` in state `st`. */
  ghost predicate Reached(src: string, i: nat, st: State, out: string) {
    i <= |src| && Strip(Code, src) == out + Strip(st, src[i..])
  }

  lemma ReachedNext(src: string, i: nat, st: State, out: string)
    requires Reached(src, i, st, out) && i < |src|
    ensures var m := Step(st, src[i..]);
      Reached(src, i + m.width, m.next, out + m.emitted) && (m.emitted == [] ==> out + m.emitted == out)
  {
    var m := Step(st, src[i..]);
    assert src[i..][m.width..] == src[i + m.width..];
    Regroup(out, m.emitted, Strip(m.next, src[i + m.width..]));
  }

  lemma Regroup(a: string, b: string, c: string)
    ensures a + (b + c) == a + b + c && (b == [] ==> a + b == a)
  {}

  /** The character loop. */
  method StripComments(src: string) returns (out: string)
    ensures out == Strip(Code, src)
  {
    var st, i := Code, 0;
    out := [];
    assert src[0..] == src;
    while i < |src|
      invariant Reached(src, i, st, out)
    {
      var c := src[i];
      ReachedNext(src, i, st, out);
      ghost var before, from, m := out, i, Step(st, src[i..]);
      match st {
        case Code =>
          if c == '/' {
            st := Slash;
          } else if c == '"' || c == '\'' {
            st := Str(c);
            out := out + [c];
          } else {
            out := out + [c];
          }
        case Slash =>
          if c == '/' {
            st := Line;
          } else if c == '*' {
            st := Block;
          } else {
            out := out + ['/', c];
            st := Code;
          }
        case Line =>
          if c == '\n' {
            out := out + [c];
            st := Code;
          }
        case Block =>
          if c == '*' {
            st := BlockStar;
          }
          if c == '\n' {
            out := out + [c];
          }
        case BlockStar =>
          if c == '/' {
            st := Code;
          } else if c != '*' {
            if c == '\n' {
              out := out + [c];
            }
            st := Block;
          }
        case Str(quote) =>
          if c == '\\' && i + 1 < |src| {
            out := out + [c, src[i + 1]];
            i := i + 1;
          } else {
            out := out + [c];
            if c == quote && c != '\\' {
              st := Code;
            }
          }
      }
      i := i + 1;
      assert i == from + m.width && st == m.next && out == before + m.emitted;
    }
  }

  // --- Laws on every input ----------------------------------------------------------------------

  function Newlines(s: string): nat {
    if s == [] then 0 else (if s[0] == '\n' then 1 else 0) + Newlines(s[1..])
  }

  lemma {:induction false} NewlinesJoin(a: string, b: string)
    ensures Newlines(a + b) == Newlines(a) + Newlines(b)
  {
    if a == [] {
      assert a + b == b;
    } else {
      NewlinesJoin(a[1..], b);
      assert (a + b)[1..] == a[1..] + b;
    }
  }

  /** The line count never changes, whatever is unterminated. */
  lemma {:induction false} NewlinesStay(st: State, s: string)
    ensures Newlines(Strip(st, s)) == Newlines(s)
    decreases |s|
  {
    if s != [] {
      var m := Step(st, s);
      NewlinesStay(m.next, s[m.width..]);
      NewlinesJoin(m.emitted, Strip(m.next, s[m.width..]));
      NewlinesJoin(s[..m.width], s[m.width..]);
      assert s[..m.width] + s[m.width..] == s;
      StepNewlines(st, s);
    }
  }

  lemma StepNewlines(st: State, s: string)
    requires s != []
    ensures Newlines(Step(st, s).emitted) == Newlines(s[..Step(st, s).width])
  {
    assert s[..1] == [s[0]];
    assert |s| > 1 ==> s[..2] == [s[0], s[1]];
    assert Newlines([s[0]]) == Newlines(Kept(s[0]));
    assert Newlines(['/', s[0]]) == Newlines([s[0]]) by { assert ['/', s[0]][1..] == [s[0]]; }
  }

  /** Where a second pass stands once the first pass has emitted everything before. */
  function Settled(st: State): State {
    if st.Str? then st else Code
  }

  lemma {:induction false} Reread(st: State, s: string, later: string)
    requires s != [] && (|s| == Step(st, s).width ==> later == [])
    ensures Strip(Settled(st), Step(st, s).emitted + later) == Step(st, s).emitted + Strip(Settled(Step(st, s).next), later)
  {
    match st
    case Code => if s[0] != '/' { RereadOne(Code, s[0], later); } else { EmptyFront(later, Strip(Code, later)); }
    case Slash =>
      if s[0] == '/' || s[0] == '*' { EmptyFront(later, Strip(Code, later)); } else { RereadSlash(s[0], later); }
    case Line => RereadKept(st, s, later);
    case Block => RereadKept(st, s, later);
    case BlockStar => RereadKept(st, s, later);
    case Str(quote) =>
      if s[0] == '\\' && |s| > 1 { RereadEscape(st, s[0], s[1], later); } else { RereadOne(st, s[0], later); }
  }

  lemma EmptyFront(later: string, end: string)
    ensures [] + later == later && [] + end == end
  {}

  /** Of a comment only newlines come back. */
  lemma {:induction false} RereadKept(st: State, s: string, later: string)
    requires s != [] && (st == Line || st == Block || st == BlockStar)
    ensures Strip(Code, Step(st, s).emitted + later) == Step(st, s).emitted + Strip(Settled(Step(st, s).next), later)
  {
    EmptyFront(later, Strip(Code, later));
    if s[0] == '\n' { RereadOne(Code, s[0], later); }
  }

  lemma {:induction false} RereadOne(st: State, c: char, later: string)
    requires st == Code || (st.Str? && (c == '\\' ==> later == []))
    requires st == Code ==> c != '/'
    ensures Strip(st, [c] + later) == [c] + Strip(Step(st, [c]).next, later)
  {
    assert ([c] + later)[1..] == later;
  }

  lemma {:induction false} RereadSlash(c: char, later: string)
    requires c != '/' && c != '*'
    ensures Strip(Code, ['/', c] + later) == ['/', c] + Strip(Code, later)
  {
    var again := ['/', c] + later;
    assert again[1..] == [c] + later && ([c] + later)[1..] == later;
    assert Strip(Code, again) == [] + Strip(Slash, again[1..]);
  }

  lemma {:induction false} RereadEscape(st: State, c: char, escaped: char, later: string)
    requires st.Str? && c == '\\'
    ensures Strip(st, [c, escaped] + later) == [c, escaped] + Strip(st, later)
  {
    assert ([c, escaped] + later)[2..] == later;
  }

  /** A second pass changes nothing. */
  lemma {:induction false} Idempotent(st: State, s: string)
    ensures Strip(Settled(st), Strip(st, s)) == Strip(st, s)
    decreases |s|
  {
    if s != [] {
      var m := Step(st, s);
      Idempotent(m.next, s[m.width..]);
      Reread(st, s, Strip(m.next, s[m.width..]));
    }
  }

  // --- The grammar ---------------------------------------------------------------------------------

  datatype Token =
    | Char(c: char)
    | Quoted(quote: char, body: string)
    | LineComment(body: string)
    | BlockComment(body: string)
    // What the end of the text may cut off.
    | OpenQuote(quote: char, body: string)
    | OpenLine(body: string)
    | OpenBlock(body: string)

  predicate IsQuote(c: char) {
    c == '"' || c == '\''
  }

  /** Escapes and characters other than the quote; an open one may end inside an escape. */
  predicate QuoteBody(quote: char, body: string, open: bool)
    decreases |body|
  {
    if body == [] then true
    else if body[0] == '\\' then
      if |body| == 1 then open else QuoteBody(quote, body[2..], open)
    else body[0] != quote && QuoteBody(quote, body[1..], open)
  }

  predicate NoClose(body: string) {
    forall i :: 0 <= i < |body| - 1 && body[i] == '*' ==> body[i + 1] != '/'
  }

  predicate IsLast(t: Token) {
    t.OpenQuote? || t.OpenLine? || t.OpenBlock?
  }

  predicate IsLiteral(t: Token) {
    t.Quoted? || t.OpenQuote?
  }

  /** A quote in code always opens a literal. */
  predicate ValidToken(t: Token) {
    match t
    case Char(c) => !IsQuote(c)
    case Quoted(q, body) => IsQuote(q) && QuoteBody(q, body, false)
    case OpenQuote(q, body) => IsQuote(q) && QuoteBody(q, body, true)
    case LineComment(body) => '\n' !in body
    case OpenLine(body) => '\n' !in body
    case BlockComment(body) => NoClose(body)
    case OpenBlock(body) => NoClose(body)
  }

  predicate OpensComment(s: string) {
    s != [] && (s[0] == '/' || s[0] == '*')
  }

  /** What follows a token: nothing behind an open one, and no comment opener completed by a slash. */
  predicate Precedes(t: Token, later: string) {
    (IsLast(t) ==> later == []) && (t == Char('/') ==> !OpensComment(later))
  }

  predicate Valid(ts: seq<Token>) {
    ts == [] || (ValidToken(ts[0]) && Precedes(ts[0], Text(ts[1..])) && Valid(ts[1..]))
  }

  function TokenText(t: Token): (s: string)
    ensures s != []
  {
    match t
    case Char(c) => [c]
    case Quoted(q, body) => [q] + body + [q]
    case LineComment(body) => "//" + body + "\n"
    case BlockComment(body) => "/*" + body + "*/"
    case OpenQuote(q, body) => [q] + body
    case OpenLine(body) => "//" + body
    case OpenBlock(body) => "/*" + body
  }

  function Text(ts: seq<Token>): string {
    if ts == [] then [] else TokenText(ts[0]) + Text(ts[1..])
  }

  function LinesOf(body: string): string {
    if body == [] then [] else Kept(body[0]) + LinesOf(body[1..])
  }

  /** What is promised: comments leave their newlines, all else stays as it is. */
  function TokenVisible(t: Token): string {
    match t
    case LineComment(_) => "\n"
    case OpenLine(_) => ""
    case BlockComment(body) => LinesOf(body)
    case OpenBlock(body) => LinesOf(body)
    case _ => TokenText(t)
  }

  function Visible(ts: seq<Token>): string {
    if ts == [] then [] else TokenVisible(ts[0]) + Visible(ts[1..])
  }

  lemma {:induction false} LineRun(body: string, rest: string)
    requires '\n' !in body
    ensures Strip(Line, body + rest) == Strip(Line, rest)
  {
    if body == [] {
      assert body + rest == rest;
    } else {
      assert body[0] != '\n';
      LineRun(body[1..], rest);
      assert (body + rest)[1..] == body[1..] + rest;
    }
  }

  lemma {:induction false} BlockRun(st: State, body: string, rest: string) returns (after: State)
    requires st == Block || st == BlockStar
    requires NoClose(body) && (st == BlockStar && body != [] ==> body[0] != '/')
    ensures after == Block || after == BlockStar
    ensures Strip(st, body + rest) == LinesOf(body) + Strip(after, rest)
    decreases |body|
  {
    if body == [] {
      after := st;
      assert body + rest == rest;
    } else {
      var c, tail := body[0], body[1..];
      var next := if c == '*' then BlockStar else Block;
      assert body + rest == [c] + (tail + rest);
      assert NoClose(tail) && (next == BlockStar && tail != [] ==> tail[0] != '/');
      after := BlockRun(next, tail, rest);
      BlockTurn(st, c, tail + rest);
      Nested(Kept(c), LinesOf(tail), Strip(after, rest), []);
    }
  }

  lemma {:induction false} BlockTurn(st: State, c: char, later: string)
    requires st == Block || (st == BlockStar && c != '/')
    ensures Strip(st, [c] + later) == Kept(c) + Strip(if c == '*' then BlockStar else Block, later)
  {
    assert ([c] + later)[1..] == later;
  }

  lemma {:induction false} BlockEnd(st: State, rest: string)
    requires st == Block || st == BlockStar
    ensures Strip(st, "*/" + rest) == Strip(Code, rest)
  {
    assert ("*/" + rest)[1..] == "/" + rest;
    assert ("/" + rest)[1..] == rest;
    assert Strip(BlockStar, "/" + rest) == Strip(Code, rest);
  }

  lemma {:induction false} QuoteRun(quote: char, body: string, rest: string, open: bool)
    requires QuoteBody(quote, body, open) && (open ==> rest == [])
    ensures Strip(Str(quote), body + rest) == body + Strip(Str(quote), rest)
    decreases |body|
  {
    var end := Strip(Str(quote), rest);
    if body == [] {
      assert body + rest == rest;
    } else if body[0] == '\\' && |body| > 1 {
      var front, tail := [body[0], body[1]], body[2..];
      QuoteRun(quote, tail, rest, open);
      RereadEscape(Str(quote), body[0], body[1], tail + rest);
      assert body == front + tail;
      Nested(front, tail, rest, []);
      Nested(front, tail, end, []);
    } else if body[0] != '\\' {
      var front, tail := [body[0]], body[1..];
      QuoteRun(quote, tail, rest, open);
      RereadOne(Str(quote), body[0], tail + rest);
      assert body == front + tail;
      Nested(front, tail, rest, []);
      Nested(front, tail, end, []);
    } else {
      assert body + rest == body;
    }
  }

  /** A slash in code, and the character that decides what it starts. */
  lemma {:induction false} SlashTurn(c: char, later: string)
    ensures Strip(Code, ['/', c] + later) ==
              if c == '/' then Strip(Line, later) else if c == '*' then Strip(Block, later) else ['/', c] + Strip(Code, later)
  {
    var again := ['/', c] + later;
    assert again[1..] == [c] + later && ([c] + later)[1..] == later;
    assert Strip(Code, again) == [] + Strip(Slash, again[1..]);
    assert Strip(Slash, [c] + later) == Step(Slash, [c] + later).emitted + Strip(Step(Slash, [c] + later).next, later);
  }

  lemma {:induction false} QuoteOpens(q: char, later: string)
    requires IsQuote(q)
    ensures Strip(Code, [q] + later) == [q] + Strip(Str(q), later)
  {
    RereadOne(Code, q, later);
  }

  lemma {:induction false} QuoteCloses(q: char, later: string)
    requires IsQuote(q)
    ensures Strip(Str(q), [q] + later) == [q] + Strip(Code, later)
  {
    RereadOne(Str(q), q, later);
  }

  lemma Nested(a: string, b: string, c: string, d: string)
    ensures a + b + c + d == a + (b + (c + d))
    ensures d == [] ==> a + b + c == a + (b + c)
  {}

  lemma {:induction false} StripQuoted(q: char, body: string, rest: string)
    requires IsQuote(q) && QuoteBody(q, body, false)
    ensures Strip(Code, [q] + body + [q] + rest) == [q] + body + [q] + Strip(Code, rest)
  {
    QuoteOpens(q, body + ([q] + rest));
    QuoteRun(q, body, [q] + rest, false);
    QuoteCloses(q, rest);
    Nested([q], body, [q], rest);
    Nested([q], body, [q], Strip(Code, rest));
  }

  lemma {:induction false} StripOpenQuote(q: char, body: string)
    requires IsQuote(q) && QuoteBody(q, body, true)
    ensures Strip(Code, [q] + body) == [q] + body
  {
    QuoteOpens(q, body);
    QuoteRun(q, body, [], true);
    assert body + [] == body;
  }

  lemma {:induction false} StripLine(body: string, rest: string)
    requires '\n' !in body
    ensures Strip(Code, "//" + body + "\n" + rest) == "\n" + Strip(Code, rest)
    ensures Strip(Code, "//" + body) == []
  {
    SlashTurn('/', body + ("\n" + rest));
    LineRun(body, "\n" + rest);
    assert ("\n" + rest)[1..] == rest;
    assert "//" + body + "\n" + rest == ['/', '/'] + (body + ("\n" + rest));
    SlashTurn('/', body);
    LineRun(body, []);
    assert body + [] == body && "//" + body == ['/', '/'] + body;
  }

  lemma {:induction false} StripBlock(body: string, rest: string)
    requires NoClose(body)
    ensures Strip(Code, "/*" + body + "*/" + rest) == LinesOf(body) + Strip(Code, rest)
  {
    var later := "*/" + rest;
    SlashTurn('*', body + later);
    var after := BlockRun(Block, body, later);
    BlockEnd(after, rest);
    Nested("/*", body, "*/", rest);
  }

  lemma {:induction false} StripOpenBlock(body: string)
    requires NoClose(body)
    ensures Strip(Code, "/*" + body) == LinesOf(body)
  {
    SlashTurn('*', body);
    var last := BlockRun(Block, body, []);
    assert body + [] == body && LinesOf(body) + [] == LinesOf(body);
  }

  lemma {:induction false} StripToken(t: Token, rest: string)
    requires ValidToken(t) && t != Char('/') && (IsLast(t) ==> rest == [])
    ensures Strip(Code, TokenText(t) + rest) == TokenVisible(t) + Strip(Code, rest)
  {
    assert TokenText(t) + [] == TokenText(t) && TokenVisible(t) + [] == TokenVisible(t);
    match t
    case Char(c) => RereadOne(Code, c, rest);
    case Quoted(q, body) => StripQuoted(q, body, rest);
    case OpenQuote(q, body) => StripOpenQuote(q, body);
    case LineComment(body) => StripLine(body, rest);
    case OpenLine(body) => StripLine(body, rest);
    case BlockComment(body) => StripBlock(body, rest);
    case OpenBlock(body) => StripOpenBlock(body);
  }

  // --- The machine against the tokens -----------------------------------------------------------------

  /** No slash in code stands directly in front of a literal. */
  predicate InStep(ts: seq<Token>) {
    ts == [] || (!(ts[0] == Char('/') && |ts| > 1 && IsLiteral(ts[1])) && InStep(ts[1..]))
  }

  predicate EndsInSlash(ts: seq<Token>) {
    ts != [] && ts[|ts| - 1] == Char('/')
  }

  function LastSlash(ts: seq<Token>): string {
    if EndsInSlash(ts) then "/" else ""
  }

  predicate Closed(ts: seq<Token>) {
    ts == [] || !IsLast(ts[|ts| - 1])
  }

  /** What is visible before a last slash. */
  function Shown(ts: seq<Token>): string {
    if ts == [] || ts == [Char('/')] then [] else TokenVisible(ts[0]) + Shown(ts[1..])
  }

  lemma {:induction false} ShownVisible(ts: seq<Token>)
    ensures Shown(ts) + LastSlash(ts) == Visible(ts)
  {
    if ts == [Char('/')] {
      assert Visible(ts) == "/" + Visible([]);
    } else if ts != [] {
      ShownVisible(ts[1..]);
    }
  }

  /** The slash is kept back until the next character shows that no comment starts. */
  lemma {:induction false} SlashWaits(later: string)
    ensures Strip(Code, "/" + later) == Strip(Slash, later)
  {
    assert ("/" + later)[1..] == later;
    assert Step(Code, "/" + later) == Move([], Slash, 1);
  }

  lemma PlainAfterSlash(ts: seq<Token>) returns (c: char)
    requires |ts| > 1 && Valid(ts) && InStep(ts) && ts[0] == Char('/')
    ensures ts[1] == Char(c) && c != '/' && c != '*' && !IsQuote(c)
  {
    c := TokenText(ts[1])[0];
    assert Text(ts[1..])[0] == c;
  }

  lemma EndsLater(ts: seq<Token>, n: nat)
    requires n < |ts|
    ensures EndsInSlash(ts) == EndsInSlash(ts[n..]) && Closed(ts) == Closed(ts[n..])
  {}

  lemma {:induction false} TextFirst(ts: seq<Token>, rest: string)
    requires ts != []
    ensures Text(ts) + rest == TokenText(ts[0]) + (Text(ts[1..]) + rest)
  {
    Nested(TokenText(ts[0]), Text(ts[1..]), rest, []);
  }

  /** The machine prints what is visible and waits behind a last slash. */
  ghost predicate Prints(ts: seq<Token>, rest: string) {
    Strip(Code, Text(ts) + rest) == Shown(ts) + Strip(if EndsInSlash(ts) then Slash else Code, rest)
  }

  lemma PrintsNothing(rest: string)
    ensures Prints([], rest)
  {
    assert [] + rest == rest;
  }

  lemma PrintsSlash(rest: string)
    ensures Prints([Char('/')], rest)
  {
    var ts := [Char('/')];
    TextFirst(ts, rest);
    assert ts[1..] == [] && [] + rest == rest;
    SlashWaits(rest);
  }

  lemma TokenStep(ts: seq<Token>, rest: string)
    requires ts != [] && ValidToken(ts[0]) && ts[0] != Char('/') && (IsLast(ts[0]) ==> Text(ts[1..]) + rest == [])
    requires Prints(ts[1..], rest)
    ensures Prints(ts, rest)
  {
    var end := Strip(if EndsInSlash(ts) then Slash else Code, rest);
    if |ts| > 1 { EndsLater(ts, 1); }
    TextFirst(ts, rest);
    StripToken(ts[0], Text(ts[1..]) + rest);
    Nested(TokenVisible(ts[0]), Shown(ts[1..]), end, []);
  }

  lemma SlashStep(ts: seq<Token>, c: char, rest: string)
    requires |ts| > 1 && ts[0] == Char('/') && ts[1] == Char(c) && c != '/' && c != '*'
    requires Prints(ts[2..], rest)
    ensures Prints(ts, rest)
  {
    var end := Strip(if EndsInSlash(ts) then Slash else Code, rest);
    if |ts| > 2 { EndsLater(ts, 2); }
    TextFirst(ts, rest);
    TextFirst(ts[1..], rest);
    assert ts[1..][1..] == ts[2..];
    SlashTurn(c, Text(ts[2..]) + rest);
    Nested(['/'], [c], Text(ts[2..]) + rest, []);
    ShownSlash(ts, c);
    Nested(['/', c], Shown(ts[2..]), end, []);
  }

  lemma {:induction false} ShownSlash(ts: seq<Token>, c: char)
    requires |ts| > 1 && ts[0] == Char('/') && ts[1] == Char(c) && c != '/'
    ensures Shown(ts) == ['/', c] + Shown(ts[2..])
  {
    assert ts[1..][1..] == ts[2..];
    assert Shown(ts[1..]) == [c] + Shown(ts[2..]);
    Nested(['/'], [c], Shown(ts[2..]), []);
  }

  lemma {:induction false} LaterValid(ts: seq<Token>)
    requires |ts| > 1 && Valid(ts) && InStep(ts)
    ensures Valid(ts[2..]) && InStep(ts[2..])
  {
    assert ts[1..][1..] == ts[2..];
  }

  lemma {:induction false} StripPrefix(ts: seq<Token>, rest: string)
    requires Valid(ts) && InStep(ts) && (Closed(ts) || rest == [])
    ensures Prints(ts, rest)
    decreases |ts|
  {
    if ts == [] {
      PrintsNothing(rest);
    } else if ts == [Char('/')] {
      PrintsSlash(rest);
    } else if ts[0] == Char('/') {
      var c := PlainAfterSlash(ts);
      LaterValid(ts);
      assert Closed(ts) ==> Closed(ts[2..]);
      StripPrefix(ts[2..], rest);
      SlashStep(ts, c, rest);
    } else {
      assert Closed(ts) ==> Closed(ts[1..]);
      StripPrefix(ts[1..], rest);
      assert IsLast(ts[0]) ==> ts[1..] == [];
      TokenStep(ts, rest);
    }
  }

  /** The promise, in step: exactly the comments go, except that a last slash is lost too. */
  lemma {:induction false} StripTokens(ts: seq<Token>)
    requires Valid(ts) && InStep(ts)
    ensures Strip(Code, Text(ts)) + LastSlash(ts) == Visible(ts)
  {
    assert Text(ts) + [] == Text(ts);
    StripPrefix(ts, []);
    assert Shown(ts) + [] == Shown(ts);
    ShownVisible(ts);
  }

  lemma {:induction false} StripLiteral(q: char, body: string)
    requires IsQuote(q) && QuoteBody(q, body, false)
    ensures Strip(Code, [q] + body + [q]) == [q] + body + [q]
  {
    var literal := [q] + body + [q];
    StripQuoted(q, body, []);
    assert literal + [] == literal;
  }

  lemma {:induction false} KeptBehind(ts: seq<Token>, literal: string)
    requires Valid(ts) && InStep(ts) && Closed(ts) && !EndsInSlash(ts) && Strip(Code, literal) == literal
    ensures Strip(Code, Text(ts) + literal) == Visible(ts) + literal
  {
    ShownVisible(ts);
    assert Shown(ts) + "" == Shown(ts);
    StripPrefix(ts, literal);
  }

  lemma {:induction false} LostBehind(ts: seq<Token>, q: char, literal: string)
    requires Valid(ts) && InStep(ts) && Closed(ts) && EndsInSlash(ts) && Strip(Slash, literal) == ['/', q]
    ensures Strip(Code, Text(ts) + literal) == Visible(ts) + [q]
  {
    ShownVisible(ts);
    StripPrefix(ts, literal);
    Nested(Shown(ts), "/", [q], []);
    assert "/" + [q] == ['/', q];
  }

  /** Behind code that was read in step every literal stays, exactly when the code does not end in a slash. */
  lemma {:induction false} LiteralsKeptIff(ts: seq<Token>, q: char)
    requires Valid(ts) && InStep(ts) && Closed(ts) && IsQuote(q)
    ensures (forall body :: QuoteBody(q, body, false) ==>
              Strip(Code, Text(ts) + ([q] + body + [q])) == Visible(ts) + ([q] + body + [q]))
            <==> !EndsInSlash(ts)
  {
    if EndsInSlash(ts) {
      var body := "//";
      LosesBody(q);
      LostBehind(ts, q, [q] + body + [q]);
      assert |Visible(ts) + [q]| < |Visible(ts) + ([q] + body + [q])|;
      assert QuoteBody(q, body, false);
    } else {
      forall body | QuoteBody(q, body, false)
        ensures Strip(Code, Text(ts) + ([q] + body + [q])) == Visible(ts) + ([q] + body + [q])
      {
        StripLiteral(q, body);
        KeptBehind(ts, [q] + body + [q]);
      }
    }
  }

  /** The quote behind a slash opens nothing, and the body is taken for a comment. */
  lemma {:induction false} LosesBody(q: char)
    requires IsQuote(q)
    ensures Strip(Slash, [q] + "//" + [q]) == ['/', q]
    ensures QuoteBody(q, "//", false)
  {
    var later := "//" + [q];
    assert [q] + "//" + [q] == [q] + later;
    SlashWaits([q] + later);
    assert "/" + ([q] + later) == ['/', q] + later;
    SlashTurn(q, later);
    StripLine([q], []);
    assert "//"[1..] == "/" && "/"[1..] == "";
  }

  // --- Every text has exactly one token form ----------------------------------------------------------------------

  function LineEnd(s: string): (n: nat)
    ensures n <= |s| && '\n' !in s[..n] && (n < |s| ==> s[n] == '\n')
  {
    if s == [] || s[0] == '\n' then 0
    else
      var n := LineEnd(s[1..]) + 1;
      assert s[..n] == [s[0]] + s[1..][..n - 1];
      n
  }

  /** Where the block comment closes, or the length. */
  function BlockClose(s: string): (n: nat)
    ensures n <= |s| && NoClose(s[..n])
    ensures n < |s| ==> n + 2 <= |s| && s[n..n + 2] == "*/"
  {
    if s == [] then 0
    else if |s| > 1 && s[0] == '*' && s[1] == '/' then
      assert s[0..2] == "*/";
      0
    else
      var n := BlockClose(s[1..]) + 1;
      assert s[..n] == [s[0]] + s[1..][..n - 1];
      assert n < |s| ==> s[n..n + 2] == s[1..][n - 1..n + 1];
      n
  }

  /** Where the string closes, or the length. */
  function QuoteEnd(quote: char, s: string): (n: nat)
    ensures n <= |s| && (n < |s| ==> s[n] == quote) && QuoteBody(quote, s[..n], n == |s|)
    decreases |s|
  {
    if s == [] || (s[0] == quote && quote != '\\') then 0
    else if s[0] == '\\' then
      if |s| == 1 then 1
      else
        var n := QuoteEnd(quote, s[2..]) + 2;
        assert s[..n][2..] == s[2..][..n - 2];
        n
    else
      var n := QuoteEnd(quote, s[1..]) + 1;
      assert s[..n][1..] == s[1..][..n - 1];
      n
  }

  /** The first token of a text. */
  function First(s: string): (t: Token)
    requires s != []
    ensures ValidToken(t) && TokenText(t) <= s && Precedes(t, s[|TokenText(t)|..])
  {
    var c, rest := s[0], s[1..];
    if IsQuote(c) then
      var n := QuoteEnd(c, rest);
      assert s == [c] + rest[..n] + rest[n..];
      assert n == |rest| ==> rest[..n] == rest;
      assert n < |rest| ==> rest[n..] == [c] + rest[n + 1..];
      if n == |rest| then OpenQuote(c, rest) else Quoted(c, rest[..n])
    else if c != '/' || !OpensComment(rest) then Char(c)
    else FirstComment(s)
  }

  function FirstComment(s: string): (t: Token)
    requires |s| > 1 && s[0] == '/' && OpensComment(s[1..])
    ensures ValidToken(t) && TokenText(t) <= s && Precedes(t, s[|TokenText(t)|..])
  {
    var rest := s[2..];
    assert s == [s[0], s[1]] + rest;
    if s[1] == '/' then FirstLine(rest) else FirstBlock(rest)
  }

  function FirstLine(rest: string): (t: Token)
    ensures ValidToken(t) && (t.LineComment? || t.OpenLine?)
    ensures TokenText(t) <= "//" + rest && (IsLast(t) ==> TokenText(t) == "//" + rest)
  {
    var n := LineEnd(rest);
    assert rest == rest[..n] + rest[n..];
    assert n < |rest| ==> rest[n..] == "\n" + rest[n + 1..];
    if n == |rest| then OpenLine(rest) else LineComment(rest[..n])
  }

  function FirstBlock(rest: string): (t: Token)
    ensures ValidToken(t) && (t.BlockComment? || t.OpenBlock?)
    ensures TokenText(t) <= "/*" + rest && (IsLast(t) ==> TokenText(t) == "/*" + rest)
  {
    var n := BlockClose(rest);
    assert rest == rest[..n] + rest[n..];
    assert n < |rest| ==> rest[n..] == "*/" + rest[n + 2..];
    if n == |rest| then OpenBlock(rest) else BlockComment(rest[..n])
  }

  function Tokens(s: string): (ts: seq<Token>)
    ensures Valid(ts) && Text(ts) == s
    decreases |s|
  {
    if s == [] then []
    else
      var t := First(s);
      var later := s[|TokenText(t)|..];
      assert ([t] + Tokens(later))[1..] == Tokens(later);
      [t] + Tokens(later)
  }

  lemma {:induction false} LineEndIs(body: string, later: string)
    requires '\n' !in body && (later == [] || later[0] == '\n')
    ensures LineEnd(body + later) == |body|
  {
    if body == [] {
      assert body + later == later;
    } else {
      LineEndIs(body[1..], later);
      assert (body + later)[1..] == body[1..] + later;
    }
  }

  lemma {:induction false} BlockCloseIs(body: string, later: string)
    requires NoClose(body) && (later == [] || "*/" <= later)
    ensures BlockClose(body + later) == |body|
  {
    if body == [] {
      assert body + later == later;
    } else {
      assert NoClose(body[1..]);
      BlockCloseIs(body[1..], later);
      assert (body + later)[1..] == body[1..] + later;
    }
  }

  lemma {:induction false} QuoteEndIs(q: char, body: string, later: string)
    requires IsQuote(q) && QuoteBody(q, body, later == []) && (later == [] || later[0] == q)
    ensures QuoteEnd(q, body + later) == |body|
    decreases |body|
  {
    if body == [] {
      assert body + later == later;
    } else if body[0] == '\\' && |body| > 1 {
      QuoteEndIs(q, body[2..], later);
      assert (body + later)[2..] == body[2..] + later;
    } else if body[0] == '\\' {
      assert body + later == body;
    } else {
      QuoteEndIs(q, body[1..], later);
      assert (body + later)[1..] == body[1..] + later;
    }
  }

  lemma FirstUnique(t: Token, later: string)
    requires ValidToken(t) && Precedes(t, later)
    ensures First(TokenText(t) + later) == t
  {
    match t
    case Char(c) => assert ([c] + later)[1..] == later;
    case Quoted(q, body) =>
      Nested([q], body, [q], later);
      FirstQuoted(q, body, [q] + later);
    case OpenQuote(q, body) =>
      Nested([q], body, [], []);
      FirstQuoted(q, body, []);
    case LineComment(body) =>
      Nested("//", body, "\n", later);
      FirstLineIs(body, "\n" + later);
    case OpenLine(body) =>
      Nested("//", body, [], []);
      FirstLineIs(body, []);
    case BlockComment(body) =>
      Nested("/*", body, "*/", later);
      FirstBlockIs(body, "*/" + later);
    case OpenBlock(body) =>
      Nested("/*", body, [], []);
      FirstBlockIs(body, []);
  }

  lemma Cut(body: string, end: string)
    ensures (body + end)[..|body|] == body && (end == [] ==> body + end == body)
  {}

  lemma {:induction false} FirstQuoted(q: char, body: string, end: string)
    requires IsQuote(q) && QuoteBody(q, body, end == []) && (end == [] || end[0] == q)
    ensures First([q] + (body + end)) == if end == [] then OpenQuote(q, body) else Quoted(q, body)
  {
    var s, rest := [q] + (body + end), body + end;
    QuoteEndIs(q, body, end);
    Cut(body, end);
    assert s[1..] == rest && s[0] == q;
  }

  lemma CommentBody(c: char, rest: string)
    requires c == '/' || c == '*'
    ensures First(['/', c] + rest) == if c == '/' then FirstLine(rest) else FirstBlock(rest)
  {
    var s := ['/', c] + rest;
    assert s[2..] == rest && s[0] == '/' && s[1] == c && s[1..][0] == c;
  }

  lemma FirstLineIs(body: string, end: string)
    requires '\n' !in body && (end == [] || end[0] == '\n')
    ensures First("//" + (body + end)) == if end == [] then OpenLine(body) else LineComment(body)
  {
    LineEndIs(body, end);
    Cut(body, end);
    CommentBody('/', body + end);
  }

  lemma FirstBlockIs(body: string, end: string)
    requires NoClose(body) && (end == [] || "*/" <= end)
    ensures First("/*" + (body + end)) == if end == [] then OpenBlock(body) else BlockComment(body)
  {
    BlockCloseIs(body, end);
    Cut(body, end);
    CommentBody('*', body + end);
  }

  /** The grammar is unambiguous: the tokens of a text are the only valid ones. */
  lemma {:induction false} TokensUnique(ts: seq<Token>)
    requires Valid(ts)
    ensures Tokens(Text(ts)) == ts
  {
    if ts != [] {
      var later := Text(ts[1..]);
      FirstUnique(ts[0], later);
      TokensUnique(ts[1..]);
      assert (TokenText(ts[0]) + later)[|TokenText(ts[0])|..] == later;
    }
  }

  predicate IsComment(t: Token) {
    t.LineComment? || t.BlockComment? || t.OpenLine? || t.OpenBlock?
  }

  lemma {:induction false} LinesShorter(body: string)
    ensures |LinesOf(body)| <= |body|
  {
    if body != [] { LinesShorter(body[1..]); }
  }

  lemma TokenShorter(t: Token)
    ensures if IsComment(t) then |TokenVisible(t)| < |TokenText(t)| else TokenVisible(t) == TokenText(t)
  {
    if t.BlockComment? || t.OpenBlock? {
      LinesShorter(t.body);
    }
  }

  lemma {:induction false} VisibleShorter(ts: seq<Token>)
    ensures |Visible(ts)| <= |Text(ts)|
    ensures (exists t :: t in ts && IsComment(t)) ==> |Visible(ts)| < |Text(ts)|
    ensures (forall t :: t in ts ==> !IsComment(t)) ==> Visible(ts) == Text(ts)
  {
    if ts != [] {
      VisibleShorter(ts[1..]);
      TokenShorter(ts[0]);
      assert forall t :: t in ts <==> t == ts[0] || t in ts[1..];
    }
  }

  /** A text read in step is left alone exactly when it has no comment and does not end in a slash. */
  lemma {:induction false} UnchangedIff(s: string)
    requires InStep(Tokens(s))
    ensures Strip(Code, s) == s <==> !EndsInSlash(Tokens(s)) && forall t :: t in Tokens(s) ==> !IsComment(t)
  {
    StripTokens(Tokens(s));
    VisibleShorter(Tokens(s));
  }

  lemma {:induction false} OneToken(t: Token)
    requires ValidToken(t)
    ensures Valid([t]) && Text([t]) == TokenText(t)
  {
    assert [t][1..] == [];
    assert TokenText(t) + [] == TokenText(t);
  }

  lemma {:induction false} OneMore(t: Token, ts: seq<Token>)
    requires ValidToken(t) && Precedes(t, Text(ts)) && Valid(ts)
    ensures Valid([t] + ts) && Text([t] + ts) == TokenText(t) + Text(ts)
  {
    assert ([t] + ts)[1..] == ts;
  }

  /** A slash directly in front of a literal: text of the literal is lost. */
  lemma LiteralLosesText(q: char)
    requires IsQuote(q)
    ensures var s := "/" + ([q] + "//" + [q]); Tokens(s) == [Char('/'), Quoted(q, "//")] && Strip(Code, s) == ['/', q]
  {
    LosesBody(q);
    SlashWaits([q] + "//" + [q]);
    LiteralAfter(q, "//");
  }

  lemma {:induction false} LiteralAfter(q: char, body: string)
    requires IsQuote(q) && QuoteBody(q, body, false)
    ensures Tokens("/" + ([q] + body + [q])) == [Char('/'), Quoted(q, body)]
  {
    var literal := Quoted(q, body);
    OneToken(literal);
    OneMore(Char('/'), [literal]);
    TokensUnique([Char('/')] + [literal]);
    assert [Char('/')] + [literal] == [Char('/'), literal];
  }

  /**
   A slash directly in front of a literal: a comment behind the literal stays, as the `//c` behind
   a slash and the character literal of a double quote.
   */
  lemma {:induction false} CommentStays(q: char, p: char, comment: string)
    requires IsQuote(q) && IsQuote(p) && p != q && '\n' !in comment && QuoteBody(p, "//" + comment, true)
    ensures var s := ['/', q, p, q] + ("//" + comment);
      Tokens(s) == [Char('/'), Quoted(q, [p]), OpenLine(comment)] && Strip(Code, s) == s
  {
    CommentAfter(q, p, comment);
    StaysAfter(q, p, "//" + comment);
  }

  lemma {:induction false} StaysAfter(q: char, p: char, later: string)
    requires IsQuote(q) && IsQuote(p) && p != q && QuoteBody(p, later, true)
    ensures Strip(Code, ['/', q, p, q] + later) == ['/', q, p, q] + later
  {
    var body := [q] + later;
    assert ['/', q, p, q] + later == ['/', q] + ([p] + body);
    SlashTurn(q, [p] + body);
    assert body[1..] == later;
    StripOpenQuote(p, body);
  }

  lemma {:induction false} CommentAfter(q: char, p: char, comment: string)
    requires IsQuote(q) && IsQuote(p) && p != q && '\n' !in comment
    ensures Tokens(['/', q, p, q] + ("//" + comment)) == [Char('/'), Quoted(q, [p]), OpenLine(comment)]
  {
    var last, literal := OpenLine(comment), Quoted(q, [p]);
    var later := "//" + comment;
    assert [p][1..] == "";
    assert ValidToken(literal) && Precedes(literal, later);
    OneToken(last);
    OneMore(literal, [last]);
    assert TokenText(literal) + later == [q, p, q] + later;
    OneMore(Char('/'), [literal] + [last]);
    assert "/" + ([q, p, q] + later) == ['/', q, p, q] + later;
    var ts := [Char('/')] + ([literal] + [last]);
    TokensUnique(ts);
    assert ts == [Char('/'), literal, last];
  }
}
