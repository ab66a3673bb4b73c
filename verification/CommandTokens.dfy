/** The shell-free command tokenizer, in its two dialects, and the quoting each one undoes. */
module CommandTokens {

  // CommandLineToArgvW quoting on Windows, single quotes of section 2.2.2 of the POSIX.1-2017
  // Shell Command Language elsewhere.

  import opened Outcomes

  const NUL_ERROR := "NUL in command"
  const ESCAPE_ERROR := "dangling escape in command"
  const SHELL_ERROR := "shell evaluation is unsupported in compile command"
  const QUOTE_ERROR := "unterminated quote in command"

  /** The scanner's state: finished tokens, the open token, the open quote. */
  datatype Scan = Scan(result: seq<string>, token: string, quote: Option<char>, active: bool)

  const START := Scan([], "", None, false)

  predicate Space(c: char) {
    c == ' ' || '\t' <= c <= '\r'
  }

  predicate ShellSyntax(c: char, quote: Option<char>) {
    (quote != Some('\'') && (c == '$' || c == '`')) || (quote.None? && c in ";&|<>()")
  }

  function Repeat(c: char, count: nat): (r: string)
    ensures |r| == count
  {
    if count == 0 then "" else [c] + Repeat(c, count - 1)
  }

  /** The length of the leading run of backslashes. */
  function Backslashes(s: string): (n: nat)
    ensures n <= |s| && (forall i :: 0 <= i < n ==> s[i] == '\\') && (n < |s| ==> s[n] != '\\')
  {
    if s != "" && s[0] == '\\' then 1 + Backslashes(s[1..]) else 0
  }

  /** One character outside the escape rules. */
  function Plain(s: Scan, c: char, windows: bool): Result<Scan, string> {
    if c == '"' || (!windows && c == '\'') then
      if s.quote.None? then Ok(s.(quote := Some(c), active := true))
      else if s.quote.value == c then Ok(s.(quote := None, active := true))
      else Ok(s.(token := s.token + [c], active := true))
    else if s.quote.None? && Space(c) then
      Ok(if s.active then Scan(s.result + [s.token], "", s.quote, false) else s)
    else if !windows && ShellSyntax(c, s.quote) then Err(SHELL_ERROR)
    else Ok(s.(token := s.token + [c], active := true))
  }

  /** A Windows run of backslashes, and the quote that may follow it. */
  function AfterRun(s: Scan, count: nat, quoteNext: bool): Scan {
    if !quoteNext then s.(token := s.token + Repeat('\\', count), active := true)
    else if count % 2 == 1 then s.(token := s.token + Repeat('\\', count / 2) + ['"'], active := true)
    else s.(token := s.token + Repeat('\\', count / 2),
            quote := if s.quote.Some? then None else Some('"'), active := true)
  }

  function Finish(s: Scan): Result<seq<string>, string> {
    if s.quote.Some? then Err(QUOTE_ERROR)
    else Ok(if s.active then s.result + [s.token] else s.result)
  }

  /** The tokens of a text, from a scanner state. */
  function Tokens(text: string, windows: bool, s: Scan): Result<seq<string>, string>
    decreases |text|
  {
    if text == "" then Finish(s)
    else if text[0] == '\0' then Err(NUL_ERROR)
    else if windows && text[0] == '\\' then
      var n := Backslashes(text);
      var quoteNext := n < |text| && text[n] == '"';
      Tokens(text[if quoteNext then n + 1 else n..], windows, AfterRun(s, n, quoteNext))
    else if !windows && text[0] == '\\' && s.quote != Some('\'') then
      if |text| == 1 then Err(ESCAPE_ERROR)
      else Tokens(text[2..], windows, s.(token := s.token + [text[1]], active := true))
    else
      match Plain(s, text[0], windows)
      case Err(e) => Err(e)
      case Ok(next) => Tokens(text[1..], windows, next)
  }

  method SplitCommand(text: string, windows: bool) returns (r: Result<seq<string>, string>)
    ensures r == Tokens(text, windows, START)
  {
    var s := START;
    var i := 0;
    while i < |text|
      invariant 0 <= i <= |text|
      invariant Tokens(text[i..], windows, s) == Tokens(text, windows, START)
    {
      var c := text[i];
      if c == '\0' {
        return Err(NUL_ERROR);
      }
      if windows && c == '\\' {
        var start := i;
        while i < |text| && text[i] == '\\'
          invariant start <= i <= |text|
          invariant Backslashes(text[start..]) == i - start + Backslashes(text[i..])
        {
          assert text[i..][1..] == text[i + 1..];
          i := i + 1;
        }
        var count := i - start;
        var quoteNext := i < |text| && text[i] == '"';
        s := AfterRun(s, count, quoteNext);
        if quoteNext {
          i := i + 1;
        }
        assert text[i..] == text[start..][i - start..];
      } else if !windows && c == '\\' && s.quote != Some('\'') {
        if i + 1 >= |text| {
          return Err(ESCAPE_ERROR);
        }
        s := s.(token := s.token + [text[i + 1]], active := true);
        assert text[i..][2..] == text[i + 2..];
        i := i + 2;
      } else {
        var next := Plain(s, c, windows);
        if next.Err? {
          return Err(next.error);
        }
        s := next.value;
        assert text[i..][1..] == text[i + 1..];
        i := i + 1;
      }
    }
    return Finish(s);
  }

  // --- Quoting ----------------------------------------------------------------------

  /** Between the quotes, Windows doubles exactly the backslashes that precede a quote. */
  function WindowsBody(arg: string): string
    decreases |arg|
  {
    var n := Backslashes(arg);
    if n == |arg| then Repeat('\\', 2 * n)
    else if arg[n] == '"' then Repeat('\\', 2 * n + 1) + ['"'] + WindowsBody(arg[n + 1..])
    else Repeat('\\', n) + [arg[n]] + WindowsBody(arg[n + 1..])
  }

  /** Between single quotes, POSIX closes, escapes and reopens around a single quote. */
  function PosixBody(arg: string): string {
    if arg == "" then ""
    else (if arg[0] == '\'' then "'\\''" else [arg[0]]) + PosixBody(arg[1..])
  }

  function Quoted(arg: string, windows: bool): string {
    if windows then "\"" + WindowsBody(arg) + "\"" else "'" + PosixBody(arg) + "'"
  }

  function QuotedCommand(args: seq<string>, windows: bool): string {
    if args == [] then ""
    else if |args| == 1 then Quoted(args[0], windows)
    else Quoted(args[0], windows) + " " + QuotedCommand(args[1..], windows)
  }

  lemma {:induction false} BackslashRun(count: nat, rest: string)
    requires rest == "" || rest[0] != '\\'
    ensures Backslashes(Repeat('\\', count) + rest) == count
    ensures (Repeat('\\', count) + rest)[count..] == rest
  {
    if count > 0 {
      BackslashRun(count - 1, rest);
      assert (Repeat('\\', count) + rest)[1..] == Repeat('\\', count - 1) + rest;
    }
  }

  lemma {:induction false} RunStep(s: Scan, count: nat, rest: string)
    requires rest == "" || rest[0] != '\\'
    ensures Tokens(Repeat('\\', count) + rest, true, s) ==
      if count == 0 then Tokens(rest, true, s)
      else if rest != "" && rest[0] == '"' then Tokens(rest[1..], true, AfterRun(s, count, true))
      else Tokens(rest, true, AfterRun(s, count, false))
  {
    var text := Repeat('\\', count) + rest;
    BackslashRun(count, rest);
    if count == 0 {
      assert text == rest;
    } else {
      assert text[0] == '\\';
      if rest != "" {
        assert text[count] == rest[0];
        assert text[count + 1..] == rest[1..];
      }
    }
  }

  lemma {:induction false} RepeatOnly(run: string)
    requires forall i :: 0 <= i < |run| ==> run[i] == '\\'
    ensures run == Repeat('\\', |run|) && '\0' !in run
  {
    if run != "" {
      RepeatOnly(run[1..]);
      assert run == [run[0]] + run[1..];
    }
  }

  /** Splits an argument after its first run of backslashes. */
  lemma {:induction false} RunSplit(arg: string, n: nat)
    requires n == Backslashes(arg) < |arg|
    ensures arg == Repeat('\\', n) + [arg[n]] + arg[n + 1..]
    ensures '\0' in arg <==> arg[n] == '\0' || '\0' in arg[n + 1..]
  {
    RepeatOnly(arg[..n]);
    InParts(arg[..n], arg[n], arg[n + 1..]);
    assert arg == arg[..n] + [arg[n]] + arg[n + 1..];
  }

  lemma InParts(a: string, c: char, b: string)
    requires '\0' !in a
    ensures '\0' in a + [c] + b <==> c == '\0' || '\0' in b
  {
    if '\0' in b { assert '\0' in [c] + b; assert a + [c] + b == a + ([c] + b); }
    if c == '\0' { assert (a + [c] + b)[|a|] == '\0'; }
  }

  lemma {:induction false} WindowsInside(arg: string, tail: string, s: Scan)
    requires s.quote == Some('"') && s.active
    ensures Tokens(WindowsBody(arg) + "\"" + tail, true, s) ==
      if '\0' in arg then Err(NUL_ERROR) else Tokens(tail, true, s.(token := s.token + arg, quote := None))
    decreases |arg|
  {
    var n := Backslashes(arg);
    if n == |arg| {
      WindowsEnd(arg, tail, s);
    } else {
      RunSplit(arg, n);
      WindowsText(arg, n, tail);
      WindowsStep(n, arg[n], WindowsBody(arg[n + 1..]) + "\"" + tail, s);
      if arg[n] != '\0' {
        var next := s.(token := s.token + Repeat('\\', n) + [arg[n]]);
        TokenText(s.token, arg, n);
        WindowsInside(arg[n + 1..], tail, next);
      }
    }
  }

  function WindowsHead(n: nat, c: char): string {
    if c == '"' then Repeat('\\', 2 * n + 1) + ['"'] else Repeat('\\', n) + [c]
  }

  lemma {:induction false} WindowsText(arg: string, n: nat, tail: string)
    requires n == Backslashes(arg) < |arg|
    ensures WindowsBody(arg) + "\"" + tail == WindowsHead(n, arg[n]) + (WindowsBody(arg[n + 1..]) + "\"" + tail)
  {
    WindowsFront(arg, n);
    Regroup(WindowsHead(n, arg[n]), WindowsBody(arg[n + 1..]), "\"", tail);
  }

  lemma {:induction false} WindowsFront(arg: string, n: nat)
    requires n == Backslashes(arg) < |arg|
    ensures WindowsBody(arg) == WindowsHead(n, arg[n]) + WindowsBody(arg[n + 1..])
  {}

  lemma Regroup(a: string, b: string, c: string, d: string)
    ensures a + b + c + d == a + (b + c + d)
  {}

  lemma {:induction false} TokenText(token: string, arg: string, n: nat)
    requires n == Backslashes(arg) < |arg|
    ensures token + Repeat('\\', n) + [arg[n]] + arg[n + 1..] == token + arg
  {
    RunSplit(arg, n);
    Regroup(token, Repeat('\\', n), [arg[n]], arg[n + 1..]);
  }

  lemma {:induction false} WindowsEnd(arg: string, tail: string, s: Scan)
    requires s.quote == Some('"') && s.active && Backslashes(arg) == |arg|
    ensures '\0' !in arg
    ensures Tokens(WindowsBody(arg) + "\"" + tail, true, s) ==
      Tokens(tail, true, s.(token := s.token + arg, quote := None))
  {
    RepeatOnly(arg);
    var rest := "\"" + tail;
    assert WindowsBody(arg) + "\"" + tail == Repeat('\\', 2 * |arg|) + rest;
    RunStep(s, 2 * |arg|, rest);
    assert rest[1..] == tail;
    if arg == "" { assert s.token + arg == s.token; }
  }

  /** Reading one quoted character of an argument with its preceding run of backslashes. */
  lemma {:induction false} WindowsStep(n: nat, c: char, inner: string, s: Scan)
    requires s.quote == Some('"') && s.active && c != '\\'
    ensures Tokens(WindowsHead(n, c) + inner, true, s) ==
      if c == '\0' then Err(NUL_ERROR)
      else Tokens(inner, true, s.(token := s.token + Repeat('\\', n) + [c]))
  {
    if c == '"' { QuoteStep(n, inner, s); } else { OtherStep(n, c, inner, s); }
  }

  lemma {:induction false} QuoteStep(n: nat, inner: string, s: Scan)
    requires s.quote == Some('"') && s.active
    ensures Tokens(Repeat('\\', 2 * n + 1) + ['"'] + inner, true, s) ==
      Tokens(inner, true, s.(token := s.token + Repeat('\\', n) + ['"']))
  {
    var rest := ['"'] + inner;
    RunStep(s, 2 * n + 1, rest);
    assert rest[1..] == inner;
    assert (2 * n + 1) / 2 == n;
    assert s.token + (Repeat('\\', n) + ['"']) == s.token + Repeat('\\', n) + ['"'];
    assert Repeat('\\', 2 * n + 1) + ['"'] + inner == Repeat('\\', 2 * n + 1) + rest;
  }

  lemma {:induction false} OtherStep(n: nat, c: char, inner: string, s: Scan)
    requires s.quote == Some('"') && s.active && c != '\\' && c != '"'
    ensures Tokens(Repeat('\\', n) + [c] + inner, true, s) ==
      if c == '\0' then Err(NUL_ERROR)
      else Tokens(inner, true, s.(token := s.token + Repeat('\\', n) + [c]))
  {
    var rest := [c] + inner;
    RunStep(s, n, rest);
    if n == 0 { assert s.token + Repeat('\\', n) == s.token; }
    assert rest[1..] == inner;
    assert Repeat('\\', n) + [c] + inner == Repeat('\\', n) + rest;
  }

  lemma {:induction false} PosixInside(arg: string, tail: string, s: Scan)
    requires s.quote == Some('\'') && s.active
    ensures Tokens(PosixBody(arg) + "'" + tail, false, s) ==
      if '\0' in arg then Err(NUL_ERROR) else Tokens(tail, false, s.(token := s.token + arg, quote := None))
  {
    if arg == "" {
      assert PosixBody(arg) + "'" + tail == "'" + tail;
      assert ("'" + tail)[1..] == tail;
      assert s.token + arg == s.token;
    } else {
      var more := PosixBody(arg[1..]) + "'" + tail;
      var next := s.(token := s.token + [arg[0]]);
      PosixInside(arg[1..], tail, next);
      assert next.token + arg[1..] == s.token + arg;
      assert arg == [arg[0]] + arg[1..];
      if arg[0] == '\'' {
        var text := "'\\''" + more;
        assert PosixBody(arg) + "'" + tail == text;
        var closed := s.(quote := None);
        assert text[1..] == "\\''" + more;
        assert ("\\''" + more)[2..] == "'" + more;
        assert ("'" + more)[1..] == more;
        assert Tokens(text, false, s) == Tokens("\\''" + more, false, closed);
        assert Tokens("\\''" + more, false, closed) == Tokens("'" + more, false, next.(quote := None));
      } else {
        var text := [arg[0]] + more;
        assert PosixBody(arg) + "'" + tail == text;
        assert text[1..] == more;
      }
    }
  }

  lemma {:induction false} QuotedArgument(arg: string, windows: bool, tail: string, s: Scan)
    requires s.quote.None? && s.token == "" && !s.active
    ensures Tokens(Quoted(arg, windows) + tail, windows, s) ==
      if '\0' in arg then Err(NUL_ERROR) else Tokens(tail, windows, s.(token := arg, active := true))
  {
    if windows {
      var inside := WindowsBody(arg) + "\"" + tail;
      assert Quoted(arg, windows) + tail == ['"'] + inside;
      assert (['"'] + inside)[1..] == inside;
      WindowsInside(arg, tail, s.(quote := Some('"'), active := true));
    } else {
      var inside := PosixBody(arg) + "'" + tail;
      assert Quoted(arg, windows) + tail == ['\''] + inside;
      assert (['\''] + inside)[1..] == inside;
      PosixInside(arg, tail, s.(quote := Some('\''), active := true));
    }
    assert s.token + arg == arg;
  }

  lemma {:induction false} QuotedTokens(args: seq<string>, windows: bool, done: seq<string>)
    ensures Tokens(QuotedCommand(args, windows), windows, Scan(done, "", None, false)) ==
      if exists a :: a in args && '\0' in a then Err(NUL_ERROR) else Ok(done + args)
  {
    var s := Scan(done, "", None, false);
    if args == [] {
      assert done + args == done;
    } else {
      var rest := args[1..];
      assert args == [args[0]] + rest;
      var tail := if |args| == 1 then "" else " " + QuotedCommand(rest, windows);
      assert QuotedCommand(args, windows) == Quoted(args[0], windows) + tail;
      QuotedArgument(args[0], windows, tail, s);
      if |args| == 1 {
        assert args == [args[0]];
      } else {
        assert tail[1..] == QuotedCommand(rest, windows);
        QuotedTokens(rest, windows, done + [args[0]]);
        assert done + [args[0]] + rest == done + args;
      }
    }
  }

  /**
   The tokenizer undoes quoting in both dialects: any argument list, empty arguments
   included, comes back exactly, if and only if no argument contains a NUL.
   */
  lemma {:induction false} SplitInvertsQuoting(args: seq<string>, windows: bool)
    ensures Tokens(QuotedCommand(args, windows), windows, START) == Ok(args) <==>
      forall a :: a in args ==> '\0' !in a
    ensures Tokens(QuotedCommand(args, windows), windows, START).Err? ==>
      Tokens(QuotedCommand(args, windows), windows, START).error == NUL_ERROR
  {
    QuotedTokens(args, windows, []);
    assert [] + args == args;
  }
}
