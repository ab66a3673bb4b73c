/** The parameter list of an emitted template clause, read back token by token. */
module TemplateReading {
  import opened Outcomes
  import opened TemplateClause

  // --- What a reader sees of a parameter -----------------------------------------------------

  datatype Head =
    | Inner(variadic: seq<bool>)                      // template <typename...> class
    | Plain(pack: bool)                               // typename
    | Typed(path: seq<string>, pack: bool)            // a concept or a type

  datatype Shown = Shown(head: Head, name: string, default: seq<Token>)

  /** A word other than the two that open a parameter, the two of its forms, and the literal punctuation. */
  predicate PathWord(text: string) {
    text != "typename" && text != "template"
  }

  predicate PlainDefault(ts: seq<Token>) {
    forall t :: t in ts ==> t != Token(Punctuation, ",") && t != Token(Punctuation, ">")
  }

  predicate PlainPath(path: seq<string>) {
    path != [] && forall i :: 0 <= i < |path| ==> PathWord(path[i])
  }

  /** Names and paths are words, and a default has no comma or closing bracket of its own. */
  predicate Readable(p: Param) {
    && p.kind != LifetimeParam
    && (p.constraintType.nameParts != [] ==> PlainPath(p.constraintType.nameParts))
    && PlainDefault(p.defaultValue)
  }

  /** Where a bound is shown in front of the name: nowhere when the bounds go into a requires clause. */
  function HeadOf(p: Param, multi: bool): Head {
    match p.kind
    case TemplateTemplateParam => Inner(p.innerParams)
    case NonTypeParam => if p.constraintType.nameParts == [] then Plain(false) else Typed(p.constraintType.nameParts, false)
    case TypeParam =>
      if multi || p.constraintType.nameParts == [] then Plain(p.isVariadic) else Typed(p.constraintType.nameParts, p.isVariadic)
    case LifetimeParam => Plain(false)
  }

  function DefaultOf(p: Param): seq<Token> {
    match p.kind
    case TypeParam => PathTokens(p.defaultType)
    case NonTypeParam => p.defaultValue
    case _ => []
  }

  /** The words of a path with `::` between them. */
  function PathTokens(parts: seq<string>): seq<Token> {
    if parts == [] then []
    else if |parts| == 1 then [WordToken(parts[0])]
    else [WordToken(parts[0]), Token(Punctuation, "::")] + PathTokens(parts[1..])
  }

  function WordToken(text: string): Token {
    Token(if IsKeyword(text) then Keyword else Identifier, text)
  }

  function ShownOf(p: Param, multi: bool): Shown {
    Shown(HeadOf(p, multi), p.name, DefaultOf(p))
  }

  function AllShown(ps: seq<Param>, multi: bool): seq<Shown> {
    if ps == [] then [] else [ShownOf(ps[0], multi)] + AllShown(ps[1..], multi)
  }

  // --- The reader -----------------------------------------------------------------------------

  function Sign(ts: seq<Token>, text: string): bool {
    ts != [] && ts[0] == Token(Punctuation, text)
  }

  /** `typename` or `typename...`, separated by commas, up to and with the closing bracket. */
  function ReadInner(ts: seq<Token>): (r: Option<(seq<bool>, seq<Token>)>)
    ensures r.Some? ==> |r.value.1| < |ts|
  {
    if Sign(ts, ">") then Some(([], ts[1..]))
    else if ts == [] || ts[0] != Token(Keyword, "typename") then None
    else
      var pack := Sign(ts[1..], "...");
      var behind := if pack then ts[2..] else ts[1..];
      match ReadInner(if Sign(behind, ",") then behind[1..] else behind)
      case None => None
      case Some((more, rest)) => Some(([pack] + more, rest))
  }

  function ReadPath(ts: seq<Token>): (r: (seq<string>, seq<Token>))
    ensures |r.1| <= |ts| && (ts != [] ==> |r.1| < |ts|)
  {
    if ts == [] then ([], [])
    else if Sign(ts[1..], "::") && |ts| > 2 then
      var (more, rest) := ReadPath(ts[2..]);
      ([ts[0].text] + more, rest)
    else ([ts[0].text], ts[1..])
  }

  function ReadHead(ts: seq<Token>): (r: Option<(Head, seq<Token>)>)
    ensures r.Some? ==> |r.value.1| < |ts|
  {
    if ts == [] then None
    else if ts[0] == Token(Keyword, "template") then
      if !Sign(ts[1..], "<") then None
      else
        match ReadInner(ts[2..])
        case None => None
        case Some((inner, rest)) =>
          if rest == [] || rest[0] != Token(Keyword, "class") then None else Some((Inner(inner), rest[1..]))
    else if ts[0] == Token(Keyword, "typename") then
      if Sign(ts[1..], "...") then Some((Plain(true), ts[2..])) else Some((Plain(false), ts[1..]))
    else
      var (path, rest) := ReadPath(ts);
      if Sign(rest, "...") then Some((Typed(path, true), rest[1..])) else Some((Typed(path, false), rest))
  }

  function ReadDefault(ts: seq<Token>): (r: (seq<Token>, seq<Token>))
    ensures |r.1| <= |ts|
  {
    if ts == [] || Sign(ts, ",") || Sign(ts, ">") then ([], ts)
    else
      var (more, rest) := ReadDefault(ts[1..]);
      ([ts[0]] + more, rest)
  }

  function ReadParam(ts: seq<Token>): (r: Option<(Shown, seq<Token>)>)
    ensures r.Some? ==> |r.value.1| < |ts|
  {
    match ReadHead(ts)
    case None => None
    case Some((head, rest)) =>
      if rest == [] then None
      else
        var (default, behind) := if Sign(rest[1..], "=") then ReadDefault(rest[2..]) else ([], rest[1..]);
        Some((Shown(head, rest[0].text, default), behind))
  }

  /** Parameters separated by commas, up to and with the closing bracket. */
  function ReadList(ts: seq<Token>): Option<(seq<Shown>, seq<Token>)>
    decreases |ts|
  {
    match ReadParam(ts)
    case None => None
    case Some((p, rest)) =>
      if Sign(rest, ">") then Some(([p], rest[1..]))
      else if !Sign(rest, ",") then None
      else
        match ReadList(rest[1..])
        case None => None
        case Some((more, behind)) => Some(([p] + more, behind))
  }

  // --- Reading what was printed ---------------------------------------------------------------

  lemma {:induction false} JoinedIsPath(parts: seq<string>)
    ensures Joined(parts) == PathTokens(parts)
    decreases |parts|
  {
    if |parts| > 1 {
      var front, last := parts[..|parts| - 1], parts[|parts| - 1];
      JoinedIsPath(front);
      PathNext(front, last);
      assert parts == front + [last];
    }
  }

  lemma {:induction false} PathNext(front: seq<string>, last: string)
    requires front != []
    ensures PathTokens(front + [last]) == PathTokens(front) + [Token(Punctuation, "::"), WordToken(last)]
    decreases |front|
  {
    if |front| == 1 {
      assert (front + [last])[1..] == [last];
    } else {
      PathNext(front[1..], last);
      assert (front + [last])[1..] == front[1..] + [last];
    }
  }

  lemma {:induction false} PathEnd(word: Token, rest: seq<Token>)
    requires rest != [] && !Sign(rest, "::")
    ensures ReadPath([word] + rest) == ([word.text], rest)
  {
    assert ([word] + rest)[1..] == rest;
  }

  lemma {:induction false} PathMore(word: Token, next: seq<Token>)
    requires next != []
    ensures ReadPath([word, Token(Punctuation, "::")] + next) == ([word.text] + ReadPath(next).0, ReadPath(next).1)
  {
    var ts := [word, Token(Punctuation, "::")] + next;
    assert ts[1..][0] == Token(Punctuation, "::") && ts[2..] == next;
  }

  lemma {:induction false} PathRead(parts: seq<string>, rest: seq<Token>)
    requires parts != [] && rest != [] && !Sign(rest, "::")
    ensures ReadPath(PathTokens(parts) + rest) == (parts, rest)
  {
    var word := WordToken(parts[0]);
    assert parts == [parts[0]] + parts[1..];
    if |parts| == 1 {
      PathEnd(word, rest);
      assert parts == [parts[0]] && PathTokens(parts) == [word];
    } else {
      var next := PathTokens(parts[1..]) + rest;
      PathRead(parts[1..], rest);
      PathMore(word, next);
      assert PathTokens(parts) + rest == [word, Token(Punctuation, "::")] + next;
    }
  }

  // --- Lists between commas -------------------------------------------------------------------

  const COMMA: Token := Token(Punctuation, ",")
  const CLOSE: Token := Token(Punctuation, ">")

  function Commas(groups: seq<seq<Token>>): seq<Token> {
    if groups == [] then []
    else if |groups| == 1 then groups[0]
    else groups[0] + ([COMMA] + Commas(groups[1..]))
  }

  lemma {:induction false} CommasNext(front: seq<seq<Token>>, last: seq<Token>)
    ensures Commas(front + [last]) == if front == [] then last else Commas(front) + [COMMA] + last
    decreases |front|
  {
    var longer := front + [last];
    if |front| == 1 {
      assert longer[1..] == [last];
      Grouped(front[0], [COMMA], last);
    } else if front != [] {
      CommasNext(front[1..], last);
      assert longer[1..] == front[1..] + [last];
      Spread(front[0], [COMMA], Commas(front[1..]), last);
    }
  }

  lemma Grouped(a: seq<Token>, b: seq<Token>, c: seq<Token>)
    ensures a + (b + c) == a + b + c
  {}

  lemma Spread(a: seq<Token>, comma: seq<Token>, b: seq<Token>, c: seq<Token>)
    ensures a + (comma + (b + comma + c)) == a + (comma + b) + comma + c
  {}

  function One(pack: bool): seq<Token> {
    [Token(Keyword, "typename")] + if pack then [Token(Punctuation, "...")] else []
  }

  function Ones(inner: seq<bool>): (r: seq<seq<Token>>)
    ensures |r| == |inner|
  {
    if inner == [] then [] else [One(inner[0])] + Ones(inner[1..])
  }

  lemma {:induction false} OnesNext(front: seq<bool>, last: bool)
    ensures Ones(front + [last]) == Ones(front) + [One(last)]
  {
    if front == [] {
      assert front + [last] == [last];
    } else {
      OnesNext(front[1..], last);
      assert (front + [last])[1..] == front[1..] + [last];
    }
  }

  lemma {:induction false} InnerIsCommas(inner: seq<bool>)
    ensures InnerTokens(inner) == Commas(Ones(inner))
    decreases |inner|
  {
    if inner != [] {
      var front, last := inner[..|inner| - 1], inner[|inner| - 1];
      InnerIsCommas(front);
      CommasNext(Ones(front), One(last));
      OnesNext(front, last);
      assert inner == front + [last];
      LastInner(InnerTokens(front), |inner| > 1, last);
    }
  }

  lemma LastInner(front: seq<Token>, more: bool, pack: bool)
    requires !more ==> front == []
    ensures front + (if more then [Punct(",")] else []) + [Word("typename")] + Ellipsis(pack)
      == if more then front + [COMMA] + One(pack) else One(pack)
  {}

  function Groups(ps: seq<Param>, multi: bool): (r: seq<seq<Token>>)
    ensures |r| == |ps|
  {
    if ps == [] then [] else [ParamTokens(ps[0], multi)] + Groups(ps[1..], multi)
  }

  lemma {:induction false} ListIsCommas(ps: seq<Param>, multi: bool)
    ensures ListTokens(ps, multi) == Commas(Groups(ps, multi))
    decreases |ps|
  {
    if ps != [] {
      var front, last := ps[..|ps| - 1], ps[|ps| - 1];
      assert ps == front + [last];
      ListIsCommas(front, multi);
      ListNext(ps, front, last, multi);
      GroupsNext(front, last, multi);
      CommasNext(Groups(front, multi), ParamTokens(last, multi));
      LastGroup(ListTokens(front, multi), front != [], ParamTokens(last, multi));
    }
  }

  lemma {:induction false} GroupsNext(front: seq<Param>, last: Param, multi: bool)
    ensures Groups(front + [last], multi) == Groups(front, multi) + [ParamTokens(last, multi)]
  {
    if front == [] {
      assert front + [last] == [last];
      assert Groups([last], multi) == [ParamTokens(last, multi)] + Groups([], multi);
    } else {
      GroupsNext(front[1..], last, multi);
      assert (front + [last])[1..] == front[1..] + [last];
    }
  }

  lemma {:induction false} ListNext(ps: seq<Param>, front: seq<Param>, last: Param, multi: bool)
    requires ps == front + [last]
    ensures ListTokens(ps, multi)
      == ListTokens(front, multi) + (if front != [] then [Punct(",")] else []) + ParamTokens(last, multi)
  {
    assert ps[..|ps| - 1] == front;
  }

  lemma LastGroup(front: seq<Token>, more: bool, group: seq<Token>)
    requires !more ==> front == []
    ensures front + (if more then [Punct(",")] else []) + group == if more then front + [COMMA] + group else group
  {}

  // --- The inner list -----------------------------------------------------------------------------

  lemma InnerStep(pack: bool, behind: seq<Token>)
    requires behind != [] && (Sign(behind, ",") || Sign(behind, ">"))
    ensures var ts := One(pack) + behind;
      && ts[0] == Token(Keyword, "typename") && Sign(ts[1..], "...") == pack
      && (if pack then ts[2..] else ts[1..]) == behind
  {
    var ts := One(pack) + behind;
    assert ts[1..] == if pack then [Token(Punctuation, "...")] + behind else behind;
    assert pack ==> ts[2..] == behind;
  }

  lemma {:induction false} InnerEnd(pack: bool, rest: seq<Token>)
    ensures ReadInner(One(pack) + ([CLOSE] + rest)) == Some(([pack], rest))
  {
    var close := [CLOSE] + rest;
    InnerStep(pack, close);
    assert close[1..] == rest && [pack] + [] == [pack];
    assert ReadInner(close) == Some(([], rest));
  }

  lemma {:induction false} InnerMore(pack: bool, next: seq<Token>, more: seq<bool>, rest: seq<Token>)
    requires ReadInner(next) == Some((more, rest))
    ensures ReadInner(One(pack) + ([COMMA] + next)) == Some(([pack] + more, rest))
  {
    InnerStep(pack, [COMMA] + next);
    assert ([COMMA] + next)[1..] == next;
  }

  lemma {:induction false} InnerRead(inner: seq<bool>, rest: seq<Token>)
    ensures ReadInner(Commas(Ones(inner)) + ([CLOSE] + rest)) == Some((inner, rest))
    decreases |inner|
  {
    var close := [CLOSE] + rest;
    if inner == [] {
      assert Commas(Ones(inner)) + close == close && close[1..] == rest;
    } else {
      var more := inner[1..];
      assert inner == [inner[0]] + more;
      assert Ones(inner)[1..] == Ones(more) && Ones(inner)[0] == One(inner[0]);
      if more == [] {
        InnerEnd(inner[0], rest);
      } else {
        InnerRead(more, rest);
        InnerMore(inner[0], Commas(Ones(more)) + close, more, rest);
        FirstBefore(One(inner[0]), Commas(Ones(more)), close);
      }
    }
  }

  // --- One parameter ----------------------------------------------------------------------------

  lemma {:induction false} DefaultRead(ts: seq<Token>, rest: seq<Token>)
    requires PlainDefault(ts) && (Sign(rest, ",") || Sign(rest, ">"))
    ensures ReadDefault(ts + rest) == (ts, rest)
  {
    if ts == [] {
      assert ts + rest == rest;
    } else {
      assert ts[0] in ts;
      assert forall t :: t in ts[1..] ==> t in ts;
      DefaultRead(ts[1..], rest);
      assert (ts + rest)[1..] == ts[1..] + rest && ts == [ts[0]] + ts[1..];
    }
  }

  lemma {:induction false} PathPlain(parts: seq<string>)
    ensures PlainDefault(PathTokens(parts)) && |PathTokens(parts)| >= |parts|
    ensures parts != [] ==> PathTokens(parts)[0] == WordToken(parts[0])
  {
    if |parts| > 1 { PathPlain(parts[1..]); }
  }

  lemma {:induction false} OpenTemplate(tail: seq<Token>, inner: seq<bool>, rest: seq<Token>)
    requires ReadInner(tail) == Some((inner, [Word("class")] + rest))
    ensures ReadHead([Word("template"), Punct("<")] + tail) == Some((Inner(inner), rest))
  {
    var ts := [Word("template"), Punct("<")] + tail;
    assert ts[1..][0] == Punct("<") && ts[2..] == tail;
    assert ([Word("class")] + rest)[1..] == rest;
  }

  lemma TemplateText(inner: seq<Token>, rest: seq<Token>)
    ensures [Word("template"), Punct("<")] + inner + [Punct(">"), Word("class")] + rest
      == [Word("template"), Punct("<")] + (inner + ([CLOSE] + ([Word("class")] + rest)))
  {}

  lemma {:induction false} HeadTemplate(inner: seq<bool>, rest: seq<Token>)
    ensures ReadHead([Word("template"), Punct("<")] + InnerTokens(inner) + [Punct(">"), Word("class")] + rest)
      == Some((Inner(inner), rest))
  {
    var behind := [Word("class")] + rest;
    InnerIsCommas(inner);
    InnerRead(inner, behind);
    TemplateText(InnerTokens(inner), rest);
    OpenTemplate(InnerTokens(inner) + ([CLOSE] + behind), inner, rest);
  }

  lemma HeadPlain(pack: bool, rest: seq<Token>)
    requires rest != [] && !Sign(rest, "...")
    ensures ReadHead([Word("typename")] + Ellipsis(pack) + rest) == Some((Plain(pack), rest))
  {
    var ts := [Word("typename")] + Ellipsis(pack) + rest;
    assert ts[1..] == Ellipsis(pack) + rest;
    assert pack ==> ts[1..][0] == Punct("...") && ts[2..] == rest;
    assert !pack ==> ts[1..] == rest;
  }

  lemma {:induction false} HeadTyped(path: seq<string>, pack: bool, rest: seq<Token>)
    requires PlainPath(path) && rest != [] && !Sign(rest, "...") && !Sign(rest, "::")
    ensures ReadHead(Joined(path) + Ellipsis(pack) + rest) == Some((Typed(path, pack), rest))
  {
    var behind := Ellipsis(pack) + rest;
    JoinedIsPath(path);
    PathPlain(path);
    Grouped(Joined(path), Ellipsis(pack), rest);
    assert behind[0] == if pack then Punct("...") else rest[0];
    PathRead(path, behind);
    assert PathWord(path[0]);
    assert (PathTokens(path) + behind)[0] == WordToken(path[0]);
    assert pack ==> behind[1..] == rest;
    assert !pack ==> behind == rest;
  }

  lemma HeadReadTemplate(p: Param, multi: bool, rest: seq<Token>)
    requires p.kind == TemplateTemplateParam
    ensures ReadHead(Introduced(p, multi) + rest) == Some((Inner(p.innerParams), [Word(p.name)] + rest))
  {
    var named := [Word(p.name)] + rest;
    HeadTemplate(p.innerParams, named);
    assert Introduced(p, multi) + rest
      == [Word("template"), Punct("<")] + InnerTokens(p.innerParams) + [Punct(">"), Word("class")] + named;
  }

  lemma HeadReadPlain(p: Param, multi: bool, rest: seq<Token>)
    requires HeadOf(p, multi).Plain? && p.kind != LifetimeParam
    ensures ReadHead(Introduced(p, multi) + rest) == Some((HeadOf(p, multi), [Word(p.name)] + rest))
  {
    var named, pack := [Word(p.name)] + rest, p.kind == TypeParam && p.isVariadic;
    HeadPlain(pack, named);
    assert Introduced(p, multi) + rest == [Word("typename")] + Ellipsis(pack) + named;
  }

  /** The head of a printed parameter, and the name behind it. */
  lemma HeadRead(p: Param, multi: bool, rest: seq<Token>)
    requires Readable(p)
    ensures ReadHead(Introduced(p, multi) + rest) == Some((HeadOf(p, multi), [Word(p.name)] + rest))
  {
    if p.kind == TemplateTemplateParam {
      HeadReadTemplate(p, multi, rest);
    } else if HeadOf(p, multi).Typed? {
      HeadTyped(p.constraintType.nameParts, p.kind == TypeParam && p.isVariadic, [Word(p.name)] + rest);
      TypedTokens(p, multi, rest);
    } else {
      HeadReadPlain(p, multi, rest);
    }
  }

  lemma TypedTokens(p: Param, multi: bool, rest: seq<Token>)
    requires HeadOf(p, multi).Typed?
    ensures Introduced(p, multi) + rest
      == Joined(p.constraintType.nameParts) + Ellipsis(p.kind == TypeParam && p.isVariadic) + ([Word(p.name)] + rest)
  {
    var path := Joined(p.constraintType.nameParts);
    assert path + [Word(p.name)] + rest == path + [] + ([Word(p.name)] + rest);
    assert path + Ellipsis(p.isVariadic) + [Word(p.name)] + rest == path + Ellipsis(p.isVariadic) + ([Word(p.name)] + rest);
  }

  /** The name and the default behind a head. */
  lemma NameRead(ts: seq<Token>, head: Head, name: string, default: seq<Token>, behind: seq<Token>, rest: seq<Token>)
    requires ReadHead(ts) == Some((head, [Word(name)] + behind)) && (Sign(rest, ",") || Sign(rest, ">"))
    requires behind == (if default == [] then rest else [Punct("=")] + (default + rest)) && PlainDefault(default)
    ensures ReadParam(ts) == Some((Shown(head, name, default), rest))
  {
    var named := [Word(name)] + behind;
    assert named[1..] == behind && named[0].text == name;
    if default != [] {
      assert named[2..] == default + rest;
      DefaultRead(default, rest);
    }
  }

  lemma DefaultText(p: Param, rest: seq<Token>)
    requires Readable(p)
    ensures Default(p) + rest == (if DefaultOf(p) == [] then rest else [Punct("=")] + (DefaultOf(p) + rest))
    ensures PlainDefault(DefaultOf(p))
  {
    JoinedIsPath(p.defaultType);
    PathPlain(p.defaultType);
    if DefaultOf(p) == [] {
      assert Default(p) == [] && [] + rest == rest;
    } else {
      assert Default(p) == [Punct("=")] + DefaultOf(p);
      Grouped([Punct("=")], DefaultOf(p), rest);
    }
  }

  lemma ParamRead(p: Param, multi: bool, rest: seq<Token>)
    requires Readable(p) && (Sign(rest, ",") || Sign(rest, ">"))
    ensures ReadParam(ParamTokens(p, multi) + rest) == Some((ShownOf(p, multi), rest))
  {
    var behind := Default(p) + rest;
    Grouped(Introduced(p, multi), Default(p), rest);
    HeadRead(p, multi, behind);
    DefaultText(p, rest);
    NameRead(ParamTokens(p, multi) + rest, HeadOf(p, multi), p.name, DefaultOf(p), behind, rest);
  }

  /** The whole list reads back: in this order every parameter's form, name and default. */
  lemma {:induction false} ListRead(ps: seq<Param>, multi: bool, rest: seq<Token>)
    requires ps != [] && forall p :: p in ps ==> Readable(p)
    ensures ReadList(ListTokens(ps, multi) + ([CLOSE] + rest)) == Some((AllShown(ps, multi), rest))
    decreases |ps|
  {
    ListIsCommas(ps, multi);
    CommasRead(ps, multi, rest);
  }

  lemma {:induction false} ListEnd(ts: seq<Token>, p: Shown, rest: seq<Token>)
    requires ReadParam(ts) == Some((p, [CLOSE] + rest))
    ensures ReadList(ts) == Some(([p], rest))
  {
    assert ([CLOSE] + rest)[1..] == rest;
  }

  lemma {:induction false} ListStep(ts: seq<Token>, p: Shown, next: seq<Token>, more: seq<Shown>, rest: seq<Token>)
    requires ReadParam(ts) == Some((p, [COMMA] + next)) && ReadList(next) == Some((more, rest))
    ensures ReadList(ts) == Some(([p] + more, rest))
  {
    assert ([COMMA] + next)[1..] == next;
  }

  lemma {:induction false} GroupsFirst(ps: seq<Param>, multi: bool)
    requires ps != []
    ensures Groups(ps, multi)[0] == ParamTokens(ps[0], multi) && Groups(ps, multi)[1..] == Groups(ps[1..], multi)
    ensures |ps| == 1 ==> Commas(Groups(ps, multi)) == ParamTokens(ps[0], multi)
    ensures |ps| > 1 ==> Commas(Groups(ps, multi)) == ParamTokens(ps[0], multi) + ([COMMA] + Commas(Groups(ps[1..], multi)))
  {}

  lemma {:induction false} CommasRead(ps: seq<Param>, multi: bool, rest: seq<Token>)
    requires ps != [] && forall p :: p in ps ==> Readable(p)
    ensures ReadList(Commas(Groups(ps, multi)) + ([CLOSE] + rest)) == Some((AllShown(ps, multi), rest))
    decreases |ps|
  {
    var first, more, close := ps[0], ps[1..], [CLOSE] + rest;
    var shown := ShownOf(first, multi);
    GroupsFirst(ps, multi);
    if more == [] {
      ParamRead(first, multi, close);
      ListEnd(ParamTokens(first, multi) + close, shown, rest);
      assert AllShown(more, multi) == [] && [shown] + [] == [shown];
    } else {
      var tail := Commas(Groups(more, multi));
      CommasRead(more, multi, rest);
      ParamRead(first, multi, [COMMA] + (tail + close));
      FirstBefore(ParamTokens(first, multi), tail, close);
      ListStep(ParamTokens(first, multi) + ([COMMA] + (tail + close)), shown, tail + close, AllShown(more, multi), rest);
    }
  }

  lemma FirstBefore(first: seq<Token>, tail: seq<Token>, close: seq<Token>)
    ensures first + ([COMMA] + tail) + close == first + ([COMMA] + (tail + close))
  {}

  // --- What is filtered ----------------------------------------------------------------------------

  /** A bound that is not for C++: a lifetime, or the union of a constraint tuple. */
  predicate Foreign(t: TypeNode) {
    t.nameParts == ["union"] || (t.nameParts != [] && t.nameParts[0] != "" && t.nameParts[0][0] == '\'')
  }

  lemma ForeignIs(t: TypeNode)
    ensures IsLifetimeBound(t) || IsUnionBound(t) <==> Foreign(t)
  {}

  /** The bounds of a parameter, its constraint first. */
  function AllBounds(p: Param): seq<TypeNode> {
    if p.constraintType.nameParts == [] then p.extraBounds else [p.constraintType] + p.extraBounds
  }

  /** A parameter list is filtered one by one: lifetimes go, and all but the kept bounds of type parameters stays. */
  lemma {:induction false} FilteredParts(a: seq<Param>, p: Param)
    ensures Filtered([]) == []
    ensures p.kind == LifetimeParam ==> Filtered(a + [p]) == Filtered(a)
    ensures p.kind != LifetimeParam ==> Filtered(a + [p]) == Filtered(a) + [Cleaned(p)]
    ensures p.kind != TypeParam ==> Cleaned(p) == p
    ensures Cleaned(p).(constraintType := p.constraintType, extraBounds := p.extraBounds) == p
  {
    assert (a + [p])[..|a|] == a;
  }

  lemma {:induction false} CleanedBounds(p: Param)
    requires p.kind == TypeParam && forall t :: t in p.extraBounds ==> t.nameParts != []
    ensures AllBounds(Cleaned(p)) == Kept(AllBounds(p))
  {
    NamedKept(AllBounds(p));
    var kept := Kept(AllBounds(p));
    assert AllBounds(p) == Bounds(p);
    if kept != [] { assert kept == [kept[0]] + kept[1..] && kept[0] in kept; }
  }

  lemma {:induction false} NamedKept(bounds: seq<TypeNode>)
    requires forall t :: t in bounds ==> t.nameParts != []
    ensures forall t :: t in Kept(bounds) ==> t.nameParts != []
  {
    if bounds != [] {
      assert bounds[|bounds| - 1] in bounds;
      NamedKept(bounds[..|bounds| - 1]);
    }
  }

  /** Foreign bounds go, and all others stay as often as they were. */
  lemma {:induction false} KeptMeans(bounds: seq<TypeNode>)
    ensures forall t :: multiset(Kept(bounds))[t] == if Foreign(t) then 0 else multiset(bounds)[t]
  {
    if bounds != [] {
      var front, last := bounds[..|bounds| - 1], bounds[|bounds| - 1];
      KeptMeans(front);
      ForeignIs(last);
      assert bounds == front + [last];
      assert Kept(bounds) == Kept(front) + (if Foreign(last) then [] else [last]);
      assert multiset(bounds) == multiset(front) + multiset{last};
      assert multiset(Kept(bounds)) == multiset(Kept(front)) + if Foreign(last) then multiset{} else multiset{last};
    }
  }

  /** The first list is the second one with some elements left out. */
  predicate LeftOut<T(==)>(small: seq<T>, large: seq<T>) {
    if large == [] then small == []
    else
      var front := large[..|large| - 1];
      || LeftOut(small, front)
      || (small != [] && small[|small| - 1] == large[|large| - 1] && LeftOut(small[..|small| - 1], front))
  }

  /** And they stay in the order they had. */
  lemma {:induction false} KeptInOrder(bounds: seq<TypeNode>)
    ensures LeftOut(Kept(bounds), bounds)
  {
    if bounds != [] {
      var front, last := bounds[..|bounds| - 1], bounds[|bounds| - 1];
      KeptInOrder(front);
      if Kept(bounds) != Kept(front) {
        assert Kept(bounds) == Kept(front) + [last];
        assert Kept(bounds)[..|Kept(bounds)| - 1] == Kept(front);
      }
    }
  }

  /**
   The printed clause, read back: `template <`, the parameters that are no lifetimes with what is
   left of their bounds, and behind the bracket the notes and the requires clause.
   */
  lemma {:induction false} ClauseRead(params: seq<Param>)
    requires Filtered(params) != [] && forall p :: p in Filtered(params) ==> Readable(p)
    ensures var ps := Filtered(params); var ts := Clause(params);
      && |ts| > 2 && ts[0] == Token(Keyword, "template") && ts[1] == Token(Punctuation, "<")
      && ReadList(ts[2..]) == Some((AllShown(ps, HasMultiBound(ps)), Notes(params) + RequiresTokens(ps)))
    ensures (forall p :: p in Filtered(params) && p.kind == TypeParam ==> p.extraBounds == []) ==>
      ReadList(Clause(params)[2..]) == Some((AllShown(Filtered(params), false), Notes(params)))
  {
    var ps := Filtered(params);
    if forall p :: p in ps && p.kind == TypeParam ==> p.extraBounds == [] {
      assert !HasMultiBound(ps) by { assert forall i :: 0 <= i < |ps| ==> ps[i] in ps; }
      assert Notes(params) + [] == Notes(params);
    }
    var rest := Notes(params) + RequiresTokens(ps);
    ListRead(ps, HasMultiBound(ps), rest);
    ClauseText(ListTokens(ps, HasMultiBound(ps)), Notes(params), RequiresTokens(ps));
  }

  lemma ClauseText(list: seq<Token>, notes: seq<Token>, requirement: seq<Token>)
    ensures var ts := [Word("template"), Punct("<")] + list + [Punct(">")] + notes + requirement;
      |ts| > 2 && ts[0] == Word("template") && ts[1] == Punct("<") && ts[2..] == list + ([CLOSE] + (notes + requirement))
  {
    var ts := [Word("template"), Punct("<")] + list + [Punct(">")] + notes + requirement;
    assert ts == [Word("template"), Punct("<")] + (list + ([CLOSE] + (notes + requirement)));
  }

  // --- Notes ------------------------------------------------------------------------------------------

  lemma DropsUnionIs(p: Param)
    ensures DropsUnion(p) <==>
      p.kind == TypeParam && (p.constraintType.nameParts == ["union"] || exists t :: t in p.extraBounds && t.nameParts == ["union"])
  {
    var all := Bounds(p);
    if DropsUnion(p) {
      var i :| 0 <= i < |all| && IsUnionBound(all[i]);
      assert all[i] == p.constraintType || all[i] in p.extraBounds;
    }
    if p.constraintType.nameParts == ["union"] { assert all[0] == p.constraintType; }
    if t :| t in p.extraBounds && t.nameParts == ["union"] {
      var k :| 0 <= k < |p.extraBounds| && p.extraBounds[k] == t;
      var i := |all| - |p.extraBounds| + k;
      assert all[i] == t;
    }
  }

  /** Each parameter that loses a union bound is named in a note, and no other one is. */
  lemma {:induction false} UnionNoted(params: seq<Param>, note: Token)
    ensures note in UnionNotes(params) <==>
      exists p :: p in params && DropsUnion(p) && note == Token(Comment, "union bound on " + p.name)
  {
    if params != [] {
      var front, last := params[..|params| - 1], params[|params| - 1];
      UnionNoted(front, note);
      assert params == front + [last];
    }
  }

  /** The same for associated-type bindings on the constraint or on a further bound. */
  lemma {:induction false} AssocNoted(ps: seq<Param>, note: Token)
    ensures note in AssocNotes(ps) <==>
      exists p :: p in ps && DropsAssoc(p) && note == Token(Comment, "associated-type bindings on " + p.name)
  {
    if ps != [] {
      var front, last := ps[..|ps| - 1], ps[|ps| - 1];
      AssocNoted(front, note);
      assert ps == front + [last];
    }
  }

  lemma DropsAssocIs(p: Param)
    ensures DropsAssoc(p) <==>
      p.kind == TypeParam && (p.constraintType.assocBindings || exists t :: t in p.extraBounds && t.assocBindings)
  {
    if t :| t in p.extraBounds && t.assocBindings {
      var k :| 0 <= k < |p.extraBounds| && p.extraBounds[k] == t;
      assert p.extraBounds[k].assocBindings;
    }
  }
}
