/**
 The template clause that the C++ emitter prints, as the tokens a C++ lexer finds in it.
 */
module TemplateClause {
  import opened Outcomes

  datatype TokenKind = Keyword | Identifier | Punctuation | Literal | Comment

  datatype Token = Token(kind: TokenKind, text: string)

  predicate IsKeyword(text: string) {
    text in {"template", "typename", "class", "struct", "union", "enum", "auto", "requires", "concept",
             "bool", "char", "short", "int", "long", "float", "double", "signed", "unsigned", "void", "const",
             "true", "false", "static", "inline", "constexpr", "public", "private", "operator", "using"}
  }

  function Word(text: string): Token {
    Token(if IsKeyword(text) then Keyword else Identifier, text)
  }

  function Punct(text: string): Token {
    Token(Punctuation, text)
  }

  datatype ParamKind = TypeParam | NonTypeParam | TemplateTemplateParam | LifetimeParam

  datatype TypeNode = TypeNode(nameParts: seq<string>, assocBindings: bool)

  const NO_TYPE := TypeNode([], false)

  datatype Param = Param(
    name: string,
    kind: ParamKind,
    constraintType: TypeNode,
    extraBounds: seq<TypeNode>,
    isVariadic: bool,
    defaultType: seq<string>,   // empty when absent
    defaultValue: seq<Token>,   // empty when absent
    innerParams: seq<bool>)     // variadic or not

  // --- What is filtered ----------------------------------------------------------------------------

  predicate IsLifetimeBound(t: TypeNode) {
    t.nameParts != [] && t.nameParts[0] != [] && t.nameParts[0][0] == '\''
  }

  predicate IsUnionBound(t: TypeNode) {
    t.nameParts == ["union"]
  }

  function Bounds(p: Param): seq<TypeNode> {
    (if p.constraintType.nameParts != [] then [p.constraintType] else []) + p.extraBounds
  }

  function Kept(bounds: seq<TypeNode>): (r: seq<TypeNode>)
    ensures |r| <= |bounds|
  {
    if bounds == [] then []
    else
      var last := bounds[|bounds| - 1];
      Kept(bounds[..|bounds| - 1]) + (if IsLifetimeBound(last) || IsUnionBound(last) then [] else [last])
  }

  function WithBounds(p: Param, bounds: seq<TypeNode>): Param {
    if bounds == [] then p.(constraintType := NO_TYPE, extraBounds := [])
    else p.(constraintType := bounds[0], extraBounds := bounds[1..])
  }

  function Cleaned(p: Param): Param {
    if p.kind == TypeParam then WithBounds(p, Kept(Bounds(p))) else p
  }

  /** The parameters that reach the clause. */
  function Filtered(params: seq<Param>): seq<Param> {
    if params == [] then []
    else
      var last := params[|params| - 1];
      Filtered(params[..|params| - 1]) + (if last.kind == LifetimeParam then [] else [Cleaned(last)])
  }

  predicate DropsUnion(p: Param) {
    p.kind == TypeParam && exists i :: 0 <= i < |Bounds(p)| && IsUnionBound(Bounds(p)[i])
  }

  function UnionNotes(params: seq<Param>): seq<Token> {
    if params == [] then []
    else
      var last := params[|params| - 1];
      UnionNotes(params[..|params| - 1])
      + (if DropsUnion(last) then [Token(Comment, "union bound on " + last.name)] else [])
  }

  predicate DropsAssoc(p: Param) {
    p.kind == TypeParam && (p.constraintType.assocBindings || exists i :: 0 <= i < |p.extraBounds| && p.extraBounds[i].assocBindings)
  }

  function AssocNote(p: Param): seq<Token> {
    if DropsAssoc(p) then [Token(Comment, "associated-type bindings on " + p.name)] else []
  }

  function AssocNotes(ps: seq<Param>): seq<Token> {
    if ps == [] then [] else AssocNotes(ps[..|ps| - 1]) + AssocNote(ps[|ps| - 1])
  }

  predicate HasMultiBound(ps: seq<Param>) {
    exists i :: 0 <= i < |ps| && ps[i].kind == TypeParam && ps[i].extraBounds != []
  }

  // --- What is printed -----------------------------------------------------------------------------

  function Joined(parts: seq<string>): seq<Token> {
    if parts == [] then []
    else if |parts| == 1 then [Word(parts[0])]
    else Joined(parts[..|parts| - 1]) + [Punct("::"), Word(parts[|parts| - 1])]
  }

  function Ellipsis(variadic: bool): seq<Token> {
    if variadic then [Punct("...")] else []
  }

  function InnerTokens(inner: seq<bool>): seq<Token> {
    if inner == [] then []
    else
      InnerTokens(inner[..|inner| - 1]) + (if |inner| > 1 then [Punct(",")] else [])
      + [Word("typename")] + Ellipsis(inner[|inner| - 1])
  }

  function Introduced(p: Param, multi: bool): seq<Token> {
    if p.kind == TemplateTemplateParam then
      [Word("template"), Punct("<")] + InnerTokens(p.innerParams) + [Punct(">"), Word("class"), Word(p.name)]
    else if p.kind == NonTypeParam && p.constraintType.nameParts != [] then
      Joined(p.constraintType.nameParts) + [Word(p.name)]
    else if !multi && p.kind == TypeParam && p.constraintType.nameParts != [] then
      Joined(p.constraintType.nameParts) + Ellipsis(p.isVariadic) + [Word(p.name)]
    else
      [Word("typename")] + Ellipsis(p.kind == TypeParam && p.isVariadic) + [Word(p.name)]
  }

  function Default(p: Param): seq<Token> {
    if p.kind == TypeParam && p.defaultType != [] then [Punct("=")] + Joined(p.defaultType)
    else if p.kind == NonTypeParam && p.defaultValue != [] then [Punct("=")] + p.defaultValue
    else []
  }

  function ParamTokens(p: Param, multi: bool): seq<Token> {
    Introduced(p, multi) + Default(p)
  }

  function ListTokens(ps: seq<Param>, multi: bool): seq<Token> {
    if ps == [] then []
    else
      ListTokens(ps[..|ps| - 1], multi) + (if |ps| > 1 then [Punct(",")] else []) + ParamTokens(ps[|ps| - 1], multi)
  }

  datatype Concept = Concept(parts: seq<string>, param: string)

  function ConceptsOf(p: Param): seq<Concept> {
    if p.kind != TypeParam then [] else ConceptList(Bounds(p), p.name)
  }

  function ConceptList(bounds: seq<TypeNode>, name: string): seq<Concept> {
    if bounds == [] then []
    else
      var last := bounds[|bounds| - 1];
      ConceptList(bounds[..|bounds| - 1], name) + (if last.nameParts == [] then [] else [Concept(last.nameParts, name)])
  }

  function Concepts(ps: seq<Param>): seq<Concept> {
    if ps == [] then [] else Concepts(ps[..|ps| - 1]) + ConceptsOf(ps[|ps| - 1])
  }

  function ConceptTokens(c: Concept): seq<Token> {
    Joined(c.parts) + [Punct("<"), Word(c.param), Punct(">")]
  }

  function Conjunction(cs: seq<Concept>): seq<Token> {
    if cs == [] then []
    else Conjunction(cs[..|cs| - 1]) + (if |cs| > 1 then [Punct("&&")] else []) + ConceptTokens(cs[|cs| - 1])
  }

  function RequiresTokens(ps: seq<Param>): seq<Token> {
    if HasMultiBound(ps) && Concepts(ps) != [] then [Word("requires")] + Conjunction(Concepts(ps)) else []
  }

  function Notes(params: seq<Param>): seq<Token> {
    AssocNotes(Filtered(params)) + UnionNotes(params)
  }

  /** The clause of these parameters. */
  function Clause(params: seq<Param>): seq<Token> {
    var ps := Filtered(params);
    if ps == [] then []
    else
      [Word("template"), Punct("<")] + ListTokens(ps, HasMultiBound(ps)) + [Punct(">")]
      + Notes(params) + RequiresTokens(ps)
  }

  // --- The emitter ---------------------------------------------------------------------------------

  method RenderJoined(parts: seq<string>) returns (out: seq<Token>)
    ensures out == Joined(parts)
  {
    out := [];
    for j := 0 to |parts|
      invariant out == Joined(parts[..j])
    {
      assert parts[..j + 1][..j] == parts[..j];
      if j > 0 {
        out := out + [Punct("::"), Word(parts[j])];
      } else {
        out := out + [Word(parts[j])];
      }
    }
    assert parts[..|parts|] == parts;
  }

  method KeepBounds(all: seq<TypeNode>) returns (kept: seq<TypeNode>, unionDropped: bool)
    ensures kept == Kept(all)
    ensures unionDropped <==> exists k :: 0 <= k < |all| && IsUnionBound(all[k])
  {
    kept, unionDropped := [], false;
    for i := 0 to |all|
      invariant kept == Kept(all[..i])
      invariant unionDropped <==> exists k :: 0 <= k < i && IsUnionBound(all[k])
    {
      assert all[..i + 1][..i] == all[..i];
      if IsLifetimeBound(all[i]) {
        assert !IsUnionBound(all[i]);
      } else if IsUnionBound(all[i]) {
        unionDropped := true;
      } else {
        kept := kept + [all[i]];
      }
    }
    assert all[..|all|] == all;
  }

  /** Drops lifetime and union bounds of one type parameter. */
  method CleanParam(p: Param) returns (q: Param, unionDropped: bool)
    requires p.kind == TypeParam
    ensures q == Cleaned(p) && unionDropped == DropsUnion(p)
  {
    var all: seq<TypeNode> := [];
    if p.constraintType.nameParts != [] {
      all := all + [p.constraintType];
    }
    all := all + p.extraBounds;
    assert all == Bounds(p);
    var kept, dropped := KeepBounds(all);
    unionDropped := dropped;
    if |kept| == 0 {
      q := p.(constraintType := NO_TYPE, extraBounds := []);
    } else {
      q := p.(constraintType := kept[0], extraBounds := kept[1..]);
    }
  }

  method FilterParams(params: seq<Param>) returns (filtered: seq<Param>, unionNotes: seq<Token>)
    ensures filtered == Filtered(params) && unionNotes == UnionNotes(params)
  {
    filtered, unionNotes := [], [];
    for i := 0 to |params|
      invariant filtered == Filtered(params[..i]) && unionNotes == UnionNotes(params[..i])
    {
      var p := params[i];
      assert params[..i + 1][..i] == params[..i];
      if p.kind == TypeParam {
        var q, unionDropped := CleanParam(p);
        filtered := filtered + [q];
        if unionDropped {
          unionNotes := unionNotes + [Token(Comment, "union bound on " + p.name)];
        }
      } else if p.kind != LifetimeParam {
        filtered := filtered + [p];
      }
    }
    assert params[..|params|] == params;
  }

  method RenderInner(inner: seq<bool>) returns (s: seq<Token>)
    ensures s == InnerTokens(inner)
  {
    s := [];
    for k := 0 to |inner|
      invariant s == InnerTokens(inner[..k])
    {
      assert inner[..k + 1][..k] == inner[..k];
      if k > 0 {
        s := s + [Punct(",")];
      }
      s := s + [Word("typename")];
      if inner[k] {
        s := s + [Punct("...")];
      }
    }
    assert inner[..|inner|] == inner;
  }

  method RenderParam(p: Param, multi: bool) returns (s: seq<Token>, notes: seq<Token>)
    ensures s == ParamTokens(p, multi) && notes == AssocNote(p)
  {
    notes := AssocNote(p);
    if p.kind == TemplateTemplateParam {
      var inner := RenderInner(p.innerParams);
      s := [Word("template"), Punct("<")] + inner + [Punct(">"), Word("class"), Word(p.name)];
    } else if p.kind == NonTypeParam && p.constraintType.nameParts != [] {
      s := RenderJoined(p.constraintType.nameParts);
      s := s + [Word(p.name)];
    } else if !multi && p.kind == TypeParam && p.constraintType.nameParts != [] {
      s := RenderJoined(p.constraintType.nameParts);
      s := s + Ellipsis(p.isVariadic) + [Word(p.name)];
    } else {
      s := [Word("typename")] + Ellipsis(p.kind == TypeParam && p.isVariadic) + [Word(p.name)];
    }
    if p.kind == TypeParam && p.defaultType != [] {
      var default := RenderJoined(p.defaultType);
      s := s + ([Punct("=")] + default);
    }
    if p.kind == NonTypeParam && p.defaultValue != [] {
      s := s + ([Punct("=")] + p.defaultValue);
    }
  }

  lemma {:induction false} ConjunctionNext(cs: seq<Concept>, c: Concept)
    ensures Conjunction(cs + [c]) == Conjunction(cs) + (if cs != [] then [Punct("&&")] else []) + ConceptTokens(c)
    ensures Conjunction(cs) == [] <==> cs == []
  {
    assert (cs + [c])[..|cs|] == cs;
  }

  lemma {:induction false} ConceptNext(front: seq<Concept>, bounds: seq<TypeNode>, k: nat, name: string, cs: seq<Concept>)
    requires k < |bounds| && cs == front + ConceptList(bounds[..k], name)
    ensures front + ConceptList(bounds[..k + 1], name)
            == if bounds[k].nameParts == [] then cs else cs + [Concept(bounds[k].nameParts, name)]
  {
    assert bounds[..k + 1][..k] == bounds[..k];
  }

  /** One more concept behind those of cs. */
  method RenderConcept(c: Concept, before: seq<Token>, ghost cs: seq<Concept>) returns (req: seq<Token>)
    requires before == Conjunction(cs)
    ensures req == Conjunction(cs + [c])
  {
    var joined := RenderJoined(c.parts);
    ConjunctionNext(cs, c);
    req := before;
    if |req| > 0 {
      req := req + [Punct("&&")];
    }
    req := req + (joined + [Punct("<"), Word(c.param), Punct(">")]);
  }

  /** The concepts of one parameter, after those of the ones before it. */
  method RenderConcepts(bounds: seq<TypeNode>, name: string, before: seq<Token>, ghost front: seq<Concept>)
    returns (req: seq<Token>, ghost cs: seq<Concept>)
    requires before == Conjunction(front)
    ensures cs == front + ConceptList(bounds, name)
    ensures req == Conjunction(front + ConceptList(bounds, name))
  {
    req, cs := before, front;
    for k := 0 to |bounds|
      invariant cs == front + ConceptList(bounds[..k], name)
      invariant req == Conjunction(cs)
    {
      ConceptNext(front, bounds, k, name, cs);
      if bounds[k].nameParts != [] {
        var c := Concept(bounds[k].nameParts, name);
        req := RenderConcept(c, req, cs);
        cs := cs + [c];
      }
    }
    assert bounds[..|bounds|] == bounds;
  }

  lemma ConceptsNext(ps: seq<Param>, i: nat)
    requires i < |ps|
    ensures Concepts(ps[..i + 1]) == Concepts(ps[..i]) + ConceptsOf(ps[i])
  {
    assert ps[..i + 1][..i] == ps[..i];
  }

  method RenderRequires(ps: seq<Param>) returns (req: seq<Token>)
    ensures req == Conjunction(Concepts(ps))
  {
    req := [];
    ghost var cs: seq<Concept> := [];
    for i := 0 to |ps|
      invariant cs == Concepts(ps[..i]) && req == Conjunction(cs)
    {
      ConceptsNext(ps, i);
      if ps[i].kind == TypeParam {
        req, cs := RenderConcepts(Bounds(ps[i]), ps[i].name, req, cs);
      }
    }
    assert ps[..|ps|] == ps;
  }

  method RenderList(ps: seq<Param>, multi: bool) returns (s: seq<Token>, assocNotes: seq<Token>)
    ensures s == ListTokens(ps, multi) && assocNotes == AssocNotes(ps)
  {
    s, assocNotes := [], [];
    for i := 0 to |ps|
      invariant s == ListTokens(ps[..i], multi) && assocNotes == AssocNotes(ps[..i])
    {
      assert ps[..i + 1][..i] == ps[..i];
      if i > 0 {
        s := s + [Punct(",")];
      }
      var tokens, notes := RenderParam(ps[i], multi);
      s, assocNotes := s + tokens, assocNotes + notes;
    }
    assert ps[..|ps|] == ps;
  }

  method TemplateClause(params: seq<Param>) returns (s: seq<Token>)
    ensures s == Clause(params)
  {
    var ps, unionNotes := FilterParams(params);
    if |ps| == 0 {
      return [];
    }
    var multi := HasMultiBound(ps);
    var list, assocNotes := RenderList(ps, multi);
    s := [Word("template"), Punct("<")] + list + [Punct(">")] + (assocNotes + unionNotes);
    if multi {
      var req := RenderRequires(ps);
      ConjunctionNext(Concepts(ps), Concept([], ""));
      if |req| > 0 {
        s := s + ([Word("requires")] + req);
      }
    }
  }
}
