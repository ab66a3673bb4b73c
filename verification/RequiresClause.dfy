/**
 The extractor's reader of a requires clause, and what it makes of the emitter's clauses.

 The reader is specified on suffixes of the token sequence and implemented by index loops. It finds
 the end of the parameter list by counting angle brackets, stages one bound per `Concept<T>`, and
 commits all staged bounds or none. The round trip follows the emitter: the brackets of its list
 match, its conjunction is read back concept by concept, and the bounds return to their parameters.
 */
module RequiresClause {
  import opened Outcomes
  import opened TemplateClause

  type Tokens = seq<Token>

  function FromKeyword(ts: Tokens): Tokens {
    if ts == [] || ts[0].kind == Keyword then ts else FromKeyword(ts[1..])
  }

  function FromAngle(ts: Tokens): Tokens {
    if ts == [] || ts[0] == Punct("<") then ts else FromAngle(ts[1..])
  }

  /** What follows once `depth` open angle brackets are closed. */
  function PastAngles(ts: Tokens, depth: nat): Option<Tokens>
    decreases |ts|
  {
    if depth == 0 then Some(ts)
    else if ts == [] then None
    else if ts[0] == Punct("<") then PastAngles(ts[1..], depth + 1)
    else if ts[0] == Punct(">") then PastAngles(ts[1..], depth - 1)
    else PastAngles(ts[1..], depth)
  }

  /** What follows `requires`, if the parameter list is followed by it. */
  function ClauseBody(ts: Tokens): Option<Tokens> {
    var header := FromKeyword(ts);
    if header == [] || header[0].text != "template" then None
    else
      var list := FromAngle(header[1..]);
      if list == [] then None
      else
        match PastAngles(list[1..], 1)
        case None => None
        case Some(rest) => if rest != [] && rest[0] == Token(Keyword, "requires") then Some(rest[1..]) else None
  }

  predicate EndsClause(t: Token) {
    || (t.kind == Punctuation && (t.text == "{" || t.text == ";"))
    || (t.kind == Keyword && t.text in {"struct", "class", "union", "enum", "auto"})
  }

  predicate Terminates(ts: Tokens) {
    ts == [] || EndsClause(ts[0])
  }

  predicate IsName(t: Token) {
    t.kind == Identifier || t.kind == Keyword
  }

  function NameParts(parts: seq<string>, ts: Tokens): (seq<string>, Tokens)
    decreases |ts|
  {
    if |ts| >= 2 && ts[0] == Punct("::") && IsName(ts[1]) then NameParts(parts + [ts[1].text], ts[2..]) else (parts, ts)
  }

  datatype Chunk = Chunk(parts: seq<string>, arg: string, rest: Tokens)

  /** One `Concept<T>`. */
  function ReadConcept(ts: Tokens): (r: Option<Chunk>)
    requires ts != []
    ensures r.Some? ==> |r.value.rest| < |ts|
  {
    if !IsName(ts[0]) then None
    else
      var named := NameParts([ts[0].text], ts[1..]);
      NamePartsShorter([ts[0].text], ts[1..]);
      var rest := named.1;
      if |rest| >= 3 && rest[0] == Punct("<") && rest[1].kind == Identifier && rest[2] == Punct(">")
      then Some(Chunk(named.0, rest[1].text, rest[3..]))
      else None
  }

  lemma {:induction false} NamePartsShorter(parts: seq<string>, ts: Tokens)
    ensures |NameParts(parts, ts).1| <= |ts|
    decreases |ts|
  {
    if |ts| >= 2 && ts[0] == Punct("::") && IsName(ts[1]) { NamePartsShorter(parts + [ts[1].text], ts[2..]); }
  }

  function FindParam(params: seq<Param>, name: string): (r: Option<nat>)
    ensures r.Some? ==> r.value < |params| && params[r.value].kind == TypeParam && params[r.value].name == name
    ensures r.Some? ==> forall k :: 0 <= k < r.value ==> !(params[k].kind == TypeParam && params[k].name == name)
    ensures r.None? ==> forall k :: 0 <= k < |params| ==> !(params[k].kind == TypeParam && params[k].name == name)
  {
    if params == [] then None
    else if params[0].kind == TypeParam && params[0].name == name then Some(0)
    else
      match FindParam(params[1..], name)
      case None => None
      case Some(k) => Some(k + 1)
  }

  datatype Staged = Staged(index: nat, parts: seq<string>)

  function Before(front: seq<Staged>, rest: Option<seq<Staged>>): Option<seq<Staged>> {
    if rest.Some? then Some(front + rest.value) else None
  }

  function Skipped(ts: Tokens): (r: Option<Tokens>)
    ensures r.Some? ==> |r.value| <= |ts|
  {
    if Terminates(ts) then Some(ts) else if ts[0] == Punct("&&") then Some(ts[1..]) else None
  }

  /** The bounds of a whole clause; None when any part is outside the recognised form. */
  function Parse(ts: Tokens, params: seq<Param>): Option<seq<Staged>>
    decreases |ts|
  {
    if Terminates(ts) then Some([])
    else
      match ReadConcept(ts)
      case None => None
      case Some(c) =>
        var index, next := FindParam(params, c.arg), Skipped(c.rest);
        if index.None? || next.None? then None
        else Before([Staged(index.value, c.parts)], Parse(next.value, params))
  }

  predicate InRange(staged: seq<Staged>, n: nat) {
    forall k :: 0 <= k < |staged| ==> staged[k].index < n
  }

  function WithBound(p: Param, parts: seq<string>): Param {
    if p.constraintType.nameParts == [] then p.(constraintType := TypeNode(parts, false))
    else p.(extraBounds := p.extraBounds + [TypeNode(parts, false)])
  }

  function Commit(params: seq<Param>, staged: seq<Staged>): (r: seq<Param>)
    requires InRange(staged, |params|)
    ensures |r| == |params|
  {
    if staged == [] then params
    else
      var before, last := Commit(params, staged[..|staged| - 1]), staged[|staged| - 1];
      before[last.index := WithBound(before[last.index], last.parts)]
  }

  lemma {:induction false} ParsedInRange(ts: Tokens, params: seq<Param>)
    ensures Parse(ts, params).Some? ==> InRange(Parse(ts, params).value, |params|)
    decreases |ts|
  {
    if !Terminates(ts) && ReadConcept(ts).Some? {
      var next := Skipped(ReadConcept(ts).value.rest);
      if next.Some? { ParsedInRange(next.value, params); }
    }
  }

  /** The parameters afterwards: every bound of the clause, or none. */
  function Attached(ts: Tokens, params: seq<Param>): seq<Param> {
    var body := ClauseBody(ts);
    if params == [] || body.None? then params
    else
      var staged := Parse(body.value, params);
      ParsedInRange(body.value, params);
      if staged.None? then params else Commit(params, staged.value)
  }

  // --- The reader ----------------------------------------------------------------------------------

  method SkipToKeyword(ts: Tokens) returns (i: nat)
    ensures i <= |ts| && ts[i..] == FromKeyword(ts)
  {
    i := 0;
    while i < |ts| && ts[i].kind != Keyword
      invariant i <= |ts| && FromKeyword(ts) == FromKeyword(ts[i..])
    {
      assert ts[i..][1..] == ts[i + 1..];
      i := i + 1;
    }
  }

  method SkipToAngle(ts: Tokens, start: nat) returns (i: nat)
    requires start <= |ts|
    ensures start <= i <= |ts| && ts[i..] == FromAngle(ts[start..])
  {
    i := start;
    while i < |ts| && ts[i] != Punct("<")
      invariant start <= i <= |ts| && FromAngle(ts[start..]) == FromAngle(ts[i..])
    {
      assert ts[i..][1..] == ts[i + 1..];
      i := i + 1;
    }
  }

  method SkipAngles(ts: Tokens, start: nat) returns (i: Option<nat>)
    requires start <= |ts|
    ensures i.Some? <==> PastAngles(ts[start..], 1).Some?
    ensures i.Some? ==> i.value <= |ts| && PastAngles(ts[start..], 1) == Some(ts[i.value..])
  {
    var depth, at := 1, start;
    while at < |ts| && depth > 0
      invariant start <= at <= |ts| && depth >= 0
      invariant PastAngles(ts[start..], 1) == PastAngles(ts[at..], depth)
    {
      assert ts[at..][1..] == ts[at + 1..];
      if ts[at] == Punct("<") {
        depth := depth + 1;
      } else if ts[at] == Punct(">") {
        depth := depth - 1;
      }
      at := at + 1;
    }
    return if depth == 0 then Some(at) else None;
  }

  /** Where the clause body starts. */
  method FindClause(ts: Tokens) returns (start: Option<nat>)
    ensures start.Some? <==> ClauseBody(ts).Some?
    ensures start.Some? ==> start.value <= |ts| && ts[start.value..] == ClauseBody(ts).value
  {
    var i := SkipToKeyword(ts);
    if i >= |ts| || ts[i].text != "template" {
      return None;
    }
    assert ts[i..][1..] == ts[i + 1..];
    var list := SkipToAngle(ts, i + 1);
    if list >= |ts| {
      return None;
    }
    assert ts[list..][1..] == ts[list + 1..];
    var after := SkipAngles(ts, list + 1);
    if after.None? || after.value >= |ts| || ts[after.value] != Token(Keyword, "requires") {
      return None;
    }
    assert ts[after.value..][1..] == ts[after.value + 1..];
    return Some(after.value + 1);
  }

  method ParseConcept(ts: Tokens, at: nat) returns (c: Option<(seq<string>, string)>, next: nat)
    requires at < |ts|
    ensures next <= |ts| && (c.Some? <==> ReadConcept(ts[at..]).Some?)
    ensures c.Some? ==> next > at && ReadConcept(ts[at..]) == Some(Chunk(c.value.0, c.value.1, ts[next..]))
  {
    if !IsName(ts[at]) {
      return None, at;
    }
    var parts, i := [ts[at].text], at + 1;
    assert ts[at..][1..] == ts[i..];
    while i + 1 < |ts| && ts[i] == Punct("::") && IsName(ts[i + 1])
      invariant at < i <= |ts|
      invariant NameParts([ts[at].text], ts[at + 1..]) == NameParts(parts, ts[i..])
    {
      assert ts[i..][2..] == ts[i + 2..];
      parts := parts + [ts[i + 1].text];
      i := i + 2;
    }
    if i >= |ts| || ts[i] != Punct("<") {
      return None, i;
    }
    if i + 1 >= |ts| || ts[i + 1].kind != Identifier {
      return None, i;
    }
    if i + 2 >= |ts| || ts[i + 2] != Punct(">") {
      return None, i;
    }
    assert ts[i..][3..] == ts[i + 3..];
    return Some((parts, ts[i + 1].text)), i + 3;
  }

  lemma BeforeBefore(a: seq<Staged>, b: seq<Staged>, rest: Option<seq<Staged>>)
    ensures Before(a + b, rest) == Before(a, Before(b, rest))
    ensures Before([], rest) == rest
  {
    if rest.Some? { assert a + b + rest.value == a + (b + rest.value) && [] + rest.value == rest.value; }
  }

  lemma {:induction false} ParseNext(ts: Tokens, params: seq<Param>, found: seq<Staged>, next: Tokens)
    requires !Terminates(ts) && ReadConcept(ts).Some?
    requires FindParam(params, ReadConcept(ts).value.arg).Some? && Skipped(ReadConcept(ts).value.rest) == Some(next)
    ensures var c := ReadConcept(ts).value;
            Before(found, Parse(ts, params))
            == Before(found + [Staged(FindParam(params, c.arg).value, c.parts)], Parse(next, params))
  {
    var c := ReadConcept(ts).value;
    BeforeBefore(found, [Staged(FindParam(params, c.arg).value, c.parts)], Parse(next, params));
  }

  /** Stages every bound of the clause from `start` on, or gives up on all of them. */
  method ParseClause(ts: Tokens, start: nat, params: array<Param>) returns (staged: Option<seq<Staged>>)
    requires start <= |ts|
    ensures staged == Parse(ts[start..], params[..])
  {
    var found: seq<Staged>, i := [], start;
    BeforeBefore([], [], Parse(ts[start..], params[..]));
    while i < |ts| && !EndsClause(ts[i])
      invariant start <= i <= |ts|
      invariant Parse(ts[start..], params[..]) == Before(found, Parse(ts[i..], params[..]))
    {
      var c, next := ParseConcept(ts, i);
      if c.None? {
        return None;
      }
      var index := IndexOf(params, c.value.1);
      if index.None? {
        return None;
      }
      ghost var from := ts[i..];
      assert ts[next..] != [] ==> ts[next..][1..] == ts[next + 1..];
      if next >= |ts| || EndsClause(ts[next]) {
        i := next;
      } else if ts[next] != Punct("&&") {
        return None;
      } else {
        i := next + 1;
      }
      ParseNext(from, params[..], found, ts[i..]);
      found := found + [Staged(index.value, c.value.0)];
    }
    assert found + [] == found;
    return Some(found);
  }

  method IndexOf(params: array<Param>, name: string) returns (index: Option<nat>)
    ensures index == FindParam(params[..], name)
  {
    var k := 0;
    while k < params.Length
      invariant 0 <= k <= params.Length
      invariant forall j :: 0 <= j < k ==> !(params[j].kind == TypeParam && params[j].name == name)
    {
      if params[k].kind == TypeParam && params[k].name == name {
        return Some(k);
      }
      k := k + 1;
    }
    return None;
  }

  /** All bounds of the clause are attached, or the parameters are left alone and a note says so. */
  method AttachRequiresClauseBounds(ts: Tokens, params: array<Param>) returns (notes: seq<string>)
    modifies params
    ensures params[..] == Attached(ts, old(params[..]))
    ensures notes != [] <==> params.Length > 0 && ClauseBody(ts).Some? && Parse(ClauseBody(ts).value, old(params[..])).None?
  {
    notes := [];
    if params.Length == 0 {
      return;
    }
    var start := FindClause(ts);
    if start.None? {
      return;
    }
    var staged := ParseClause(ts, start.value, params);
    if staged.None? {
      return ["requires-clause: all bounds dropped"];
    }
    ghost var before := params[..];
    ParsedInRange(ts[start.value..], before);
    var bounds := staged.value;
    for k := 0 to |bounds|
      invariant params[..] == Commit(before, bounds[..k])
    {
      assert bounds[..k + 1][..k] == bounds[..k];
      var index := bounds[k].index;
      params[index] := WithBound(params[index], bounds[k].parts);
    }
    assert bounds[..|bounds|] == bounds;
  }

  // --- The emitter's parameter list ------------------------------------------------------------------

  predicate NoAngles(ts: Tokens) {
    forall i :: 0 <= i < |ts| ==> ts[i] != Punct("<") && ts[i] != Punct(">")
  }

  lemma {:induction false} SkipPlain(ts: Tokens, rest: Tokens, depth: nat)
    requires NoAngles(ts) && depth > 0
    ensures PastAngles(ts + rest, depth) == PastAngles(rest, depth)
  {
    if ts == [] {
      assert ts + rest == rest;
    } else {
      SkipPlain(ts[1..], rest, depth);
      assert (ts + rest)[1..] == ts[1..] + rest && (ts + rest)[0] == ts[0];
    }
  }

  lemma {:induction false} JoinedPlain(parts: seq<string>)
    ensures NoAngles(Joined(parts))
  {
    if |parts| > 1 { JoinedPlain(parts[..|parts| - 1]); }
  }

  lemma {:induction false} InnerPlain(inner: seq<bool>)
    ensures NoAngles(InnerTokens(inner))
  {
    if inner != [] { InnerPlain(inner[..|inner| - 1]); }
  }

  /** Tokens whose angle brackets match each other. */
  ghost predicate Skips(ts: Tokens) {
    forall rest: Tokens, depth: nat | depth > 0 :: PastAngles(ts + rest, depth) == PastAngles(rest, depth)
  }

  lemma SkipsPlain(ts: Tokens)
    requires NoAngles(ts)
    ensures Skips(ts)
  {
    forall rest: Tokens, depth: nat | depth > 0 ensures PastAngles(ts + rest, depth) == PastAngles(rest, depth) {
      SkipPlain(ts, rest, depth);
    }
  }

  lemma SkipsJoin(a: Tokens, b: Tokens)
    requires Skips(a) && Skips(b)
    ensures Skips(a + b)
  {
    forall rest: Tokens, depth: nat | depth > 0 ensures PastAngles(a + b + rest, depth) == PastAngles(rest, depth) {
      assert a + b + rest == a + (b + rest);
    }
  }

  lemma SkipsThree(a: Tokens, b: Tokens, c: Tokens)
    requires Skips(a) && Skips(b) && Skips(c)
    ensures Skips(a + b + c)
  {
    SkipsJoin(a, b);
    SkipsJoin(a + b, c);
  }

  lemma {:induction false} Bracket(ts: Tokens, depth: nat)
    requires depth > 0
    ensures PastAngles([Punct("<")] + ts, depth) == PastAngles(ts, depth + 1)
    ensures PastAngles([Punct(">")] + ts, depth) == PastAngles(ts, depth - 1)
  {
    assert ([Punct("<")] + ts)[1..] == ts && ([Punct(">")] + ts)[1..] == ts;
  }

  lemma SkipsGroup(inside: Tokens)
    requires Skips(inside)
    ensures Skips([Punct("<")] + inside + [Punct(">")])
  {
    forall rest: Tokens, depth: nat | depth > 0
      ensures PastAngles([Punct("<")] + inside + [Punct(">")] + rest, depth) == PastAngles(rest, depth)
    {
      assert [Punct("<")] + inside + [Punct(">")] + rest == [Punct("<")] + (inside + ([Punct(">")] + rest));
      Bracket(inside + ([Punct(">")] + rest), depth);
      Bracket(rest, depth + 1);
    }
  }

  lemma Brackets(word: Token, inner: Tokens, a: Token, b: Token)
    ensures [word, Punct("<")] + inner + [Punct(">"), a, b] == [word] + ([Punct("<")] + inner + [Punct(">")]) + [a, b]
  {}

  lemma SkipsIntroduced(p: Param, multi: bool)
    ensures Skips(Introduced(p, multi))
  {
    JoinedPlain(p.constraintType.nameParts);
    if p.kind == TemplateTemplateParam {
      var front, inner, back := [Word("template")], InnerTokens(p.innerParams), [Word("class"), Word(p.name)];
      InnerPlain(p.innerParams);
      SkipsPlain(inner);
      SkipsGroup(inner);
      SkipsPlain(front);
      SkipsPlain(back);
      SkipsThree(front, [Punct("<")] + inner + [Punct(">")], back);
      Brackets(Word("template"), inner, Word("class"), Word(p.name));
    } else {
      SkipsPlain(Introduced(p, multi));
    }
  }

  lemma SkipsParam(p: Param, multi: bool)
    requires NoAngles(p.defaultValue)
    ensures Skips(ParamTokens(p, multi))
  {
    JoinedPlain(p.defaultType);
    SkipsIntroduced(p, multi);
    SkipsPlain(Default(p));
    SkipsJoin(Introduced(p, multi), Default(p));
  }

  predicate PlainDefaults(ps: seq<Param>) {
    forall i :: 0 <= i < |ps| ==> NoAngles(ps[i].defaultValue)
  }

  lemma {:induction false} SkipsList(ps: seq<Param>, multi: bool)
    requires PlainDefaults(ps)
    ensures Skips(ListTokens(ps, multi))
    decreases |ps|
  {
    if ps == [] {
      SkipsPlain([]);
    } else {
      SkipsList(ps[..|ps| - 1], multi);
      SkipsOneMore(ps, multi);
    }
  }

  lemma {:induction false} SkipsOneMore(ps: seq<Param>, multi: bool)
    requires ps != [] && PlainDefaults(ps) && Skips(ListTokens(ps[..|ps| - 1], multi))
    ensures Skips(ListTokens(ps, multi))
  {
    var comma: Tokens := if |ps| > 1 then [Punct(",")] else [];
    SkipsPlain(comma);
    SkipsParam(ps[|ps| - 1], multi);
    SkipsThree(ListTokens(ps[..|ps| - 1], multi), comma, ParamTokens(ps[|ps| - 1], multi));
  }

  lemma HeaderFound(list: Tokens, rest: Tokens)
    requires Skips(list)
    ensures ClauseBody([Word("template"), Punct("<")] + list + [Punct(">")] + rest)
            == if rest != [] && rest[0] == Token(Keyword, "requires") then Some(rest[1..]) else None
  {
    var closing := [Punct(">")] + rest;
    var ts := [Word("template"), Punct("<")] + list + [Punct(">")] + rest;
    assert ts[0] == Word("template") && ts[1..] == [Punct("<")] + (list + closing);
    assert ([Punct("<")] + (list + closing))[1..] == list + closing;
    assert FromAngle(ts[1..]) == ts[1..];
    assert PastAngles(list + closing, 1) == PastAngles(closing, 1);
    Bracket(rest, 1);
  }

  // --- The emitter's concepts, read back -----------------------------------------------------------

  predicate Plain(name: string) {
    !IsKeyword(name)
  }

  predicate PlainConcept(c: Concept) {
    c.parts != [] && (forall i :: 0 <= i < |c.parts| ==> Plain(c.parts[i])) && Plain(c.param)
  }

  /** The parts behind the first, each with its separator. */
  function Qualified(parts: seq<string>): Tokens {
    if parts == [] then [] else [Punct("::"), Word(parts[0])] + Qualified(parts[1..])
  }

  lemma {:induction false} QualifiedLast(parts: seq<string>, last: string)
    ensures Qualified(parts + [last]) == Qualified(parts) + [Punct("::"), Word(last)]
  {
    if parts == [] {
      assert [last][1..] == [];
    } else {
      QualifiedLast(parts[1..], last);
      assert (parts + [last])[1..] == parts[1..] + [last];
    }
  }

  lemma {:induction false} JoinedFront(parts: seq<string>)
    requires parts != []
    ensures Joined(parts) == [Word(parts[0])] + Qualified(parts[1..])
  {
    var n := |parts| - 1;
    if n > 0 {
      JoinedFront(parts[..n]);
      QualifiedLast(parts[1..n], parts[n]);
      assert parts[1..] == parts[1..n] + [parts[n]] && parts[..n][1..] == parts[1..n];
    }
  }

  lemma {:induction false} NamePartsRead(front: seq<string>, parts: seq<string>, rest: Tokens)
    requires rest != [] && rest[0] != Punct("::")
    ensures NameParts(front, Qualified(parts) + rest) == (front + parts, rest)
    decreases |parts|
  {
    if parts == [] {
      assert Qualified(parts) + rest == rest && front + parts == front;
    } else {
      QualifiedStep(front, parts[0], Qualified(parts[1..]) + rest);
      NamePartsRead(front + [parts[0]], parts[1..], rest);
      assert Qualified(parts) + rest == [Punct("::"), Word(parts[0])] + (Qualified(parts[1..]) + rest);
      assert front + [parts[0]] + parts[1..] == front + parts;
    }
  }

  lemma {:induction false} QualifiedStep(front: seq<string>, part: string, later: Tokens)
    ensures NameParts(front, [Punct("::"), Word(part)] + later) == NameParts(front + [part], later)
  {
    assert ([Punct("::"), Word(part)] + later)[2..] == later;
  }

  lemma ConceptRead(c: Concept, rest: Tokens)
    requires PlainConcept(c)
    ensures ConceptTokens(c) + rest != [] && ReadConcept(ConceptTokens(c) + rest) == Some(Chunk(c.parts, c.param, rest))
    ensures !Terminates(ConceptTokens(c) + rest)
  {
    var argument := [Punct("<"), Word(c.param), Punct(">")] + rest;
    JoinedFront(c.parts);
    NamePartsRead([c.parts[0]], c.parts[1..], argument);
    var ts := ConceptTokens(c) + rest;
    assert ts[0] == Word(c.parts[0]) && ts[1..] == Qualified(c.parts[1..]) + argument;
    assert [c.parts[0]] + c.parts[1..] == c.parts;
    assert argument[3..] == rest;
  }

  lemma {:induction false} ConjunctionFront(c: Concept, cs: seq<Concept>)
    ensures Conjunction([c] + cs) == ConceptTokens(c) + (if cs == [] then [] else [Punct("&&")] + Conjunction(cs))
    decreases |cs|
  {
    if cs == [] {
      ConjunctionNext([], c);
      assert [] + [c] == [c] + cs;
    } else {
      var front, last := cs[..|cs| - 1], cs[|cs| - 1];
      ConjunctionFront(c, front);
      ConjunctionNext([c] + front, last);
      ConjunctionNext(front, last);
      assert [c] + cs == [c] + front + [last] && cs == front + [last];
      FrontJoin(ConceptTokens(c), [Punct("&&")], Conjunction(front), ConceptTokens(last));
    }
  }

  lemma FrontJoin(first: Tokens, amp: Tokens, middle: Tokens, last: Tokens)
    ensures (first + (amp + middle)) + amp + last == first + (amp + (middle + amp + last))
    ensures first + [] + amp + last == first + (amp + ([] + [] + last))
  {}

  function StagedOf(params: seq<Param>, cs: seq<Concept>): seq<Staged>
    requires forall i :: 0 <= i < |cs| ==> FindParam(params, cs[i].param).Some?
  {
    seq(|cs|, i requires 0 <= i < |cs| => Staged(FindParam(params, cs[i].param).value, cs[i].parts))
  }

  predicate Readable(params: seq<Param>, cs: seq<Concept>) {
    forall i :: 0 <= i < |cs| ==> PlainConcept(cs[i]) && FindParam(params, cs[i].param).Some?
  }

  /** The whole clause is read back when its declaration starts with a terminator, and dropped otherwise. */
  lemma {:induction false} ConjunctionRead(params: seq<Param>, cs: seq<Concept>, tail: Tokens)
    requires cs != [] && Readable(params, cs) && (tail == [] || tail[0] != Punct("&&"))
    ensures Parse(Conjunction(cs) + tail, params) == if Terminates(tail) then Some(StagedOf(params, cs)) else None
    decreases |cs|
  {
    var c, rest := cs[0], cs[1..];
    assert cs == [c] + rest;
    StagedFront(params, c, rest);
    if rest == [] {
      LastRead(params, c, tail);
      assert cs == [c] && StagedOf(params, cs) == [Staged(FindParam(params, c.param).value, c.parts)];
    } else {
      FirstRead(params, c, rest, tail);
      ConjunctionRead(params, rest, tail);
    }
  }

  lemma {:induction false} StagedFront(params: seq<Param>, c: Concept, rest: seq<Concept>)
    requires Readable(params, [c] + rest) && Readable(params, rest)
    ensures FindParam(params, c.param).Some?
    ensures StagedOf(params, [c] + rest) == [Staged(FindParam(params, c.param).value, c.parts)] + StagedOf(params, rest)
  {
    assert ([c] + rest)[0] == c;
  }

  lemma {:induction false} LastRead(params: seq<Param>, c: Concept, tail: Tokens)
    requires PlainConcept(c) && FindParam(params, c.param).Some? && (tail == [] || tail[0] != Punct("&&"))
    ensures Parse(Conjunction([c]) + tail, params)
            == if Terminates(tail) then Some([Staged(FindParam(params, c.param).value, c.parts)]) else None
  {
    var one := [Staged(FindParam(params, c.param).value, c.parts)];
    ConjunctionFront(c, []);
    assert [c] + [] == [c] && Conjunction([c]) == ConceptTokens(c);
    ParseOne(params, c, tail);
    assert one + [] == one;
  }

  lemma {:induction false} FirstRead(params: seq<Param>, c: Concept, rest: seq<Concept>, tail: Tokens)
    requires rest != [] && PlainConcept(c) && FindParam(params, c.param).Some?
    ensures Parse(Conjunction([c] + rest) + tail, params)
            == Before([Staged(FindParam(params, c.param).value, c.parts)], Parse(Conjunction(rest) + tail, params))
  {
    var after := [Punct("&&")] + (Conjunction(rest) + tail);
    ConjunctionFront(c, rest);
    Regroup(ConceptTokens(c), Punct("&&"), Conjunction(rest), tail);
    ParseOne(params, c, after);
    assert after[1..] == Conjunction(rest) + tail;
  }

  lemma Regroup(a: Tokens, t: Token, b: Tokens, tail: Tokens)
    ensures a + ([t] + b) + tail == a + ([t] + (b + tail))
  {}

  lemma {:induction false} ParseOne(params: seq<Param>, c: Concept, after: Tokens)
    requires PlainConcept(c) && FindParam(params, c.param).Some?
    ensures Parse(ConceptTokens(c) + after, params) ==
              if Skipped(after).None? then None
              else Before([Staged(FindParam(params, c.param).value, c.parts)], Parse(Skipped(after).value, params))
  {
    ConceptRead(c, after);
  }

  // --- The round trip -----------------------------------------------------------------------------------

  /** The parameters as the extractor has them before it reads the requires clause. */
  function Bare(ps: seq<Param>): (r: seq<Param>)
    ensures |r| == |ps|
  {
    seq(|ps|, i requires 0 <= i < |ps| => BareParam(ps[i]))
  }

  function BareParam(p: Param): Param {
    if p.kind == TypeParam then p.(constraintType := NO_TYPE, extraBounds := []) else p
  }

  predicate PlainBound(t: TypeNode) {
    t.nameParts != [] && forall i :: 0 <= i < |t.nameParts| ==> Plain(t.nameParts[i])
  }

  /** A type parameter whose bounds the clause can carry. */
  predicate PlainParam(p: Param) {
    p.kind == TypeParam ==>
      && Plain(p.name) && (p.constraintType == NO_TYPE ==> p.extraBounds == [])
      && (p.constraintType == NO_TYPE || PlainBound(p.constraintType))
      && (forall i :: 0 <= i < |p.extraBounds| ==> PlainBound(p.extraBounds[i]))
  }

  predicate Distinct(ps: seq<Param>) {
    forall i, j :: 0 <= i < j < |ps| && ps[i].kind == TypeParam && ps[j].kind == TypeParam ==> ps[i].name != ps[j].name
  }

  predicate Printable(ps: seq<Param>) {
    PlainDefaults(ps) && Distinct(ps) && forall i :: 0 <= i < |ps| ==> PlainParam(ps[i])
  }

  lemma FindAt(ps: seq<Param>, k: nat)
    requires Distinct(ps) && k < |ps| && ps[k].kind == TypeParam
    ensures FindParam(Bare(ps), ps[k].name) == Some(k)
  {
    var found := FindParam(Bare(ps), ps[k].name);
    assert Bare(ps)[k].name == ps[k].name && Bare(ps)[k].kind == TypeParam;
    assert ps[found.value].name == ps[k].name;
  }

  predicate NoAssoc(bounds: seq<TypeNode>) {
    forall i :: 0 <= i < |bounds| ==> !bounds[i].assocBindings
  }

  predicate PlainBounds(bounds: seq<TypeNode>) {
    forall i :: 0 <= i < |bounds| ==> PlainBound(bounds[i])
  }

  lemma {:induction false} ListReadable(params: seq<Param>, bounds: seq<TypeNode>, name: string)
    requires PlainBounds(bounds) && Plain(name) && FindParam(params, name).Some?
    ensures Readable(params, ConceptList(bounds, name))
  {
    if bounds != [] {
      ListReadable(params, bounds[..|bounds| - 1], name);
      assert PlainBound(bounds[|bounds| - 1]);
    }
  }

  lemma {:induction false} CommitNext(params: seq<Param>, staged: seq<Staged>, one: Staged)
    requires InRange(staged, |params|) && one.index < |params|
    ensures InRange(staged + [one], |params|)
    ensures Commit(params, staged + [one])
            == Commit(params, staged)[one.index := WithBound(Commit(params, staged)[one.index], one.parts)]
  {
    assert (staged + [one])[..|staged|] == staged;
  }

  function StagedBounds(k: nat, bounds: seq<TypeNode>): seq<Staged> {
    if bounds == [] then []
    else StagedBounds(k, bounds[..|bounds| - 1]) + [Staged(k, bounds[|bounds| - 1].nameParts)]
  }

  lemma WithOneMore(p: Param, front: seq<TypeNode>, last: TypeNode)
    requires last.nameParts != [] && !last.assocBindings && (front != [] ==> front[0].nameParts != [])
    ensures WithBound(WithBounds(p, front), last.nameParts) == WithBounds(p, front + [last])
  {
    assert last == TypeNode(last.nameParts, false);
    assert front != [] ==> (front + [last])[1..] == front[1..] + [last];
  }

  lemma {:induction false} CommitOneMore(params: seq<Param>, staged: seq<Staged>, start: seq<Param>, k: nat, p: Param, front: seq<TypeNode>, last: TypeNode)
    requires InRange(staged, |params|) && k < |params| == |start| && Commit(params, staged) == start[k := WithBounds(p, front)]
    requires last.nameParts != [] && !last.assocBindings && (front != [] ==> front[0].nameParts != [])
    ensures InRange(staged + [Staged(k, last.nameParts)], |params|)
    ensures Commit(params, staged + [Staged(k, last.nameParts)]) == start[k := WithBounds(p, front + [last])]
  {
    CommitNext(params, staged, Staged(k, last.nameParts));
    WithOneMore(p, front, last);
  }

  /** Committing the bounds of one parameter gives that parameter those bounds. */
  lemma {:induction false} CommitBounds(params: seq<Param>, staged: seq<Staged>, k: nat, p: Param, bounds: seq<TypeNode>)
    requires InRange(staged, |params|) && k < |params| && Commit(params, staged)[k] == WithBounds(p, [])
    requires PlainBounds(bounds) && NoAssoc(bounds)
    ensures InRange(staged + StagedBounds(k, bounds), |params|)
    ensures Commit(params, staged + StagedBounds(k, bounds)) == Commit(params, staged)[k := WithBounds(p, bounds)]
    decreases |bounds|
  {
    if bounds == [] {
      assert staged + StagedBounds(k, bounds) == staged;
    } else {
      var front, last := bounds[..|bounds| - 1], bounds[|bounds| - 1];
      CommitBounds(params, staged, k, p, front);
      assert PlainBound(last) && (front != [] ==> PlainBound(bounds[0]));
      assert bounds == front + [last];
      assert staged + StagedBounds(k, bounds) == staged + StagedBounds(k, front) + [Staged(k, last.nameParts)];
      CommitOneMore(params, staged + StagedBounds(k, front), Commit(params, staged), k, p, front, last);
    }
  }

  function StagedAll(ps: seq<Param>, k: nat): seq<Staged>
    requires k <= |ps|
  {
    if k == 0 then []
    else StagedAll(ps, k - 1) + (if ps[k - 1].kind == TypeParam then StagedBounds(k - 1, Bounds(ps[k - 1])) else [])
  }

  /** Committing the bounds of the first k parameters restores those. */
  lemma {:induction false} CommitAll(ps: seq<Param>, k: nat)
    requires Printable(ps) && k <= |ps| && forall i :: 0 <= i < |ps| ==> !DropsAssoc(ps[i])
    ensures InRange(StagedAll(ps, k), |ps|) && Commit(Bare(ps), StagedAll(ps, k)) == ps[..k] + Bare(ps)[k..]
  {
    if k > 0 {
      CommitAll(ps, k - 1);
      assert PlainParam(ps[k - 1]) && !DropsAssoc(ps[k - 1]);
      CommitParam(ps, k - 1, StagedAll(ps, k - 1), Bare(ps));
    }
  }

  lemma CommitParam(ps: seq<Param>, k: nat, before: seq<Staged>, bare: seq<Param>)
    requires k < |ps| && PlainParam(ps[k]) && !DropsAssoc(ps[k]) && bare == Bare(ps)
    requires before == StagedAll(ps, k) && InRange(before, |ps|) && Commit(bare, before) == ps[..k] + bare[k..]
    ensures InRange(StagedAll(ps, k + 1), |ps|) && Commit(bare, StagedAll(ps, k + 1)) == ps[..k + 1] + bare[k + 1..]
  {
    SpliceAt(ps, bare, k);
    if ps[k].kind == TypeParam {
      OwnBounds(ps[k]);
      CommitBounds(bare, before, k, ps[k], Bounds(ps[k]));
    } else {
      assert BareParam(ps[k]) == ps[k];
      StagedSame(ps, k);
    }
  }

  lemma SpliceAt(ps: seq<Param>, bare: seq<Param>, k: nat)
    requires k < |ps| == |bare|
    ensures (ps[..k] + bare[k..])[k] == bare[k]
    ensures (ps[..k] + bare[k..])[k := ps[k]] == ps[..k + 1] + bare[k + 1..]
  {}

  lemma StagedSame(ps: seq<Param>, k: nat)
    requires k < |ps| && ps[k].kind != TypeParam
    ensures StagedAll(ps, k + 1) == StagedAll(ps, k)
  {}

  lemma OwnBounds(p: Param)
    requires PlainParam(p) && p.kind == TypeParam
    ensures WithBounds(p, Bounds(p)) == p
  {}

  lemma {:induction false} StagedList(params: seq<Param>, bounds: seq<TypeNode>, name: string, k: nat)
    requires FindParam(params, name) == Some(k) && PlainBounds(bounds) && Plain(name)
    ensures Readable(params, ConceptList(bounds, name))
    ensures StagedOf(params, ConceptList(bounds, name)) == StagedBounds(k, bounds)
  {
    ListReadable(params, bounds, name);
    if bounds != [] {
      var front, last := bounds[..|bounds| - 1], bounds[|bounds| - 1];
      assert PlainBound(last);
      StagedList(params, front, name, k);
      StagedJoin(params, ConceptList(front, name), [Concept(last.nameParts, name)]);
    }
  }

  lemma StagedJoin(params: seq<Param>, a: seq<Concept>, b: seq<Concept>)
    requires Readable(params, a) && Readable(params, b)
    ensures Readable(params, a + b) && StagedOf(params, a + b) == StagedOf(params, a) + StagedOf(params, b)
  {}

  /** The reader stages exactly the bounds that the clause prints. */
  lemma {:induction false} StagedConcepts(ps: seq<Param>, k: nat)
    requires Printable(ps) && k <= |ps|
    ensures Readable(Bare(ps), Concepts(ps[..k]))
    ensures StagedOf(Bare(ps), Concepts(ps[..k])) == StagedAll(ps, k)
  {
    if k > 0 {
      StagedConcepts(ps, k - 1);
      ConceptsNext(ps, k - 1);
      StagedParam(ps, k - 1, Bare(ps));
      StagedJoin(Bare(ps), Concepts(ps[..k - 1]), ConceptsOf(ps[k - 1]));
    }
  }

  lemma {:induction false} StagedParam(ps: seq<Param>, k: nat, bare: seq<Param>)
    requires Printable(ps) && k < |ps| && bare == Bare(ps)
    ensures Readable(bare, ConceptsOf(ps[k]))
    ensures StagedOf(bare, ConceptsOf(ps[k])) == if ps[k].kind == TypeParam then StagedBounds(k, Bounds(ps[k])) else []
  {
    if ps[k].kind == TypeParam {
      FindAt(ps, k);
      assert PlainParam(ps[k]);
      StagedList(bare, Bounds(ps[k]), ps[k].name, k);
    }
  }

  lemma {:induction false} NotesFirst(ps: seq<Param>)
    ensures AssocNotes(ps) != [] ==> AssocNotes(ps)[0].kind == Comment
    ensures UnionNotes(ps) != [] ==> UnionNotes(ps)[0].kind == Comment
    ensures AssocNotes(ps) == [] ==> forall i :: 0 <= i < |ps| ==> !DropsAssoc(ps[i])
  {
    if ps != [] { NotesFirst(ps[..|ps| - 1]); }
  }

  lemma {:induction false} MultiHasConcepts(ps: seq<Param>)
    requires Printable(ps) && HasMultiBound(ps)
    ensures Concepts(ps) != [] && Bare(ps) != ps
  {
    var i :| 0 <= i < |ps| && ps[i].kind == TypeParam && ps[i].extraBounds != [];
    assert PlainParam(ps[i]) && Bare(ps)[i] != ps[i];
    SomeConcept(ps, i);
  }

  lemma {:induction false} SomeConcept(ps: seq<Param>, i: nat)
    requires i < |ps| && ConceptsOf(ps[i]) != []
    ensures Concepts(ps) != []
  {
    if i < |ps| - 1 { SomeConcept(ps[..|ps| - 1], i); }
  }

  lemma {:induction false} ClauseShape(params: seq<Param>, ps: seq<Param>, tail: Tokens)
    requires ps == Filtered(params) && ps != []
    ensures Clause(params) + tail == [Word("template"), Punct("<")] + ListTokens(ps, HasMultiBound(ps)) + [Punct(">")]
                                     + (Notes(params) + RequiresTokens(ps) + tail)
  {
    var front := [Word("template"), Punct("<")] + ListTokens(ps, HasMultiBound(ps)) + [Punct(">")];
    Associate(front, Notes(params), RequiresTokens(ps), tail);
  }

  lemma Associate(a: Tokens, b: Tokens, c: Tokens, d: Tokens)
    ensures a + b + c + d == a + (b + c + d)
  {}

  lemma {:induction false} NotesFirstOf(params: seq<Param>)
    ensures Notes(params) != [] ==> Notes(params)[0].kind == Comment
    ensures Notes(params) == [] ==> forall i :: 0 <= i < |Filtered(params)| ==> !DropsAssoc(Filtered(params)[i])
  {
    NotesFirst(Filtered(params));
    NotesFirst(params);
  }

  /** The clause body the extractor reads behind the parameter list. */
  lemma {:induction false} BodyOfClause(params: seq<Param>, ps: seq<Param>, tail: Tokens)
    requires ps == Filtered(params) && PlainDefaults(ps) && HasMultiBound(ps) && Concepts(ps) != []
    ensures ClauseBody(Clause(params) + tail) == if Notes(params) == [] then Some(Conjunction(Concepts(ps)) + tail) else None
  {
    ClauseShape(params, ps, tail);
    SkipsList(ps, HasMultiBound(ps));
    HeaderFound(ListTokens(ps, HasMultiBound(ps)), Notes(params) + RequiresTokens(ps) + tail);
    NotesFirstOf(params);
    RequiresFirst(Notes(params), Conjunction(Concepts(ps)), tail);
  }

  lemma RequiresFirst(notes: Tokens, body: Tokens, tail: Tokens)
    requires notes != [] ==> notes[0].kind == Comment
    ensures var rest := notes + ([Word("requires")] + body) + tail;
            rest != [] && (rest[0] == Token(Keyword, "requires") <==> notes == [])
            && (notes == [] ==> rest[1..] == body + tail)
  {}

  /** What the extractor stages for the clause, and what committing it gives. */
  lemma {:induction false} StagedRestores(ps: seq<Param>, tail: Tokens)
    requires Printable(ps) && Concepts(ps) != [] && (tail == [] || tail[0] != Punct("&&"))
    requires forall i :: 0 <= i < |ps| ==> !DropsAssoc(ps[i])
    ensures InRange(StagedAll(ps, |ps|), |ps|) && Commit(Bare(ps), StagedAll(ps, |ps|)) == ps
    ensures Parse(Conjunction(Concepts(ps)) + tail, Bare(ps)) == if Terminates(tail) then Some(StagedAll(ps, |ps|)) else None
  {
    StagedConcepts(ps, |ps|);
    assert ps[..|ps|] == ps;
    ConjunctionRead(Bare(ps), Concepts(ps), tail);
    CommitAll(ps, |ps|);
    assert ps[..|ps|] + Bare(ps)[|ps|..] == ps;
  }

  /** What may follow a clause: nothing, a body, a semicolon, or a declaration that begins with one of these words. */
  predicate Terminated(tail: Tokens) {
    tail == [] || tail[0] in [
      Token(Punctuation, "{"), Token(Punctuation, ";"), Token(Keyword, "struct"), Token(Keyword, "class"),
      Token(Keyword, "union"), Token(Keyword, "enum"), Token(Keyword, "auto")]
  }

  lemma TerminatedIs(tail: Tokens)
    ensures Terminates(tail) <==> Terminated(tail)
  {}

  /**
   A clause with several bounds on one parameter: reading it back restores every bound in order
   exactly when no note stands before `requires` and the declaration behind it starts with a
   terminator (or is missing); otherwise no bound is attached at all.
   */
  lemma {:induction false} RestoredIff(params: seq<Param>, ps: seq<Param>, tail: Tokens)
    requires ps == Filtered(params) && Printable(ps) && HasMultiBound(ps)
    requires tail == [] || tail[0] != Punct("&&")
    ensures Attached(Clause(params) + tail, Bare(ps)) == if Notes(params) == [] && Terminated(tail) then ps else Bare(ps)
    ensures Bare(ps) != ps
  {
    TerminatedIs(tail);
    Restored(params, ps, tail);
  }

  lemma {:induction false} Restored(params: seq<Param>, ps: seq<Param>, tail: Tokens)
    requires ps == Filtered(params) && Printable(ps) && HasMultiBound(ps)
    requires tail == [] || tail[0] != Punct("&&")
    ensures Attached(Clause(params) + tail, Bare(ps)) == if Notes(params) == [] && Terminates(tail) then ps else Bare(ps)
    ensures Bare(ps) != ps
  {
    MultiHasConcepts(ps);
    BodyOfClause(params, ps, tail);
    NotesFirstOf(params);
    if Notes(params) == [] {
      StagedRestores(ps, tail);
      AttachedBy(Clause(params) + tail, Bare(ps), Conjunction(Concepts(ps)) + tail);
    }
  }

  lemma {:induction false} AttachedBy(ts: Tokens, params: seq<Param>, body: Tokens)
    requires params != [] && ClauseBody(ts) == Some(body)
    ensures Parse(body, params).None? ==> Attached(ts, params) == params
    ensures Parse(body, params).Some? ==> InRange(Parse(body, params).value, |params|)
                                          && Attached(ts, params) == Commit(params, Parse(body, params).value)
  {
    ParsedInRange(body, params);
  }
}
