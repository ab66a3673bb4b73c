/** The preprocessing vocabulary of the header-closure cache key. */
module HeaderText {

  // A file is the list of its directives: comment removal, line splicing and the
  // line-level regular expressions are a function from file text to this list.
  // A line that function cannot classify is an `Unclassified` directive.

  import opened Outcomes

  const MAX_HEADER_MACROS: nat := 4096
  const MAX_HEADER_REPLACEMENTS: nat := 64

  /** A header name and the form it was written in: quoted, or in angle brackets. */
  datatype Lookup = Lookup(name: string, quoted: bool)

  datatype Directive =
    | Include(operand: string)
    | Probe(operand: string)
    | Define(name: string, tail: string)
    | Undef(name: string)
    | Neutral
    | Unclassified

  /** Why a computation was refused: a limit was reached, or the input is of a kind no key is built from. */
  datatype Refusal = AtLimit(reason: string) | Unfit(reason: string)

  datatype Source = Source(directives: seq<Directive>, size: nat)

  datatype Node = Missing | Directory | Special | File(source: Source, links: nat)

  /** One state of the disk: what a path opens, the physical path behind it, and which file that is. */
  datatype Disk = Disk(node: string -> Node, physical: string -> string, id: string -> int)

  /** A physical path names one file, and a file with a single link has a single physical path. */
  ghost predicate Coherent(disk: Disk) {
    forall p, q :: disk.node(p).File? && disk.node(q).File? ==>
      && (disk.physical(p) == disk.physical(q) ==> disk.id(p) == disk.id(q))
      && (disk.id(p) == disk.id(q) && disk.node(p).links <= 1 ==> disk.physical(p) == disk.physical(q))
  }

  /** Alternatives collected per macro name. */
  type Macros = map<string, set<string>>

  // --- Text helpers ------------------------------------------------------------

  predicate Blank(c: char) {
    c == ' ' || c == '\t' || c == '\r' || c == '\n'
  }

  function Trim(s: string): string {
    if s == "" then ""
    else if Blank(s[0]) then Trim(s[1..])
    else if Blank(s[|s| - 1]) then Trim(s[..|s| - 1])
    else s
  }

  predicate Letter(c: char) {
    'a' <= c <= 'z' || 'A' <= c <= 'Z' || c == '_'
  }

  predicate Identifier(s: string) {
    s != "" && Letter(s[0]) && forall i | 0 <= i < |s| :: Letter(s[i]) || '0' <= s[i] <= '9'
  }

  predicate Contains(s: string, part: string) {
    part <= s || (s != "" && Contains(s[1..], part))
  }

  // --- Header names --------------------------------------------------------------

  predicate LiteralText(text: string) {
    text != "" && (text[0] == '"' || text[0] == '<')
  }

  /** The header name spelled by a complete quoted or angle-bracketed token. */
  function ParseLiteral(text: string): Option<Lookup> {
    var token := Trim(text);
    if !LiteralText(token) || |token| < 2 then None
    else
      var end := if token[0] == '<' then '>' else '"';
      if token[|token| - 1] == end && end !in token[1..|token| - 1]
      then Some(Lookup(token[1..|token| - 1], token[0] == '"'))
      else None
  }

  predicate AbsolutePath(path: string) {
    path != "" && path[0] == '/'
  }

  function Components(path: string): seq<string> {
    if path == "" then [""]
    else if path[0] == '/' then [""] + Components(path[1..])
    else
      var rest := Components(path[1..]);
      if rest == [] then [[path[0]]] else [[path[0]] + rest[0]] + rest[1..]
  }

  /** The names a cache key may be built from: relative, and without "." or ".." components. */
  predicate PlainName(name: string) {
    name != "" && !AbsolutePath(name) && "." !in Components(name) && ".." !in Components(name)
  }

  function Parent(path: string): string {
    if path == "" then ""
    else if path[|path| - 1] == '/' then if |path| == 1 then "/" else path[..|path| - 1]
    else Parent(path[..|path| - 1])
  }

  function Join(root: string, name: string): string {
    if AbsolutePath(name) then name
    else if root != "" && root[|root| - 1] == '/' then root + name
    else root + "/" + name
  }

  // --- Macro definitions ----------------------------------------------------------

  /** The replacement text of a definition; a function-like one is only marked. */
  function Replacement(tail: string): string {
    if tail != "" && tail[0] == '(' then "@function-like" else Trim(tail)
  }

  /** The (name, alternative) a directive adds to the macro table. */
  function Alternative(d: Directive): Option<(string, string)> {
    match d
    case Define(name, tail) => Some((name, Replacement(tail)))
    case Undef(name) => Some((Trim(name), "@undefined"))
    case _ => None
  }

  /** The operand a directive looks up. */
  function Operand(d: Directive): Option<string> {
    match d
    case Include(operand) => Some(Trim(operand))
    case Probe(operand) => Some(Trim(operand))
    case _ => None
  }

  predicate Classified(d: Directive) {
    match d
    case Unclassified => false
    case Define(name, tail) => !Contains(tail, "__has_include")
    case Undef(name) =>
      && Trim(name) != "__has_include" && Trim(name) != "__has_include_next"
      && Identifier(Trim(name))
    case _ => true
  }

  ghost predicate Asks(source: Source, operand: string) {
    exists d :: d in source.directives && Operand(d) == Some(operand)
  }

  ghost predicate Supplies(source: Source, name: string, alternative: string) {
    exists d :: d in source.directives && Alternative(d) == Some((name, alternative))
  }

  predicate HasAlternative(macros: Macros, name: string, alternative: string) {
    name in macros && alternative in macros[name]
  }

  ghost predicate MacrosWithin(small: Macros, large: Macros) {
    forall n, a :: HasAlternative(small, n, a) ==> HasAlternative(large, n, a)
  }

  /** Every name in the table has at least one alternative. */
  ghost predicate NoEmptyEntry(macros: Macros) {
    forall n :: n in macros ==> macros[n] != {}
  }

  function WithAlternative(macros: Macros, name: string, alternative: string): (r: Macros)
    ensures forall n, a ::
      HasAlternative(r, n, a) <==> HasAlternative(macros, n, a) || (n == name && a == alternative)
    ensures NoEmptyEntry(macros) ==> NoEmptyEntry(r)
  {
    macros[name := (if name in macros then macros[name] else {}) + {alternative}]
  }

  /** A definition in a file widens the table; only the size limits can refuse it. */
  method AddHeaderMacro(macros: Macros, name: string, alternative: string) returns (r: Result<Macros, Refusal>)
    ensures r.Ok? ==> r.value == WithAlternative(macros, name, alternative)
    ensures r.Err? ==> r.error.AtLimit?
    ensures r.Err? <==>
      || |WithAlternative(macros, name, alternative)| > 4096
      || |WithAlternative(macros, name, alternative)[name]| > 64
  {
    var wider := WithAlternative(macros, name, alternative);
    if |wider| > MAX_HEADER_MACROS || |wider[name]| > MAX_HEADER_REPLACEMENTS {
      return Err(AtLimit("header macro definition limit exceeded"));
    }
    return Ok(wider);
  }

  /** The table after the definitions among these directives. */
  function Widened(macros: Macros, ds: seq<Directive>): Macros {
    if ds == [] then macros
    else
      var front, last := Widened(macros, ds[..|ds| - 1]), Alternative(ds[|ds| - 1]);
      if last.Some? then WithAlternative(front, last.value.0, last.value.1) else front
  }

  predicate WithinLimits(macros: Macros, name: string) {
    |macros| <= 4096 && (name in macros ==> |macros[name]| <= 64)
  }

  /** No definition, when it is reached, makes the table too large. */
  predicate Fitting(macros: Macros, ds: seq<Directive>) {
    ds == [] || (Fitting(macros, ds[..|ds| - 1]) && LastFits(macros, ds))
  }

  predicate LastFits(macros: Macros, ds: seq<Directive>)
    requires ds != []
  {
    var last := Alternative(ds[|ds| - 1]);
    last.Some? ==> WithinLimits(Widened(macros, ds), last.value.0)
  }

  lemma {:induction false} WidenedNext(macros: Macros, ds: seq<Directive>, i: nat)
    requires i < |ds|
    ensures Widened(macros, ds[..i + 1]) ==
      if Alternative(ds[i]).Some?
      then WithAlternative(Widened(macros, ds[..i]), Alternative(ds[i]).value.0, Alternative(ds[i]).value.1)
      else Widened(macros, ds[..i])
  {
    assert ds[..i + 1][..i] == ds[..i];
  }

  /** The widened table holds the old alternatives and exactly the defined ones. */
  lemma {:induction false} WidenedMeans(macros: Macros, ds: seq<Directive>)
    requires NoEmptyEntry(macros)
    ensures NoEmptyEntry(Widened(macros, ds))
    ensures forall n, a :: HasAlternative(Widened(macros, ds), n, a) <==>
      HasAlternative(macros, n, a) || exists j :: 0 <= j < |ds| && Alternative(ds[j]) == Some((n, a))
  {
    if ds != [] {
      var last := |ds| - 1;
      WidenedMeans(macros, ds[..last]);
      forall n, a ensures (exists j :: 0 <= j < |ds| && Alternative(ds[j]) == Some((n, a))) <==>
        Alternative(ds[last]) == Some((n, a)) || exists j :: 0 <= j < last && Alternative(ds[..last][j]) == Some((n, a))
      {
        if j :| 0 <= j < last && Alternative(ds[j]) == Some((n, a)) { assert ds[..last][j] == ds[j]; }
      }
    }
  }

  lemma {:induction false} FittingNext(macros: Macros, ds: seq<Directive>, i: nat)
    requires i < |ds|
    ensures Fitting(macros, ds[..i + 1]) <==> Fitting(macros, ds[..i]) && LastFits(macros, ds[..i + 1])
  {
    assert ds[..i + 1][..i] == ds[..i];
  }

  lemma {:induction false} FittingPrefix(macros: Macros, ds: seq<Directive>, i: nat)
    requires i <= |ds| && Fitting(macros, ds)
    ensures Fitting(macros, ds[..i])
    decreases |ds|
  {
    if i < |ds| {
      FittingPrefix(macros, ds[..|ds| - 1], i);
      assert ds[..|ds| - 1][..i] == ds[..i];
    } else {
      assert ds[..i] == ds;
    }
  }

  function OperandsOf(ds: seq<Directive>): seq<string> {
    if ds == [] then []
    else
      var front, last := OperandsOf(ds[..|ds| - 1]), Operand(ds[|ds| - 1]);
      if last.Some? then front + [last.value] else front
  }

  lemma {:induction false} OperandsMean(ds: seq<Directive>)
    ensures forall op :: op in OperandsOf(ds) <==> exists j :: 0 <= j < |ds| && Operand(ds[j]) == Some(op)
  {
    if ds != [] {
      var n := |ds| - 1;
      OperandsMean(ds[..n]);
      forall op ensures op in OperandsOf(ds) <==> exists j :: 0 <= j < |ds| && Operand(ds[j]) == Some(op) {
        if j :| 0 <= j < n && Operand(ds[j]) == Some(op) { assert Operand(ds[..n][j]) == Some(op); }
      }
    }
  }

  /**
   Scans one file: every operand it may look up, in any branch, and the table
   widened by every definition it may make. It fails exactly on an unclassified
   directive or a table that grows beyond its limits.
   */
  method HeaderLookups(source: Source, macros: Macros) returns (r: Result<(seq<string>, Macros), Refusal>)
    requires NoEmptyEntry(macros)
    ensures r.Ok? ==> forall op :: op in r.value.0 <==> Asks(source, op)
    ensures r.Ok? ==> forall n, a ::
      HasAlternative(r.value.1, n, a) <==> HasAlternative(macros, n, a) || Supplies(source, n, a)
    ensures r.Ok? ==> NoEmptyEntry(r.value.1)
    ensures r.Ok? <==> (forall d :: d in source.directives ==> Classified(d)) && Fitting(macros, source.directives)
    ensures r.Err? ==> if r.error.Unfit? then exists d :: d in source.directives && !Classified(d)
                       else !Fitting(macros, source.directives)
  {
    var operands: seq<string> := [];
    var table := macros;
    for i := 0 to |source.directives|
      invariant operands == OperandsOf(source.directives[..i])
      invariant table == Widened(macros, source.directives[..i]) && Fitting(macros, source.directives[..i])
      invariant forall j :: 0 <= j < i ==> Classified(source.directives[j])
    {
      var d := source.directives[i];
      if !Classified(d) {
        assert d in source.directives;
        return Err(Unfit("directive requires uncached analysis"));
      }
      assert source.directives[..i + 1][..i] == source.directives[..i];
      if Operand(d).Some? {
        operands := operands + [Operand(d).value];
      }
      var wider := Define(macros, source.directives, i, table);
      if wider.Err? {
        return Err(wider.error);
      }
      table := wider.value;
    }
    assert source.directives[..|source.directives|] == source.directives;
    WidenedMeans(macros, source.directives);
    OperandsMean(source.directives);
    return Ok((operands, table));
  }

  /** Adds the definition that the i-th directive may make. */
  method Define(macros: Macros, ds: seq<Directive>, i: nat, table: Macros) returns (r: Result<Macros, Refusal>)
    requires i < |ds| && table == Widened(macros, ds[..i]) && Fitting(macros, ds[..i])
    ensures r.Ok? ==> r.value == Widened(macros, ds[..i + 1]) && Fitting(macros, ds[..i + 1])
    ensures r.Err? ==> r.error.AtLimit? && !Fitting(macros, ds)
  {
    WidenedNext(macros, ds, i);
    FittingNext(macros, ds, i);
    if Alternative(ds[i]).None? {
      return Ok(table);
    }
    r := AddHeaderMacro(table, Alternative(ds[i]).value.0, Alternative(ds[i]).value.1);
    if r.Err? && Fitting(macros, ds) {
      FittingPrefix(macros, ds, i + 1);
    }
  }
}
