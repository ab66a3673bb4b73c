/** What the words of the header closure mean: blanks, names, definitions, refused directives. */
module HeaderVocabulary {
  import opened Outcomes
  import opened HeaderText
  import opened HeaderExpansion
  import opened HeaderClosure
  import opened PathParts

  // --- Text --------------------------------------------------------------------------------

  predicate BlankRun(s: string) {
    forall i :: 0 <= i < |s| ==> s[i] in [' ', '\t', '\r', '\n']
  }

  lemma {:induction false} TrimBack(middle: string, back: string)
    requires BlankRun(back) && middle != "" && !BlankRun([middle[0]]) && !BlankRun([middle[|middle| - 1]])
    ensures Trim(middle + back) == middle
    decreases |back|
  {
    var text := middle + back;
    assert [middle[0]][0] == middle[0] && [middle[|middle| - 1]][0] == middle[|middle| - 1];
    if back == "" {
      assert text == middle;
    } else {
      var shorter := back[..|back| - 1];
      TrimBack(middle, shorter);
      assert text[..|text| - 1] == middle + shorter;
    }
  }

  lemma {:induction false} TrimBlanks(blanks: string)
    requires BlankRun(blanks)
    ensures Trim(blanks) == ""
  {
    if blanks != "" { TrimBlanks(blanks[1..]); }
  }

  lemma {:induction false} TrimRun(front: string, middle: string, back: string)
    requires BlankRun(front) && BlankRun(back)
    requires middle == "" || !(middle[0] in [' ', '\t', '\r', '\n'] || middle[|middle| - 1] in [' ', '\t', '\r', '\n'])
    ensures Trim(front + middle + back) == middle
    decreases |front|
  {
    if middle == "" {
      TrimBlanks(front + middle + back);
    } else if front == "" {
      assert [middle[0]][0] == middle[0] && [middle[|middle| - 1]][0] == middle[|middle| - 1];
      TrimBack(middle, back);
      assert front + middle + back == middle + back;
    } else {
      TrimRun(front[1..], middle, back);
      assert (front + middle + back)[1..] == front[1..] + middle + back;
    }
  }

  lemma {:induction false} ContainsAt(s: string, part: string)
    ensures Contains(s, part) <==> exists i :: 0 <= i <= |s| && part <= s[i..]
  {
    if s != "" {
      ContainsAt(s[1..], part);
      if i :| 0 <= i <= |s| && part <= s[i..] {
        if i > 0 { assert s[1..][i - 1..] == s[i..]; } else { assert s[0..] == s; }
      }
      if i :| 0 <= i <= |s[1..]| && part <= s[1..][i..] { assert s[i + 1..] == s[1..][i..]; }
      if part <= s { assert s[0..] == s; }
    } else {
      assert s[0..] == s;
    }
  }

  predicate WordChar(c: char) {
    'a' <= c <= 'z' || 'A' <= c <= 'Z' || c == '_' || '0' <= c <= '9'
  }

  /** A letter or underscore, and then also digits. */
  predicate Word(s: string) {
    s != "" && !('0' <= s[0] <= '9') && forall i :: 0 <= i < |s| ==> WordChar(s[i])
  }

  lemma IdentifierIs(s: string)
    ensures Identifier(s) <==> Word(s)
  {}

  // --- Operands that a key can be built from --------------------------------------------------

  /** No absolute name, and no way around the directory it is searched in. */
  predicate Plain(n: string) {
    n != "" && n[0] != '/' && forall c :: c in Components(n) ==> c != "." && c != ".."
  }

  /** In a resolved closure every include is a quoted or bracketed plain name, or a macro's name. */
  lemma OperandsArePlain(disk: Disk, c: Closure, f: string, operand: string)
    requires FullyResolved(disk, c) && f in c.files && Asks(SourceOf(disk, f), operand)
    ensures Word(operand) || exists n: string, q: bool :: Plain(n) && LiteralFor(operand, n, q)
    ensures Word(operand) ==> operand in c.macros
  {
    assert AllAdmissible(c.macros, operand, false);
    ReachesSelf(c.macros, operand);
    assert Admissible(operand, false);
    IdentifierIs(operand);
    if LiteralText(operand) { LiteralIs(operand); }
  }

  /** The text is the name between its delimiters, with nothing but blanks behind it. */
  predicate LiteralFor(text: string, n: string, quoted: bool) {
    var close := if quoted then '"' else '>';
    && |text| >= |n| + 2 && text[0] == (if quoted then '"' else '<') && close !in n
    && text[1..1 + |n|] == n && text[1 + |n|] == close && BlankRun(text[|n| + 2..])
  }

  lemma {:induction false} TrimStarts(s: string)
    requires s != "" && !Blank(s[0])
    ensures Trim(s) != "" && Trim(s) <= s && BlankRun(s[|Trim(s)|..])
  {
    if Blank(s[|s| - 1]) {
      var shorter := s[..|s| - 1];
      TrimStarts(shorter);
      assert s[|Trim(s)|..] == shorter[|Trim(s)|..] + [s[|s| - 1]];
    } else {
      assert s[|s|..] == "";
    }
  }

  lemma LiteralIs(text: string)
    requires LiteralText(text) && ParseLiteral(text).Some? && PlainName(ParseLiteral(text).value.name)
    ensures var l := ParseLiteral(text).value; Plain(l.name) && LiteralFor(text, l.name, l.quoted)
  {
    TrimStarts(text);
    var token, l := Trim(text), ParseLiteral(text).value;
    assert token == text[..|token|];
    assert |l.name| == |token| - 2;
  }

  // --- Definitions that forbid a lookup -------------------------------------------------------

  lemma MarkedRefuses(disk: Disk, c: Closure, f: string, operand: string, name: string, mark: string)
    requires FullyResolved(disk, c) && f in c.files && Asks(SourceOf(disk, f), operand)
    requires HasAlternative(c.macros, name, mark) && Identifier(name) && !LiteralText(mark) && !Identifier(mark)
    ensures !Reaches(c.macros, operand, name)
  {
    assert AliasStep(c.macros, name, mark);
    assert AllAdmissible(c.macros, operand, false);
    assert !Admissible(mark, mark != operand);
    if Reaches(c.macros, operand, name) { ReachesExtends(c.macros, operand, name, mark); }
  }

  /** No lookup goes through a name that is anywhere undefined, or defined as a function. */
  lemma NoFunctionsOrUndefined(disk: Disk, unit: Unit, c: Closure, f: string, operand: string, g: string, d: Directive, name: string)
    requires IsClosed(disk, unit, c) && FullyResolved(disk, c) && f in c.files && g in c.files
    requires Asks(SourceOf(disk, f), operand) && d in SourceOf(disk, g).directives && Word(name)
    requires match d
      case Define(n, tail) => n == name && tail != "" && tail[0] == '('
      case Undef(n) => Trim(n) == name
      case _ => false
    ensures !Reaches(c.macros, operand, name)
  {
    IdentifierIs(name);
    var mark := Alternative(d).value.1;
    assert Supplies(SourceOf(disk, g), name, mark);
    assert mark[0] == '@';
    MarkedRefuses(disk, c, f, operand, name, mark);
  }

  /** An object-like definition is an alternative of its name, without blanks around it. */
  lemma DefinitionCounts(disk: Disk, unit: Unit, c: Closure, f: string, name: string, front: string, text: string, back: string)
    requires IsClosed(disk, unit, c) && f in c.files && Define(name, front + text + back) in SourceOf(disk, f).directives
    requires front != "" && BlankRun(front) && BlankRun(back)
    requires text == "" || !(text[0] in [' ', '\t', '\r', '\n'] || text[|text| - 1] in [' ', '\t', '\r', '\n'])
    ensures HasAlternative(c.macros, name, text)
  {
    TrimRun(front, text, back);
    var tail := front + text + back;
    assert tail[0] == front[0];
    assert Supplies(SourceOf(disk, f), name, text);
  }

  /** Directives of a resolved closure: classified, no include probe in a definition, no odd name undefined. */
  lemma DirectivesAreClassified(disk: Disk, c: Closure, f: string, d: Directive)
    requires FullyResolved(disk, c) && f in c.files && d in SourceOf(disk, f).directives
    ensures !d.Unclassified?
    ensures d.Define? ==> forall i :: 0 <= i <= |d.tail| ==> !("__has_include" <= d.tail[i..])
    ensures d.Undef? ==> Word(Trim(d.name)) && Trim(d.name) != "__has_include" && Trim(d.name) != "__has_include_next"
  {
    assert Classified(d);
    if d.Define? { ContainsAt(d.tail, "__has_include"); }
    if d.Undef? { IdentifierIs(Trim(d.name)); }
  }

  /** A header name that comes out of a macro is a quoted one. */
  lemma MacroHeadersAreQuoted(disk: Disk, c: Closure, f: string, operand: string, text: string)
    requires FullyResolved(disk, c) && f in c.files && Asks(SourceOf(disk, f), operand)
    requires Reaches(c.macros, operand, text) && text != operand && !Word(text)
    ensures exists n :: Plain(n) && LiteralFor(text, n, true)
  {
    assert AllAdmissible(c.macros, operand, false);
    assert Admissible(text, true);
    IdentifierIs(text);
    LiteralIs(text);
  }

  // --- Command-line macros --------------------------------------------------------------------

  predicate SpaceRun(s: string) {
    forall i :: 0 <= i < |s| ==> s[i] in [' ', '\t', '\n', '\U{0B}', '\U{0C}', '\r']
  }

  lemma {:induction false} SpaceSkipped(spaces: string, rest: string)
    requires SpaceRun(spaces) && (rest == "" || !SpaceRun([rest[0]]))
    ensures SkipSpace(spaces + rest) == rest
  {
    if spaces == "" {
      assert spaces + rest == rest;
      assert rest != "" ==> [rest[0]][0] == rest[0];
    } else {
      SpaceSkipped(spaces[1..], rest);
      assert (spaces + rest)[1..] == spaces[1..] + rest;
    }
  }

  lemma {:induction false} WordEnds(name: string, rest: string)
    requires (forall i :: 0 <= i < |name| ==> WordChar(name[i])) && (rest == "" || !WordChar(rest[0]))
    ensures WordLength(name + rest) == |name|
  {
    if name == "" {
      assert name + rest == rest;
    } else {
      WordEnds(name[1..], rest);
      assert (name + rest)[1..] == name[1..] + rest;
    }
  }

  /** A definition is a name behind any space, and whatever follows it on the line. */
  lemma DefinitionIs(spaces: string, name: string, rest: string)
    requires SpaceRun(spaces) && Word(name) && (rest == "" || !WordChar(rest[0])) && '\n' !in rest && '\r' !in rest
    ensures Definition(spaces + name + rest) == Defines(name, rest)
  {
    assert spaces + name + rest == spaces + (name + rest);
    assert [(name + rest)[0]][0] == name[0];
    SpaceSkipped(spaces, name + rest);
    WordEnds(name, rest);
    assert (name + rest)[..|name|] == name && (name + rest)[|name|..] == rest;
  }

  lemma {:induction false} EqualsIs(front: string, back: string)
    requires '=' !in front
    ensures EqualsAt(front + "=" + back) == |front|
    ensures EqualsAt(front) == |front|
  {
    if front != "" {
      EqualsIs(front[1..], back);
      assert (front + "=" + back)[1..] == front[1..] + "=" + back;
    }
  }

  predicate Probes(text: string) {
    exists i :: 0 <= i <= |text| && "__has_include" <= text[i..]
  }

  /** `-DN=v`: the value replaces whatever N was before. */
  lemma {:induction false} DefineValue(commands: seq<MacroArgument>, name: string, front: string, value: string, back: string)
    requires Word(name) && BlankRun(front) && BlankRun(back) && !Probes(name + "=" + (front + value + back))
    requires value == "" || !(value[0] in [' ', '\t', '\r', '\n'] || value[|value| - 1] in [' ', '\t', '\r', '\n'])
    requires '\n' !in front + value + back && '\r' !in front + value + back
    ensures CommandTable(commands + [DefineArgument(name + "=" + (front + value + back))])
      == CommandTable(commands)[name := {value}]
  {
    var text, rest := name + "=" + (front + value + back), front + value + back;
    var a := DefineArgument(text);
    ContainsAt(text, "__has_include");
    assert '=' !in name by { assert forall i :: 0 <= i < |name| ==> WordChar(name[i]); }
    EqualsIs(name, rest);
    assert '\n' !in text by { assert forall i :: 0 <= i < |name| ==> WordChar(name[i]); }
    assert text[..|name|] == name && text[|name| + 1..] == rest;
    DefinitionIs("", name, " " + rest);
    assert "" + name + (" " + rest) == name + " " + rest;
    BlankFront(front, value, back);
    LastCommand(commands, a);
  }

  lemma BlankFront(front: string, value: string, back: string)
    requires BlankRun(front) && BlankRun(back)
    requires value == "" || !(value[0] in [' ', '\t', '\r', '\n'] || value[|value| - 1] in [' ', '\t', '\r', '\n'])
    ensures Replacement(" " + (front + value + back)) == value
  {
    TrimRun(" " + front, value, back);
    assert " " + (front + value + back) == " " + front + value + back;
  }

  lemma {:induction false} LastCommand(commands: seq<MacroArgument>, a: MacroArgument)
    ensures CommandTable(commands + [a]) == ApplyCommand(CommandTable(commands), Command(a))
  {
    assert (commands + [a])[..|commands|] == commands;
  }

  /** `-DN` defines N as 1, and `-UN` forgets it. */
  lemma {:induction false} DefineFlag(commands: seq<MacroArgument>, name: string)
    requires Word(name) && !Probes(name)
    ensures CommandTable(commands + [DefineArgument(name)]) == CommandTable(commands)[name := {"1"}]
    ensures CommandTable(commands + [UndefineArgument(name)]) == CommandTable(commands) - {name}
  {
    ContainsAt(name, "__has_include");
    assert forall i :: 0 <= i < |name| ==> WordChar(name[i]);
    EqualsIs(name, "");
    DefinitionIs("", name, " 1");
    assert "" + name + " 1" == name + " 1";
    assert '\n' !in name;
    TrimRun(" ", "1", "");
    assert " " + "1" + "" == " 1";
    IdentifierIs(name);
    LastCommand(commands, DefineArgument(name));
    LastCommand(commands, UndefineArgument(name));
  }

  /** No name can start here: the end, a digit, or a character that is in no name. */
  predicate Unnamed(rest: string) {
    rest == "" || (rest[0] !in [' ', '\t', '\n', '\U{0B}', '\U{0C}', '\r'] && (!WordChar(rest[0]) || '0' <= rest[0] <= '9'))
  }

  /** What is refused: an include probe, a line break, and anything but a name where one belongs. */
  lemma CommandRefusals(spaces: string, rest: string)
    requires SpaceRun(spaces)
    ensures Probes(rest) || '\n' in rest ==> Command(DefineArgument(rest)).Rejected? && Command(UndefineArgument(rest)).Rejected?
    ensures !Word(rest) ==> Command(UndefineArgument(rest)).Rejected?
    ensures Unnamed(rest) && '=' !in rest ==> Command(DefineArgument(spaces + rest)).Rejected?
  {
    ContainsAt(rest, "__has_include");
    IdentifierIs(rest);
    if Unnamed(rest) && '=' !in rest {
      assert '=' !in spaces;
      EqualsIs(spaces + rest, "");
      UnnamedRejected(spaces, rest);
    }
  }

  lemma UnnamedRejected(spaces: string, rest: string)
    requires SpaceRun(spaces) && Unnamed(rest)
    ensures Definition(spaces + rest + " 1").Rejected?
  {
    if rest == "" {
      SpaceSkipped(spaces + " ", "1");
      assert spaces + rest + " 1" == spaces + " " + "1";
    } else {
      assert [rest[0]][0] == rest[0];
      SpaceSkipped(spaces, rest + " 1");
      assert [(rest + " 1")[0]][0] == rest[0];
      assert spaces + rest + " 1" == spaces + (rest + " 1");
    }
  }
}
