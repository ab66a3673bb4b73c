/**
 The text that the C++ emitter prints for an expression, and a recursive-descent parser for it.

 On the fragment whose compound forms are parenthesised, the parser gives back the expression, so
 the text determines it; outside the fragment there are different expressions with one text.
 */
module ExpressionText {
  import opened Outcomes

  datatype BinaryOp =
    | Add | Sub | Mul | Div | Mod | Eq | NotEq | Less | Greater | LessEq | GreaterEq
    | And | Or | BitAnd | BitOr | BitXor | Shl | Shr

  datatype UnaryOp = Negate | Not | BitNot | PreIncrement | PostIncrement | PreDecrement | PostDecrement

  datatype Expr =
    | Var(name: string)
    | Number(digits: string)
    | Boolean(value: bool)
    | Text(text: string)
    | Binary(lhs: Expr, op: BinaryOp, rhs: Expr)
    | Unary(unary: UnaryOp, operand: Expr)
    | Ternary(condition: Expr, yes: Expr, no: Expr)
    | Call(receiver: Option<Expr>, callee: string, args: seq<Expr>)
    | Member(base: Expr, member: string)
    | Index(base: Expr, index: Expr)
    | CompoundAssign(target: Expr, op: BinaryOp, value_: Expr)

  function OpText(op: BinaryOp): string {
    match op
    case Add => "+"
    case Sub => "-"
    case Mul => "*"
    case Div => "/"
    case Mod => "%"
    case Eq => "=="
    case NotEq => "!="
    case Less => "<"
    case Greater => ">"
    case LessEq => "<="
    case GreaterEq => ">="
    case And => "&&"
    case Or => "||"
    case BitAnd => "&"
    case BitOr => "|"
    case BitXor => "^"
    case Shl => "<<"
    case Shr => ">>"
  }

  /** A receiver of another kind is printed in parentheses. */
  predicate BareReceiver(e: Expr) {
    e.Var? || e.Call? || e.Member? || e.Index?
  }

  function Emit(e: Expr): string
    decreases e
  {
    match e
    case Var(name) => name
    case Number(digits) => digits
    case Boolean(value) => if value then "true" else "false"
    case Text(text) => "\"" + text + "\""
    case Binary(lhs, op, rhs) => "(" + Emit(lhs) + " " + OpText(op) + " " + Emit(rhs) + ")"
    case Ternary(condition, yes, no) => "(" + Emit(condition) + " ? " + Emit(yes) + " : " + Emit(no) + ")"
    case Unary(unary, operand) =>
      (match unary
       case Negate => "-" + Emit(operand)
       case Not => "!" + Emit(operand)
       case BitNot => "~" + Emit(operand)
       case PreIncrement => "++" + Emit(operand)
       case PostIncrement => Emit(operand) + "++"
       case PreDecrement => "--" + Emit(operand)
       case PostDecrement => Emit(operand) + "--")
    case Call(receiver, callee, args) =>
      (match receiver
       case None => ""
       case Some(r) => if BareReceiver(r) then Emit(r) + "." else "(" + Emit(r) + ")" + ".")
      + callee + "(" + EmitArgs(args) + ")"
    case Member(base, member) => Emit(base) + "." + member
    case Index(base, index) => Emit(base) + "[" + Emit(index) + "]"
    case CompoundAssign(target, op, value) => Emit(target) + " " + OpText(op) + "= " + Emit(value)
  }

  /** The arguments, separated by a comma and a space. */
  function EmitArgs(args: seq<Expr>): string
    decreases args
  {
    if args == [] then "" else Emit(args[0]) + EmitMore(args[1..])
  }

  function EmitMore(args: seq<Expr>): string
    decreases args
  {
    if args == [] then "" else ", " + Emit(args[0]) + EmitMore(args[1..])
  }

  // --- The fragment -----------------------------------------------------------------------------

  predicate IsDigit(c: char) {
    '0' <= c <= '9'
  }

  predicate IsNameStart(c: char) {
    'a' <= c <= 'z' || 'A' <= c <= 'Z' || c == '_'
  }

  predicate IsNameChar(c: char) {
    IsNameStart(c) || IsDigit(c) || c == ':'
  }

  predicate IsName(s: string) {
    s != [] && IsNameStart(s[0]) && (forall i :: 0 <= i < |s| ==> IsNameChar(s[i])) && s != "true" && s != "false"
  }

  predicate IsNumber(s: string) {
    s != [] && forall i :: 0 <= i < |s| ==> IsDigit(s[i])
  }

  /** Escapes and characters other than a quote. */
  predicate IsText(s: string)
    decreases |s|
  {
    s == [] || if s[0] == '\\' then |s| > 1 && IsText(s[2..]) else s[0] != '"' && IsText(s[1..])
  }

  predicate IsPrefix(unary: UnaryOp) {
    unary != PostIncrement && unary != PostDecrement
  }

  predicate Prefixed(e: Expr) {
    e.Unary? && IsPrefix(e.unary)
  }

  predicate StartsMinus(e: Expr) {
    e.Unary? && (e.unary == Negate || e.unary == PreDecrement)
  }

  /** An object that a member, an index or a postfix operator can follow without being split up. */
  predicate Closed(e: Expr) {
    BareReceiver(e) || e.Binary? || e.Ternary? || e.Text? || (e.Unary? && !IsPrefix(e.unary))
  }

  /**
   Names, digits, texts, parenthesised operators, calls, members, elements and postfix forms of
   closed objects, and all prefix forms but a minus in front of a minus.
   */
  predicate InFragment(e: Expr)
    decreases e
  {
    match e
    case Var(name) => IsName(name)
    case Number(digits) => IsNumber(digits)
    case Boolean(_) => true
    case Text(text) => IsText(text)
    case Binary(lhs, _, rhs) => InFragment(lhs) && InFragment(rhs)
    case Ternary(condition, yes, no) => InFragment(condition) && InFragment(yes) && InFragment(no)
    case Unary(unary, operand) =>
      InFragment(operand) && (!IsPrefix(unary) ==> Closed(operand)) && (unary == Negate ==> !StartsMinus(operand))
    case Call(receiver, callee, args) => IsName(callee) && AllInFragment(args) && (receiver.Some? ==> InFragment(receiver.value))
    case Member(base, member) => Closed(base) && InFragment(base) && IsName(member)
    case Index(base, index) => Closed(base) && InFragment(base) && InFragment(index)
    case CompoundAssign(_, _, _) => false
  }

  predicate AllInFragment(args: seq<Expr>)
    decreases args
  {
    args == [] || (InFragment(args[0]) && AllInFragment(args[1..]))
  }

  // --- The parser -----------------------------------------------------------------------------------

  type Parsed = Option<(Expr, string)>

  /** The rest of s behind `prefix`. */
  function Past(s: string, prefix: string): (r: Option<string>)
    ensures r.Some? ==> |r.value| + |prefix| == |s|
  {
    if prefix <= s then Some(s[|prefix|..]) else None
  }

  function NameLength(s: string): (n: nat)
    ensures n <= |s| && (forall i :: 0 <= i < n ==> IsNameChar(s[i])) && (n < |s| ==> !IsNameChar(s[n]))
  {
    if s == [] || !IsNameChar(s[0]) then 0 else 1 + NameLength(s[1..])
  }

  function DigitLength(s: string): (n: nat)
    ensures n <= |s| && (forall i :: 0 <= i < n ==> IsDigit(s[i])) && (n < |s| ==> !IsDigit(s[n]))
  {
    if s == [] || !IsDigit(s[0]) then 0 else 1 + DigitLength(s[1..])
  }

  const OPS: seq<BinaryOp> := [Add, Sub, Mul, Div, Mod, Eq, NotEq, Less, Greater, LessEq, GreaterEq,
                               And, Or, BitAnd, BitOr, BitXor, Shl, Shr]

  /** The operator between two spaces at the start of s. */
  function ReadOp(s: string, from: nat): (r: Option<(BinaryOp, string)>)
    ensures r.Some? ==> |r.value.1| < |s|
    decreases |OPS| - from
  {
    if from >= |OPS| then None
    else
      match Past(s, " " + OpText(OPS[from]) + " ")
      case Some(rest) => Some((OPS[from], rest))
      case None => ReadOp(s, from + 1)
  }

  /** A prefix operator, the longest one that fits. */
  function Prefix(s: string): (r: Option<(UnaryOp, string)>)
    ensures r.Some? ==> |r.value.1| < |s|
  {
    if Past(s, "++").Some? then Some((PreIncrement, Past(s, "++").value))
    else if Past(s, "--").Some? then Some((PreDecrement, Past(s, "--").value))
    else if Past(s, "-").Some? then Some((Negate, Past(s, "-").value))
    else if Past(s, "!").Some? then Some((Not, Past(s, "!").value))
    else if Past(s, "~").Some? then Some((BitNot, Past(s, "~").value))
    else None
  }

  /** The length of a text up to its closing quote. */
  function TextLength(s: string): (n: nat)
    ensures n <= |s|
    decreases |s|
  {
    if s == [] || s[0] == '"' then 0
    else if s[0] == '\\' && |s| > 1 then 2 + TextLength(s[2..])
    else 1 + TextLength(s[1..])
  }

  function ParseExpr(s: string): (r: Parsed)
    ensures r.Some? ==> |r.value.1| < |s|
    decreases |s|, 3
  {
    if s == [] then None
    else if Prefix(s).Some? then
      match ParseExpr(Prefix(s).value.1)
      case None => None
      case Some((e, rest)) => Some((Unary(Prefix(s).value.0, e), rest))
    else
      match ParsePrimary(s)
      case None => None
      case Some((e, rest)) => Some(Chain(e, rest))
  }

  function ParsePrimary(s: string): (r: Parsed)
    requires s != []
    ensures r.Some? ==> |r.value.1| < |s|
    decreases |s|, 2
  {
    if s[0] == '(' then
      match ParseExpr(s[1..])
      case None => None
      case Some((e, rest)) => ParseGroup(e, rest)
    else if IsDigit(s[0]) then
      var n := DigitLength(s);
      Some((Number(s[..n]), s[n..]))
    else if IsNameStart(s[0]) then
      var n := NameLength(s);
      Named(s[..n], s[n..])
    else if s[0] == '"' then
      var n := TextLength(s[1..]);
      if n == |s| - 1 then None else Some((Text(s[1..][..n]), s[1..][n + 1..]))
    else None
  }

  /** What a parenthesis holds behind its first expression; names, calls, members and elements stand without one. */
  function ParseGroup(e: Expr, s: string): (r: Parsed)
    ensures r.Some? ==> |r.value.1| <= |s|
    decreases |s|, 4
  {
    if Past(s, ")").Some? then
      if e.Var? || e.Call? || e.Member? || e.Index? then None else Some((e, Past(s, ")").value))
    else if Past(s, " ? ").Some? then
      match ParseExpr(Past(s, " ? ").value)
      case None => None
      case Some((yes, behind)) =>
        if Past(behind, " : ").None? then None
        else
          match ParseExpr(Past(behind, " : ").value)
          case None => None
          case Some((no, rest)) =>
            if Past(rest, ")").None? then None else Some((Ternary(e, yes, no), Past(rest, ")").value))
    else
      match ReadOp(s, 0)
      case None => None
      case Some((op, behind)) =>
        match ParseExpr(behind)
        case None => None
        case Some((rhs, rest)) =>
          if Past(rest, ")").None? then None else Some((Binary(e, op, rhs), Past(rest, ")").value))
  }

  /** A name, or a call of it. */
  function Named(name: string, s: string): (r: Parsed)
    ensures r.Some? ==> |r.value.1| <= |s|
    decreases |s|, 4
  {
    if name == "true" || name == "false" then Some((Boolean(name == "true"), s))
    else if Past(s, "(").Some? then
      match ParseArgs(Past(s, "(").value)
      case None => None
      case Some((args, rest)) => Some((Call(None, name, args), rest))
    else Some((Var(name), s))
  }

  /** Arguments up to and with the closing parenthesis. */
  function ParseArgs(s: string): (r: Option<(seq<Expr>, string)>)
    ensures r.Some? ==> |r.value.1| <= |s|
    decreases |s|, 4
  {
    if Past(s, ")").Some? then Some(([], Past(s, ")").value))
    else
      match ParseExpr(s)
      case None => None
      case Some((e, rest)) =>
        match ParseMore(rest)
        case None => None
        case Some((more, behind)) => Some(([e] + more, behind))
  }

  function ParseMore(s: string): (r: Option<(seq<Expr>, string)>)
    ensures r.Some? ==> |r.value.1| <= |s|
    decreases |s|, 4
  {
    if Past(s, ")").Some? then Some(([], Past(s, ")").value))
    else if Past(s, ", ").None? then None
    else
      match ParseExpr(Past(s, ", ").value)
      case None => None
      case Some((e, rest)) =>
        match ParseMore(rest)
        case None => None
        case Some((more, behind)) => Some(([e] + more, behind))
  }

  /** The calls, members and elements that follow an object, as many as there are. */
  function Chain(e: Expr, s: string): (r: (Expr, string))
    ensures |r.1| <= |s|
    decreases |s|, 1
  {
    match Link(e, s)
    case None => (e, s)
    case Some((longer, rest)) => Chain(longer, rest)
  }

  function Link(e: Expr, s: string): (r: Parsed)
    ensures r.Some? ==> |r.value.1| < |s|
    decreases |s|, 0
  {
    if Past(s, ".").Some? then
      var behind := Past(s, ".").value;
      var n := NameLength(behind);
      var name, rest := behind[..n], behind[n..];
      if n == 0 then None
      else if Past(rest, "(").Some? then
        match ParseArgs(Past(rest, "(").value)
        case None => None
        case Some((args, after)) => Some((Call(Some(e), name, args), after))
      else Some((Member(e, name), rest))
    else if Past(s, "[").Some? then
      match ParseExpr(Past(s, "[").value)
      case None => None
      case Some((index, rest)) =>
        if Past(rest, "]").None? then None else Some((Index(e, index), Past(rest, "]").value))
    else if Past(s, "++").Some? then Some((Unary(PostIncrement, e), Past(s, "++").value))
    else if Past(s, "--").Some? then Some((Unary(PostDecrement, e), Past(s, "--").value))
    else None
  }

  // --- The parser inverts the printer ---------------------------------------------------------------

  lemma PastPrefix(prefix: string, rest: string)
    ensures Past(prefix + rest, prefix) == Some(rest)
  {}

  function OpOf(text: string): BinaryOp {
    if text == "+" then Add else if text == "-" then Sub else if text == "*" then Mul
    else if text == "/" then Div else if text == "%" then Mod else if text == "==" then Eq
    else if text == "!=" then NotEq else if text == "<" then Less else if text == ">" then Greater
    else if text == "<=" then LessEq else if text == ">=" then GreaterEq else if text == "&&" then And
    else if text == "||" then Or else if text == "&" then BitAnd else if text == "|" then BitOr
    else if text == "^" then BitXor else if text == "<<" then Shl else Shr
  }

  lemma OpTextShape(op: BinaryOp)
    ensures OpOf(OpText(op)) == op && 1 <= |OpText(op)| <= 2
    ensures OpText(op)[0] != ' ' && OpText(op)[0] != '?' && OpText(op)[|OpText(op)| - 1] != ' '
  {}

  lemma OpNotPrefix(a: BinaryOp, b: BinaryOp, rest: string)
    requires a != b
    ensures Past(" " + OpText(b) + " " + rest, " " + OpText(a) + " ") == None
  {
    OpTextShape(a);
    OpTextShape(b);
    var t, u := OpText(a), OpText(b);
    var p, s := " " + t + " ", " " + u + " " + rest;
    assert t == (if |t| == 1 then [t[0]] else [t[0], t[1]]) && u == (if |u| == 1 then [u[0]] else [u[0], u[1]]);
    assert p[1] == t[0] && p[2] == (if |t| == 1 then ' ' else t[1]);
    assert s[1] == u[0] && s[2] == (if |u| == 1 then ' ' else u[1]);
    assert p[1] != s[1] || p[2] != s[2];
  }

  lemma {:induction false} OpRead(op: BinaryOp, rest: string, from: nat, k: nat)
    requires from <= k < |OPS| && OPS[k] == op && (forall i :: 0 <= i < k ==> OPS[i] != op)
    ensures ReadOp(" " + OpText(op) + " " + rest, from) == Some((op, rest))
    decreases k - from
  {
    if from < k {
      OpNotPrefix(OPS[from], op, rest);
      OpRead(op, rest, from + 1, k);
    } else {
      PastPrefix(" " + OpText(op) + " ", rest);
    }
  }

  function Place(op: BinaryOp): (k: nat)
    ensures k < |OPS| && OPS[k] == op && forall i :: 0 <= i < k ==> OPS[i] != op
  {
    match op
    case Add => 0
    case Sub => 1
    case Mul => 2
    case Div => 3
    case Mod => 4
    case Eq => 5
    case NotEq => 6
    case Less => 7
    case Greater => 8
    case LessEq => 9
    case GreaterEq => 10
    case And => 11
    case Or => 12
    case BitAnd => 13
    case BitOr => 14
    case BitXor => 15
    case Shl => 16
    case Shr => 17
  }

  /** What may follow a printed expression, and what may follow an object in a chain. */
  predicate Ends(rest: string) {
    rest == [] || rest[0] in {' ', ')', ',', ']'}
  }

  predicate Continues(rest: string) {
    Ends(rest) || rest[0] in {'.', '[', '+', '-'}
  }

  lemma {:induction false} NameRead(name: string, rest: string)
    requires (forall i :: 0 <= i < |name| ==> IsNameChar(name[i])) && (rest == [] || !IsNameChar(rest[0]))
    ensures NameLength(name + rest) == |name|
  {
    if name == [] {
      assert name + rest == rest;
    } else {
      NameRead(name[1..], rest);
      assert (name + rest)[1..] == name[1..] + rest;
    }
  }

  lemma {:induction false} DigitsRead(digits: string, rest: string)
    requires (forall i :: 0 <= i < |digits| ==> IsDigit(digits[i])) && (rest == [] || !IsDigit(rest[0]))
    ensures DigitLength(digits + rest) == |digits|
  {
    if digits == [] {
      assert digits + rest == rest;
    } else {
      DigitsRead(digits[1..], rest);
      assert (digits + rest)[1..] == digits[1..] + rest;
    }
  }

  predicate StartsPrimary(s: string) {
    s != [] && (s[0] == '(' || s[0] == '"' || IsDigit(s[0]) || IsNameStart(s[0]))
  }

  lemma {:induction false} EmitStarts(e: Expr)
    requires InFragment(e)
    ensures Emit(e) != [] && (Emit(e)[0] == '-' <==> StartsMinus(e))
    ensures !Prefixed(e) ==> StartsPrimary(Emit(e))
    decreases e
  {
    match e
    case Call(receiver, _, _) =>
      if receiver.Some? && BareReceiver(receiver.value) { EmitStarts(receiver.value); }
    case Member(base, _) => EmitStarts(base);
    case Index(base, _) => EmitStarts(base);
    case Unary(unary, operand) => EmitStarts(operand);
    case _ =>
  }

  lemma {:induction false} TextRead(text: string, rest: string)
    requires IsText(text)
    ensures TextLength(text + ("\"" + rest)) == |text|
    decreases |text|
  {
    var s := text + ("\"" + rest);
    if text == [] {
      assert s == "\"" + rest;
    } else if text[0] == '\\' {
      TextRead(text[2..], rest);
      assert s[2..] == text[2..] + ("\"" + rest);
    } else {
      TextRead(text[1..], rest);
      assert s[1..] == text[1..] + ("\"" + rest);
    }
  }

  lemma {:induction false} ParseText(text: string, rest: string)
    requires IsText(text)
    ensures ParsePrimary("\"" + text + "\"" + rest) == Some((Text(text), rest))
  {
    var s, inner := "\"" + text + "\"" + rest, text + ("\"" + rest);
    TextRead(text, rest);
    assert s[1..] == inner && s[0] == '"';
    Slices(text, "\"" + rest);
    assert inner[|text| + 1..] == rest;
  }

  lemma PrefixRead(unary: UnaryOp, operand: string, rest: string)
    requires IsPrefix(unary) && operand != [] && (unary == Negate ==> operand[0] != '-')
    ensures Prefix(PrefixText(unary) + (operand + rest)) == Some((unary, operand + rest))
  {
    var s := PrefixText(unary) + (operand + rest);
    assert (operand + rest)[0] == operand[0];
    PastPrefix(PrefixText(unary), operand + rest);
    assert s[0] == PrefixText(unary)[0];
    assert s[1] == if |PrefixText(unary)| == 2 then PrefixText(unary)[1] else operand[0];
  }

  /** The text of a prefix operator. */
  function PrefixText(unary: UnaryOp): string
    requires IsPrefix(unary)
  {
    match unary
    case Negate => "-"
    case Not => "!"
    case BitNot => "~"
    case PreIncrement => "++"
    case PreDecrement => "--"
  }

  lemma NoPrefix(s: string)
    requires StartsPrimary(s)
    ensures Prefix(s).None?
  {}

  lemma {:induction false} LinkPost(e: Expr, unary: UnaryOp, rest: string)
    requires !IsPrefix(unary)
    ensures Link(e, (if unary == PostIncrement then "++" else "--") + rest) == Some((Unary(unary, e), rest))
  {
    var sign := if unary == PostIncrement then "++" else "--";
    assert (sign + rest)[0] == sign[0];
    PastPrefix(sign, rest);
  }

  lemma Slices(name: string, rest: string)
    ensures (name + rest)[..|name|] == name && (name + rest)[|name|..] == rest
  {}

  /** Names, numbers and truth values. */
  lemma {:induction false} ParseLeaf(e: Expr, rest: string)
    requires InFragment(e) && Continues(rest) && (e.Var? || e.Number? || e.Boolean?)
    ensures Emit(e) != [] && ParsePrimary(Emit(e) + rest) == Some((e, rest))
  {
    var text := Emit(e);
    Slices(text, rest);
    if e.Number? {
      DigitsRead(text, rest);
    } else {
      NameRead(text, rest);
    }
  }

  lemma {:induction false} ParseCall(callee: string, args: seq<Expr>, rest: string)
    requires IsName(callee) && ParseArgs(EmitArgs(args) + (")" + rest)) == Some((args, rest))
    ensures ParsePrimary(callee + ("(" + (EmitArgs(args) + (")" + rest)))) == Some((Call(None, callee, args), rest))
  {
    var behind := "(" + (EmitArgs(args) + (")" + rest));
    NameRead(callee, behind);
    Slices(callee, behind);
    PastPrefix("(", EmitArgs(args) + (")" + rest));
  }

  lemma {:induction false} LinkCall(e: Expr, callee: string, args: seq<Expr>, rest: string)
    requires IsName(callee) && ParseArgs(EmitArgs(args) + (")" + rest)) == Some((args, rest))
    ensures Link(e, "." + (callee + ("(" + (EmitArgs(args) + (")" + rest))))) == Some((Call(Some(e), callee, args), rest))
  {
    var behind := "(" + (EmitArgs(args) + (")" + rest));
    PastPrefix(".", callee + behind);
    NameRead(callee, behind);
    Slices(callee, behind);
    PastPrefix("(", EmitArgs(args) + (")" + rest));
  }

  lemma {:induction false} LinkMember(e: Expr, member: string, rest: string)
    requires IsName(member) && Continues(rest)
    ensures Link(e, "." + (member + rest)) == Some((Member(e, member), rest))
  {
    PastPrefix(".", member + rest);
    NoCall(rest);
    NameRead(member, rest);
    Slices(member, rest);
  }

  lemma {:induction false} NoCall(rest: string)
    requires Continues(rest)
    ensures Past(rest, "(").None? && (rest == [] || !IsNameChar(rest[0]))
  {}

  lemma {:induction false} LinkIndex(e: Expr, index: Expr, rest: string)
    requires ParseExpr(Emit(index) + ("]" + rest)) == Some((index, "]" + rest))
    ensures Link(e, "[" + (Emit(index) + ("]" + rest))) == Some((Index(e, index), rest))
  {
    assert ("[" + (Emit(index) + ("]" + rest)))[0] == '[';
    PastPrefix("[", Emit(index) + ("]" + rest));
    PastPrefix("]", rest);
  }

  lemma {:induction false} ChainEnds(e: Expr, rest: string)
    requires Ends(rest)
    ensures Chain(e, rest) == (e, rest)
  {}

  lemma OpStarts(op: BinaryOp, behind: string)
    ensures var s := " " + OpText(op) + " " + behind; Past(s, ")").None? && Past(s, " ? ").None?
  {
    var s := " " + OpText(op) + " " + behind;
    OpTextShape(op);
    assert s[0] == ' ' && s[1] == OpText(op)[0];
  }

  lemma {:induction false} GroupBinary(lhs: Expr, op: BinaryOp, rhs: Expr, rest: string)
    requires ParseExpr(Emit(rhs) + (")" + rest)) == Some((rhs, ")" + rest))
    ensures ParseGroup(lhs, " " + OpText(op) + " " + (Emit(rhs) + (")" + rest))) == Some((Binary(lhs, op, rhs), rest))
  {
    var behind := Emit(rhs) + (")" + rest);
    var s := " " + OpText(op) + " " + behind;
    OpStarts(op, behind);
    OpRead(op, behind, 0, Place(op));
    PastPrefix(")", rest);
  }

  lemma {:induction false} GroupTernary(e: Expr, yes: Expr, no: Expr, rest: string)
    requires var tail := " : " + (Emit(no) + (")" + rest)); ParseExpr(Emit(yes) + tail) == Some((yes, tail))
    requires ParseExpr(Emit(no) + (")" + rest)) == Some((no, ")" + rest))
    ensures ParseGroup(e, " ? " + (Emit(yes) + (" : " + (Emit(no) + (")" + rest))))) == Some((Ternary(e, yes, no), rest))
  {
    var tail := " : " + (Emit(no) + (")" + rest));
    assert (" ? " + (Emit(yes) + tail))[0] == ' ';
    PastPrefix(" ? ", Emit(yes) + tail);
    PastPrefix(" : ", Emit(no) + (")" + rest));
    PastPrefix(")", rest);
  }

  lemma {:induction false} ParseOpen(e: Expr, inside: string, result: Expr, rest: string)
    requires ParseExpr(Emit(e) + inside) == Some((e, inside)) && ParseGroup(e, inside) == Some((result, rest))
    ensures ParsePrimary("(" + (Emit(e) + inside)) == Some((result, rest))
  {
    assert ("(" + (Emit(e) + inside))[1..] == Emit(e) + inside;
  }

  /** Reading s goes on like reading rest behind the object e. */
  predicate Carries(s: string, e: Expr, rest: string)
  {
    s != [] && match ParsePrimary(s)
               case None => false
               case Some((base, behind)) => Chain(base, behind) == Chain(e, rest)
  }

  lemma {:induction false} CarriesAll(s: string, e: Expr, rest: string)
    requires s != [] && ParsePrimary(s) == Some((e, rest))
    ensures Carries(s, e, rest)
  {}

  lemma {:induction false} ChainLink(base: Expr, s: string, e: Expr, rest: string)
    requires Link(base, s) == Some((e, rest))
    ensures Chain(base, s) == Chain(e, rest)
  {}

  /** One more link behind an object. */
  lemma {:induction false} CarriesLink(s: string, base: Expr, behind: string, e: Expr, rest: string)
    requires Carries(s, base, behind) && Link(base, behind) == Some((e, rest))
    ensures Carries(s, e, rest)
  {
    ChainLink(base, behind, e, rest);
  }

  /** Parsing reads back exactly the printed expression, whatever ends it. */
  lemma {:induction false} ParseEmit(e: Expr, rest: string)
    requires InFragment(e) && Ends(rest)
    ensures ParseExpr(Emit(e) + rest) == Some((e, rest))
    decreases e, 3
  {
    EmitStarts(e);
    if Prefixed(e) {
      EmitStarts(e.operand);
      ParseEmit(e.operand, rest);
      ParsePrefixed(e, e.unary, e.operand, rest);
    } else {
      Spine(e, rest);
      ChainEnds(e, rest);
      assert (Emit(e) + rest)[0] == Emit(e)[0];
      NoPrefix(Emit(e) + rest);
    }
  }

  lemma {:induction false} ParsePrefixed(e: Expr, unary: UnaryOp, operand: Expr, rest: string)
    requires e == Unary(unary, operand) && IsPrefix(unary)
    requires Emit(operand) != [] && (unary == Negate ==> Emit(operand)[0] != '-')
    requires ParseExpr(Emit(operand) + rest) == Some((operand, rest))
    ensures ParseExpr(Emit(e) + rest) == Some((e, rest))
  {
    PrefixRead(unary, Emit(operand), rest);
    Nested(PrefixText(unary), Emit(operand), rest);
  }

  lemma {:induction false} Spine(e: Expr, rest: string)
    requires InFragment(e) && !Prefixed(e) && Continues(rest)
    ensures Carries(Emit(e) + rest, e, rest)
    decreases e, 2
  {
    match e
    case Binary(lhs, op, rhs) =>
      ParseEmit(rhs, ")" + rest);
      ParseEmit(lhs, " " + OpText(op) + " " + (Emit(rhs) + (")" + rest)));
      SpineBinary(e, lhs, op, rhs, rest);
    case Ternary(condition, yes, no) =>
      ParseEmit(no, ")" + rest);
      ParseEmit(yes, " : " + (Emit(no) + (")" + rest)));
      ParseEmit(condition, " ? " + (Emit(yes) + (" : " + (Emit(no) + (")" + rest)))));
      SpineTernary(e, condition, yes, no, rest);
    case Call(receiver, callee, args) =>
      SpineCall(e, receiver, callee, args, rest);
    case Member(base, member) =>
      Spine(base, "." + (member + rest));
      LinkMember(base, member, rest);
      MemberText(base, member, rest);
      CarriesLink(Emit(e) + rest, base, "." + (member + rest), e, rest);
    case Index(base, index) =>
      ParseEmit(index, "]" + rest);
      Spine(base, "[" + (Emit(index) + ("]" + rest)));
      LinkIndex(base, index, rest);
      IndexText(base, index, rest);
      CarriesLink(Emit(e) + rest, base, "[" + (Emit(index) + ("]" + rest)), e, rest);
    case Unary(unary, operand) =>
      Spine(operand, (if unary == PostIncrement then "++" else "--") + rest);
      SpinePost(e, unary, operand, rest);
    case _ => SpineLeaf(e, rest);
  }

  lemma {:induction false} SpinePost(e: Expr, unary: UnaryOp, operand: Expr, rest: string)
    requires e == Unary(unary, operand) && !IsPrefix(unary)
    requires var sign := if unary == PostIncrement then "++" else "--"; Carries(Emit(operand) + (sign + rest), operand, sign + rest)
    ensures Carries(Emit(e) + rest, e, rest)
  {
    var sign := if unary == PostIncrement then "++" else "--";
    LinkPost(operand, unary, rest);
    Nested(Emit(operand), sign, rest);
    CarriesLink(Emit(e) + rest, operand, sign + rest, e, rest);
  }

  lemma {:induction false} SpineLeaf(e: Expr, rest: string)
    requires InFragment(e) && Continues(rest) && (e.Var? || e.Number? || e.Boolean? || e.Text?)
    ensures Carries(Emit(e) + rest, e, rest)
  {
    if e.Text? { ParseText(e.text, rest); } else { ParseLeaf(e, rest); }
    CarriesAll(Emit(e) + rest, e, rest);
  }

  lemma {:induction false} MemberText(base: Expr, member: string, rest: string)
    ensures Emit(Member(base, member)) + rest == Emit(base) + ("." + (member + rest))
  {
    assert Emit(base) + "." + member + rest == Emit(base) + ("." + (member + rest));
  }

  lemma {:induction false} IndexText(base: Expr, index: Expr, rest: string)
    ensures Emit(Index(base, index)) + rest == Emit(base) + ("[" + (Emit(index) + ("]" + rest)))
  {
    assert Emit(base) + "[" + Emit(index) + "]" + rest == Emit(base) + ("[" + (Emit(index) + ("]" + rest)));
  }

  lemma BinaryText(l: string, o: string, r: string, rest: string)
    ensures "(" + l + " " + o + " " + r + ")" + rest == "(" + (l + (" " + o + " " + (r + (")" + rest))))
  {}

  lemma TernaryText(c: string, y: string, n: string, rest: string)
    ensures "(" + c + " ? " + y + " : " + n + ")" + rest == "(" + (c + (" ? " + (y + (" : " + (n + (")" + rest))))))
  {}

  lemma {:induction false} EmitTernary(condition: Expr, yes: Expr, no: Expr, rest: string)
    ensures Emit(Ternary(condition, yes, no)) + rest
      == "(" + (Emit(condition) + (" ? " + (Emit(yes) + (" : " + (Emit(no) + (")" + rest))))))
  {
    TernaryText(Emit(condition), Emit(yes), Emit(no), rest);
  }

  lemma {:induction false} GroupCarries(s: string, first: Expr, inside: string, e: Expr, rest: string)
    requires ParseExpr(Emit(first) + inside) == Some((first, inside)) && ParseGroup(first, inside) == Some((e, rest))
    requires s == "(" + (Emit(first) + inside)
    ensures Carries(s, e, rest)
  {
    ParseOpen(first, inside, e, rest);
    CarriesAll(s, e, rest);
  }

  lemma {:induction false} SpineBinary(e: Expr, lhs: Expr, op: BinaryOp, rhs: Expr, rest: string)
    requires e == Binary(lhs, op, rhs) && ParseExpr(Emit(rhs) + (")" + rest)) == Some((rhs, ")" + rest))
    requires var inside := " " + OpText(op) + " " + (Emit(rhs) + (")" + rest)); ParseExpr(Emit(lhs) + inside) == Some((lhs, inside))
    ensures Carries(Emit(e) + rest, e, rest)
  {
    var inside := " " + OpText(op) + " " + (Emit(rhs) + (")" + rest));
    GroupBinary(lhs, op, rhs, rest);
    BinaryText(Emit(lhs), OpText(op), Emit(rhs), rest);
    GroupCarries(Emit(e) + rest, lhs, inside, e, rest);
  }

  lemma {:induction false} SpineTernary(e: Expr, condition: Expr, yes: Expr, no: Expr, rest: string)
    requires e == Ternary(condition, yes, no) && ParseExpr(Emit(no) + (")" + rest)) == Some((no, ")" + rest))
    requires var tail := " : " + (Emit(no) + (")" + rest)); ParseExpr(Emit(yes) + tail) == Some((yes, tail))
    requires var inside := " ? " + (Emit(yes) + (" : " + (Emit(no) + (")" + rest))));
             ParseExpr(Emit(condition) + inside) == Some((condition, inside))
    ensures Carries(Emit(e) + rest, e, rest)
  {
    var inside := " ? " + (Emit(yes) + (" : " + (Emit(no) + (")" + rest))));
    GroupTernary(condition, yes, no, rest);
    EmitTernary(condition, yes, no, rest);
    GroupCarries(Emit(e) + rest, condition, inside, e, rest);
  }

  function CallLink(callee: string, args: seq<Expr>, rest: string): string {
    "." + (callee + ("(" + (EmitArgs(args) + (")" + rest))))
  }

  lemma {:induction false} SpineCall(e: Expr, receiver: Option<Expr>, callee: string, args: seq<Expr>, rest: string)
    requires e == Call(receiver, callee, args) && InFragment(e) && Continues(rest)
    ensures Carries(Emit(e) + rest, e, rest)
    decreases e, 1
  {
    ArgsRead(args, rest);
    if receiver.None? {
      SpineFree(e, callee, args, rest);
    } else {
      var r, link := receiver.value, CallLink(callee, args, rest);
      LinkCall(r, callee, args, rest);
      if BareReceiver(r) {
        Spine(r, link);
        ReceiverText(e, r, callee, args, rest);
      } else {
        ParseEmit(r, ")" + link);
        ParseClosed(r, link);
        GroupedText(e, r, callee, args, rest);
        CarriesAll(Emit(e) + rest, r, link);
      }
      CarriesLink(Emit(e) + rest, r, link, e, rest);
    }
  }

  lemma {:induction false} SpineFree(e: Expr, callee: string, args: seq<Expr>, rest: string)
    requires e == Call(None, callee, args) && IsName(callee)
    requires ParseArgs(EmitArgs(args) + (")" + rest)) == Some((args, rest))
    ensures Carries(Emit(e) + rest, e, rest)
  {
    ParseCall(callee, args, rest);
    FreeCallText(callee, EmitArgs(args), rest);
    CarriesAll(Emit(e) + rest, e, rest);
  }

  lemma {:induction false} ReceiverText(e: Expr, r: Expr, callee: string, args: seq<Expr>, rest: string)
    requires e == Call(Some(r), callee, args) && BareReceiver(r)
    ensures Emit(e) + rest == Emit(r) + CallLink(callee, args, rest)
  {
    assert Emit(r) + "." + callee + "(" + EmitArgs(args) + ")" + rest == Emit(r) + CallLink(callee, args, rest);
  }

  lemma {:induction false} GroupedText(e: Expr, r: Expr, callee: string, args: seq<Expr>, rest: string)
    requires e == Call(Some(r), callee, args) && !BareReceiver(r)
    ensures Emit(e) + rest == "(" + (Emit(r) + (")" + CallLink(callee, args, rest)))
  {
    GroupedCallText(Emit(r), callee, EmitArgs(args), rest);
  }

  lemma FreeCallText(callee: string, args: string, rest: string)
    ensures "" + callee + "(" + args + ")" + rest == callee + ("(" + (args + (")" + rest)))
  {}

  lemma GroupedCallText(r: string, callee: string, args: string, rest: string)
    ensures "(" + r + ")" + "." + callee + "(" + args + ")" + rest
            == "(" + (r + (")" + ("." + (callee + ("(" + (args + (")" + rest)))))))
  {}

  lemma {:induction false} ParseClosed(r: Expr, rest: string)
    requires ParseExpr(Emit(r) + (")" + rest)) == Some((r, ")" + rest)) && !BareReceiver(r)
    ensures ParsePrimary("(" + (Emit(r) + (")" + rest))) == Some((r, rest))
  {
    PastPrefix(")", rest);
    ParseOpen(r, ")" + rest, r, rest);
  }

  lemma {:induction false} ArgsRead(args: seq<Expr>, rest: string)
    requires AllInFragment(args)
    ensures ParseArgs(EmitArgs(args) + (")" + rest)) == Some((args, rest))
    decreases args
  {
    if args == [] {
      PastPrefix(")", rest);
      assert "" + (")" + rest) == ")" + rest;
    } else {
      var first, more := args[0], args[1..];
      MoreRead(more, rest);
      MoreEnds(more, rest);
      ParseEmit(first, EmitMore(more) + (")" + rest));
      assert args == [first] + more;
      FirstArg(first, more, rest);
    }
  }

  lemma {:induction false} FirstArg(first: Expr, more: seq<Expr>, rest: string)
    requires InFragment(first) && ParseMore(EmitMore(more) + (")" + rest)) == Some((more, rest))
    requires var tail := EmitMore(more) + (")" + rest); ParseExpr(Emit(first) + tail) == Some((first, tail))
    ensures ParseArgs(EmitArgs([first] + more) + (")" + rest)) == Some(([first] + more, rest))
  {
    var tail, args := EmitMore(more) + (")" + rest), [first] + more;
    EmitStarts(first);
    assert args[1..] == more;
    Nested(Emit(first), EmitMore(more), ")" + rest);
    assert (Emit(first) + tail)[0] == Emit(first)[0];
  }

  lemma Nested(a: string, b: string, c: string)
    ensures a + b + c == a + (b + c)
    ensures ", " + a + b + c == ", " + (a + (b + c))
  {}

  lemma {:induction false} NextArg(first: Expr, more: seq<Expr>, rest: string)
    requires ParseMore(EmitMore(more) + (")" + rest)) == Some((more, rest))
    requires var tail := EmitMore(more) + (")" + rest); ParseExpr(Emit(first) + tail) == Some((first, tail))
    ensures ParseMore(EmitMore([first] + more) + (")" + rest)) == Some(([first] + more, rest))
  {
    var tail, args := EmitMore(more) + (")" + rest), [first] + more;
    assert args[1..] == more;
    Nested(Emit(first), EmitMore(more), ")" + rest);
    assert (", " + (Emit(first) + tail))[0] == ',';
    PastPrefix(", ", Emit(first) + tail);
  }

  lemma {:induction false} MoreEnds(args: seq<Expr>, rest: string)
    ensures Ends(EmitMore(args) + (")" + rest))
  {}

  lemma {:induction false} MoreRead(args: seq<Expr>, rest: string)
    requires AllInFragment(args)
    ensures ParseMore(EmitMore(args) + (")" + rest)) == Some((args, rest))
    decreases args
  {
    if args == [] {
      PastPrefix(")", rest);
      assert "" + (")" + rest) == ")" + rest;
    } else {
      var first, more := args[0], args[1..];
      MoreRead(more, rest);
      MoreEnds(more, rest);
      ParseEmit(first, EmitMore(more) + (")" + rest));
      assert args == [first] + more;
      NextArg(first, more, rest);
    }
  }

  /** On the fragment no two expressions print alike. */
  lemma {:induction false} EmitInjective(a: Expr, b: Expr)
    requires InFragment(a) && InFragment(b) && Emit(a) == Emit(b)
    ensures a == b
  {
    ParseEmit(a, []);
    ParseEmit(b, []);
    assert Emit(a) + [] == Emit(b) + [];
  }

  // --- Compound assignments --------------------------------------------------------------------------

  /** A compound operator between two spaces at the start of s. */
  function ReadAssign(s: string, from: nat): (r: Option<(BinaryOp, string)>)
    ensures r.Some? ==> |r.value.1| < |s|
    decreases |OPS| - from
  {
    if from >= |OPS| then None
    else
      match Past(s, " " + OpText(OPS[from]) + "= ")
      case Some(rest) => Some((OPS[from], rest))
      case None => ReadAssign(s, from + 1)
  }

  /** An expression, or compound assignments that group to the right. */
  function ParseTop(s: string): (r: Parsed)
    decreases |s|
  {
    match ParseExpr(s)
    case None => None
    case Some((e, rest)) =>
      match ReadAssign(rest, 0)
      case None => Some((e, rest))
      case Some((op, behind)) =>
        match ParseTop(behind)
        case None => None
        case Some((value, end)) => Some((CompoundAssign(e, op, value), end))
  }

  predicate InTop(e: Expr)
    decreases e
  {
    InFragment(e) || (e.CompoundAssign? && InFragment(e.target) && InTop(e.value_))
  }

  lemma AssignNotPrefix(a: BinaryOp, b: BinaryOp, rest: string)
    requires a != b
    ensures Past(" " + OpText(b) + "= " + rest, " " + OpText(a) + "= ") == None
  {
    OpTextShape(a);
    OpTextShape(b);
    var t, u := OpText(a), OpText(b);
    var p, s := " " + t + "= ", " " + u + "= " + rest;
    assert t == (if |t| == 1 then [t[0]] else [t[0], t[1]]) && u == (if |u| == 1 then [u[0]] else [u[0], u[1]]);
    assert p[1] == t[0] && p[2] == (if |t| == 1 then '=' else t[1]) && p[3] == (if |t| == 1 then ' ' else '=');
    assert s[1] == u[0] && s[2] == (if |u| == 1 then '=' else u[1]) && s[3] == (if |u| == 1 then ' ' else '=');
    assert p[1] != s[1] || p[2] != s[2] || p[3] != s[3];
  }

  lemma {:induction false} AssignRead(op: BinaryOp, rest: string, from: nat, k: nat)
    requires from <= k < |OPS| && OPS[k] == op && (forall i :: 0 <= i < k ==> OPS[i] != op)
    ensures ReadAssign(" " + OpText(op) + "= " + rest, from) == Some((op, rest))
    decreases k - from
  {
    if from < k {
      AssignNotPrefix(OPS[from], op, rest);
      AssignRead(op, rest, from + 1, k);
    } else {
      PastPrefix(" " + OpText(op) + "= ", rest);
    }
  }

  lemma {:induction false} NoAssign(from: nat)
    ensures ReadAssign("", from) == None
    decreases |OPS| - from
  {
    if from < |OPS| { NoAssign(from + 1); }
  }

  /** Parsing reads back printed compound assignments too. */
  lemma {:induction false} ParseTopEmit(e: Expr)
    requires InTop(e)
    ensures ParseTop(Emit(e)) == Some((e, ""))
    decreases e
  {
    if InFragment(e) {
      ParseEmit(e, "");
      assert Emit(e) + "" == Emit(e);
      NoAssign(0);
    } else {
      ParseTopEmit(e.value_);
      var text, end := Emit(e.target), Emit(e.value_);
      AssignTop(e.target, e.op, e.value_, text, end, " " + OpText(e.op) + "= " + end);
      AssignText(text, OpText(e.op), end);
    }
  }

  lemma {:induction false} AssignBehind(op: BinaryOp, value: string, rest: string)
    requires rest == " " + OpText(op) + "= " + value
    ensures ReadAssign(rest, 0) == Some((op, value)) && Ends(rest) && |value| < |rest|
  {
    AssignRead(op, value, 0, Place(op));
  }

  lemma {:induction false} AssignTop(target: Expr, op: BinaryOp, value: Expr, text: string, end: string, rest: string)
    requires InFragment(target) && Emit(target) == text && Emit(value) == end && ParseTop(end) == Some((value, ""))
    requires rest == " " + OpText(op) + "= " + end
    ensures ParseTop(text + rest) == Some((CompoundAssign(target, op, value), ""))
  {
    AssignBehind(op, end, rest);
    ParseEmit(target, rest);
    TopStep(text + rest, target, rest, op, end, value);
  }

  lemma {:induction false} TopStep(s: string, target: Expr, rest: string, op: BinaryOp, behind: string, value: Expr)
    requires |behind| < |s| && ParseExpr(s) == Some((target, rest)) && ReadAssign(rest, 0) == Some((op, behind))
    requires ParseTop(behind) == Some((value, ""))
    ensures ParseTop(s) == Some((CompoundAssign(target, op, value), ""))
  {}

  lemma AssignText(l: string, o: string, r: string)
    ensures l + " " + o + "= " + r == l + (" " + o + "= " + r)
  {}

  /** No two of them print alike, and none like another expression of the fragment. */
  lemma {:induction false} TopInjective(a: Expr, b: Expr)
    requires InTop(a) && InTop(b) && Emit(a) == Emit(b)
    ensures a == b
  {
    ParseTopEmit(a);
    ParseTopEmit(b);
  }

  /** Outside it two different expressions can: prefix forms and members are not parenthesised. */
  lemma {:induction false} AmbiguousOutside(x: Expr, y: Expr, member: string)
    ensures Emit(Unary(Negate, Unary(Negate, x))) == Emit(Unary(PreDecrement, x))
    ensures Emit(Unary(Not, Member(x, member))) == Emit(Member(Unary(Not, x), member))
    ensures Emit(CompoundAssign(CompoundAssign(x, Add, y), Add, x)) == Emit(CompoundAssign(x, Add, CompoundAssign(y, Add, x)))
  {
    TwoMinus(Emit(x));
    NotMember(Emit(x), member);
    AssignChain(Emit(x), Emit(y), Emit(x));
  }

  lemma TwoMinus(x: string)
    ensures "-" + ("-" + x) == "--" + x
  {}

  lemma NotMember(x: string, member: string)
    ensures "!" + (x + "." + member) == "!" + x + "." + member
  {}

  lemma AssignChain(x: string, y: string, z: string)
    ensures (x + " " + "+" + "= " + y) + " " + "+" + "= " + z == x + " " + "+" + "= " + (y + " " + "+" + "= " + z)
  {}
}
