/** What a bare token means: truth values, dates, floats, integers with signs, zeros and trailing text. */
module TomlScalars {
  import opened Outcomes
  import opened ConfigValues
  import opened TomlText

  predicate Word(token: string) {
    token == "true" || token == "false"
  }

  /** What the reader takes for a date or a time. */
  predicate DateText(token: string) {
    && |token| >= 8 && (forall i :: 0 <= i < |token| ==> '0' <= token[i] <= '9' || token[i] in ['-', ':', 'T', 'Z', '.', '+'])
    && (':' in token || (|token| == 10 && '-' in token))
  }

  lemma DateIff(token: string)
    ensures ScalarOf(token) == Ok(Datetime) <==> !Word(token) && DateText(token)
    ensures ScalarOf("true") == Ok(Bool(true)) && ScalarOf("false") == Ok(Bool(false))
  {
    assert "true" != "false";
  }

  /** A point or an exponent makes any other token a float, whatever it is. */
  lemma FloatIff(token: string)
    ensures (exists text :: ScalarOf(token) == Ok(Float(text))) <==>
      !Word(token) && !DateText(token) && ('.' in token || 'e' in token || 'E' in token)
    ensures forall text :: ScalarOf(token) == Ok(Float(text)) ==> text == token
  {
    DateIff(token);
    if !Word(token) && !DateText(token) && ('.' in token || 'e' in token || 'E' in token) {
      assert ScalarOf(token) == Ok(Float(token));
    }
  }

  // --- Integers --------------------------------------------------------------------------------

  predicate Zeros(s: string) {
    forall i :: 0 <= i < |s| ==> s[i] == '0'
  }

  /** Text that a number does not go on into. */
  predicate NoDigit(rest: string) {
    rest == "" || !('0' <= rest[0] <= '9')
  }

  lemma {:induction false} ZerosRead(zeros: string, rest: string)
    requires Zeros(zeros)
    ensures ReadDigits(zeros + rest, 0) == ReadDigits(rest, 0)
  {
    if zeros == "" {
      assert zeros + rest == rest;
    } else {
      assert (zeros + rest)[1..] == zeros[1..] + rest;
      ZerosRead(zeros[1..], rest);
    }
  }

  lemma {:induction false} DigitsStop(s: string, rest: string, value: nat)
    requires (forall i :: 0 <= i < |s| ==> Digit(s[i])) && NoDigit(rest)
    ensures ReadDigits(s + rest, value) == ReadDigits(s, value)
  {
    if s == "" {
      assert s + rest == rest;
    } else {
      assert (s + rest)[1..] == s[1..] + rest;
      DigitsStop(s[1..], rest, 10 * value + DigitValue(s[0]));
    }
  }

  lemma {:induction false} NumberRead(zeros: string, n: nat, rest: string)
    requires Zeros(zeros) && NoDigit(rest)
    ensures var body := zeros + (Digits(n) + rest); body != "" && Digit(body[0]) && ReadDigits(body, 0) == n
  {
    DigitsShape(n);
    ZerosRead(zeros, Digits(n) + rest);
    DigitsStop(Digits(n), rest, 0);
    DigitsRead(n);
  }

  predicate Sign(sign: string) {
    sign == "" || sign == "+" || sign == "-"
  }

  function Signed(sign: string, n: nat): int {
    var value: int := n;
    if sign == "-" then -value else value
  }

  lemma {:induction false} SpacesSkipped(spaces: string, rest: string)
    requires forall i :: 0 <= i < |spaces| ==> spaces[i] in [' ', '\t', '\n', '\U{0B}', '\U{0C}', '\r']
    ensures ReadInteger(spaces + rest) == ReadInteger(rest)
  {
    if spaces == "" {
      assert spaces + rest == rest;
    } else {
      assert (spaces + rest)[1..] == spaces[1..] + rest;
      SpacesSkipped(spaces[1..], rest);
    }
  }

  lemma {:induction false} SignedRead(sign: string, body: string)
    requires Sign(sign) && body != "" && Digit(body[0])
    ensures var n := Signed(sign, ReadDigits(body, 0)); ReadInteger(sign + body) == if Int64(n) then Some(n) else None
  {
    var s := sign + body;
    if sign == "" {
      assert s == body && !Space(s[0]) && ReadInteger(s) == ReadInteger(body);
    } else {
      assert s[0] == sign[0] && s[1..] == body && !Space(s[0]);
    }
  }

  /** A decimal number within 64 bits, with any sign and leading zeros; what follows it is ignored. */
  lemma {:induction false} IntegerToken(sign: string, zeros: string, n: nat, rest: string)
    requires Sign(sign) && Zeros(zeros) && NoDigit(rest)
    requires var token := sign + (zeros + (Digits(n) + rest));
      !DateText(token) && '.' !in token && 'e' !in token && 'E' !in token
    ensures var token := sign + (zeros + (Digits(n) + rest));
      if -0x8000_0000_0000_0000 <= Signed(sign, n) <= 0x7FFF_FFFF_FFFF_FFFF then ScalarOf(token) == Ok(Int(Signed(sign, n)))
      else ScalarOf(token).Err?
  {
    var body := zeros + (Digits(n) + rest);
    var token := sign + body;
    NumberRead(zeros, n, rest);
    SignedRead(sign, body);
    DateIff(token);
    assert 'e' in "true" by { assert "true"[3] == 'e'; }
    assert 'e' in "false" by { assert "false"[4] == 'e'; }
  }

  /** A token without a number at its start is an error, unless it is one of the others. */
  lemma NoToken(sign: string, rest: string)
    requires Sign(sign) && NoDigit(rest) && (rest == "" || rest[0] !in [' ', '\t', '\n', '\U{0B}', '\U{0C}', '\r', '+', '-'])
    requires var token := sign + rest; !Word(token) && !DateText(token) && '.' !in token && 'e' !in token && 'E' !in token
    ensures ScalarOf(sign + rest).Err?
  {
    DateIff(sign + rest);
    assert sign != "" ==> (sign + rest)[1..] == rest;
    assert sign == "" ==> sign + rest == rest;
  }
}
