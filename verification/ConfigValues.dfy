/** Decoded configuration values, shared by the layered model and its TOML bridge. */
module ConfigValues {

  /** A float is kept as its text; its binary rounding is not modelled. */
  datatype ConfigValue =
    | Bool(flag: bool)
    | Int(number: int)
    | Float(text: string)
    | Str(chars: string)
    | Sequence(items: seq<ConfigValue>)
    | Record(fields: seq<(string, ConfigValue)>)
    | Datetime
    | Unbridged

  const MIN_INT64: int := -0x8000_0000_0000_0000
  const MAX_INT64: int := 0x7FFF_FFFF_FFFF_FFFF

  predicate Int64(n: int) {
    MIN_INT64 <= n <= MAX_INT64
  }

  /** Every value inside has a schema type: no date and no foreign object anywhere. */
  predicate Bridged(v: ConfigValue) {
    match v
    case Datetime => false
    case Unbridged => false
    case Sequence(items) => forall i | 0 <= i < |items| :: Bridged(items[i])
    case Record(fields) => forall i | 0 <= i < |fields| :: Bridged(fields[i].1)
    case _ => true
  }

  /** The byte-wise order in which keys are enumerated. */
  predicate Before(a: string, b: string) {
    b != "" && (a == "" || a[0] < b[0] || (a[0] == b[0] && Before(a[1..], b[1..])))
  }

  lemma {:induction false} BeforeTotal(a: string, b: string)
    ensures Before(a, b) || Before(b, a) || a == b
    ensures !(Before(a, b) && Before(b, a)) && !Before(a, a)
  {
    if a != "" && b != "" {
      BeforeTotal(a[1..], b[1..]);
      assert a == [a[0]] + a[1..] && b == [b[0]] + b[1..];
    }
    if a != "" { BeforeTotal(a[1..], a[1..]); }
  }

  lemma {:induction false} BeforeTransitive(a: string, b: string, c: string)
    requires Before(a, b) && Before(b, c)
    ensures Before(a, c)
  {
    if a != "" && b != "" && c != "" && a[0] == b[0] == c[0] { BeforeTransitive(a[1..], b[1..], c[1..]); }
  }

  /** The order of bytes: a proper prefix first, otherwise by the first character that differs. */
  lemma {:induction false} BeforeMeans(a: string, b: string)
    ensures Before(a, b) <==>
      || (|a| < |b| && a == b[..|a|])
      || exists i :: 0 <= i < |a| && i < |b| && a[..i] == b[..i] && a[i] < b[i]
  {
    if a != "" && b != "" && a[0] == b[0] {
      var c, d := a[1..], b[1..];
      BeforeMeans(c, d);
      assert a == [a[0]] + c && b == [a[0]] + d;
      if |c| < |d| && c == d[..|c|] { assert a == b[..|a|]; }
      if |a| < |b| && a == b[..|a|] { assert c == b[..|a|][1..] == d[..|c|]; }
      if i :| 0 <= i < |c| && i < |d| && c[..i] == d[..i] && c[i] < d[i] {
        assert a[..i + 1] == [a[0]] + c[..i] && b[..i + 1] == [a[0]] + d[..i];
        assert a[i + 1] < b[i + 1];
      }
      if i :| 0 <= i < |a| && i < |b| && a[..i] == b[..i] && a[i] < b[i] {
        assert i > 0 && c[..i - 1] == a[..i][1..] && d[..i - 1] == b[..i][1..];
        assert c[i - 1] < d[i - 1];
      }
    } else if a != "" && b != "" {
      if a[0] < b[0] { assert a[..0] == b[..0] && a[0] < b[0]; }
    }
  }
}
