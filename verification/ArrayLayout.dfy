/**
 The layout that the debug adapter announces for a variable: the shape peeled from an array type,
 its row-major strides, and the fields of a structure element.
 */
module ArrayLayout {
  import opened Outcomes

  const TWO63: int := 0x8000_0000_0000_0000
  const TWO64: int := 0x1_0000_0000_0000_0000

  // Storing a number in one of these proves that it does not overflow.
  type Int64 = x: int | -0x8000_0000_0000_0000 <= x < 0x8000_0000_0000_0000
  type UInt64 = x: int | 0 <= x < 0x1_0000_0000_0000_0000

  // --- The shape of an array type ---------------------------------------------------------------

  /** A type as the debug information describes it; an invalid type is a leaf of size 0. */
  datatype DebugType = Leaf(size: UInt64) | Array(elem: DebugType, size: UInt64)

  function ToInt64(x: UInt64): Int64 {
    if x < TWO63 then x else x - TWO64
  }

  /** The number of elements, recovered from the two byte sizes. */
  function Dimension(total: UInt64, elem: UInt64): Int64
    requires elem != 0
  {
    ToInt64(total / elem)
  }

  /** The dimensions from the outermost on; an element of size 0 ends them. */
  function Shape(t: DebugType): seq<Int64> {
    match t
    case Leaf(_) => []
    case Array(elem, size) =>
      if elem.size == 0 then [0] else [Dimension(size, elem.size)] + Shape(elem)
  }

  function Element(t: DebugType): DebugType {
    match t
    case Leaf(_) => t
    case Array(elem, _) => if elem.size == 0 then elem else Element(elem)
  }

  lemma Regroup(a: seq<Int64>, x: Int64, b: seq<Int64>)
    ensures a + ([x] + b) == (a + [x]) + b
  {}

  method UnwrapArrayShape(t: DebugType) returns (leaf: DebugType, shape: seq<Int64>)
    ensures leaf == Element(t) && shape == Shape(t)
  {
    var current := t;
    shape := [];
    while current.Array?
      invariant Element(current) == Element(t)
      invariant shape + Shape(current) == Shape(t)
      decreases current
    {
      var elem, total := current.elem, current.size;
      if elem.size == 0 {
        return elem, shape + [0];
      }
      var count := Dimension(total, elem.size);
      assert Shape(current) == [count] + Shape(elem);
      Regroup(shape, count, Shape(elem));
      shape := shape + [count];
      current := elem;
    }
    leaf := current;
  }

  /** Every byte size on the way down fits the signed type of the shape. */
  predicate Fits(t: DebugType) {
    t.size < TWO63 && (t.Array? ==> Fits(t.elem))
  }

  /** An array type whose sizes are those of `counts` elements at each level. */
  predicate Counted(t: DebugType, counts: seq<nat>)
    decreases t
  {
    match t
    case Leaf(_) => counts == []
    case Array(elem, size) =>
      counts != [] && elem.size > 0 && size == counts[0] * elem.size && Counted(elem, counts[1..])
  }

  function Product(shape: seq<int>): int {
    if shape == [] then 1 else shape[0] * Product(shape[1..])
  }

  lemma {:induction false} ProductNonNegative(shape: seq<int>)
    requires forall i :: 0 <= i < |shape| ==> shape[i] >= 0
    ensures Product(shape) >= 0
  {
    if shape != [] { ProductNonNegative(shape[1..]); }
  }

  lemma DivideBack(total: nat, part: nat)
    requires part > 0
    ensures 0 <= total / part && total / part * part <= total && total / part <= total
  {
    var q := total / part;
    assert total == q * part + total % part;
    assert q >= 0;
    Grow(q, 1, part);
  }

  lemma Grow(a: nat, b: nat, c: nat)
    requires b <= c
    ensures a * b <= a * c
  {}

  lemma Assoc(a: int, b: int, c: int)
    ensures (a * b) * c == a * (b * c)
  {}

  lemma Nested(n: nat, inner: nat, leaf: nat, part: nat, total: nat)
    requires inner * leaf <= part && n * part <= total
    ensures n * inner * leaf <= total
  {
    Assoc(n, inner, leaf);
    Grow(n, inner * leaf, part);
  }

  lemma {:induction false} ShapeStep(t: DebugType)
    requires Fits(t) && t.Array? && t.elem.size != 0
    ensures Shape(t) == [t.size / t.elem.size] + Shape(t.elem) && Element(t) == Element(t.elem)
    ensures Product(Shape(t)) == (t.size / t.elem.size) * Product(Shape(t.elem))
    ensures t.size / t.elem.size >= 0 && (t.size / t.elem.size) * t.elem.size <= t.size
  {
    DivideBack(t.size, t.elem.size);
    assert Shape(t)[1..] == Shape(t.elem);
  }

  /** However inconsistent the sizes are, the announced elements stay inside the variable. */
  lemma {:induction false} ShapeInside(t: DebugType)
    requires Fits(t)
    ensures forall i :: 0 <= i < |Shape(t)| ==> Shape(t)[i] >= 0
    ensures Product(Shape(t)) * Element(t).size <= t.size
  {
    if t.Array? && t.elem.size != 0 {
      ShapeInside(t.elem);
      ShapeStep(t);
      ProductNonNegative(Shape(t.elem));
      Nested(t.size / t.elem.size, Product(Shape(t.elem)), Element(t).size, t.elem.size, t.size);
    }
  }

  lemma DivideExact(n: nat, part: nat)
    requires part > 0
    ensures n * part / part == n
  {
    var q, r := n * part / part, n * part % part;
    assert n * part == q * part + r;
    Apart(n, q, part);
    Apart(q, n, part);
  }

  lemma Apart(a: int, b: int, part: nat)
    ensures a > b ==> a * part >= b * part + part
  {
    if a > b {
      Grow(part, 1, a - b);
      assert part * (a - b) == a * part - b * part;
    }
  }

  lemma NotBelow(a: int, b: int, part: nat)
    ensures a >= b ==> a * part >= b * part
  {
    Apart(a, b, part);
  }

  /** Consistent sizes give the declared dimensions, and the elements fill the variable. */
  lemma {:induction false} ShapeExact(t: DebugType, counts: seq<nat>)
    requires Fits(t) && Counted(t, counts)
    ensures Shape(t) == counts && Product(Shape(t)) * Element(t).size == t.size
    decreases t
  {
    if t.Array? {
      ShapeExact(t.elem, counts[1..]);
      DivideExact(counts[0], t.elem.size);
      DivideBack(t.size, t.elem.size);
      assert Shape(t)[1..] == Shape(t.elem);
      Assoc(counts[0], Product(Shape(t.elem)), Element(t).size);
    }
  }

  // --- Strides -----------------------------------------------------------------------------------

  function Strides(shape: seq<int>, elem: int): (r: seq<int>)
    ensures |r| == |shape|
  {
    if shape == [] then [] else [Product(shape[1..]) * elem] + Strides(shape[1..], elem)
  }

  lemma {:induction false} StrideAt(shape: seq<int>, elem: int, i: nat)
    requires i < |shape|
    ensures Strides(shape, elem)[i] == Product(shape[i + 1..]) * elem
  {
    if i > 0 {
      StrideAt(shape[1..], elem, i - 1);
      assert shape[1..][i..] == shape[i + 1..];
    }
  }

  /** The bytes that the dimensions from i on span together. */
  function Span(shape: seq<int>, elem: int, i: nat): int
    requires i <= |shape|
  {
    Product(shape[i..]) * elem
  }

  lemma {:induction false} SpanStep(shape: seq<int>, elem: int, i: nat)
    requires i < |shape|
    ensures Span(shape, elem, i) == Span(shape, elem, i + 1) * shape[i]
    ensures Strides(shape, elem)[i] == Span(shape, elem, i + 1)
  {
    StrideAt(shape, elem, i);
    assert shape[i..][0] == shape[i] && shape[i..][1..] == shape[i + 1..];
    Assoc(shape[i], Product(shape[i + 1..]), elem);
  }

  /** No product the loop forms leaves the signed 64-bit range. */
  predicate NoOverflow(shape: seq<int>, elem: int) {
    forall i :: 0 <= i <= |shape| ==> -TWO63 <= Span(shape, elem, i) < TWO63
  }

  method RowMajorStrides(shape: seq<Int64>, elem: Int64) returns (strides: array<Int64>)
    requires NoOverflow(shape, elem)
    ensures fresh(strides) && strides[..] == Strides(shape, elem)
  {
    strides := new Int64[|shape|](_ => 0);
    if |shape| == 0 {
      return;
    }
    var acc, i := elem, |shape|;
    assert shape[i..] == [];
    while i > 0
      invariant 0 <= i <= |shape| == strides.Length
      invariant acc == Span(shape, elem, i)
      invariant forall j :: i <= j < |shape| ==> strides[j] == Strides(shape, elem)[j]
    {
      i := i - 1;
      SpanStep(shape, elem, i);
      strides[i] := acc;
      acc := acc * shape[i];
    }
  }

  /** The shape of a type whose sizes fit never makes the stride loop overflow. */
  lemma {:induction false} ShapeNoOverflow(t: DebugType)
    requires Fits(t)
    ensures Element(t).size < TWO63 && NoOverflow(Shape(t), Element(t).size)
  {
    SpanWhole(t);
    if t.Array? && t.elem.size != 0 {
      ShapeNoOverflow(t.elem);
      forall i: nat | 1 <= i <= |Shape(t)| ensures Span(Shape(t), Element(t).size, i) == Span(Shape(t.elem), Element(t).size, i - 1) {
        assert Shape(t)[i..] == Shape(t.elem)[i - 1..];
      }
    }
  }

  lemma {:induction false} SpanWhole(t: DebugType)
    requires Fits(t)
    ensures 0 <= Span(Shape(t), Element(t).size, 0) <= t.size && Element(t).size < TWO63
    decreases t
  {
    if t.Array? && t.elem.size != 0 {
      SpanWhole(t.elem);
    }
    ShapeInside(t);
    ProductNonNegative(Shape(t));
    assert Shape(t)[0..] == Shape(t);
    Grow(Product(Shape(t)), 0, Element(t).size);
  }

  // --- Addresses ---------------------------------------------------------------------------------

  predicate InBounds(index: seq<int>, shape: seq<int>) {
    |index| == |shape| && forall i :: 0 <= i < |shape| ==> 0 <= index[i] < shape[i]
  }

  /** Where an element starts, by the announced strides. */
  function Address(index: seq<int>, strides: seq<int>): int
    requires |index| == |strides|
  {
    if index == [] then 0 else index[0] * strides[0] + Address(index[1..], strides[1..])
  }

  /** The position of an element in the order of the addresses. */
  function Rank(index: seq<int>, shape: seq<int>): int
    requires |index| == |shape|
  {
    if index == [] then 0 else index[0] * Product(shape[1..]) + Rank(index[1..], shape[1..])
  }

  function Unrank(rank: nat, shape: seq<int>): seq<int>
    requires forall i :: 0 <= i < |shape| ==> shape[i] > 0
  {
    if shape == [] then []
    else
      ProductPositive(shape[1..]);
      var part := Product(shape[1..]);
      [rank / part] + Unrank(rank % part, shape[1..])
  }

  lemma {:induction false} ProductPositive(shape: seq<int>)
    requires forall i :: 0 <= i < |shape| ==> shape[i] > 0
    ensures Product(shape) > 0
  {
    if shape != [] { ProductPositive(shape[1..]); }
  }

  lemma Spread(a: int, b: int, r: int, elem: int)
    ensures a * (b * elem) + r * elem == (a * b + r) * elem
  {}

  lemma {:induction false} AddressIsRank(index: seq<int>, shape: seq<int>, elem: int)
    requires |index| == |shape|
    ensures Address(index, Strides(shape, elem)) == Rank(index, shape) * elem
  {
    if index != [] {
      AddressIsRank(index[1..], shape[1..], elem);
      assert Strides(shape, elem)[1..] == Strides(shape[1..], elem);
      Spread(index[0], Product(shape[1..]), Rank(index[1..], shape[1..]), elem);
    }
  }

  lemma Below(a: int, n: int, part: int, r: int)
    requires 0 <= a < n && 0 <= r < part
    ensures 0 <= a * part + r < n * part
  {
    Grow(part, a + 1, n);
    assert part * (a + 1) == a * part + part && part * n == n * part;
    Grow(part, 0, a);
  }

  lemma {:induction false} RankInside(index: seq<int>, shape: seq<int>)
    requires InBounds(index, shape)
    ensures 0 <= Rank(index, shape) < Product(shape)
  {
    if index != [] {
      RankInside(index[1..], shape[1..]);
      Below(index[0], shape[0], Product(shape[1..]), Rank(index[1..], shape[1..]));
    }
  }

  /** The elements are numbered without gap or repetition. */
  lemma {:induction false} RankUnrank(rank: nat, shape: seq<int>)
    requires (forall i :: 0 <= i < |shape| ==> shape[i] > 0) && rank < Product(shape)
    ensures InBounds(Unrank(rank, shape), shape) && Rank(Unrank(rank, shape), shape) == rank
  {
    if shape != [] {
      ProductPositive(shape[1..]);
      var part := Product(shape[1..]);
      assert rank == rank / part * part + rank % part;
      Quotient(rank, shape[0], part);
      RankUnrank(rank % part, shape[1..]);
      assert Unrank(rank, shape)[1..] == Unrank(rank % part, shape[1..]);
    }
  }

  lemma Quotient(rank: nat, n: int, part: nat)
    requires part > 0 && rank < n * part
    ensures 0 <= rank / part < n
  {
    var q := rank / part;
    assert rank == q * part + rank % part;
    NotBelow(q, n, part);
  }

  lemma SplitUnique(a: int, r: int, b: int, s: int, part: int)
    requires 0 <= r < part && 0 <= s < part && a * part + r == b * part + s
    ensures a == b && r == s
  {
    Apart(a, b, part);
    Apart(b, a, part);
  }

  lemma {:induction false} RankInjective(a: seq<int>, b: seq<int>, shape: seq<int>)
    requires InBounds(a, shape) && InBounds(b, shape) && Rank(a, shape) == Rank(b, shape)
    ensures a == b
  {
    if shape != [] {
      RankInside(a[1..], shape[1..]);
      RankInside(b[1..], shape[1..]);
      SplitUnique(a[0], Rank(a[1..], shape[1..]), b[0], Rank(b[1..], shape[1..]), Product(shape[1..]));
      RankInjective(a[1..], b[1..], shape[1..]);
      assert a == [a[0]] + a[1..] && b == [b[0]] + b[1..];
    }
  }

  /** Byte ranges [start, start + size) without a common byte. */
  predicate Disjoint(start: int, size: int, other: int, otherSize: int) {
    start + size <= other || other + otherSize <= start
  }

  /** Distinct elements occupy disjoint byte ranges. */
  lemma {:induction false} ElementsDisjoint(a: seq<int>, b: seq<int>, shape: seq<int>, elem: nat)
    requires InBounds(a, shape) && InBounds(b, shape) && a != b
    ensures Disjoint(Address(a, Strides(shape, elem)), elem, Address(b, Strides(shape, elem)), elem)
  {
    AddressIsRank(a, shape, elem);
    AddressIsRank(b, shape, elem);
    if Rank(a, shape) == Rank(b, shape) { RankInjective(a, b, shape); }
    Apart(Rank(a, shape), Rank(b, shape), elem);
    Apart(Rank(b, shape), Rank(a, shape), elem);
  }

  predicate Inside(x: int, index: seq<int>, shape: seq<int>, elem: int)
    requires |index| == |shape|
  {
    Address(index, Strides(shape, elem)) <= x < Address(index, Strides(shape, elem)) + elem
  }

  /** The element ranges cover the bytes of the variable exactly. */
  lemma {:induction false} ElementsCover(x: int, shape: seq<int>, elem: nat)
    requires (forall i :: 0 <= i < |shape| ==> shape[i] >= 0)
    ensures 0 <= x < Product(shape) * elem <==> exists index :: InBounds(index, shape) && Inside(x, index, shape, elem)
  {
    if 0 <= x < Product(shape) * elem {
      var index := ElementAt(x, shape, elem);
    }
    forall index | InBounds(index, shape) && Inside(x, index, shape, elem) ensures 0 <= x < Product(shape) * elem {
      ElementInside(x, index, shape, elem);
    }
  }

  /** With consistent sizes, the announced shape and strides account for every byte of the variable. */
  lemma {:induction false} VariableCovered(t: DebugType, counts: seq<nat>, x: int)
    requires Fits(t) && Counted(t, counts)
    ensures 0 <= x < t.size <==>
              exists index :: InBounds(index, Shape(t)) && Inside(x, index, Shape(t), Element(t).size)
  {
    ShapeExact(t, counts);
    ElementsCover(x, Shape(t), Element(t).size);
  }

  lemma ElementAt(x: int, shape: seq<int>, elem: nat) returns (index: seq<int>)
    requires (forall i :: 0 <= i < |shape| ==> shape[i] >= 0) && 0 <= x < Product(shape) * elem
    ensures InBounds(index, shape) && Inside(x, index, shape, elem)
  {
    AllPositive(shape);
    ProductPositive(shape);
    Quotient(x, Product(shape), elem);
    index := Unrank(x / elem, shape);
    RankUnrank(x / elem, shape);
    AddressIsRank(index, shape, elem);
    Remainder(x, elem);
  }

  lemma Remainder(x: nat, part: nat)
    requires part > 0
    ensures x / part * part <= x < x / part * part + part
  {
    assert x == x / part * part + x % part;
  }

  lemma {:induction false} ElementInside(x: int, index: seq<int>, shape: seq<int>, elem: nat)
    requires InBounds(index, shape) && Inside(x, index, shape, elem)
    ensures 0 <= x < Product(shape) * elem
  {
    AddressIsRank(index, shape, elem);
    RankInside(index, shape);
    Below(Rank(index, shape), Product(shape), elem, x - Rank(index, shape) * elem);
  }

  lemma {:induction false} AllPositive(shape: seq<int>)
    requires (forall i :: 0 <= i < |shape| ==> shape[i] >= 0) && Product(shape) != 0
    ensures forall i :: 0 <= i < |shape| ==> shape[i] > 0
  {
    if shape != [] { AllPositive(shape[1..]); }
  }

  // --- Structure elements ------------------------------------------------------------------------

  datatype BasicType =
    | Char | SignedChar | UnsignedChar | Short | UnsignedShort | Int | UnsignedInt
    | Long | UnsignedLong | LongLong | UnsignedLongLong | Float | Double | Unknown

  /** The wire name of a basic type, empty when it has none. */
  function Dtype(basic: BasicType, size: UInt64): string {
    match basic
    case Char => "i8"
    case SignedChar => "i8"
    case UnsignedChar => "u8"
    case Short => if size == 2 then "i16" else ""
    case UnsignedShort => if size == 2 then "u16" else ""
    case Int => if size == 4 then "i32" else if size == 8 then "i64" else ""
    case UnsignedInt => if size == 4 then "u32" else if size == 8 then "u64" else ""
    case Long => if size == 8 then "i64" else if size == 4 then "i32" else ""
    case UnsignedLong => if size == 8 then "u64" else if size == 4 then "u32" else ""
    case LongLong => "i64"
    case UnsignedLongLong => "u64"
    case Float => if size == 4 then "f32" else ""
    case Double => if size == 8 then "f64" else ""
    case Unknown => ""
  }

  predicate Floating(basic: BasicType) {
    basic == Float || basic == Double
  }

  predicate Unsigned(basic: BasicType) {
    basic in {UnsignedChar, UnsignedShort, UnsignedInt, UnsignedLong, UnsignedLongLong}
  }

  predicate OneByte(basic: BasicType) {
    basic in {Char, SignedChar, UnsignedChar}
  }

  predicate EightBytes(basic: BasicType) {
    basic == LongLong || basic == UnsignedLongLong
  }

  /** The sizes for which a type has a wire name; the ones of fixed width are not asked for their size. */
  predicate Mapped(basic: BasicType, size: nat) {
    || OneByte(basic) || EightBytes(basic)
    || (basic in {Short, UnsignedShort} && size == 2)
    || (basic in {Int, UnsignedInt, Long, UnsignedLong} && (size == 4 || size == 8))
    || (basic == Float && size == 4) || (basic == Double && size == 8)
  }

  function BitText(bytes: nat): string {
    if bytes == 1 then "8" else if bytes == 2 then "16" else if bytes == 4 then "32" else "64"
  }

  /** The kind of number and its width in bits. */
  function WireName(basic: BasicType, size: nat): string {
    [if Floating(basic) then 'f' else if Unsigned(basic) then 'u' else 'i']
    + BitText(if OneByte(basic) then 1 else if EightBytes(basic) then 8 else size)
  }

  lemma DtypeIs(basic: BasicType, size: UInt64)
    ensures Dtype(basic, size) == if Mapped(basic, size) then WireName(basic, size) else ""
  {}

  datatype Member = Member(
    name: string, valid: bool, bitfield: bool, typeValid: bool, aggregate: bool, pointer: bool,
    basic: BasicType, size: UInt64, offset: UInt64)

  datatype RecordType = RecordType(name: string, valid: bool, aggregate: bool, size: UInt64, members: seq<Member>)

  datatype Field = Field(name: string, offset: UInt64, dtype: string)

  datatype StructBlock = StructBlock(name: string, stride: UInt64, fields: seq<Field>)

  predicate Plain(m: Member) {
    m.valid && !m.bitfield && m.typeValid && !m.aggregate && !m.pointer && Dtype(m.basic, m.size) != ""
  }

  /** The end of a field as the loop holds it, in 64 bits. */
  function EndOf(m: Member): UInt64 {
    (m.offset + m.size) % TWO64
  }

  function FieldOf(m: Member): Field {
    Field(m.name, m.offset, Dtype(m.basic, m.size))
  }

  /** Each member is plain and starts no earlier than the held end of the one before it. */
  predicate Chained(ms: seq<Member>) {
    && (forall i :: 0 <= i < |ms| ==> Plain(ms[i]))
    && (forall i :: 0 < i < |ms| ==> ms[i].offset >= EndOf(ms[i - 1]))
  }

  method CheckMember(m: Member) returns (dtype: Result<string, string>)
    ensures dtype.Ok? <==> Plain(m)
    ensures dtype.Ok? ==> dtype.value == Dtype(m.basic, m.size)
  {
    if !m.valid {
      return Err("field is invalid");
    }
    if m.bitfield {
      return Err("field is a bitfield (unsupported)");
    }
    if !m.typeValid {
      return Err("field has invalid type");
    }
    if m.aggregate {
      return Err("field is a nested aggregate/array");
    }
    if m.pointer {
      return Err("field is a pointer/reference (unsupported)");
    }
    var name := Dtype(m.basic, m.size);
    if name == "" {
      return Err("field does not map to a primitive dtype");
    }
    return Ok(name);
  }

  /** The field loop. */
  method BuildFields(ms: seq<Member>) returns (r: Result<seq<Field>, string>)
    ensures r.Ok? <==> Chained(ms)
    ensures r.Ok? ==> |r.value| == |ms| && forall i :: 0 <= i < |ms| ==> r.value[i] == FieldOf(ms[i])
  {
    var fields, prevEnd: UInt64, i := [], 0, 0;
    while i < |ms|
      invariant 0 <= i <= |ms| && |fields| == i
      invariant Chained(ms[..i])
      invariant forall j :: 0 <= j < i ==> fields[j] == FieldOf(ms[j])
      invariant i > 0 ==> prevEnd == EndOf(ms[i - 1])
    {
      ChainedNext(ms, i);
      var dtype := CheckMember(ms[i]);
      if dtype.Err? {
        return Err(dtype.error);
      }
      if i > 0 && ms[i].offset < prevEnd {
        return Err("field overlaps prior field end");
      }
      prevEnd := (ms[i].offset + ms[i].size) % TWO64;
      fields := fields + [Field(ms[i].name, ms[i].offset, dtype.value)];
      i := i + 1;
    }
    assert ms[..i] == ms;
    return Ok(fields);
  }

  lemma ChainedNext(ms: seq<Member>, i: nat)
    requires i < |ms| && Chained(ms[..i])
    ensures Chained(ms[..i + 1]) <==> Plain(ms[i]) && (i > 0 ==> ms[i].offset >= EndOf(ms[i - 1]))
    ensures Chained(ms) ==> Chained(ms[..i + 1])
  {
    assert i > 0 ==> ms[..i + 1][i - 1] == ms[i - 1];
    assert ms[..i + 1][i] == ms[i] && forall k :: 0 <= k < i ==> ms[..i + 1][k] == ms[..i][k];
  }

  method TryBuildStructBlock(t: RecordType) returns (r: Result<StructBlock, string>)
    ensures r.Ok? <==> t.valid && t.aggregate && t.members != [] && Chained(t.members)
    ensures r.Ok? ==> r.value.name == t.name && r.value.stride == t.size && |r.value.fields| == |t.members|
    ensures r.Ok? ==> forall i :: 0 <= i < |t.members| ==> r.value.fields[i] == FieldOf(t.members[i])
  {
    if !t.valid {
      return Err("leaf type invalid");
    }
    if !t.aggregate {
      return Err("leaf type is not an aggregate");
    }
    if |t.members| == 0 {
      return Err("aggregate type has zero DWARF-visible fields");
    }
    var fields := BuildFields(t.members);
    if fields.Err? {
      return Err(fields.error);
    }
    return Ok(StructBlock(t.name, t.size, fields.value));
  }

  /** Every field ends before each later one starts. */
  predicate Ascending(ms: seq<Member>) {
    forall i, j :: 0 <= i < j < |ms| ==> ms[i].offset + ms[i].size <= ms[j].offset
  }

  /** No field but the last reaches the end of the 64-bit range. */
  predicate NoWrap(ms: seq<Member>) {
    forall i :: 0 <= i < |ms| - 1 ==> ms[i].offset + ms[i].size < TWO64
  }

  /** Accepted fields are ascending and disjoint exactly when no held end wraps. */
  lemma AscendingIff(ms: seq<Member>)
    requires Chained(ms)
    ensures Ascending(ms) <==> NoWrap(ms)
  {
    if NoWrap(ms) {
      forall i, j | 0 <= i < j < |ms| ensures ms[i].offset + ms[i].size <= ms[j].offset {
        AscendingFrom(ms, i, j);
      }
    }
    if Ascending(ms) {
      forall i | 0 <= i < |ms| - 1 ensures ms[i].offset + ms[i].size < TWO64 {
        assert ms[i].offset + ms[i].size <= ms[i + 1].offset;
      }
    }
  }

  lemma {:induction false} AscendingFrom(ms: seq<Member>, i: nat, j: nat)
    requires Chained(ms) && NoWrap(ms) && i < j < |ms|
    ensures ms[i].offset + ms[i].size <= ms[j].offset
    decreases j
  {
    assert ms[j].offset >= EndOf(ms[j - 1]) && EndOf(ms[j - 1]) == ms[j - 1].offset + ms[j - 1].size;
    if i < j - 1 {
      AscendingFrom(ms, i, j - 1);
    }
  }

  /** A wrapped end lets an overlapping field through. */
  lemma WrappedOverlap()
    ensures exists ms: seq<Member> :: |ms| == 2 && Chained(ms) && !Ascending(ms)
              && ms[0].offset == ms[1].offset && ms[0].size > 0
  {
    var top: UInt64 := 0xffff_ffff_ffff_fffc;
    var m := Member("", true, false, true, false, false, Int, 4, top);
    assert Chained([m, m]) && [m, m][0].offset + [m, m][0].size > [m, m][1].offset;
  }

  predicate FieldsInside(ms: seq<Member>, stride: nat) {
    forall i :: 0 <= i < |ms| ==> ms[i].offset + ms[i].size <= stride
  }

  /** Where the f-th field of an element starts. */
  function FieldAddress(index: seq<int>, shape: seq<int>, ms: seq<Member>, stride: nat, f: nat): int
    requires |index| == |shape| && f < |ms|
  {
    Address(index, Strides(shape, stride)) + ms[f].offset
  }

  /** In an array of accepted structures, no two field values share a byte. */
  lemma LeavesDisjoint(a: seq<int>, f: nat, b: seq<int>, g: nat, shape: seq<int>, ms: seq<Member>, stride: nat)
    requires InBounds(a, shape) && InBounds(b, shape) && f < |ms| && g < |ms| && (a != b || f != g)
    requires Chained(ms) && FieldsInside(ms, stride) && stride < TWO64
    ensures Disjoint(FieldAddress(a, shape, ms, stride, f), ms[f].size, FieldAddress(b, shape, ms, stride, g), ms[g].size)
  {
    if a != b {
      ElementsDisjoint(a, b, shape, stride);
    } else {
      AscendingIff(ms);
      assert NoWrap(ms);
      if f < g {
        assert ms[f].offset + ms[f].size <= ms[g].offset;
      } else {
        assert ms[g].offset + ms[g].size <= ms[f].offset;
      }
    }
  }
}
