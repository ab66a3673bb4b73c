/** Acceptance of a dylib image, stated on its bytes alone. */
module MachBytes {
  import opened Outcomes
  import opened MachImage

  /** The little-endian word at `p`. */
  function Word4(b: Bytes, p: nat): nat
    requires p + 4 <= |b|
  {
    Value(b[p]) + 0x100 * Value(b[p + 1]) + 0x1_0000 * Value(b[p + 2]) + 0x100_0000 * Value(b[p + 3])
  }

  predicate WordAt(b: Bytes, p: nat, word: nat) {
    p + 4 <= |b| && Word4(b, p) == word
  }

  /** `text` stands at `s`, followed by a NUL in front of `end`. */
  predicate Spells(b: Bytes, s: nat, end: nat, text: Bytes) {
    s + |text| < end <= |b| && 0 !in text && b[s..s + |text|] == text && b[s + |text|] == 0
  }

  // The bytes of "/usr/lib/libSystem.B.dylib".
  const LIBSYSTEM: Bytes := [
    0x2f, 0x75, 0x73, 0x72, 0x2f, 0x6c, 0x69, 0x62, 0x2f, 0x6c, 0x69, 0x62, 0x53,
    0x79, 0x73, 0x74, 0x65, 0x6d, 0x2e, 0x42, 0x2e, 0x64, 0x79, 0x6c, 0x69, 0x62]

  // --- The condition -------------------------------------------------------------------------

  /** An ARM64 dylib header in front of at most 4096 commands that fit the image. */
  predicate ExpectedHeader(b: Bytes) {
    && |b| >= 32
    && Word4(b, 0) == 0xfeedfacf && Word4(b, 4) == 0x0100000c && Word4(b, 12) == 6
    && Word4(b, 16) <= 4096 && 32 + Word4(b, 20) <= |b|
  }

  /** The command from `p` to `next`, as long as its second word says. */
  predicate Reaches(b: Bytes, p: nat, next: nat) {
    p + 8 <= next <= |b| && WordAt(b, p + 4, next - p)
  }

  /** The offsets of the commands: each starts where the one before it ends, the last at the area's end. */
  ghost predicate Walk(b: Bytes, at: seq<nat>)
    requires ExpectedHeader(b)
  {
    && |at| == Word4(b, 16) + 1 && at[0] == 32 && at[|at| - 1] == 32 + Word4(b, 20)
    && (forall k, n :: 0 <= k < n < |at| && n == k + 1 ==> Reaches(b, at[k], at[n]))
  }

  /** A load, weak, re-exported or upward import. */
  predicate ImportAt(b: Bytes, p: nat) {
    WordAt(b, p, 0xc) || WordAt(b, p, 0x80000018) || WordAt(b, p, 0x8000001f) || WordAt(b, p, 0x80000023)
  }

  /** What one command from `p` to `next` must be. */
  predicate CommandAccepted(b: Bytes, p: nat, next: nat) {
    && (WordAt(b, p, 2) ==> p + 24 <= next)
    && (ImportAt(b, p) ==> p + 24 <= next && p + 12 <= |b| && Spells(b, p + Word4(b, p + 8), next, LIBSYSTEM))
    && !WordAt(b, p, 0x8000001c) && !WordAt(b, p, 0x27) && !WordAt(b, p, 0x80000028)
  }

  /** The last symbol-table command is the first one that names a table. */
  ghost predicate TableAt(b: Bytes, at: seq<nat>, last: nat) {
    && last < |at| - 1 && WordAt(b, at[last], 2) && !WordAt(b, at[last] + 8, 0)
    && (forall k :: 0 <= k < |at| - 1 && k != last && WordAt(b, at[k], 2) ==> k < last && WordAt(b, at[k] + 8, 0))
  }

  /** The type byte of an external symbol: no debug record, and the external bit. */
  predicate External(kind: bv8) {
    kind < 0x20 && kind % 2 == 1
  }

  function TypeByte(b: Bytes, t: nat, i: nat): bv8
    requires t + 16 * i + 16 <= |b|
  {
    b[t + 16 * i + 4]
  }

  /** The i-th symbol at `t` is a plain external definition of `name`, a text between `s` and `end`. */
  ghost predicate Exports(b: Bytes, t: nat, i: nat, s: nat, end: nat, name: Bytes)
    requires t + 16 * i + 16 <= |b|
  {
    && TypeByte(b, t, i) == 0x0f
    && Spells(b, s + Word4(b, t + 16 * i), end, name)
  }

  ghost predicate Named(b: Bytes, t: nat, i: nat, s: nat, end: nat)
    requires t + 16 * i + 16 <= |b|
  {
    exists name :: Exports(b, t, i, s, end, name)
  }

  ghost predicate ExportsOne(b: Bytes, t: nat, n: nat, s: nat, end: nat, name: Bytes)
    requires t + 16 * n <= |b|
  {
    exists i :: 0 <= i < n && Exports(b, t, i, s, end, name)
  }

  predicate Underscored(names: seq<Bytes>, name: Bytes) {
    exists e | e in names :: name == [0x5f] + e
  }

  /** The n symbols at `t`: the external ones are plain definitions, of exactly the underscored names. */
  ghost predicate SymbolsAccepted(b: Bytes, t: nat, n: nat, s: nat, size: nat, names: seq<Bytes>) {
    && t + 16 * n <= |b| && s + size <= |b|
    && (forall i :: 0 <= i < n && External(TypeByte(b, t, i)) ==> Named(b, t, i, s, s + size))
    && (forall name :: ExportsOne(b, t, n, s, s + size, name) <==> Underscored(names, name))
  }

  ghost predicate CommandsAccepted(b: Bytes, at: seq<nat>) {
    && (forall k, n :: 0 <= k < n < |at| && n == k + 1 ==> CommandAccepted(b, at[k], at[n]))
    && exists k :: 0 <= k < |at| - 1 && ImportAt(b, at[k])
  }

  ghost predicate TableAccepted(b: Bytes, p: nat, names: seq<Bytes>) {
    p + 24 <= |b| && SymbolsAccepted(b, Word4(b, p + 8), Word4(b, p + 12), Word4(b, p + 16), Word4(b, p + 20), names)
  }

  /** The whole condition on the image's bytes. */
  ghost predicate BytesAccepted(b: Bytes, names: seq<Bytes>) {
    ExpectedHeader(b) && exists at, last ::
      Walk(b, at) && CommandsAccepted(b, at) && TableAt(b, at, last) && TableAccepted(b, at[last], names)
  }

  // --- Words, strings, type bytes ------------------------------------------------------------

  lemma WordIs(b: Bytes, p: nat)
    requires p + 4 <= |b|
    ensures U32(b, p) == Word4(b, p)
  {
    assert LittleEndian(b, p, 4) == Value(b[p]) + 0x100 * LittleEndian(b, p + 1, 3);
    assert LittleEndian(b, p + 1, 3) == Value(b[p + 1]) + 0x100 * LittleEndian(b, p + 1 + 1, 2);
    assert LittleEndian(b, p + 1 + 1, 2) == Value(b[p + 2]) + 0x100 * LittleEndian(b, p + 1 + 1 + 1, 1);
    assert LittleEndian(b, p + 1 + 1 + 1, 1) == Value(b[p + 3]) + 0x100 * LittleEndian(b, p + 1 + 1 + 1 + 1, 0);
  }

  lemma Letters()
    ensures '/' as nat as bv8 == 0x2f && 'u' as nat as bv8 == 0x75 && 's' as nat as bv8 == 0x73
    ensures 'r' as nat as bv8 == 0x72 && 'l' as nat as bv8 == 0x6c && 'i' as nat as bv8 == 0x69
    ensures 'b' as nat as bv8 == 0x62 && 'S' as nat as bv8 == 0x53 && 'y' as nat as bv8 == 0x79
    ensures 't' as nat as bv8 == 0x74 && 'e' as nat as bv8 == 0x65 && 'm' as nat as bv8 == 0x6d
    ensures '.' as nat as bv8 == 0x2e && 'B' as nat as bv8 == 0x42 && 'd' as nat as bv8 == 0x64
  {}

  lemma SystemLibrary()
    ensures SYSTEM_LIBRARY == LIBSYSTEM
  {
    Letters();
    assert SYSTEM_LIBRARY[..13] == LIBSYSTEM[..13];
    assert SYSTEM_LIBRARY[13..] == LIBSYSTEM[13..];
    assert SYSTEM_LIBRARY == SYSTEM_LIBRARY[..13] + SYSTEM_LIBRARY[13..];
    assert LIBSYSTEM == LIBSYSTEM[..13] + LIBSYSTEM[13..];
  }

  lemma StringIs(b: Bytes, s: nat, end: nat, text: Bytes)
    requires end <= |b|
    ensures Spells(b, s, end, text) <==> StringAt(b, s, end) == Some(text)
  {
    if s < end {
      var stop := FindNul(b, s);
      if Spells(b, s, end, text) {
        forall i | s <= i < s + |text| ensures b[i] != 0 { assert b[i] == text[i - s] && text[i - s] in text; }
        assert stop == s + |text|;
      }
    }
  }

  lemma KindIs(kind: bv8)
    ensures External(kind) <==> kind & 0xe0 == 0 && kind & 1 != 0
    ensures External(kind) ==> (kind & 0xe == 0xe && kind & 0x10 == 0 <==> kind == 0x0f)
  {}

  // --- One command -------------------------------------------------------------------------------

  /** A decoded command that imports nothing else than the system library. */
  predicate Decodes(b: Bytes, end: nat, p: nat, next: nat)
    requires p <= end <= |b|
  {
    var c := Decode(b, end, p);
    c.Some? && next == p + c.value.size && (c.value.Import? ==> c.value.library == LIBSYSTEM)
  }

  lemma FitsIs(b: Bytes, end: nat, p: nat, next: nat)
    requires p <= end <= |b|
    ensures Fits(b, end, p) && next == p + U32(b, p + 4) <==> next <= end && Reaches(b, p, next)
  {
    if p + 8 <= end { WordIs(b, p + 4); }
  }

  lemma KindsAre(b: Bytes, p: nat)
    requires p + 4 <= |b|
    ensures U32(b, p) == SYMTAB <==> WordAt(b, p, 2)
    ensures IsImport(U32(b, p)) <==> ImportAt(b, p)
    ensures IsForbidden(U32(b, p)) <==> WordAt(b, p, 0x8000001c) || WordAt(b, p, 0x27) || WordAt(b, p, 0x80000028)
    ensures WordAt(b, p, 2) ==> !ImportAt(b, p) && !IsForbidden(U32(b, p))
    ensures ImportAt(b, p) ==> !IsForbidden(U32(b, p))
  {
    WordIs(b, p);
  }

  lemma ImportIs(b: Bytes, end: nat, p: nat, next: nat)
    requires p <= end <= |b| && Fits(b, end, p) && next == p + U32(b, p + 4) && p + 24 <= next
    requires U32(b, p) != SYMTAB && IsImport(U32(b, p))
    ensures Decodes(b, end, p, next) <==> Spells(b, p + Word4(b, p + 8), next, LIBSYSTEM)
  {
    WordIs(b, p + 8);
    StringIs(b, p + U32(b, p + 8), next, LIBSYSTEM);
  }

  lemma DecodeIs(b: Bytes, end: nat, p: nat, next: nat)
    requires p <= end <= |b|
    ensures Decodes(b, end, p, next) <==> next <= end && Reaches(b, p, next) && CommandAccepted(b, p, next)
  {
    FitsIs(b, end, p, next);
    if Fits(b, end, p) && next == p + U32(b, p + 4) {
      KindsAre(b, p);
      if ImportAt(b, p) && p + 24 <= next { ImportIs(b, end, p, next); }
    }
  }

  lemma KindOfCommand(b: Bytes, end: nat, p: nat)
    requires p <= end <= |b| && Decode(b, end, p).Some?
    ensures Decode(b, end, p).value.Import? <==> ImportAt(b, p)
    ensures Decode(b, end, p).value.Symtab? <==> WordAt(b, p, 2)
  {
    WordIs(b, p);
  }

  predicate TableIn(b: Bytes, p: nat, t: SymbolTable) {
    p + 24 <= |b| && t == SymbolTable(Word4(b, p + 8), Word4(b, p + 12), Word4(b, p + 16), Word4(b, p + 20))
  }

  lemma TableOfCommand(b: Bytes, end: nat, p: nat)
    requires p <= end <= |b| && Decode(b, end, p).Some? && Decode(b, end, p).value.Symtab?
    ensures TableIn(b, p, Decode(b, end, p).value.table)
  {
    WordIs(b, p + 8);
    WordIs(b, p + 12);
    WordIs(b, p + 16);
    WordIs(b, p + 20);
  }

  // --- All commands ----------------------------------------------------------------------------------

  /** The commands decoded along these offsets. */
  ghost predicate Along(b: Bytes, end: nat, at: seq<nat>, cs: seq<Command>)
    requires end <= |b|
  {
    |at| == |cs| + 1 && forall k, n :: 0 <= k < n < |at| && n == k + 1 ==> Here(b, end, at[k], at[n], cs[k])
  }

  predicate Here(b: Bytes, end: nat, p: nat, next: nat, c: Command)
    requires end <= |b|
  {
    p <= end && Decode(b, end, p) == Some(c) && next == p + c.size
  }

  lemma {:induction false} AlongDecodes(b: Bytes, end: nat, at: seq<nat>, cs: seq<Command>)
    requires end <= |b| && Along(b, end, at, cs) && at[0] <= end
    ensures Decoded(b, end, at[0], |cs|) == Some(cs)
    decreases |cs|
  {
    if cs != [] {
      assert Here(b, end, at[0], at[1], cs[0]);
      AlongRest(b, end, at, cs);
      AlongDecodes(b, end, at[1..], cs[1..]);
      assert cs == [cs[0]] + cs[1..];
    }
  }

  lemma AlongRest(b: Bytes, end: nat, at: seq<nat>, cs: seq<Command>)
    requires end <= |b| && Along(b, end, at, cs) && cs != []
    ensures Along(b, end, at[1..], cs[1..])
  {
    forall k, n | 0 <= k < n < |at| - 1 && n == k + 1 ensures Here(b, end, at[1..][k], at[1..][n], cs[1..][k]) {
      assert Here(b, end, at[k + 1], at[n + 1], cs[k + 1]);
    }
  }

  lemma DecodedFirst(b: Bytes, end: nat, p: nat, cs: seq<Command>)
    requires p <= end <= |b| && cs != [] && Decoded(b, end, p, |cs|) == Some(cs)
    ensures Decode(b, end, p) == Some(cs[0]) && p + cs[0].size <= end
    ensures Decoded(b, end, p + cs[0].size, |cs[1..]|) == Some(cs[1..])
  {
    var c := Decode(b, end, p).value;
    var tail := Decoded(b, end, p + c.size, |cs| - 1).value;
    assert cs == [c] + tail;
    assert cs[1..] == tail;
  }

  lemma {:induction false} DecodedAlong(b: Bytes, end: nat, p: nat, cs: seq<Command>) returns (at: seq<nat>)
    requires p <= end <= |b| && Decoded(b, end, p, |cs|) == Some(cs)
    ensures Along(b, end, at, cs) && at[0] == p
    decreases |cs|
  {
    if cs == [] {
      at := [p];
    } else {
      DecodedFirst(b, end, p, cs);
      var rest := DecodedAlong(b, end, p + cs[0].size, cs[1..]);
      at := [p] + rest;
      AlongFront(b, end, p, rest, cs);
    }
  }

  lemma AlongFront(b: Bytes, end: nat, p: nat, rest: seq<nat>, cs: seq<Command>)
    requires end <= |b| && cs != [] && Along(b, end, rest, cs[1..]) && Here(b, end, p, rest[0], cs[0])
    ensures Along(b, end, [p] + rest, cs)
  {
    var at := [p] + rest;
    forall k, n | 0 <= k < n < |at| && n == k + 1 ensures Here(b, end, at[k], at[n], cs[k]) {
      if k > 0 { assert Here(b, end, rest[k - 1], rest[n - 1], cs[1..][k - 1]); }
    }
  }

  lemma {:induction false} DecodedLength(b: Bytes, end: nat, p: nat, k: nat)
    requires p <= end <= |b| && Decoded(b, end, p, k).Some?
    ensures |Decoded(b, end, p, k).value| == k
    decreases k
  {
    if k > 0 { DecodedLength(b, end, p + Decode(b, end, p).value.size, k - 1); }
  }

  lemma {:induction false} AlongSizes(b: Bytes, end: nat, at: seq<nat>, cs: seq<Command>, k: nat)
    requires end <= |b| && Along(b, end, at, cs) && k <= |cs|
    ensures at[k] == at[0] + Sizes(cs[..k])
  {
    if k > 0 {
      AlongSizes(b, end, at, cs, k - 1);
      assert Here(b, end, at[k - 1], at[k], cs[k - 1]);
      assert cs[..k][..k - 1] == cs[..k - 1];
    }
  }

  /** The kinds of the commands along the offsets. */
  lemma AlongKinds(b: Bytes, end: nat, at: seq<nat>, cs: seq<Command>)
    requires end <= |b| && Along(b, end, at, cs)
    ensures forall k :: 0 <= k < |cs| ==> (cs[k].Import? <==> ImportAt(b, at[k]))
    ensures forall k :: 0 <= k < |cs| ==> (cs[k].Symtab? <==> WordAt(b, at[k], 2))
    ensures forall k :: 0 <= k < |cs| && cs[k].Symtab? ==> TableIn(b, at[k], cs[k].table)
  {
    forall k | 0 <= k < |cs|
      ensures (cs[k].Import? <==> ImportAt(b, at[k])) && (cs[k].Symtab? <==> WordAt(b, at[k], 2))
      ensures cs[k].Symtab? ==> TableIn(b, at[k], cs[k].table)
    {
      var n := k + 1;
      assert Here(b, end, at[k], at[n], cs[k]);
      KindOfCommand(b, end, at[k]);
      if cs[k].Symtab? { TableOfCommand(b, end, at[k]); }
    }
  }

  lemma TableIs(b: Bytes, end: nat, at: seq<nat>, cs: seq<Command>, last: nat)
    requires end <= |b| && Along(b, end, at, cs)
    ensures TableAt(b, at, last) <==> last < |cs| && LastTable(cs, last) && cs[last].table.table != 0
  {
    AlongKinds(b, end, at, cs);
  }

  ghost predicate SystemOnly(cs: seq<Command>) {
    forall library :: Imported(cs, library) <==> library == LIBSYSTEM
  }

  lemma AlongAccepted(b: Bytes, end: nat, at: seq<nat>, cs: seq<Command>)
    requires end <= |b| && Along(b, end, at, cs) && SystemOnly(cs)
    ensures CommandsAccepted(b, at)
    ensures forall k, n :: 0 <= k < n < |at| && n == k + 1 ==> Reaches(b, at[k], at[n])
  {
    AlongKinds(b, end, at, cs);
    forall k, n | 0 <= k < n < |at| && n == k + 1 ensures Reaches(b, at[k], at[n]) && CommandAccepted(b, at[k], at[n]) {
      assert Here(b, end, at[k], at[n], cs[k]);
      if cs[k].Import? { assert Imported(cs, cs[k].library); }
      DecodeIs(b, end, at[k], at[n]);
    }
    assert Imported(cs, LIBSYSTEM);
    var k :| 0 <= k < |cs| && cs[k].Import? && cs[k].library == LIBSYSTEM;
    assert ImportAt(b, at[k]);
  }

  lemma WalkAlong(b: Bytes, at: seq<nat>) returns (cs: seq<Command>)
    requires ExpectedHeader(b) && Walk(b, at) && CommandsAccepted(b, at)
    ensures Along(b, 32 + Word4(b, 20), at, cs) && SystemOnly(cs)
  {
    var end := 32 + Word4(b, 20);
    forall k, n | 0 <= k < n < |at| && n == k + 1 ensures at[k] <= end && Decodes(b, end, at[k], at[n]) {
      WalkInside(b, at, n);
      assert Reaches(b, at[k], at[n]);
      DecodeIs(b, end, at[k], at[n]);
    }
    assert forall k :: 0 <= k < |at| - 1 ==> at[k] <= end && Decode(b, end, at[k]).Some? by {
      forall k | 0 <= k < |at| - 1 ensures at[k] <= end && Decode(b, end, at[k]).Some? {
        var n := k + 1;
        assert Decodes(b, end, at[k], at[n]);
      }
    }
    cs := seq(|at| - 1, k requires 0 <= k < |at| - 1 && at[k] <= end && Decode(b, end, at[k]).Some? => Decode(b, end, at[k]).value);
    forall k, n | 0 <= k < n < |at| && n == k + 1 ensures Here(b, end, at[k], at[n], cs[k]) {
      assert Decodes(b, end, at[k], at[n]);
    }
    OnlySystem(b, end, at, cs);
  }

  lemma OnlySystem(b: Bytes, end: nat, at: seq<nat>, cs: seq<Command>)
    requires end <= |b| && Along(b, end, at, cs)
    requires forall k, n :: 0 <= k < n < |at| && n == k + 1 ==> at[k] <= end && Decodes(b, end, at[k], at[n])
    requires exists k :: 0 <= k < |at| - 1 && ImportAt(b, at[k])
    ensures SystemOnly(cs)
  {
    AlongKinds(b, end, at, cs);
    forall k | 0 <= k < |cs| && cs[k].Import? ensures cs[k].library == LIBSYSTEM {
      var n := k + 1;
      assert Decodes(b, end, at[k], at[n]) && Here(b, end, at[k], at[n], cs[k]);
    }
    var k :| 0 <= k < |at| - 1 && ImportAt(b, at[k]);
    assert cs[k].Import? && cs[k].library == LIBSYSTEM;
  }

  lemma {:induction false} WalkInside(b: Bytes, at: seq<nat>, n: nat)
    requires ExpectedHeader(b) && Walk(b, at) && n < |at|
    ensures at[n] <= 32 + Word4(b, 20)
    decreases |at| - n
  {
    if n < |at| - 1 {
      var m := n + 1;
      WalkInside(b, at, m);
      assert Reaches(b, at[n], at[m]);
    }
  }

  // --- Symbols ---------------------------------------------------------------------------------------

  lemma InTable(b: Bytes, t: SymbolTable, i: nat)
    requires RangesFine(b, t) && i < t.symbols
    ensures t.table + 16 * i + 16 <= |b| && t.strings + t.stringSize <= |b|
  {}

  lemma NameIs(b: Bytes, t: SymbolTable, index: nat, name: Bytes)
    requires t.strings + t.stringSize <= |b|
    ensures Spells(b, t.strings + index, t.strings + t.stringSize, name) <==>
      index < t.stringSize && StringAt(b, t.strings + index, t.strings + t.stringSize) == Some(name)
  {
    StringIs(b, t.strings + index, t.strings + t.stringSize, name);
  }

  lemma ExportIs(b: Bytes, t: SymbolTable, i: nat, name: Bytes)
    requires RangesFine(b, t) && i < t.symbols
    ensures t.table + 16 * i + 16 <= |b|
    ensures Exports(b, t.table, i, t.strings, t.strings + t.stringSize, name) <==>
      TypeByte(b, t.table, i) == 0x0f && SymbolName(b, t, i) == Some(name)
  {
    InTable(b, t, i);
    NamedAt(b, t, t.table + 16 * i, name);
  }

  /** The name that the word at `p` is an index of. */
  lemma NamedAt(b: Bytes, t: SymbolTable, p: nat, name: Bytes)
    requires p + 4 <= |b| && t.strings + t.stringSize <= |b|
    ensures U32(b, p) == Word4(b, p)
    ensures Spells(b, t.strings + Word4(b, p), t.strings + t.stringSize, name) <==>
      U32(b, p) < t.stringSize && StringAt(b, t.strings + U32(b, p), t.strings + t.stringSize) == Some(name)
  {
    WordIs(b, p);
    NameIs(b, t, U32(b, p), name);
  }

  lemma ExternalIs(b: Bytes, t: SymbolTable, i: nat)
    requires RangesFine(b, t) && i < t.symbols
    ensures t.table + 16 * i + 16 <= |b|
    ensures IsExternal(b, t, i) <==> External(TypeByte(b, t.table, i))
    ensures SymbolFine(b, t, i) <==>
      (External(TypeByte(b, t.table, i)) ==> SymbolName(b, t, i).Some? && TypeByte(b, t.table, i) == 0x0f)
  {
    InTable(b, t, i);
    KindIs(TypeByte(b, t.table, i));
  }

  lemma NamedIs(b: Bytes, t: SymbolTable, i: nat)
    requires RangesFine(b, t) && i < t.symbols
    ensures t.table + 16 * i + 16 <= |b|
    ensures Named(b, t.table, i, t.strings, t.strings + t.stringSize) <==>
      SymbolName(b, t, i).Some? && TypeByte(b, t.table, i) == 0x0f
  {
    InTable(b, t, i);
    var end := t.strings + t.stringSize;
    if Named(b, t.table, i, t.strings, end) {
      var name :| Exports(b, t.table, i, t.strings, end, name);
      ExportIs(b, t, i, name);
    }
    if SymbolName(b, t, i).Some? { ExportIs(b, t, i, SymbolName(b, t, i).value); }
  }

  lemma ExpectedIs(names: seq<Bytes>, name: Bytes)
    ensures name in Expected(names) <==> Underscored(names, name)
  {
    if Underscored(names, name) {
      var e :| e in names && name == [0x5f] + e;
      assert Mangled(e) in Expected(names);
    }
  }

  lemma DefinesIs(b: Bytes, t: SymbolTable, name: Bytes)
    requires RangesFine(b, t) && forall i :: 0 <= i < t.symbols ==> SymbolFine(b, t, i)
    ensures Defines(b, t, t.symbols, name) <==> ExportsOne(b, t.table, t.symbols, t.strings, t.strings + t.stringSize, name)
  {
    if Defines(b, t, t.symbols, name) {
      var i :| 0 <= i < t.symbols && IsExternal(b, t, i) && SymbolName(b, t, i) == Some(name);
      ExternalIs(b, t, i);
      ExportIs(b, t, i, name);
      assert Exports(b, t.table, i, t.strings, t.strings + t.stringSize, name);
    }
    if ExportsOne(b, t.table, t.symbols, t.strings, t.strings + t.stringSize, name) {
      var i :| 0 <= i < t.symbols && Exports(b, t.table, i, t.strings, t.strings + t.stringSize, name);
      ExternalIs(b, t, i);
      ExportIs(b, t, i, name);
    }
  }

  lemma RangesAre(b: Bytes, t: SymbolTable)
    ensures RangesFine(b, t) <==> t.table != 0 && t.table + 16 * t.symbols <= |b| && t.strings + t.stringSize <= |b|
  {}

  ghost predicate AllNamed(b: Bytes, t: SymbolTable)
    requires RangesFine(b, t)
  {
    forall i: nat :: i < t.symbols && t.table + 16 * i + 16 <= |b| && External(TypeByte(b, t.table, i)) ==>
      Named(b, t.table, i, t.strings, t.strings + t.stringSize)
  }

  lemma AllNamedIs(b: Bytes, t: SymbolTable)
    requires RangesFine(b, t)
    ensures (forall i :: 0 <= i < t.symbols ==> SymbolFine(b, t, i)) <==> AllNamed(b, t)
  {
    forall i: nat | i < t.symbols
      ensures t.table + 16 * i + 16 <= |b|
      ensures SymbolFine(b, t, i) <==>
        (External(TypeByte(b, t.table, i)) ==> Named(b, t.table, i, t.strings, t.strings + t.stringSize))
    {
      ExternalIs(b, t, i);
      NamedIs(b, t, i);
    }
  }

  ghost predicate ExportedExactly(b: Bytes, t: SymbolTable, names: seq<Bytes>)
    requires RangesFine(b, t)
  {
    forall name :: ExportsOne(b, t.table, t.symbols, t.strings, t.strings + t.stringSize, name) <==> Underscored(names, name)
  }

  lemma ExportedIs(b: Bytes, t: SymbolTable, names: seq<Bytes>)
    requires RangesFine(b, t) && forall i :: 0 <= i < t.symbols ==> SymbolFine(b, t, i)
    ensures (forall name :: Defines(b, t, t.symbols, name) <==> name in Expected(names)) <==> ExportedExactly(b, t, names)
  {
    forall name
      ensures Defines(b, t, t.symbols, name) <==> ExportsOne(b, t.table, t.symbols, t.strings, t.strings + t.stringSize, name)
      ensures name in Expected(names) <==> Underscored(names, name)
    {
      DefinesIs(b, t, name);
      ExpectedIs(names, name);
    }
  }

  lemma AcceptedParts(b: Bytes, t: SymbolTable, names: seq<Bytes>)
    requires RangesFine(b, t)
    ensures SymbolsAccepted(b, t.table, t.symbols, t.strings, t.stringSize, names) <==>
      AllNamed(b, t) && ExportedExactly(b, t, names)
  {
    RangesAre(b, t);
  }

  lemma SymbolsAre(b: Bytes, t: SymbolTable, names: seq<Bytes>)
    ensures SymbolsFine(b, t, names) <==>
      t.table != 0 && SymbolsAccepted(b, t.table, t.symbols, t.strings, t.stringSize, names)
  {
    RangesAre(b, t);
    if RangesFine(b, t) {
      AcceptedParts(b, t, names);
      AllNamedIs(b, t);
      if AllNamed(b, t) { ExportedIs(b, t, names); }
    }
  }

  // --- Acceptance -----------------------------------------------------------------------------------------

  lemma HeaderIs(b: Bytes)
    ensures HeaderFine(b) <==> ExpectedHeader(b)
    ensures HeaderFine(b) ==> U32(b, 16) == Word4(b, 16) && CommandsEnd(b) == 32 + Word4(b, 20)
  {
    if |b| >= 32 {
      WordIs(b, 0);
      WordIs(b, 4);
      WordIs(b, 12);
      WordIs(b, 16);
      WordIs(b, 20);
    }
  }

  lemma TableSymbols(b: Bytes, p: nat, t: SymbolTable, names: seq<Bytes>)
    requires TableIn(b, p, t)
    ensures SymbolsFine(b, t, names) <==> t.table != 0 && TableAccepted(b, p, names)
  {
    SymbolsAre(b, t, names);
  }

  lemma {:induction false} WalkHere(b: Bytes, at: seq<nat>, cs: seq<Command>)
    requires HeaderFine(b) && ExpectedHeader(b) && U32(b, 16) == Word4(b, 16) && CommandsEnd(b) == 32 + Word4(b, 20)
    requires Along(b, CommandsEnd(b), at, cs) && at[0] == 32
    requires forall k, n :: 0 <= k < n < |at| && n == k + 1 ==> Reaches(b, at[k], at[n])
    ensures Walk(b, at) <==> |cs| == U32(b, 16) && 32 + Sizes(cs) == CommandsEnd(b)
  {
    AlongSizes(b, CommandsEnd(b), at, cs, |cs|);
    assert cs[..|cs|] == cs;
  }

  lemma AcceptedBytes(b: Bytes, names: seq<Bytes>)
    requires Acceptable(b, names)
    ensures BytesAccepted(b, names)
  {
    HeaderIs(b);
    SystemLibrary();
    var end, cs := CommandsEnd(b), AllCommands(b).value;
    DecodedLength(b, end, 32, U32(b, 16));
    var at := DecodedAlong(b, end, 32, cs);
    AlongAccepted(b, end, at, cs);
    WalkHere(b, at, cs);
    var last :| 0 <= last < |cs| && LastTable(cs, last) && SymbolsFine(b, cs[last].table, names);
    TableFits(b, end, at, cs, last, names);
    assert Walk(b, at) && CommandsAccepted(b, at) && TableAt(b, at, last) && TableAccepted(b, at[last], names);
  }

  lemma TableFits(b: Bytes, end: nat, at: seq<nat>, cs: seq<Command>, last: nat, names: seq<Bytes>)
    requires end <= |b| && Along(b, end, at, cs) && last < |cs|
    ensures TableAt(b, at, last) && TableAccepted(b, at[last], names) <==>
      LastTable(cs, last) && SymbolsFine(b, cs[last].table, names)
  {
    TableIs(b, end, at, cs, last);
    AlongKinds(b, end, at, cs);
    if cs[last].Symtab? { TableSymbols(b, at[last], cs[last].table, names); }
  }

  lemma BytesAreAccepted(b: Bytes, names: seq<Bytes>)
    requires BytesAccepted(b, names)
    ensures Acceptable(b, names)
  {
    HeaderIs(b);
    SystemLibrary();
    var at, last :| Walk(b, at) && CommandsAccepted(b, at) && TableAt(b, at, last) && TableAccepted(b, at[last], names);
    var end := CommandsEnd(b);
    var cs := WalkAlong(b, at);
    AlongDecodes(b, end, at, cs);
    WalkHere(b, at, cs);
    TableFits(b, end, at, cs, last, names);
    AcceptableBy(b, cs, last, names);
  }

  lemma {:induction false} AcceptableBy(b: Bytes, cs: seq<Command>, last: nat, names: seq<Bytes>)
    requires HeaderFine(b) && AllCommands(b) == Some(cs) && 32 + Sizes(cs) == CommandsEnd(b)
    requires SYSTEM_LIBRARY == LIBSYSTEM && SystemOnly(cs)
    requires last < |cs| && LastTable(cs, last) && SymbolsFine(b, cs[last].table, names)
    ensures Acceptable(b, names)
  {}

  /** Acceptance is exactly the condition on the bytes. */
  lemma AcceptedIff(b: Bytes, names: seq<Bytes>)
    ensures Acceptable(b, names) <==> BytesAccepted(b, names)
  {
    if Acceptable(b, names) { AcceptedBytes(b, names); }
    if BytesAccepted(b, names) { BytesAreAccepted(b, names); }
  }
}
