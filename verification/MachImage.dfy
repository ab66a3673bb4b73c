/**
 The bounded reader of one ARM64 Mach-O dylib: which byte strings it accepts, that no read or
 subtraction leaves its range, and that images of the expected form are accepted.
 */
module MachImage {
  import opened Outcomes

  type Bytes = seq<bv8>

  const MAX_IMAGE: nat := 16 * 1024 * 1024
  const MAX_COMMANDS: nat := 4096
  const WORD: nat := 0x1_0000_0000

  // The reader's two unsigned widths: storing a result in one proves that it does not wrap.
  type Word = n: nat | n < 0x1_0000_0000
  type Size = n: nat | n < 0x1_0000_0000_0000_0000

  const MAGIC: nat := 0xfeedfacf
  const ARM64: nat := 0x0100000c
  const DYLIB: nat := 6
  const SYMTAB: nat := 2

  function Ascii(text: string): Bytes
    requires forall i :: 0 <= i < |text| ==> text[i] < 128 as char
  {
    seq(|text|, i requires 0 <= i < |text| => text[i] as nat as bv8)
  }

  const SYSTEM_LIBRARY: Bytes := Ascii("/usr/lib/libSystem.B.dylib")

  // --- Words and strings ------------------------------------------------------------------

  function Value(x: bv8): (n: nat)
    ensures n < 256
  {
    x as nat
  }

  function Scale(n: nat): (r: nat) {
    if n == 0 then 1 else 0x100 * Scale(n - 1)
  }

  /** The little-endian number in n bytes. */
  function LittleEndian(b: Bytes, pos: nat, n: nat): (r: nat)
    requires pos + n <= |b|
    ensures r < Scale(n)
    decreases |b| - pos
  {
    if n == 0 then 0 else Value(b[pos]) + 0x100 * LittleEndian(b, pos + 1, n - 1)
  }

  function U32(b: Bytes, pos: nat): (r: nat)
    requires pos + 4 <= |b|
    ensures r < WORD
  {
    assert Scale(4) == WORD;
    LittleEndian(b, pos, 4)
  }

  /** The position of the first NUL at or after `pos`, or the length. */
  function FindNul(b: Bytes, pos: nat): (stop: nat)
    requires pos <= |b|
    ensures pos <= stop <= |b| && (forall i :: pos <= i < stop ==> b[i] != 0) && (stop < |b| ==> b[stop] == 0)
    decreases |b| - pos
  {
    if pos == |b| || b[pos] == 0 then pos else FindNul(b, pos + 1)
  }

  /** The NUL-terminated string at `pos`, if it ends before `end` inside the image. */
  function StringAt(b: Bytes, pos: nat, end: nat): Option<Bytes> {
    if pos >= end || end > |b| || FindNul(b, pos) >= end then None else Some(b[pos..FindNul(b, pos)])
  }

  // --- What is accepted -----------------------------------------------------------------------

  predicate HeaderFine(b: Bytes) {
    && |b| >= 32
    && U32(b, 0) == MAGIC && U32(b, 4) == ARM64 && U32(b, 12) == DYLIB
    && U32(b, 16) <= MAX_COMMANDS && U32(b, 20) <= |b| - 32
  }

  function CommandsEnd(b: Bytes): nat
    requires HeaderFine(b)
  {
    32 + U32(b, 20)
  }

  /** A whole command, its length word included, lies between `p` and `end`. */
  predicate Fits(b: Bytes, end: nat, p: nat)
    requires end <= |b|
  {
    p + 8 <= end && U32(b, p + 4) >= 8 && p + U32(b, p + 4) <= end
  }

  predicate IsImport(kind: nat) {
    kind == 0xc || kind == 0x80000018 || kind == 0x8000001f || kind == 0x80000023
  }

  predicate IsForbidden(kind: nat) {
    kind == 0x8000001c || kind == 0x27 || kind == 0x80000028
  }

  datatype SymbolTable = SymbolTable(table: nat, symbols: nat, strings: nat, stringSize: nat)

  function SymtabAt(b: Bytes, p: nat): SymbolTable
    requires p + 24 <= |b|
  {
    SymbolTable(U32(b, p + 8), U32(b, p + 12), U32(b, p + 16), U32(b, p + 20))
  }

  datatype Command =
    | Import(size: nat, library: Bytes)
    | Symtab(size: nat, table: SymbolTable)
    | Other(size: nat)

  /** The load command at p, unless it leaves the command area, is malformed or is of a forbidden kind. */
  function Decode(b: Bytes, end: nat, p: nat): (r: Option<Command>)
    requires p <= end <= |b|
    ensures r.Some? ==> p + 8 <= p + r.value.size <= end
  {
    if !Fits(b, end, p) then None
    else
      var kind, size := U32(b, p), U32(b, p + 4);
      if kind == SYMTAB then if size < 24 then None else Some(Symtab(size, SymtabAt(b, p)))
      else if IsImport(kind) then
        if size < 24 then None
        else
          match StringAt(b, p + U32(b, p + 8), p + size)
          case None => None
          case Some(library) => Some(Import(size, library))
      else if IsForbidden(kind) then None
      else Some(Other(size))
  }

  function Sizes(cs: seq<Command>): nat {
    if cs == [] then 0 else Sizes(cs[..|cs| - 1]) + cs[|cs| - 1].size
  }

  /** The k load commands from p on, each starting where the one before it ends. */
  function Decoded(b: Bytes, end: nat, p: nat, k: nat): (r: Option<seq<Command>>)
    requires p <= end <= |b|
    decreases k
  {
    if k == 0 then Some([])
    else
      match Decode(b, end, p)
      case None => None
      case Some(c) => Before([c], Decoded(b, end, p + c.size, k - 1))
  }

  function Before(front: seq<Command>, rest: Option<seq<Command>>): Option<seq<Command>> {
    match rest
    case None => None
    case Some(cs) => Some(front + cs)
  }

  function AllCommands(b: Bytes): Option<seq<Command>>
    requires HeaderFine(b)
  {
    Decoded(b, CommandsEnd(b), 32, U32(b, 16))
  }

  ghost predicate Imported(cs: seq<Command>, library: Bytes) {
    exists k :: 0 <= k < |cs| && cs[k].Import? && cs[k].library == library
  }

  /** The last symbol-table command; the ones before it name no table. */
  predicate LastTable(cs: seq<Command>, last: nat)
    requires last < |cs|
  {
    && cs[last].Symtab?
    && (forall k :: 0 <= k < |cs| && k != last && cs[k].Symtab? ==> k < last && cs[k].table.table == 0)
  }

  predicate RangesFine(b: Bytes, t: SymbolTable) {
    && t.table != 0 && t.table <= |b| && t.symbols <= (|b| - t.table) / 16
    && t.strings <= |b| && t.stringSize <= |b| - t.strings
  }

  predicate IsExternal(b: Bytes, t: SymbolTable, i: nat)
    requires RangesFine(b, t) && i < t.symbols
  {
    b[t.table + 16 * i + 4] & 0xe0 == 0 && b[t.table + 16 * i + 4] & 1 != 0
  }

  function SymbolName(b: Bytes, t: SymbolTable, i: nat): Option<Bytes>
    requires RangesFine(b, t) && i < t.symbols
  {
    var index := U32(b, t.table + 16 * i);
    if index >= t.stringSize then None else StringAt(b, t.strings + index, t.strings + t.stringSize)
  }

  /** An external symbol must be a plain definition with a readable name. */
  predicate SymbolFine(b: Bytes, t: SymbolTable, i: nat)
    requires RangesFine(b, t) && i < t.symbols
  {
    IsExternal(b, t, i) ==>
      && SymbolName(b, t, i).Some?
      && b[t.table + 16 * i + 4] & 0xe == 0xe && b[t.table + 16 * i + 4] & 0x10 == 0
  }

  /** One of the first n symbols is external and has this name. */
  ghost predicate Defines(b: Bytes, t: SymbolTable, n: nat, name: Bytes)
    requires RangesFine(b, t) && n <= t.symbols
  {
    exists i :: 0 <= i < n && IsExternal(b, t, i) && SymbolName(b, t, i) == Some(name)
  }

  /** The symbol a C function gets on this platform. */
  function Mangled(name: Bytes): Bytes {
    [0x5f] + name
  }

  function Expected(exports: seq<Bytes>): set<Bytes> {
    set e | e in exports :: Mangled(e)
  }

  ghost predicate SymbolsFine(b: Bytes, t: SymbolTable, exports: seq<Bytes>) {
    && RangesFine(b, t)
    && (forall i :: 0 <= i < t.symbols ==> SymbolFine(b, t, i))
    && (forall name :: Defines(b, t, t.symbols, name) <==> name in Expected(exports))
  }

  /**
   The accepted images: the commands tile the command area, the system library is the one
   dependency, and the external symbols of the one table are exactly the expected exports.
   */
  ghost predicate Acceptable(b: Bytes, exports: seq<Bytes>) {
    && HeaderFine(b)
    && var all := AllCommands(b);
    && all.Some? && 32 + Sizes(all.value) == CommandsEnd(b)
    && (forall library :: Imported(all.value, library) <==> library == SYSTEM_LIBRARY)
    && exists last | 0 <= last < |all.value| :: LastTable(all.value, last) && SymbolsFine(b, all.value[last].table, exports)
  }

  // --- The reader -------------------------------------------------------------------------------

  lemma Regroup(low: nat, scale: nat, digit: nat)
    ensures 0x100 * (low + scale * digit) == 0x100 * low + (0x100 * scale) * digit
  {}

  lemma {:induction false} NextByte(b: Bytes, pos: nat, n: nat)
    requires pos + n < |b|
    ensures LittleEndian(b, pos, n + 1) == LittleEndian(b, pos, n) + Scale(n) * Value(b[pos + n])
    decreases n
  {
    if n > 0 {
      NextByte(b, pos + 1, n - 1);
      Regroup(LittleEndian(b, pos + 1, n - 1), Scale(n - 1), Value(b[pos + n]));
    }
  }

  method ReadU32(b: Bytes, pos: Size) returns (r: Result<Word, string>)
    ensures r == if pos + 4 <= |b| then Ok(U32(b, pos)) else Err("truncated Mach-O")
  {
    if pos > |b| || |b| - pos < 4 {
      return Err("truncated Mach-O");
    }
    var value, scale, i := 0, 1, 0;
    while i < 4
      invariant 0 <= i <= 4 && scale == Scale(i)
      invariant value == LittleEndian(b, pos, i)
    {
      NextByte(b, pos, i);
      value, scale, i := value + scale * Value(b[pos + i]), 0x100 * scale, i + 1;
    }
    return Ok(value);
  }

  /** A search for the terminator inside the bounds. */
  method ReadString(b: Bytes, start: Size, stop: Size) returns (r: Result<Bytes, string>)
    ensures var text := StringAt(b, start, stop); if text.Some? then r == Ok(text.value) else r.Err?
  {
    if start >= stop || stop > |b| {
      return Err("invalid Mach-O string");
    }
    var end: nat := start;
    while end < stop && b[end] != 0
      invariant start <= end <= stop
      invariant forall i :: start <= i < end ==> b[i] != 0
    {
      end := end + 1;
    }
    if end == stop {
      return Err("invalid Mach-O string");
    }
    return Ok(b[start..end]);
  }

  /** The body of the command loop: refused are a command that cannot be decoded and a second table. */
  method ReadCommand(b: Bytes, commandBytes: Word, cursor: Size, t: SymbolTable) returns (r: Result<Command, string>)
    requires |b| <= MAX_IMAGE && 32 <= cursor <= 32 + commandBytes <= |b|
    ensures var c := Decode(b, 32 + commandBytes, cursor);
            if c.Some? && (c.value.Symtab? ==> t.table == 0) then r == Ok(c.value) else r.Err?
  {
    var command := ReadU32(b, cursor);
    if command.Err? {
      return Err(command.error);
    }
    var length := ReadU32(b, cursor + 4);
    if length.Err? {
      return Err(length.error);
    }
    var kind, size := command.value, length.value;
    var limit: Word := 32 + commandBytes;
    var left: Size := limit - cursor;
    if size < 8 || size > left {
      return Err("invalid Mach-O command size");
    }
    if kind == SYMTAB {
      if size < 24 || t.table != 0 {
        return Err("invalid symbol table");
      }
      return Ok(Symtab(size, SymtabAt(b, cursor)));
    }
    if IsImport(kind) {
      if size < 24 {
        return Err("invalid dylib import");
      }
      var library := ReadString(b, cursor + U32(b, cursor + 8), cursor + size);
      return if library.Ok? then Ok(Import(size, library.value)) else Err(library.error);
    }
    if IsForbidden(kind) {
      return Err("runtime path or dyld environment outside isolated profile");
    }
    return Ok(Other(size));
  }

  function With(names: set<Bytes>, name: Option<Bytes>): set<Bytes> {
    if name.Some? then names + {name.value} else names
  }

  const NO_TABLE := SymbolTable(0, 0, 0, 0)

  /** What the command loop holds after some commands: the end of the last one, the libraries, the table. */
  datatype Progress = Progress(cursor: nat, libraries: set<Bytes>, table: SymbolTable)

  function Advanced(p: Progress, c: Command): Progress {
    Progress(p.cursor + c.size,
             if c.Import? then p.libraries + {c.library} else p.libraries,
             if c.Symtab? then c.table else p.table)
  }

  function After(cs: seq<Command>): Progress {
    if cs == [] then Progress(32, {}, NO_TABLE) else Advanced(After(cs[..|cs| - 1]), cs[|cs| - 1])
  }

  /** No symbol table follows one that names a table. */
  predicate NoSecondTable(cs: seq<Command>) {
    forall i, j :: 0 <= i < j < |cs| && cs[i].Symtab? && cs[j].Symtab? ==> cs[i].table.table == 0
  }

  lemma {:induction false} AfterMeans(cs: seq<Command>)
    ensures After(cs).cursor == 32 + Sizes(cs)
    ensures forall library :: library in After(cs).libraries <==> Imported(cs, library)
    ensures After(cs).table != NO_TABLE ==> exists l :: 0 <= l < |cs| && cs[l].Symtab? && cs[l].table == After(cs).table
    ensures forall l :: 0 <= l < |cs| && cs[l].Symtab? && (forall k :: l < k < |cs| ==> !cs[k].Symtab?) ==> After(cs).table == cs[l].table
  {
    if cs != [] {
      var front, n := cs[..|cs| - 1], |cs| - 1;
      AfterMeans(front);
      forall library ensures library in After(cs).libraries <==> Imported(cs, library) {
        if Imported(front, library) {
          var k :| 0 <= k < |front| && front[k].Import? && front[k].library == library;
          assert cs[k] == front[k];
        }
        if Imported(cs, library) {
          var k :| 0 <= k < |cs| && cs[k].Import? && cs[k].library == library;
          assert k < n ==> front[k] == cs[k];
        }
      }
    }
  }

  lemma {:induction false} AfterNext(cs: seq<Command>, c: Command)
    ensures After(cs + [c]) == Advanced(After(cs), c)
  {
    assert (cs + [c])[..|cs|] == cs;
  }

  lemma {:induction false} SecondTableStep(cs: seq<Command>, c: Command)
    requires NoSecondTable(cs) && (c.Symtab? ==> After(cs).table.table == 0)
    ensures NoSecondTable(cs + [c])
  {
    AfterMeans(cs);
  }

  /** All commands are the ones read so far and then the `left` ones still to read, from `cursor` on. */
  predicate Splits(b: Bytes, end: nat, all: Option<seq<Command>>, front: seq<Command>, cursor: nat, left: nat)
    requires end <= |b|
  {
    32 <= cursor <= end && all == Before(front, Decoded(b, end, cursor, left))
  }

  predicate Linked(b: Bytes, end: nat, count: nat, total: Option<seq<Command>>, front: seq<Command>, cursor: nat)
    requires end <= |b|
  {
    |front| <= count && Splits(b, end, total, front, cursor, count - |front|)
  }

  /** What the command loop keeps. */
  predicate Reached(b: Bytes, end: nat, count: nat, total: Option<seq<Command>>, front: seq<Command>, p: Progress)
    requires end <= |b|
  {
    p == After(front) && NoSecondTable(front) && Linked(b, end, count, total, front, p.cursor)
  }

  lemma SplitsNext(b: Bytes, end: nat, all: Option<seq<Command>>, front: seq<Command>, p: nat, k: nat, c: Command)
    requires end <= |b| && k > 0 && Splits(b, end, all, front, p, k) && Decode(b, end, p) == Some(c)
    ensures Splits(b, end, all, front + [c], p + c.size, k - 1)
  {
    var rest := Decoded(b, end, p + c.size, k - 1);
    if rest.Some? {
      assert front + ([c] + rest.value) == front + [c] + rest.value;
    }
  }

  lemma LinkedNext(b: Bytes, end: nat, count: nat, total: Option<seq<Command>>, front: seq<Command>, p: nat, c: Command)
    requires end <= |b| && |front| < count && Linked(b, end, count, total, front, p) && Decode(b, end, p) == Some(c)
    ensures Linked(b, end, count, total, front + [c], p + c.size)
  {
    SplitsNext(b, end, total, front, p, count - |front|, c);
  }

  lemma Advance(b: Bytes, end: nat, count: nat, total: Option<seq<Command>>, front: seq<Command>, p: Progress, c: Command)
    requires end <= |b| && |front| < count && Reached(b, end, count, total, front, p)
    requires Decode(b, end, p.cursor) == Some(c) && (c.Symtab? ==> p.table.table == 0)
    ensures Reached(b, end, count, total, front + [c], Advanced(p, c))
  {
    LinkedNext(b, end, count, total, front, p.cursor, c);
    AdvanceState(front, p, c);
  }

  lemma {:induction false} AdvanceState(front: seq<Command>, p: Progress, c: Command)
    requires p == After(front) && NoSecondTable(front) && (c.Symtab? ==> p.table.table == 0)
    ensures Advanced(p, c) == After(front + [c]) && NoSecondTable(front + [c]) && Advanced(p, c).cursor == p.cursor + c.size
  {
    AfterNext(front, c);
    SecondTableStep(front, c);
  }

  /** No symbol table can be the last one in these commands. */
  predicate Tableless(total: Option<seq<Command>>) {
    total.Some? ==> forall last: nat | last < |total.value| :: !LastTable(total.value, last)
  }

  lemma RefusedCommand(b: Bytes, end: nat, count: nat, total: Option<seq<Command>>, front: seq<Command>, p: Progress)
    requires end <= |b| && |front| < count && Reached(b, end, count, total, front, p)
    requires var c := Decode(b, end, p.cursor); c.None? || (c.value.Symtab? && p.table.table != 0)
    ensures Tableless(total)
  {
    var c := Decode(b, end, p.cursor);
    if c.Some? {
      LinkedNext(b, end, count, total, front, p.cursor, c.value);
      if total.Some? {
        SplitsSome(b, end, total, front + [c.value], p.cursor + c.value.size, count - |front| - 1);
        NoLastTable(front, c.value, total.value[|front| + 1..]);
      }
    }
  }

  lemma SplitsSome(b: Bytes, end: nat, total: Option<seq<Command>>, front: seq<Command>, p: nat, left: nat)
    requires end <= |b| && total.Some? && Splits(b, end, total, front, p, left)
    ensures |front| <= |total.value| && total.value == front + total.value[|front|..]
  {}

  lemma {:induction false} NoLastTable(front: seq<Command>, c: Command, rest: seq<Command>)
    requires c.Symtab? && After(front).table.table != 0
    ensures Tableless(Some(front + [c] + rest))
  {
    AfterMeans(front);
    var all := front + [c] + rest;
    var l :| 0 <= l < |front| && front[l].Symtab? && front[l].table == After(front).table;
    assert all[l] == front[l] && all[|front|] == c;
  }

  /** Commands that no image can be accepted with: unreadable, not tiling their area, or without a last table. */
  predicate Hopeless(total: Option<seq<Command>>, end: nat) {
    total.None? || 32 + Sizes(total.value) != end || Tableless(total)
  }

  /** The command loop. */
  method ReadCommands(b: Bytes, commandBytes: Word, count: nat, ghost total: Option<seq<Command>>)
    returns (r: Result<Progress, string>, ghost all: seq<Command>)
    requires |b| <= MAX_IMAGE && 32 + commandBytes <= |b|
    requires Linked(b, 32 + commandBytes, count, total, [], 32)
    ensures r.Ok? ==> total == Some(all) && NoSecondTable(all) && r.value == After(all)
    ensures r.Ok? ==> r.value.cursor == 32 + commandBytes
    ensures r.Err? ==> Hopeless(total, 32 + commandBytes)
  {
    var p, k := Progress(32, {}, NO_TABLE), 0;
    all := [];
    ghost var end := 32 + commandBytes;
    while k < count
      invariant 0 <= k == |all| <= count && Reached(b, end, count, total, all, p)
    {
      var command := ReadCommand(b, commandBytes, p.cursor, p.table);
      if command.Err? {
        RefusedCommand(b, end, count, total, all, p);
        return Err(command.error), all;
      }
      Advance(b, end, count, total, all, p, command.value);
      p, k, all := Advanced(p, command.value), k + 1, all + [command.value];
    }
    ReachedLast(b, end, count, total, all, p);
    if p.cursor != 32 + commandBytes {
      return Err("unexpected native runtime dependency"), all;
    }
    return Ok(p), all;
  }

  lemma {:induction false} SplitsFirst(b: Bytes, end: nat, all: Option<seq<Command>>, count: nat)
    requires 32 <= end <= |b| && all == Decoded(b, end, 32, count)
    ensures Splits(b, end, all, [], 32, count)
  {
    assert all.Some? ==> [] + all.value == all.value;
  }

  lemma {:induction false} ReachedLast(b: Bytes, end: nat, count: nat, total: Option<seq<Command>>, all: seq<Command>, p: Progress)
    requires end <= |b| && |all| == count && Reached(b, end, count, total, all, p)
    ensures total == Some(all) && p.cursor == 32 + Sizes(all)
  {
    assert all + [] == all;
    AfterMeans(all);
  }

  // --- Symbols ----------------------------------------------------------------------------------

  method ReadSymbol(b: Bytes, t: SymbolTable, i: nat) returns (r: Result<Option<Bytes>, string>)
    requires |b| <= MAX_IMAGE && RangesFine(b, t) && i < t.symbols
    ensures r.Ok? <==> SymbolFine(b, t, i)
    ensures r.Ok? ==> r.value == if IsExternal(b, t, i) then SymbolName(b, t, i) else None
  {
    var offset: Size := t.table + i * 16;
    var kind := b[offset + 4];
    if kind & 0xe0 != 0 || kind & 1 == 0 {
      return Ok(None);
    }
    var index := U32(b, offset);
    if index >= t.stringSize {
      return Err("invalid symbol name offset");
    }
    var name := ReadString(b, t.strings + index, t.strings + t.stringSize);
    if name.Err? {
      return Err(name.error);
    }
    if kind & 0xe == 0 {
      return Err("undefined native symbol");
    }
    if kind & 0xe != 0xe || kind & 0x10 != 0 {
      return Err("unsupported external symbol kind");
    }
    return Ok(Some(name.value));
  }

  ghost predicate NamesOf(b: Bytes, t: SymbolTable, n: nat, names: set<Bytes>)
    requires RangesFine(b, t) && n <= t.symbols
  {
    forall name :: name in names <==> Defines(b, t, n, name)
  }

  lemma DefinesStep(b: Bytes, t: SymbolTable, n: nat, name: Bytes)
    requires RangesFine(b, t) && n < t.symbols
    ensures Defines(b, t, n + 1, name) <==>
              Defines(b, t, n, name) || (IsExternal(b, t, n) && SymbolName(b, t, n) == Some(name))
  {
    if Defines(b, t, n, name) {
      var i :| 0 <= i < n && IsExternal(b, t, i) && SymbolName(b, t, i) == Some(name);
      assert 0 <= i < n + 1;
    }
  }

  lemma NamesStep(b: Bytes, t: SymbolTable, n: nat, before: set<Bytes>, name: Option<Bytes>, after: set<Bytes>)
    requires RangesFine(b, t) && n < t.symbols && NamesOf(b, t, n, before)
    requires name == if IsExternal(b, t, n) then SymbolName(b, t, n) else None
    requires after == With(before, name)
    ensures NamesOf(b, t, n + 1, after)
  {
    forall other ensures other in after <==> Defines(b, t, n + 1, other) {
      DefinesStep(b, t, n, other);
    }
  }

  /** The symbol loop: the names of the external symbols, when all of them can be read. */
  method ReadSymbols(b: Bytes, t: SymbolTable) returns (r: Result<set<Bytes>, string>)
    requires |b| <= MAX_IMAGE && RangesFine(b, t)
    ensures r.Ok? <==> forall i :: 0 <= i < t.symbols ==> SymbolFine(b, t, i)
    ensures r.Ok? ==> NamesOf(b, t, t.symbols, r.value)
  {
    var actual, i := {}, 0;
    while i < t.symbols
      invariant 0 <= i <= t.symbols
      invariant forall j :: 0 <= j < i ==> SymbolFine(b, t, j)
      invariant NamesOf(b, t, i, actual)
    {
      var symbol := ReadSymbol(b, t, i);
      if symbol.Err? {
        return Err(symbol.error);
      }
      var known := actual;
      actual := With(actual, symbol.value);
      NamesStep(b, t, i, known, symbol.value, actual);
      i := i + 1;
    }
    return Ok(actual);
  }

  method InspectSymbols(b: Bytes, t: SymbolTable, exports: seq<Bytes>) returns (r: Result<(), string>)
    requires |b| <= MAX_IMAGE
    ensures r.Ok? <==> SymbolsFine(b, t, exports)
  {
    if !RangesFine(b, t) {
      return Err("invalid Mach-O symbol ranges");
    }
    var actual := ReadSymbols(b, t);
    if actual.Err? {
      return Err(actual.error);
    }
    if actual.value != Expected(exports) {
      OtherNames(b, t, actual.value, exports);
      return Err("binary exports differ from compiler AST signatures");
    }
    return Ok(());
  }

  /** The symbol table that the commands leave decides. */
  lemma {:induction false} TableDecides(b: Bytes, cs: seq<Command>, exports: seq<Bytes>)
    requires NoSecondTable(cs)
    ensures (exists last | 0 <= last < |cs| :: LastTable(cs, last) && SymbolsFine(b, cs[last].table, exports))
            <==> SymbolsFine(b, After(cs).table, exports)
  {
    AfterMeans(cs);
    if SymbolsFine(b, After(cs).table, exports) {
      var l :| 0 <= l < |cs| && cs[l].Symtab? && cs[l].table == After(cs).table;
      assert LastTable(cs, l);
    }
  }

  /** Once the commands are fine, the libraries and the table they leave decide. */
  lemma {:induction false} Judged(b: Bytes, cs: seq<Command>, p: Progress, exports: seq<Bytes>)
    requires HeaderFine(b) && AllCommands(b) == Some(cs) && NoSecondTable(cs)
    requires p == After(cs) && p.cursor == CommandsEnd(b)
    ensures Acceptable(b, exports) <==> p.libraries == {SYSTEM_LIBRARY} && SymbolsFine(b, p.table, exports)
  {
    AfterMeans(cs);
    TableDecides(b, cs, exports);
    if forall library :: Imported(cs, library) <==> library == SYSTEM_LIBRARY {
      assert p.libraries == {SYSTEM_LIBRARY};
    }
  }

  lemma NoHope(b: Bytes, exports: seq<Bytes>)
    requires HeaderFine(b) && Hopeless(AllCommands(b), CommandsEnd(b))
    ensures !Acceptable(b, exports)
  {}

  /** Accepts exactly the acceptable images. */
  method InspectDylib(b: Bytes, exports: seq<Bytes>) returns (r: Result<(), string>)
    requires |b| <= MAX_IMAGE
    ensures r.Ok? <==> Acceptable(b, exports)
  {
    if |b| < 32 || U32(b, 0) != MAGIC || U32(b, 4) != ARM64 || U32(b, 12) != DYLIB {
      return Err("expected ARM64 Mach-O dylib");
    }
    if U32(b, 16) > MAX_COMMANDS || U32(b, 20) > |b| - 32 {
      return Err("invalid Mach-O commands");
    }
    SplitsFirst(b, CommandsEnd(b), AllCommands(b), U32(b, 16));
    var commands, all := ReadCommands(b, U32(b, 20), U32(b, 16), AllCommands(b));
    if commands.Err? {
      NoHope(b, exports);
      return Err(commands.error);
    }
    var p := commands.value;
    Judged(b, all, p, exports);
    if p.libraries != {SYSTEM_LIBRARY} {
      return Err("unexpected native runtime dependency");
    }
    r := InspectSymbols(b, p.table, exports);
  }

  lemma OtherNames(b: Bytes, t: SymbolTable, names: set<Bytes>, exports: seq<Bytes>)
    requires RangesFine(b, t) && NamesOf(b, t, t.symbols, names) && names != Expected(exports)
    ensures !SymbolsFine(b, t, exports)
  {
    assert (names - Expected(exports)) + (Expected(exports) - names) != {};
    var name :| name in (names - Expected(exports)) + (Expected(exports) - names);
    assert name in names <==> Defines(b, t, t.symbols, name);
  }
}
