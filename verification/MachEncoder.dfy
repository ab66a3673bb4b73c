/**
 A reference encoder of the images the Mach-O reader is written for, and the proof that it accepts
 them: one import of the system library, any commands the reader ignores, one symbol table.

 The encoder is written forwards, from words and strings to parts; the proof finds each part again
 at the place the header and the table name.
 */
module MachEncoder {
  import opened Outcomes
  import opened MachImage

  /** The n-byte little-endian form of x. */
  function Digits(x: nat, n: nat): (r: Bytes)
    ensures |r| == n
    decreases n
  {
    if n == 0 then [] else [(x % 0x100) as bv8] + Digits(x / 0x100, n - 1)
  }

  function Word4(x: nat): (r: Bytes)
    ensures |r| == 4
  {
    Digits(x, 4)
  }

  function Words(ws: seq<nat>): (r: Bytes)
    ensures |r| == 4 * |ws|
  {
    if ws == [] then [] else Word4(ws[0]) + Words(ws[1..])
  }

  function Concat(parts: seq<Bytes>): Bytes {
    if parts == [] then [] else parts[0] + Concat(parts[1..])
  }

  /** A command the reader passes over: no symbol table, import, or forbidden kind. */
  predicate Ignored(command: Bytes) {
    && |command| >= 8 && U32(command, 4) == |command|
    && U32(command, 0) != SYMTAB && !IsImport(U32(command, 0)) && !IsForbidden(U32(command, 0))
  }

  /** The words before the library's name in its import command. */
  function ImportWords(): (ws: seq<nat>)
    ensures |ws| == 6 && (forall i :: 0 <= i < 6 ==> ws[i] < WORD) && ws[0] == 0xc && ws[1] == 56 && ws[2] == 24
  {
    [0xc, 56, 24, 2, 0, 0]
  }

  function ImportPart(): (r: Bytes)
    ensures |r| == 56
  {
    Words(ImportWords()) + SYSTEM_LIBRARY + [0, 0, 0, 0, 0, 0]
  }

  function Label(name: Bytes): Bytes {
    Mangled(name) + [0]
  }

  function Labels(names: seq<Bytes>): Bytes {
    if names == [] then [] else Label(names[0]) + Labels(names[1..])
  }

  /** A defined external symbol of section 1 whose name starts at `index` of the string table. */
  function Entry(index: nat): (r: Bytes)
    requires index < WORD
    ensures |r| == 16
  {
    Words([index]) + [0x0f, 1, 0, 0] + Words([0, 0])
  }

  function Entries(names: seq<Bytes>, n: nat): (r: Bytes)
    requires n <= |names| && |Labels(names)| < WORD
    ensures |r| == 16 * n
  {
    if n == 0 then [] else LabelsPrefix(names, n - 1); Entries(names, n - 1) + Entry(|Labels(names[..n - 1])|)
  }

  datatype Layout = Layout(table: nat, symbols: nat, strings: nat, stringSize: nat)

  function Place(others: seq<Bytes>, names: seq<Bytes>): Layout {
    var table := 32 + 56 + |Concat(others)| + 24;
    Layout(table, |names|, table + 16 * |names|, |Labels(names)|)
  }

  function SymtabPart(l: Layout): (r: Bytes)
    requires l.table < WORD && l.symbols < WORD && l.strings < WORD && l.stringSize < WORD
    ensures |r| == 24
  {
    Words([SYMTAB, 24, l.table, l.symbols, l.strings, l.stringSize])
  }

  predicate Encodable(others: seq<Bytes>, names: seq<Bytes>) {
    && |others| + 2 <= MAX_COMMANDS
    && Place(others, names).strings + |Labels(names)| <= MAX_IMAGE
    && (forall i :: 0 <= i < |others| ==> Ignored(others[i]))
    && (forall i :: 0 <= i < |names| ==> 0 !in names[i])
  }

  function Commands(others: seq<Bytes>, names: seq<Bytes>): seq<Bytes>
    requires Encodable(others, names)
  {
    [ImportPart()] + others + [SymtabPart(Place(others, names))]
  }

  function HeaderWords(count: nat, size: nat): (ws: seq<nat>)
    requires count < WORD && size < WORD
    ensures |ws| == 8 && (forall i :: 0 <= i < 8 ==> ws[i] < WORD)
    ensures ws[0] == MAGIC && ws[1] == ARM64 && ws[3] == DYLIB && ws[4] == count && ws[5] == size
  {
    [MAGIC, ARM64, 0, DYLIB, count, size, 0, 0]
  }

  function Header(count: nat, size: nat): (r: Bytes)
    requires count < WORD && size < WORD
    ensures |r| == 32
  {
    Words(HeaderWords(count, size))
  }

  function Image(others: seq<Bytes>, names: seq<Bytes>): (b: Bytes)
    requires Encodable(others, names)
  {
    Header(|others| + 2, 80 + |Concat(others)|)
    + Concat(Commands(others, names))
    + Entries(names, |names|)
    + Labels(names)
  }

  // --- Words --------------------------------------------------------------------------------------

  lemma ByteValue(x: nat)
    requires x < 256
    ensures Value(x as bv8) == x
  {}

  lemma {:induction false} DigitsRead(b: Bytes, pos: nat, x: nat, n: nat)
    requires x < Scale(n) && pos + n <= |b| && b[pos..pos + n] == Digits(x, n)
    ensures LittleEndian(b, pos, n) == x
    decreases n
  {
    if n > 0 {
      ByteValue(x % 0x100);
      assert b[pos..pos + n][0] == b[pos];
      assert b[pos + 1..pos + 1 + (n - 1)] == b[pos..pos + n][1..];
      DigitsRead(b, pos + 1, x / 0x100, n - 1);
    }
  }

  lemma PartAt(b: Bytes, p: nat, part: Bytes, j: nat)
    requires p + |part| <= |b| && b[p..p + |part|] == part && j < |part|
    ensures b[p + j] == part[j]
  {
    assert b[p..p + |part|][j] == b[p + j];
  }

  lemma PartOfPart(b: Bytes, p: nat, part: Bytes, at: nat, inner: Bytes)
    requires p + |part| <= |b| && b[p..p + |part|] == part
    requires at + |inner| <= |part| && part[at..at + |inner|] == inner
    ensures b[p + at..p + at + |inner|] == inner
  {
    forall k | 0 <= k < |inner| ensures b[p + at..p + at + |inner|][k] == inner[k] {
      assert part[at..at + |inner|][k] == part[at + k];
      PartAt(b, p, part, at + k);
    }
  }

  lemma {:induction false} SameNumber(b: Bytes, p: nat, part: Bytes, i: nat, n: nat)
    requires p + |part| <= |b| && b[p..p + |part|] == part && i + n <= |part|
    ensures LittleEndian(b, p + i, n) == LittleEndian(part, i, n)
    decreases n
  {
    if n > 0 {
      PartAt(b, p, part, i);
      SameNumber(b, p, part, i + 1, n - 1);
    }
  }

  /** A word inside a part of the image is the word of that part. */
  lemma InPart(b: Bytes, p: nat, part: Bytes, i: nat)
    requires p + |part| <= |b| && b[p..p + |part|] == part && i + 4 <= |part|
    ensures U32(b, p + i) == U32(part, i)
  {
    SameNumber(b, p, part, i, 4);
  }

  lemma TwoParts(b: Bytes, p: nat, first: Bytes, second: Bytes)
    requires p + |first + second| <= |b| && b[p..p + |first + second|] == first + second
    ensures b[p..p + |first|] == first && b[p + |first|..p + |first| + |second|] == second
  {
    PartOfPart(b, p, first + second, 0, first);
    PartOfPart(b, p, first + second, |first|, second);
  }

  lemma {:induction false} FirstWord(b: Bytes, p: nat, ws: seq<nat>)
    requires ws != [] && p + 4 * |ws| <= |b| && b[p..p + 4 * |ws|] == Words(ws)
    ensures b[p..p + 4] == Word4(ws[0])
    ensures b[p + 4..p + 4 + 4 * |ws[1..]|] == Words(ws[1..])
  {
    var first, rest := Word4(ws[0]), Words(ws[1..]);
    assert |first + rest| == 4 * |ws| && first + rest == Words(ws);
    TwoParts(b, p, first, rest);
  }

  lemma WordRead(b: Bytes, p: nat, x: nat)
    requires x < WORD && p + 4 <= |b| && b[p..p + 4] == Word4(x)
    ensures U32(b, p) == x
  {
    assert Scale(4) == WORD;
    DigitsRead(b, p, x, 4);
  }

  lemma {:induction false} WordsIn(b: Bytes, p: nat, ws: seq<nat>, i: nat)
    requires i < |ws| && ws[i] < WORD
    requires p + 4 * |ws| <= |b| && b[p..p + 4 * |ws|] == Words(ws)
    ensures U32(b, p + 4 * i) == ws[i]
    decreases ws
  {
    FirstWord(b, p, ws);
    if i == 0 {
      WordRead(b, p, ws[0]);
    } else {
      WordsIn(b, p + 4, ws[1..], i - 1);
    }
  }

  lemma StringRead(b: Bytes, p: nat, text: Bytes, end: nat)
    requires 0 !in text && p + |text| < end <= |b| && b[p..p + |text| + 1] == text + [0]
    ensures StringAt(b, p, end) == Some(text)
  {
    PartAt(b, p, text + [0], |text|);
    PartOfPart(b, p, text + [0], 0, text);
    forall q | p <= q < p + |text| ensures b[q] != 0 {
      PartAt(b, p, text, q - p);
      assert text[q - p] in text;
    }
  }

  // --- Commands ------------------------------------------------------------------------------------

  /** The bytes of one command. */
  predicate Encodes(part: Bytes, c: Command) {
    && c.size == |part|
    && (match c
        case Import(_, library) => ImportOf(part, library)
        case Symtab(_, table) => SymtabOf(part, table)
        case Other(_) => Ignored(part))
  }

  predicate EncodeAll(parts: seq<Bytes>, cs: seq<Command>) {
    |parts| == |cs| && forall i {:trigger Encodes(parts[i], cs[i])} :: 0 <= i < |parts| ==> Encodes(parts[i], cs[i])
  }

  /** A command that imports `library`. */
  predicate ImportOf(part: Bytes, library: Bytes) {
    && |part| > 24 + |library| && 0 !in library
    && U32(part, 0) == 0xc && U32(part, 4) == |part| && U32(part, 8) == 24
    && part[24..24 + |library + [0]|] == library + [0]
  }

  /** A command that describes the symbol table t. */
  predicate SymtabOf(part: Bytes, t: SymbolTable) {
    |part| == 24 && U32(part, 0) == SYMTAB && U32(part, 4) == 24 && SymtabAt(part, 0) == t
  }

  lemma LibraryRead(b: Bytes, p: nat, part: Bytes, library: Bytes)
    requires ImportOf(part, library) && p + |part| <= |b| && b[p..p + |part|] == part
    ensures StringAt(b, p + 24, p + |part|) == Some(library)
  {
    PartOfPart(b, p, part, 24, library + [0]);
    StringRead(b, p + 24, library, p + |part|);
  }

  lemma SymtabHere(b: Bytes, p: nat, part: Bytes)
    requires |part| == 24 && p + |part| <= |b| && b[p..p + |part|] == part
    ensures SymtabAt(b, p) == SymtabAt(part, 0)
  {
    InPart(b, p, part, 8);
    InPart(b, p, part, 12);
    InPart(b, p, part, 16);
    InPart(b, p, part, 20);
  }

  lemma DecodeHere(b: Bytes, end: nat, p: nat, part: Bytes, c: Command)
    requires Encodes(part, c) && p + |part| <= end <= |b| && b[p..p + |part|] == part
    ensures Decode(b, end, p) == Some(c)
  {
    InPart(b, p, part, 0);
    InPart(b, p, part, 4);
    match c
    case Import(_, library) =>
      InPart(b, p, part, 8);
      LibraryRead(b, p, part, library);
    case Symtab(_, _) =>
      SymtabHere(b, p, part);
    case Other(_) =>
  }

  lemma DecodeFirst(b: Bytes, end: nat, p: nat, part: Bytes, rest: Bytes, c: Command) returns (next: nat)
    requires Encodes(part, c) && p + |part + rest| <= end <= |b| && b[p..p + |part + rest|] == part + rest
    ensures Decode(b, end, p) == Some(c) && next == p + c.size
    ensures next + |rest| <= end && b[next..next + |rest|] == rest
  {
    next := p + |part|;
    TwoParts(b, p, part, rest);
    DecodeHere(b, end, p, part, c);
  }

  lemma ConcatFrom(parts: seq<Bytes>, i: nat)
    requires i < |parts|
    ensures Concat(parts[i..]) == parts[i] + Concat(parts[i + 1..])
  {
    assert parts[i..][1..] == parts[i + 1..];
  }

  /** The reader decodes encoded commands to what they encode. */
  lemma {:induction false} DecodedHere(b: Bytes, end: nat, p: nat, parts: seq<Bytes>, cs: seq<Command>, i: nat, left: nat)
    requires EncodeAll(parts, cs) && i + left == |parts|
    requires p + |Concat(parts[i..])| <= end <= |b| && b[p..p + |Concat(parts[i..])|] == Concat(parts[i..])
    ensures Decoded(b, end, p, left) == Some(cs[i..])
    decreases left
  {
    if left == 0 {
      assert cs[i..] == [];
    } else {
      assert Encodes(parts[i], cs[i]);
      ConcatFrom(parts, i);
      var next := DecodeFirst(b, end, p, parts[i], Concat(parts[i + 1..]), cs[i]);
      DecodedHere(b, end, next, parts, cs, i + 1, left - 1);
      DecodedCons(b, end, p, next, left, cs[i], cs[i + 1..]);
      FromHere(cs, i);
    }
  }

  lemma FromHere(cs: seq<Command>, i: nat)
    requires i < |cs|
    ensures cs[i..] == [cs[i]] + cs[i + 1..]
  {}

  lemma DecodedCons(b: Bytes, end: nat, p: nat, next: nat, left: nat, c: Command, rest: seq<Command>)
    requires p <= next <= end <= |b| && left > 0 && next == p + c.size
    requires Decode(b, end, p) == Some(c) && Decoded(b, end, next, left - 1) == Some(rest)
    ensures Decoded(b, end, p, left) == Some([c] + rest)
  {}

  lemma Regroup(a: Bytes, b: Bytes, c: Bytes)
    ensures a + (b + c) == a + b + c
  {}

  lemma {:induction false} ConcatAppend(a: seq<Bytes>, c: seq<Bytes>)
    ensures Concat(a + c) == Concat(a) + Concat(c)
  {
    if a == [] {
      assert a + c == c;
    } else {
      var rest := a[1..];
      ConcatAppend(rest, c);
      assert (a + c)[1..] == rest + c;
      Regroup(a[0], Concat(rest), Concat(c));
    }
  }

  lemma ConcatOne(part: Bytes)
    ensures Concat([part]) == part
  {}

  lemma {:induction false} SizesHere(parts: seq<Bytes>, cs: seq<Command>, i: nat)
    requires EncodeAll(parts, cs) && i <= |parts|
    ensures Sizes(cs[i..]) == |Concat(parts[i..])|
    decreases |parts| - i
  {
    if i < |parts| {
      assert Encodes(parts[i], cs[i]);
      SizesHere(parts, cs, i + 1);
      ConcatFrom(parts, i);
      SizesFront(cs[i..]);
      assert cs[i..][1..] == cs[i + 1..];
    }
  }

  lemma {:induction false} SizesFront(cs: seq<Command>)
    requires cs != []
    ensures Sizes(cs) == cs[0].size + Sizes(cs[1..])
  {
    var n := |cs| - 1;
    if n > 0 {
      SizesFront(cs[..n]);
      assert cs[..n][1..] == cs[1..][..n - 1];
    }
  }

  // --- Symbols -------------------------------------------------------------------------------------

  lemma {:induction false} LabelsSplit(names: seq<Bytes>, k: nat)
    requires k < |names|
    ensures Labels(names) == Labels(names[..k]) + Label(names[k]) + Labels(names[k + 1..])
  {
    if k > 0 {
      LabelsSplit(names[1..], k - 1);
      assert names[..k][1..] == names[1..][..k - 1];
    }
  }

  lemma {:induction false} LabelsPrefix(names: seq<Bytes>, k: nat)
    requires k < |names|
    ensures |Labels(names[..k])| + |names[k]| + 2 <= |Labels(names)|
  {
    LabelsSplit(names, k);
  }

  predicate EntryFor(part: Bytes, index: nat) {
    |part| == 16 && U32(part, 0) == index && part[4] == 0x0f
  }

  lemma EntryFits(index: nat)
    requires index < WORD
    ensures EntryFor(Entry(index), index)
  {
    assert Entry(index)[0..0 + 4] == Words([index]);
    WordsIn(Entry(index), 0, [index], 0);
  }

  lemma Appended(front: Bytes, back: Bytes, i: nat, n: nat)
    ensures i + n <= |front| ==> (front + back)[i..i + n] == front[i..i + n]
    ensures (front + back)[|front|..|front| + |back|] == back
  {}

  lemma {:induction false} EntriesSplit(names: seq<Bytes>, n: nat, k: nat)
    requires k < n <= |names| && |Labels(names)| < WORD
    ensures EntryFor(Entries(names, n)[16 * k..16 * k + 16], |Labels(names[..k])|)
  {
    LabelsPrefix(names, n - 1);
    var index := |Labels(names[..n - 1])|;
    Appended(Entries(names, n - 1), Entry(index), 16 * k, 16);
    if k < n - 1 {
      EntriesSplit(names, n - 1, k);
    } else {
      EntryFits(index);
    }
  }

  // --- Acceptance ----------------------------------------------------------------------------------

  lemma NoNul(text: string)
    requires forall i :: 0 <= i < |text| ==> 0 as char < text[i] < 128 as char
    ensures 0 !in Ascii(text)
  {
    forall i | 0 <= i < |text| ensures Ascii(text)[i] != 0 {
      ByteValue(text[i] as nat);
    }
  }

  lemma {:induction false} SixWords(b: Bytes, p: nat, ws: seq<nat>)
    requires |ws| >= 6 && forall k :: 0 <= k < |ws| ==> ws[k] < WORD
    requires p + 4 * |ws| <= |b| && b[p..p + 4 * |ws|] == Words(ws)
    ensures U32(b, p) == ws[0] && U32(b, p + 4) == ws[1] && U32(b, p + 8) == ws[2]
    ensures U32(b, p + 12) == ws[3] && U32(b, p + 16) == ws[4] && U32(b, p + 20) == ws[5]
  {
    WordsIn(b, p, ws, 0);
    WordsIn(b, p, ws, 1);
    WordsIn(b, p, ws, 2);
    WordsIn(b, p, ws, 3);
    WordsIn(b, p, ws, 4);
    WordsIn(b, p, ws, 5);
  }

  lemma {:induction false} LeadingWords(part: Bytes, ws: seq<nat>, rest: Bytes)
    requires |ws| >= 6 && (forall k :: 0 <= k < |ws| ==> ws[k] < WORD) && part == Words(ws) + rest
    ensures U32(part, 0) == ws[0] && U32(part, 4) == ws[1] && U32(part, 8) == ws[2]
  {
    SixWords(part, 0, ws);
  }

  lemma ImportNumbers()
    ensures U32(ImportPart(), 0) == 0xc && U32(ImportPart(), 4) == 56 && U32(ImportPart(), 8) == 24
  {
    var rest := SYSTEM_LIBRARY + [0, 0, 0, 0, 0, 0];
    assert ImportPart() == Words(ImportWords()) + rest;
    LeadingWords(ImportPart(), ImportWords(), rest);
  }

  lemma TextSlice(front: Bytes, text: Bytes, back: Bytes)
    ensures (front + text + [0] + back)[|front|..|front| + |text + [0]|] == text + [0]
  {}

  lemma LibraryName()
    ensures |SYSTEM_LIBRARY| == 26 && 0 !in SYSTEM_LIBRARY
  {
    NoNul("/usr/lib/libSystem.B.dylib");
  }

  lemma ImportText()
    ensures |SYSTEM_LIBRARY| == 26 && 0 !in SYSTEM_LIBRARY
    ensures ImportPart()[24..24 + |SYSTEM_LIBRARY + [0]|] == SYSTEM_LIBRARY + [0]
  {
    LibraryName();
    var back: Bytes := [0, 0, 0, 0, 0];
    assert SYSTEM_LIBRARY + [0, 0, 0, 0, 0, 0] == SYSTEM_LIBRARY + [0] + back;
    TextSlice(Words(ImportWords()), SYSTEM_LIBRARY, back);
    assert ImportPart() == Words(ImportWords()) + SYSTEM_LIBRARY + [0] + back;
  }

  lemma ImportFits()
    ensures ImportOf(ImportPart(), SYSTEM_LIBRARY)
  {
    ImportNumbers();
    ImportText();
  }

  predicate Narrow(l: Layout) {
    l.table < WORD && l.symbols < WORD && l.strings < WORD && l.stringSize < WORD
  }

  function Table(l: Layout): SymbolTable {
    SymbolTable(l.table, l.symbols, l.strings, l.stringSize)
  }

  lemma SymtabFits(l: Layout)
    requires Narrow(l)
    ensures SymtabOf(SymtabPart(l), Table(l))
  {
    SixWords(SymtabPart(l), 0, [SYMTAB, 24, l.table, l.symbols, l.strings, l.stringSize]);
  }

  lemma HeaderHere(b: Bytes, count: nat, size: nat)
    requires count <= MAX_COMMANDS && 32 + size <= |b| <= MAX_IMAGE && b[0..0 + 32] == Header(count, size)
    ensures U32(b, 0) == MAGIC && U32(b, 4) == ARM64 && U32(b, 12) == DYLIB && U32(b, 16) == count && U32(b, 20) == size
  {
    SixWords(b, 0, HeaderWords(count, size));
  }

  /** The symbol table of an image: entries and labels at the places the layout says. */
  predicate Tabled(b: Bytes, t: SymbolTable, names: seq<Bytes>) {
    && 0 < t.table && t.symbols == |names| && t.stringSize == |Labels(names)| < WORD
    && t.table + 16 * |names| <= |b| && t.strings + |Labels(names)| <= |b|
    && b[t.table..t.table + 16 * |names|] == Entries(names, |names|)
    && b[t.strings..t.strings + |Labels(names)|] == Labels(names)
    && (forall i :: 0 <= i < |names| ==> 0 !in names[i])
  }

  lemma EntryPart(b: Bytes, table: nat, entries: Bytes, i: nat, index: nat)
    requires table + |entries| <= |b| && b[table..table + |entries|] == entries
    requires 16 * i + 16 <= |entries| && EntryFor(entries[16 * i..16 * i + 16], index)
    ensures U32(b, table + 16 * i) == index && b[table + 16 * i + 4] == 0x0f
  {
    var part := entries[16 * i..16 * i + 16];
    PartOfPart(b, table, entries, 16 * i, part);
    InPart(b, table + 16 * i, part, 0);
    PartAt(b, table + 16 * i, part, 4);
  }

  lemma NamePart(b: Bytes, strings: nat, labels: Bytes, index: nat, name: Bytes)
    requires strings + |labels| <= |b| && b[strings..strings + |labels|] == labels && 0 !in name
    requires index + |Label(name)| <= |labels| && labels[index..index + |Label(name)|] == Label(name)
    ensures StringAt(b, strings + index, strings + |labels|) == Some(Mangled(name))
  {
    PartOfPart(b, strings, labels, index, Label(name));
    StringRead(b, strings + index, Mangled(name), strings + |labels|);
  }

  lemma PlainDefinition(kind: bv8)
    requires kind == 0x0f
    ensures kind & 0xe0 == 0 && kind & 1 != 0 && kind & 0xe == 0xe && kind & 0x10 == 0
  {}

  lemma PlainSymbol(b: Bytes, t: SymbolTable, i: nat, index: nat, name: Bytes)
    requires RangesFine(b, t) && i < t.symbols && index < t.stringSize
    requires U32(b, t.table + 16 * i) == index && b[t.table + 16 * i + 4] == 0x0f
    requires StringAt(b, t.strings + index, t.strings + t.stringSize) == Some(name)
    ensures IsExternal(b, t, i) && SymbolFine(b, t, i) && SymbolName(b, t, i) == Some(name)
  {
    PlainDefinition(b[t.table + 16 * i + 4]);
  }

  lemma SymbolHere(b: Bytes, t: SymbolTable, names: seq<Bytes>, i: nat)
    requires RangesFine(b, t) && Tabled(b, t, names) && i < |names|
    ensures IsExternal(b, t, i) && SymbolFine(b, t, i) && SymbolName(b, t, i) == Some(Mangled(names[i]))
  {
    var index := |Labels(names[..i])|;
    EntriesSplit(names, |names|, i);
    LabelsSplit(names, i);
    SymbolBy(b, t, Entries(names, |names|), Labels(names), i, index, names[i]);
  }

  lemma SymbolBy(b: Bytes, t: SymbolTable, entries: Bytes, labels: Bytes, i: nat, index: nat, name: Bytes)
    requires RangesFine(b, t) && i < t.symbols && t.stringSize == |labels| && 0 !in name
    requires t.table + |entries| <= |b| && b[t.table..t.table + |entries|] == entries
    requires b[t.strings..t.strings + |labels|] == labels
    requires 16 * i + 16 <= |entries| && EntryFor(entries[16 * i..16 * i + 16], index)
    requires index + |Label(name)| <= |labels| && labels[index..index + |Label(name)|] == Label(name)
    ensures IsExternal(b, t, i) && SymbolFine(b, t, i) && SymbolName(b, t, i) == Some(Mangled(name))
  {
    EntryPart(b, t.table, entries, i, index);
    NamePart(b, t.strings, labels, index, name);
    PlainSymbol(b, t, i, index, Mangled(name));
  }

  lemma SymbolsHere(b: Bytes, t: SymbolTable, names: seq<Bytes>)
    requires Tabled(b, t, names)
    ensures SymbolsFine(b, t, names)
  {
    forall i | 0 <= i < |names|
      ensures IsExternal(b, t, i) && SymbolFine(b, t, i) && SymbolName(b, t, i) == Some(Mangled(names[i]))
    {
      SymbolHere(b, t, names, i);
    }
    forall name: Bytes ensures Defines(b, t, t.symbols, name) <==> name in Expected(names) {
      if name in Expected(names) {
        var e :| e in names && Mangled(e) == name;
        var i :| 0 <= i < |names| && names[i] == e;
        assert IsExternal(b, t, i) && SymbolName(b, t, i) == Some(name);
      }
      if Defines(b, t, t.symbols, name) {
        var i :| 0 <= i < t.symbols && IsExternal(b, t, i) && SymbolName(b, t, i) == Some(name);
        assert names[i] in names;
      }
    }
  }

  function Passed(others: seq<Bytes>): seq<Command> {
    seq(|others|, i requires 0 <= i < |others| => Other(|others[i]|))
  }

  /** What the commands of an image mean. */
  function Meaning(others: seq<Bytes>, t: SymbolTable): seq<Command> {
    [Import(56, SYSTEM_LIBRARY)] + Passed(others) + [Symtab(24, t)]
  }

  lemma MeaningFine(others: seq<Bytes>, t: SymbolTable)
    ensures |Meaning(others, t)| == |others| + 2 && LastTable(Meaning(others, t), |others| + 1)
    ensures Meaning(others, t)[|others| + 1].table == t
    ensures forall library :: Imported(Meaning(others, t), library) <==> library == SYSTEM_LIBRARY
  {
    assert Meaning(others, t)[0] == Import(56, SYSTEM_LIBRARY);
  }

  lemma {:induction false} AreaSize(others: seq<Bytes>, names: seq<Bytes>)
    requires Encodable(others, names)
    ensures |Concat(Commands(others, names))| == 80 + |Concat(others)|
  {
    var last := SymtabPart(Place(others, names));
    ConcatAppend([ImportPart()] + others, [last]);
    ConcatAppend([ImportPart()], others);
    ConcatOne(ImportPart());
    ConcatOne(last);
  }

  lemma CommandsEncode(others: seq<Bytes>, names: seq<Bytes>, parts: seq<Bytes>)
    requires Encodable(others, names) && parts == Commands(others, names)
    ensures EncodeAll(parts, Meaning(others, Table(Place(others, names))))
  {
    ImportFits();
    SymtabFits(Place(others, names));
    EncodeMeaning(ImportPart(), others, SymtabPart(Place(others, names)), Table(Place(others, names)));
  }

  lemma EncodeMeaning(first: Bytes, others: seq<Bytes>, last: Bytes, t: SymbolTable)
    requires |first| == 56 && ImportOf(first, SYSTEM_LIBRARY) && SymtabOf(last, t)
    requires forall i :: 0 <= i < |others| ==> Ignored(others[i])
    ensures EncodeAll([first] + others + [last], Meaning(others, t))
  {
    var parts, cs := [first] + others + [last], Meaning(others, t);
    var n := |others| + 1;
    forall i | 0 <= i < |parts| ensures Encodes(parts[i], cs[i]) {
      if i == 0 {
        assert Encodes(first, Import(56, SYSTEM_LIBRARY));
      } else if i == n {
        assert Encodes(last, Symtab(24, t));
      } else {
        assert Encodes(others[i - 1], Other(|others[i - 1]|));
      }
    }
  }

  /** An image is a header, a command area, entries and labels, in this order. */
  predicate Pieces(b: Bytes, others: seq<Bytes>, names: seq<Bytes>, area: Bytes, entries: Bytes, labels: Bytes) {
    && Encodable(others, names)
    && b == Header(|others| + 2, 80 + |Concat(others)|) + area + entries + labels
    && area == Concat(Commands(others, names)) && |area| == 80 + |Concat(others)|
    && entries == Entries(names, |names|) && labels == Labels(names)
  }

  lemma Positions(b: Bytes, head: Bytes, area: Bytes, entries: Bytes, labels: Bytes)
    requires b == head + area + entries + labels && |head| == 32
    ensures b[0..0 + 32] == head && b[32..32 + |area|] == area
    ensures var p := 32 + |area|; b[p..p + |entries|] == entries
    ensures var p := 32 + |area| + |entries|; b[p..p + |labels|] == labels
  {}

  lemma HeaderPiece(b: Bytes, others: seq<Bytes>, names: seq<Bytes>, area: Bytes, entries: Bytes, labels: Bytes)
    requires Pieces(b, others, names, area, entries, labels)
    ensures HeaderFine(b) && U32(b, 16) == |others| + 2 && CommandsEnd(b) == 32 + |area|
  {
    Positions(b, Header(|others| + 2, 80 + |Concat(others)|), area, entries, labels);
    HeaderHere(b, |others| + 2, 80 + |Concat(others)|);
  }

  lemma AreaPiece(b: Bytes, others: seq<Bytes>, names: seq<Bytes>, area: Bytes, entries: Bytes, labels: Bytes)
    requires Pieces(b, others, names, area, entries, labels)
    ensures b[32..32 + |area|] == area
  {
    Positions(b, Header(|others| + 2, 80 + |Concat(others)|), area, entries, labels);
  }

  lemma TablePiece(b: Bytes, others: seq<Bytes>, names: seq<Bytes>, area: Bytes, entries: Bytes, labels: Bytes)
    requires Pieces(b, others, names, area, entries, labels)
    ensures Tabled(b, Table(Place(others, names)), names)
  {
    Positions(b, Header(|others| + 2, 80 + |Concat(others)|), area, entries, labels);
  }

  lemma Whole(parts: seq<Bytes>, cs: seq<Command>)
    ensures parts[0..] == parts && cs[0..] == cs
  {}

  /** Every image built this way is accepted, for exactly the names it was built from. */
  lemma ImageAccepted(others: seq<Bytes>, names: seq<Bytes>)
    requires Encodable(others, names)
    ensures |Image(others, names)| <= MAX_IMAGE && Acceptable(Image(others, names), names)
  {
    AreaSize(others, names);
    var area, entries, labels := Concat(Commands(others, names)), Entries(names, |names|), Labels(names);
    var b := Image(others, names);
    HeaderPiece(b, others, names, area, entries, labels);
    AreaPiece(b, others, names, area, entries, labels);
    TablePiece(b, others, names, area, entries, labels);
    var parts, t := Commands(others, names), Table(Place(others, names));
    CommandsEncode(others, names, parts);
    SymbolsHere(b, t, names);
    MeaningFine(others, t);
    Whole(parts, Meaning(others, t));
    DecodedHere(b, CommandsEnd(b), 32, parts, Meaning(others, t), 0, |others| + 2);
    SizesHere(parts, Meaning(others, t), 0);
  }
}
