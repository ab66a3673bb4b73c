/** What becomes of a table that is stored as one value: the writer makes a section of it. */
module TomlRecords {
  import opened Outcomes
  import opened ConfigValues
  import opened TomlText
  import opened TomlValues
  import opened TomlLayout
  import opened TomlTables
  import opened TomlNesting
  import opened TomlDocument
  import opened TomlRoundTrip
  import opened TomlLines

  /** The nested tables of one dotted key. */
  function Under(parts: seq<string>, v: ConfigValue): Fields
    requires parts != []
  {
    if |parts| == 1 then [(parts[0], v)] else [(parts[0], Record(Under(parts[1..], v)))]
  }

  lemma {:induction false} InsertUnder(parts: seq<string>, v: ConfigValue)
    requires parts != []
    ensures Insert([], parts, v) == Under(parts, v)
    decreases |parts|
  {
    if |parts| > 1 { InsertUnder(parts[1..], v); }
  }

  lemma {:induction false} UnderClean(parts: seq<string>, v: ConfigValue)
    requires parts != [] && v.Record? && CleanTable(v) && forall i :: 0 <= i < |parts| ==> CleanName(parts[i])
    ensures CleanTable(Record(Under(parts, v)))
    decreases |parts|
  {
    if |parts| > 1 { UnderClean(parts[1..], v); }
    CleanFields(Under(parts, v));
  }

  lemma {:induction false} UnderLeaf(parts: seq<string>, v: ConfigValue, at: seq<string>, x: ConfigValue)
    requires parts != [] && v.Record? && IsTable(v) && forall i :: 0 <= i < |parts| ==> CleanName(parts[i])
    ensures HasLeaf(Under(parts, v), at, x) <==>
      |at| > |parts| && at[..|parts|] == parts && HasLeaf(v.fields, at[|parts|..], x)
    decreases |parts|
  {
    var fields := Under(parts, v);
    if at != [] {
      assert HasLeaf(fields, at, x) <==> LeafAt(fields, 0, at, x);
      if |parts| == 1 {
        assert at[..1] == [at[0]] && parts == [parts[0]];
      } else {
        UnderIsTable(parts[1..], v);
        if |at| > 1 {
          UnderLeaf(parts[1..], v, at[1..], x);
          if |at| > |parts| {
            assert at[1..][..|parts| - 1] == at[1..|parts|] && at[..|parts|] == [at[0]] + at[1..|parts|];
            assert parts == [parts[0]] + parts[1..];
            assert at[1..][|parts| - 1..] == at[|parts|..];
          }
        }
      }
    }
  }

  lemma {:induction false} UnderIsTable(parts: seq<string>, v: ConfigValue)
    requires parts != [] && forall i :: 0 <= i < |parts| ==> CleanName(parts[i])
    ensures IsTable(Record(Under(parts, v)))
  {}

  /** What a table reads as, moved under a key. */
  ghost predicate Moved(key: string, inner: map<string, ConfigValue>, flat: map<string, ConfigValue>) {
    && (forall k :: k in inner ==> key + "." + k in flat && flat[key + "." + k] == inner[k])
    && (forall k :: k in flat ==> exists i :: i in inner && k == key + "." + i)
  }

  lemma {:induction false} UnderStores(key: string, v: ConfigValue, k: string, x: ConfigValue)
    requires v.Record? && CleanKey(key) && IsTable(v) && HasLeaf(v.fields, SplitDots(k), x)
    ensures HasLeaf(Under(SplitDots(key), v), SplitDots(key + "." + k), x)
  {
    var parts, rest := SplitDots(key), SplitDots(k);
    SplitConcat(key, k);
    UnderLeaf(parts, v, parts + rest, x);
    assert (parts + rest)[|parts|..] == rest && (parts + rest)[..|parts|] == parts;
  }

  lemma UnderStoresOnly(key: string, v: ConfigValue, at: seq<string>, x: ConfigValue) returns (rest: seq<string>)
    requires v.Record? && CleanKey(key) && IsTable(v) && HasLeaf(Under(SplitDots(key), v), at, x)
    ensures HasLeaf(v.fields, rest, x) && JoinDots(at) == key + "." + JoinDots(rest)
  {
    var parts := SplitDots(key);
    UnderLeaf(parts, v, at, x);
    rest := at[|parts|..];
    assert at == parts + rest;
    JoinSplit(key);
    JoinConcat(parts, rest);
  }

  lemma {:induction false} UnderStoresAll(key: string, v: ConfigValue, inner: map<string, ConfigValue>, flat: map<string, ConfigValue>)
    requires v.Record? && CleanKey(key) && IsTable(v) && StoresAll(v.fields, inner) && Moved(key, inner, flat)
    ensures StoresAll(Under(SplitDots(key), v), flat)
  {
    forall k | k in flat ensures HasLeaf(Under(SplitDots(key), v), SplitDots(k), flat[k]) {
      var i :| i in inner && k == key + "." + i;
      UnderStores(key, v, i, inner[i]);
    }
  }

  lemma {:induction false} UnderStoresNoMore(key: string, v: ConfigValue, inner: map<string, ConfigValue>, flat: map<string, ConfigValue>)
    requires v.Record? && CleanKey(key) && IsTable(v) && StoresOnly(v.fields, inner) && Moved(key, inner, flat)
    ensures StoresOnly(Under(SplitDots(key), v), flat)
  {
    forall at, x | HasLeaf(Under(SplitDots(key), v), at, x) ensures JoinDots(at) in flat && flat[JoinDots(at)] == x {
      var rest := UnderStoresOnly(key, v, at, x);
      assert JoinDots(rest) in inner;
    }
  }

  /**
   A stored table does not come back as one value: it is written as sections, and read as settings
   of their own under its key.
   */
  lemma {:induction false} RecordIsFlattened(key: string, v: ConfigValue, inner: map<string, ConfigValue>, flat: map<string, ConfigValue>)
    requires v.Record? && CleanKey(key) && Nests(v.fields, inner) && Moved(key, inner, flat)
    ensures Printable(v) && ParseText(EmitText(v, [])) == Ok(MisreadAll(inner))
    ensures Nest(map[key := v]) == Under(SplitDots(key), v) && Printable(Record(Nest(map[key := v])))
    ensures ParseText(EmitText(Record(Nest(map[key := v])), [])) == Ok(MisreadAll(flat))
    ensures key !in flat
  {
    OneKey(key, v);
    DocumentRead(v.fields, inner);
    UnderStoresAll(key, v, inner, flat);
    UnderStoresNoMore(key, v, inner, flat);
    UnderClean(SplitDots(key), v);
    DocumentRead(Under(SplitDots(key), v), flat);
    forall i | i in inner ensures key != key + "." + i {
      assert |key + "." + i| > |key|;
    }
  }

  lemma {:induction false} OneKey(key: string, v: ConfigValue)
    ensures Nest(map[key := v]) == Under(SplitDots(key), v)
  {
    var flat, todo := map[key := v], {key};
    assert flat.Keys == todo;
    assert Least(todo) == key;
    InsertUnder(SplitDots(key), v);
    var none: set<string> := {};
    assert todo - {key} == none;
    assert NestRest([], flat, todo) == NestRest(Insert([], SplitDots(key), v), flat, none);
  }

  // --- Marked tables ---------------------------------------------------------------------------

  /** The table with the marker that keeps it one value. */
  function Marked(fields: Fields): ConfigValue {
    Record([("\U{01}__inline__", Bool(true))] + fields)
  }

  lemma MarkedBridged(fields: Fields)
    requires Readable(Record(fields))
    ensures Bridged(Marked(fields)) && Bridged(Record(fields)) && !IsTable(Marked(fields))
  {
    WrittenIsLoose(Record(fields));
    var v := Marked(fields);
    forall i | 0 <= i < |v.fields| ensures Bridged(v.fields[i].1) {
      if i > 0 { assert v.fields[i] == fields[i - 1]; }
    }
    assert v.fields[0].0 == INLINE_MARKER;
  }

  lemma {:induction false} MarkedText(fields: Fields, i: nat, first: bool)
    requires Readable(Record(fields)) && Bridged(Marked(fields)) && Bridged(Record(fields)) && i <= |fields|
    ensures FieldsText(Marked(fields), i + 1, first) == FieldsText(Record(fields), i, first)
    decreases |fields| - i
  {
    if i < |fields| {
      assert Marked(fields).fields[i + 1] == fields[i];
      MarkedText(fields, i + 1, false);
    }
  }

  lemma {:induction false} OneScalar(key: string, v: ConfigValue)
    requires Bridged(v) && !IsTable(v) && key != ""
    ensures Printable(Record([(key, v)])) && EmitText(Record([(key, v)]), []) == key + " = " + TextOf(v)
  {
    var fields, none: Fields := [(key, v)], [];
    assert fields[1..] == none && Sorted(none) == none;
    assert Sorted(fields) == fields;
    assert Scalars(none) == none && Subtables(none) == none;
    assert Scalars(fields) == fields && Subtables(fields) == none;
    assert KeyLine(fields[0]) == key + " = " + TextOf(v);
    assert ScalarEntries(none, KeyLine(fields[0])) == KeyLine(fields[0]);
    assert ScalarEntries(fields, "") == KeyLine(fields[0]);
  }

  /** A marked table is written on one line and read back as one value, without the marker. */
  lemma MarkedIsKept(key: string, fields: Fields)
    requires KeyText(key) && Readable(Record(fields))
    ensures Printable(Record([(key, Marked(fields))])) && Bridged(Record(fields))
    ensures EmitText(Record([(key, Marked(fields))]), []) == key + " = " + TextOf(Record(fields))
    ensures ParseText(key + " = " + TextOf(Record(fields))) == Ok(map[key := StripMarker(ReadBack(Record(fields)))])
  {
    MarkedBridged(fields);
    MarkedText(fields, 0, true);
    assert TextOf(Marked(fields)) == TextOf(Record(fields));
    OneScalar(key, Marked(fields));
    OneSetting(key, Record(fields));
  }

  lemma {:induction false} OneSetting(key: string, v: ConfigValue)
    requires KeyText(key) && Readable(v)
    ensures Bridged(v) && ParseText(key + " = " + TextOf(v)) == Ok(map[key := StripMarker(ReadBack(v))])
  {
    WrittenIsLoose(v);
    var start := Reader("", map[]);
    ParseRun(key + " = " + TextOf(v));
    SettingLine(key, " ", " ", v, WRITTEN, "", start);
    Spelled(key, TextOf(v));
  }

  lemma Spelled(key: string, value: string)
    ensures key + " = " + value == key + " " + "=" + (" " + (value + ""))
  {}
}
