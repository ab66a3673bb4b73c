/**
Dotted keys and nested tables: what one insertion along a dotted key stores.
 */
module TomlTables {
  import opened Outcomes
  import opened ConfigValues
  import opened TomlText
  import opened TomlValues

  type Fields = seq<(string, ConfigValue)>

  // --- Dotted keys ------------------------------------------------------------------

  function SplitDots(key: string): (parts: seq<string>)
    ensures parts != []
  {
    if key == "" then [""]
    else if key[0] == '.' then [""] + SplitDots(key[1..])
    else
      var rest := SplitDots(key[1..]);
      [[key[0]] + rest[0]] + rest[1..]
  }

  function JoinDots(parts: seq<string>): string {
    if parts == [] then ""
    else if |parts| == 1 then parts[0]
    else parts[0] + "." + JoinDots(parts[1..])
  }

  lemma {:induction false} JoinSplit(key: string)
    ensures JoinDots(SplitDots(key)) == key
  {
    if key != "" {
      JoinSplit(key[1..]);
      var rest := SplitDots(key[1..]);
      assert key == [key[0]] + key[1..];
      if key[0] == '.' {
        assert ([""] + rest)[1..] == rest;
      } else {
        var all := [[key[0]] + rest[0]] + rest[1..];
        assert all[1..] == rest[1..];
        assert |rest| > 1 ==> JoinDots(rest) == rest[0] + "." + JoinDots(rest[1..]);
      }
    }
  }

  lemma {:induction false} JoinConcat(a: seq<string>, b: seq<string>)
    requires a != [] && b != []
    ensures JoinDots(a + b) == JoinDots(a) + "." + JoinDots(b)
  {
    if |a| == 1 {
      assert (a + b)[1..] == b;
    } else {
      assert (a + b)[1..] == a[1..] + b;
      JoinConcat(a[1..], b);
      assert a[0] + "." + (JoinDots(a[1..]) + "." + JoinDots(b)) == a[0] + "." + JoinDots(a[1..]) + "." + JoinDots(b);
    }
  }

  method SplitDotted(key: string) returns (parts: seq<string>)
    ensures parts == SplitDots(key)
  {
    parts := [];
    var cur := "";
    OntoNothing(SplitDots(key));
    assert parts + Onto(cur, SplitDots(key)) == Onto(cur, SplitDots(key));
    for i := 0 to |key|
      invariant SplitDots(key) == parts + Onto(cur, SplitDots(key[i..]))
    {
      assert key[i..][1..] == key[i + 1..];
      var rest := SplitDots(key[i + 1..]);
      if key[i] == '.' {
        OntoNothing(rest);
        OntoDot(parts, cur, rest);
        parts, cur := parts + [cur], "";
      } else {
        OntoChar(cur, key[i], rest);
        cur := cur + [key[i]];
      }
    }
    assert cur + "" == cur;
    parts := parts + [cur];
  }

  lemma OntoNothing(parts: seq<string>)
    requires parts != []
    ensures Onto("", parts) == parts
  {
    assert "" + parts[0] == parts[0];
  }

  lemma OntoDot(done: seq<string>, cur: string, rest: seq<string>)
    requires rest != []
    ensures done + Onto(cur, [""] + rest) == done + [cur] + rest
  {
    assert cur + "" == cur;
    assert ([""] + rest)[1..] == rest;
  }

  lemma OntoChar(cur: string, c: char, rest: seq<string>)
    requires rest != []
    ensures Onto(cur, [[c] + rest[0]] + rest[1..]) == Onto(cur + [c], rest)
  {
    assert cur + ([c] + rest[0]) == cur + [c] + rest[0];
  }

  /** Puts a text in front of the first part. */
  function Onto(cur: string, parts: seq<string>): seq<string>
    requires parts != []
  {
    [cur + parts[0]] + parts[1..]
  }

  // --- Nested tables ------------------------------------------------------------------

  predicate HasField(fields: Fields, key: string) {
    exists i | 0 <= i < |fields| :: fields[i].0 == key
  }

  function FirstField(fields: Fields, key: string): (i: nat)
    requires HasField(fields, key)
    ensures i < |fields| && fields[i].0 == key && forall j :: 0 <= j < i ==> fields[j].0 != key
  {
    if fields[0].0 == key then 0
    else
      assert HasField(fields[1..], key) by {
        var i :| 0 <= i < |fields| && fields[i].0 == key;
        assert fields[1..][i - 1].0 == key;
      }
      1 + FirstField(fields[1..], key)
  }

  /** A record without the inline marker is a table; with it, a stored value. */
  predicate IsTable(v: ConfigValue) {
    v.Record? && !HasField(v.fields, INLINE_MARKER)
  }

  /** Follows the parts through the first field of each name, creating tables, and appends the value. */
  function Insert(fields: Fields, parts: seq<string>, value: ConfigValue): Fields
    requires parts != []
    decreases |parts|
  {
    if |parts| == 1 then fields + [(parts[0], value)]
    else if !HasField(fields, parts[0]) then fields + [(parts[0], Record(Insert([], parts[1..], value)))]
    else
      var i := FirstField(fields, parts[0]);
      if fields[i].1.Record? then fields[i := (parts[0], Record(Insert(fields[i].1.fields, parts[1..], value)))]
      else fields
  }

  /** `value` is stored under the nested names `parts`, tables all the way down to it. */
  ghost predicate HasLeaf(fields: Fields, parts: seq<string>, value: ConfigValue)
    decreases |parts|
  {
    parts != [] && exists i :: 0 <= i < |fields| && LeafAt(fields, i, parts, value)
  }

  ghost predicate LeafAt(fields: Fields, i: nat, parts: seq<string>, value: ConfigValue)
    requires parts != [] && i < |fields|
    decreases |parts|, 0
  {
    && fields[i].0 == parts[0]
    && (if |parts| == 1 then !IsTable(fields[i].1) && fields[i].1 == value
        else IsTable(fields[i].1) && HasLeaf(fields[i].1.fields, parts[1..], value))
  }

  predicate CleanChar(c: char) {
    c !in ['.', '=', '[', ']', '#', ' ', '\t', '\n']
  }

  /** A name the line format keeps apart from everything around it. */
  predicate CleanName(name: string) {
    name != "" && name != INLINE_MARKER && forall i | 0 <= i < |name| :: CleanChar(name[i])
  }

  predicate CleanTable(v: ConfigValue)
    requires v.Record?
    decreases v
  {
    && IsTable(v)
    && forall i | 0 <= i < |v.fields| ::
         CleanName(v.fields[i].0) && (if v.fields[i].1.Record? then CleanTable(v.fields[i].1) else Tame(v.fields[i].1))
  }

  lemma CleanFields(fields: Fields)
    requires forall i :: 0 <= i < |fields| ==>
      CleanName(fields[i].0) && (if fields[i].1.Record? then CleanTable(fields[i].1) else Tame(fields[i].1))
    ensures CleanTable(Record(fields))
  {}

  lemma {:induction false} InsertClean(fields: Fields, parts: seq<string>, value: ConfigValue)
    requires CleanTable(Record(fields)) && parts != [] && Tame(value)
    requires forall i :: 0 <= i < |parts| ==> CleanName(parts[i])
    ensures CleanTable(Record(Insert(fields, parts, value)))
    decreases |parts|
  {
    if |parts| > 1 {
      if !HasField(fields, parts[0]) {
        CleanFields([]);
        InsertClean([], parts[1..], value);
      } else {
        var i := FirstField(fields, parts[0]);
        if fields[i].1.Record? { InsertClean(fields[i].1.fields, parts[1..], value); }
      }
    }
    CleanFields(Insert(fields, parts, value));
  }

  /** Inserting loses nothing that was stored. */
  lemma {:induction false} InsertKeeps(fields: Fields, parts: seq<string>, value: ConfigValue, at: seq<string>, x: ConfigValue)
    requires CleanTable(Record(fields)) && parts != [] && Tame(value)
    requires forall i :: 0 <= i < |parts| ==> CleanName(parts[i])
    requires HasLeaf(fields, at, x)
    ensures HasLeaf(Insert(fields, parts, value), at, x)
    decreases |parts|
  {
    var j :| 0 <= j < |fields| && LeafAt(fields, j, at, x);
    var after := Insert(fields, parts, value);
    if |parts| > 1 && HasField(fields, parts[0]) {
      var i := FirstField(fields, parts[0]);
      if fields[i].1.Record? {
        InsertClean(fields[i].1.fields, parts[1..], value);
        if i == j {
          InsertKeeps(fields[i].1.fields, parts[1..], value, at[1..], x);
        }
      }
    }
    assert LeafAt(after, j, at, x);
  }

  /** Inserting stores nothing but the value under its own name. */
  lemma {:induction false} InsertOnly(fields: Fields, parts: seq<string>, value: ConfigValue, at: seq<string>, x: ConfigValue)
    requires CleanTable(Record(fields)) && parts != [] && Tame(value)
    requires forall i :: 0 <= i < |parts| ==> CleanName(parts[i])
    requires HasLeaf(Insert(fields, parts, value), at, x)
    ensures HasLeaf(fields, at, x) || (at == parts && x == value)
    decreases |parts|
  {
    var after := Insert(fields, parts, value);
    var j :| 0 <= j < |after| && LeafAt(after, j, at, x);
    if |parts| == 1 {
      if j < |fields| { assert LeafAt(fields, j, at, x); } else { assert |at| == 1; }
    } else if !HasField(fields, parts[0]) {
      if j < |fields| {
        assert LeafAt(fields, j, at, x);
      } else {
        CleanFields([]);
        InsertClean([], parts[1..], value);
        InsertOnly([], parts[1..], value, at[1..], x);
        assert at == [at[0]] + at[1..] && parts == [parts[0]] + parts[1..];
      }
    } else {
      var i := FirstField(fields, parts[0]);
      if i == j && fields[i].1.Record? {
        InsertClean(fields[i].1.fields, parts[1..], value);
        InsertOnly(fields[i].1.fields, parts[1..], value, at[1..], x);
        if HasLeaf(fields[i].1.fields, at[1..], x) { assert LeafAt(fields, i, at, x); }
        assert at == [at[0]] + at[1..] && parts == [parts[0]] + parts[1..];
      } else {
        assert LeafAt(fields, j, at, x);
      }
    }
  }

  /** The value arrives, unless a stored value already sits on the way to it. */
  lemma {:induction false} InsertArrives(fields: Fields, parts: seq<string>, value: ConfigValue) returns (blocked: nat)
    requires CleanTable(Record(fields)) && parts != [] && Tame(value)
    requires forall i :: 0 <= i < |parts| ==> CleanName(parts[i])
    ensures HasLeaf(Insert(fields, parts, value), parts, value)
            || (0 < blocked < |parts| && exists x :: HasLeaf(fields, parts[..blocked], x))
    decreases |parts|
  {
    blocked := 0;
    var after := Insert(fields, parts, value);
    if |parts| == 1 {
      assert LeafAt(after, |fields|, parts, value);
    } else if !HasField(fields, parts[0]) {
      CleanFields([]);
      var inner := InsertArrives([], parts[1..], value);
      InsertClean([], parts[1..], value);
      assert LeafAt(after, |fields|, parts, value);
    } else {
      var i := FirstField(fields, parts[0]);
      if !fields[i].1.Record? {
        blocked := 1;
        assert LeafAt(fields, i, parts[..1], fields[i].1);
        assert HasLeaf(fields, parts[..1], fields[i].1);
      } else {
        InsertClean(fields[i].1.fields, parts[1..], value);
        var inner := InsertArrives(fields[i].1.fields, parts[1..], value);
        if HasLeaf(Insert(fields[i].1.fields, parts[1..], value), parts[1..], value) {
          assert LeafAt(after, i, parts, value);
        } else {
          blocked := inner + 1;
          var x :| HasLeaf(fields[i].1.fields, parts[1..][..inner], x);
          assert parts[..blocked][1..] == parts[1..][..inner];
          assert LeafAt(fields, i, parts[..blocked], x);
          assert HasLeaf(fields, parts[..blocked], x);
        }
      }
    }
  }

  // --- The flat map ---------------------------------------------------------------------

  predicate CleanKey(key: string) {
    forall i | 0 <= i < |SplitDots(key)| :: CleanName(SplitDots(key)[i])
  }

  /** No key of the map is a dotted prefix of `key`. */
  ghost predicate NotBelow(flat: map<string, ConfigValue>, key: string) {
    forall a :: a in flat ==> !(a + "." <= key)
  }

  ghost predicate StoresAll(fields: Fields, flat: map<string, ConfigValue>) {
    forall k :: k in flat ==> HasLeaf(fields, SplitDots(k), flat[k])
  }

  ghost predicate StoresOnly(fields: Fields, flat: map<string, ConfigValue>) {
    forall at, x :: HasLeaf(fields, at, x) ==> JoinDots(at) in flat && flat[JoinDots(at)] == x
  }

  /** The nested tables store exactly the entries of the map. */
  ghost predicate Nests(fields: Fields, flat: map<string, ConfigValue>) {
    CleanTable(Record(fields)) && StoresAll(fields, flat) && StoresOnly(fields, flat)
  }

  lemma {:induction false} InsertReaches(fields: Fields, flat: map<string, ConfigValue>, key: string, value: ConfigValue)
    requires Nests(fields, flat) && CleanKey(key) && Tame(value)
    requires NotBelow(flat, key)
    ensures HasLeaf(Insert(fields, SplitDots(key), value), SplitDots(key), value)
  {
    var parts := SplitDots(key);
    var blocked := InsertArrives(fields, parts, value);
    if 0 < blocked < |parts| {
      JoinSplit(key);
      JoinConcat(parts[..blocked], parts[blocked..]);
      assert parts == parts[..blocked] + parts[blocked..];
      assert JoinDots(parts[..blocked]) + "." <= key;
    }
  }

  lemma {:induction false} InsertNests(fields: Fields, flat: map<string, ConfigValue>, key: string, value: ConfigValue)
    requires Nests(fields, flat) && key !in flat && CleanKey(key) && Tame(value)
    requires NotBelow(flat, key)
    ensures Nests(Insert(fields, SplitDots(key), value), flat[key := value])
  {
    var parts, larger := SplitDots(key), flat[key := value];
    var after := Insert(fields, parts, value);
    JoinSplit(key);
    InsertClean(fields, parts, value);
    InsertReaches(fields, flat, key, value);
    forall k | k in larger ensures HasLeaf(after, SplitDots(k), larger[k]) {
      if k != key { InsertKeeps(fields, parts, value, SplitDots(k), flat[k]); }
    }
    forall at, x | HasLeaf(after, at, x) ensures JoinDots(at) in larger && larger[JoinDots(at)] == x {
      InsertOnly(fields, parts, value, at, x);
    }
  }
}
