/** The writer's nesting of a whole flat map, taken in key order. */
module TomlNesting {
  import opened ConfigValues
  import opened TomlValues
  import opened TomlTables

  // --- The least key -------------------------------------------------------------------

  ghost predicate IsLeast(keys: set<string>, key: string) {
    key in keys && forall k :: k in keys && k != key ==> Before(key, k)
  }

  lemma {:induction false} LeastExists(keys: set<string>)
    requires keys != {}
    ensures exists key :: IsLeast(keys, key)
    decreases keys
  {
    var first :| first in keys;
    var rest := keys - {first};
    if rest == {} {
      assert keys == {first};
      assert IsLeast(keys, first);
    } else {
      LeastExists(rest);
      var least :| IsLeast(rest, least);
      BeforeTotal(first, least);
      if Before(first, least) {
        forall k | k in keys && k != first ensures Before(first, k) {
          if k != least { BeforeTransitive(first, least, k); }
        }
        assert IsLeast(keys, first);
      } else {
        assert IsLeast(keys, least);
      }
    }
  }

  lemma LeastUnique(keys: set<string>, a: string, b: string)
    requires IsLeast(keys, a) && IsLeast(keys, b)
    ensures a == b
  {
    BeforeTotal(a, b);
  }

  ghost function Least(keys: set<string>): (key: string)
    requires keys != {}
    ensures IsLeast(keys, key)
  {
    LeastExists(keys);
    var key :| IsLeast(keys, key);
    key
  }

  lemma {:induction false} PrefixIsBefore(a: string, b: string)
    requires a + "." <= b
    ensures Before(a, b)
  {
    if a != "" {
      assert (a + ".")[1..] == a[1..] + "." && (a + ".")[0] == a[0];
      PrefixIsBefore(a[1..], b[1..]);
    }
  }

  // --- Nesting ----------------------------------------------------------------------------

  /** Inserts the remaining keys of the map, the least one first. */
  ghost function NestRest(root: Fields, flat: map<string, ConfigValue>, todo: set<string>): Fields
    requires todo <= flat.Keys
    decreases todo
  {
    if todo == {} then root
    else
      var key := Least(todo);
      NestRest(Insert(root, SplitDots(key), flat[key]), flat, todo - {key})
  }

  ghost function Nest(flat: map<string, ConfigValue>): Fields {
    NestRest([], flat, flat.Keys)
  }

  /** The loop over the map: splits every key and nests its value. */
  method SplitNested(flat: map<string, ConfigValue>) returns (root: Fields)
    ensures root == Nest(flat)
  {
    root := [];
    var todo := flat.Keys;
    while todo != {}
      invariant todo <= flat.Keys && NestRest(root, flat, todo) == Nest(flat)
      decreases todo
    {
      LeastExists(todo);
      var key :| key in todo && forall k | k in todo :: k == key || Before(key, k);
      LeastUnique(todo, key, Least(todo));
      var parts := SplitDotted(key);
      root := Insert(root, parts, flat[key]);
      todo := todo - {key};
    }
  }

  // --- Values in the way ----------------------------------------------------------------

  /** Following the parts ends at a value, below which nothing can be stored. */
  ghost predicate Walled(fields: Fields, parts: seq<string>)
    requires parts != []
    decreases |parts|
  {
    HasField(fields, parts[0]) &&
    var v := fields[FirstField(fields, parts[0])].1;
    if |parts| == 1 then !v.Record? else v.Record? && Walled(v.fields, parts[1..])
  }

  lemma {:induction false} WallStops(fields: Fields, parts: seq<string>, more: seq<string>, value: ConfigValue)
    requires parts != [] && more != [] && Walled(fields, parts)
    ensures Insert(fields, parts + more, value) == fields
    decreases |parts|
  {
    var i := FirstField(fields, parts[0]);
    if |parts| > 1 {
      assert (parts + more)[1..] == parts[1..] + more;
      WallStops(fields[i].1.fields, parts[1..], more, value);
    }
  }

  lemma {:induction false} FirstFieldIs(fields: Fields, key: string, i: nat)
    requires i < |fields| && fields[i].0 == key && forall j :: 0 <= j < i ==> fields[j].0 != key
    ensures HasField(fields, key) && FirstField(fields, key) == i
  {}

  lemma {:induction false} WallStays(fields: Fields, parts: seq<string>, value: ConfigValue, wall: seq<string>)
    requires parts != [] && wall != [] && Walled(fields, wall)
    ensures Walled(Insert(fields, parts, value), wall)
    decreases |parts|
  {
    var i := FirstField(fields, wall[0]);
    FirstFieldIs(Insert(fields, parts, value), wall[0], i);
    if |parts| > 1 && |wall| > 1 && parts[0] == wall[0] {
      WallStays(fields[i].1.fields, parts[1..], value, wall[1..]);
    }
  }

  /** Every table below holds something. */
  ghost predicate Populated(v: ConfigValue)
    requires v.Record?
    decreases v
  {
    forall i :: 0 <= i < |v.fields| && v.fields[i].1.Record? ==> v.fields[i].1.fields != [] && Populated(v.fields[i].1)
  }

  lemma PopulatedFields(fields: Fields)
    requires forall i :: 0 <= i < |fields| && fields[i].1.Record? ==> fields[i].1.fields != [] && Populated(fields[i].1)
    ensures Populated(Record(fields))
  {}

  lemma {:induction false} InsertPopulated(fields: Fields, parts: seq<string>, value: ConfigValue)
    requires Populated(Record(fields)) && parts != [] && Tame(value)
    ensures Insert(fields, parts, value) != [] && Populated(Record(Insert(fields, parts, value)))
    decreases |parts|
  {
    if |parts| > 1 {
      if !HasField(fields, parts[0]) {
        PopulatedFields([]);
        InsertPopulated([], parts[1..], value);
      } else {
        var i := FirstField(fields, parts[0]);
        if fields[i].1.Record? { InsertPopulated(fields[i].1.fields, parts[1..], value); }
      }
    }
    PopulatedFields(Insert(fields, parts, value));
  }

  lemma {:induction false} LeafBelow(v: ConfigValue) returns (at: seq<string>, x: ConfigValue)
    requires v.Record? && v.fields != [] && Populated(v) && CleanTable(v)
    ensures HasLeaf(v.fields, at, x)
    decreases v
  {
    at, x := [v.fields[0].0], v.fields[0].1;
    if x.Record? {
      var below, y := LeafBelow(v.fields[0].1);
      assert (at + below)[1..] == below;
      at, x := at + below, y;
    }
    assert LeafAt(v.fields, 0, at, x);
  }

  lemma {:induction false} LeafUnder(fields: Fields, i: nat, at: seq<string>, x: ConfigValue)
    requires i < |fields| && IsTable(fields[i].1) && HasLeaf(fields[i].1.fields, at, x)
    ensures HasLeaf(fields, [fields[i].0] + at, x)
  {
    var longer := [fields[i].0] + at;
    assert longer[1..] == at;
    assert LeafAt(fields, i, longer, x);
  }

  /** A new value becomes a wall, unless something stored lies above or below it. */
  lemma {:induction false} InsertWalls(fields: Fields, parts: seq<string>, value: ConfigValue)
    returns (at: seq<string>, x: ConfigValue)
    requires CleanTable(Record(fields)) && Populated(Record(fields)) && parts != [] && Tame(value)
    ensures Walled(Insert(fields, parts, value), parts) || (HasLeaf(fields, at, x) && (at <= parts || parts <= at))
    decreases |parts|
  {
    at, x := [parts[0]], value;
    var after := Insert(fields, parts, value);
    if !HasField(fields, parts[0]) {
      FirstFieldIs(after, parts[0], |fields|);
      if |parts| > 1 {
        CleanFields([]);
        PopulatedFields([]);
        var _, _ := InsertWalls([], parts[1..], value);
      }
    } else {
      var i := FirstField(fields, parts[0]);
      x := fields[i].1;
      if !x.Record? {
        assert LeafAt(fields, i, at, x);
      } else if |parts| == 1 {
        at, x := LeafBelow(fields[i].1);
        LeafUnder(fields, i, at, x);
        at := [parts[0]] + at;
      } else {
        FirstFieldIs(after, parts[0], i);
        at, x := InsertWalls(fields[i].1.fields, parts[1..], value);
        if HasLeaf(fields[i].1.fields, at, x) { LeafUnder(fields, i, at, x); }
        assert parts == [parts[0]] + parts[1..];
        at := [parts[0]] + at;
      }
    }
  }

  // --- The entries that are stored -------------------------------------------------------

  /** No key is a dotted prefix of another. */
  ghost predicate PrefixFree(flat: map<string, ConfigValue>) {
    forall key :: key in flat ==> NotBelow(flat, key)
  }

  /** Keys and values the line format can carry; one key may be a dotted prefix of another. */
  ghost predicate CleanMap(flat: map<string, ConfigValue>) {
    forall k :: k in flat ==> CleanKey(k) && Tame(flat[k])
  }

  /** The entries that no other key stands above, among those taken already. */
  ghost function KeptOf(flat: map<string, ConfigValue>, todo: set<string>): map<string, ConfigValue> {
    map k | k in flat && k !in todo && NotBelow(flat, k) :: flat[k]
  }

  ghost function Kept(flat: map<string, ConfigValue>): map<string, ConfigValue> {
    KeptOf(flat, {})
  }

  ghost predicate Taken(flat: map<string, ConfigValue>, todo: set<string>) {
    forall a, b :: a in flat && a !in todo && b in todo ==> Before(a, b)
  }

  ghost predicate WallsAround(root: Fields, kept: map<string, ConfigValue>) {
    forall k :: k in kept ==> Walled(root, SplitDots(k))
  }

  ghost predicate Midway(root: Fields, flat: map<string, ConfigValue>, todo: set<string>) {
    && todo <= flat.Keys && Taken(flat, todo)
    && Nests(root, KeptOf(flat, todo)) && Populated(Record(root)) && WallsAround(root, KeptOf(flat, todo))
  }

  lemma {:induction false} SplitConcat(a: string, b: string)
    ensures SplitDots(a + "." + b) == SplitDots(a) + SplitDots(b)
  {
    if a == "" {
      assert a + "." + b == "." + b;
      assert ("." + b)[1..] == b;
    } else {
      assert (a + "." + b)[1..] == a[1..] + "." + b;
      SplitConcat(a[1..], b);
    }
  }

  /** Above a key with a dotted prefix in the map stands one without. */
  lemma {:induction false} TopPrefix(flat: map<string, ConfigValue>, key: string) returns (top: string)
    requires !NotBelow(flat, key)
    ensures top in flat && top + "." <= key && NotBelow(flat, top)
    decreases |key|
  {
    top :| top in flat && top + "." <= key;
    if !NotBelow(flat, top) {
      var higher := TopPrefix(flat, top);
      assert top <= key;
      top := higher;
    }
  }

  lemma SplitBelow(top: string, key: string) returns (more: seq<string>)
    requires top + "." <= key
    ensures more != [] && SplitDots(key) == SplitDots(top) + more
  {
    var rest := key[|top| + 1..];
    assert key == top + "." + rest;
    SplitConcat(top, rest);
    more := SplitDots(rest);
  }

  lemma {:induction false} PathPrefix(a: seq<string>, b: seq<string>)
    requires a != [] && a <= b && a != b
    ensures JoinDots(a) + "." <= JoinDots(b)
  {
    JoinConcat(a, b[|a|..]);
    assert b == a + b[|a|..];
  }

  /** A key below a stored one changes nothing. */
  lemma {:induction false} BelowIsLost(root: Fields, flat: map<string, ConfigValue>, todo: set<string>, key: string)
    requires Taken(flat, todo) && WallsAround(root, KeptOf(flat, todo)) && IsLeast(todo, key) && !NotBelow(flat, key)
    requires key in flat
    ensures Insert(root, SplitDots(key), flat[key]) == root
  {
    var top := TopPrefix(flat, key);
    PrefixIsBefore(top, key);
    BeforeTotal(top, key);
    assert top in KeptOf(flat, todo);
    var more := SplitBelow(top, key);
    WallStops(root, SplitDots(top), more, flat[key]);
  }

  /** Nothing stored lies above or below a key that is taken in order and has no prefix. */
  lemma {:induction false} NothingStored(root: Fields, flat: map<string, ConfigValue>, todo: set<string>, key: string, at: seq<string>, x: ConfigValue)
    requires Taken(flat, todo) && StoresOnly(root, KeptOf(flat, todo)) && IsLeast(todo, key) && NotBelow(flat, key)
    requires HasLeaf(root, at, x)
    ensures !(at <= SplitDots(key)) && !(SplitDots(key) <= at)
  {
    var k := JoinDots(at);
    assert k in KeptOf(flat, todo);
    assert Before(k, key) && !(k + "." <= key);
    assert at != [];
    BeforeTotal(k, key);
    KeysApart(at, key);
  }

  lemma {:induction false} KeysApart(at: seq<string>, key: string)
    requires at != [] && JoinDots(at) != key && !(JoinDots(at) + "." <= key) && !Before(key, JoinDots(at))
    ensures !(at <= SplitDots(key)) && !(SplitDots(key) <= at)
  {
    var parts := SplitDots(key);
    JoinSplit(key);
    if at <= parts { PathPrefix(at, parts); }
    if parts <= at {
      PathPrefix(parts, at);
      PrefixIsBefore(key, JoinDots(at));
    }
  }

  lemma KeptNext(flat: map<string, ConfigValue>, todo: set<string>, key: string)
    requires todo <= flat.Keys && key in todo
    ensures KeptOf(flat, todo - {key}) ==
      if NotBelow(flat, key) then KeptOf(flat, todo)[key := flat[key]] else KeptOf(flat, todo)
  {}

  lemma {:induction false} KeptStep(root: Fields, flat: map<string, ConfigValue>, todo: set<string>, key: string)
    requires Midway(root, flat, todo) && IsLeast(todo, key) && NotBelow(flat, key)
    requires CleanKey(key) && Tame(flat[key])
    ensures Midway(Insert(root, SplitDots(key), flat[key]), flat, todo - {key})
  {
    var parts, value, kept := SplitDots(key), flat[key], KeptOf(flat, todo);
    KeptNext(flat, todo, key);
    InsertNests(root, kept, key, value);
    InsertPopulated(root, parts, value);
    WallAround(root, flat, todo, key);
    TakenNext(flat, todo, key);
  }

  lemma {:induction false} WallAround(root: Fields, flat: map<string, ConfigValue>, todo: set<string>, key: string)
    requires Midway(root, flat, todo) && IsLeast(todo, key) && NotBelow(flat, key)
    requires CleanKey(key) && Tame(flat[key])
    ensures WallsAround(Insert(root, SplitDots(key), flat[key]), KeptOf(flat, todo)[key := flat[key]])
  {
    var parts, value, kept := SplitDots(key), flat[key], KeptOf(flat, todo);
    var at, x := InsertWalls(root, parts, value);
    if HasLeaf(root, at, x) { NothingStored(root, flat, todo, key, at, x); }
    forall k | k in kept ensures Walled(Insert(root, parts, value), SplitDots(k)) {
      WallStays(root, parts, value, SplitDots(k));
    }
  }

  lemma TakenNext(flat: map<string, ConfigValue>, todo: set<string>, key: string)
    requires Taken(flat, todo) && IsLeast(todo, key)
    ensures Taken(flat, todo - {key})
  {}

  lemma {:induction false} NestStep(root: Fields, flat: map<string, ConfigValue>, todo: set<string>, key: string)
    requires CleanMap(flat) && Midway(root, flat, todo) && IsLeast(todo, key)
    ensures Midway(Insert(root, SplitDots(key), flat[key]), flat, todo - {key})
  {
    if NotBelow(flat, key) {
      KeptStep(root, flat, todo, key);
    } else {
      KeptNext(flat, todo, key);
      TakenNext(flat, todo, key);
      BelowIsLost(root, flat, todo, key);
    }
  }

  lemma {:induction false} NestRestKeeps(root: Fields, flat: map<string, ConfigValue>, todo: set<string>)
    requires CleanMap(flat) && Midway(root, flat, todo)
    ensures Nests(NestRest(root, flat, todo), Kept(flat))
    decreases todo
  {
    if todo != {} {
      var key := Least(todo);
      NestStep(root, flat, todo, key);
      NestRestKeeps(Insert(root, SplitDots(key), flat[key]), flat, todo - {key});
    }
  }

  lemma NothingTaken(flat: map<string, ConfigValue>)
    ensures Midway([], flat, flat.Keys)
  {
    CleanFields([]);
    PopulatedFields([]);
    assert KeptOf(flat, flat.Keys) == map[];
  }

  lemma KeptWhole(flat: map<string, ConfigValue>)
    ensures Kept(flat) == flat <==> PrefixFree(flat)
  {
    if Kept(flat) == flat {
      forall k | k in flat ensures NotBelow(flat, k) { assert k in Kept(flat); }
    }
  }

  /** The nested tables store exactly the entries whose key has no dotted prefix in the map. */
  lemma NestKeeps(flat: map<string, ConfigValue>)
    requires CleanMap(flat)
    ensures Nests(Nest(flat), Kept(flat))
    ensures Kept(flat) == flat <==> PrefixFree(flat)
  {
    NothingTaken(flat);
    NestRestKeeps([], flat, flat.Keys);
    KeptWhole(flat);
  }

  lemma {:induction false} SplitName(name: string)
    requires '.' !in name
    ensures SplitDots(name) == [name]
  {
    if name != "" {
      SplitName(name[1..]);
      assert name == [name[0]] + name[1..];
    }
  }
}
