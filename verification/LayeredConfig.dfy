/**
 The layered product configuration: inlined defaults below the external file below injected
 values, guarded writes into the external layer, and tiered queries over all of it.
 */
module LayeredConfig {
  import opened Outcomes
  import opened ConfigValues

  type FlatMap = map<string, ConfigValue>

  datatype Layer = Inlined | External | Injected

  datatype Impact = LowImpact | HighImpact

  datatype ItemPolicy = ItemPolicy(impact: Impact, tags: set<string>, readLevel: int)

  const DEFAULT_POLICY := ItemPolicy(LowImpact, {}, 0)

  datatype Resolved = Resolved(value: ConfigValue, layer: Layer)

  datatype ConfigError = BuildKey | Unbridgeable | WriteProtected | NotSet | NoSuchLevel

  datatype Row = Row(key: string, kind: string, default: Option<ConfigValue>, effective: ConfigValue,
                     layer: Layer, impact: Impact, writeLevel: int, readLevel: int, tags: set<string>)

  /** The whole state; `levels` is the table from impact to the credential level a write needs. */
  datatype Store = Store(inlined: FlatMap, external: FlatMap, injected: FlatMap,
                         policies: map<string, ItemPolicy>, levels: map<Impact, int>)

  const BUILD_SECTIONS: set<string> :=
    {"topo", "build", "builder", "parallel", "adaptive", "optimize", "observability", "lifetime",
     "loop_parallel", "types", "completeness", "check", "test"}

  // --- Guards -----------------------------------------------------------------------

  function RootSection(key: string): string {
    if key == "" || key[0] == '.' then "" else [key[0]] + RootSection(key[1..])
  }

  predicate IsBuildKey(key: string) {
    RootSection(key) in BUILD_SECTIONS
  }

  /** The sections of the build file. */
  predicate Section(s: string) {
    s in ["topo", "build", "builder", "parallel", "adaptive", "optimize", "observability", "lifetime",
          "loop_parallel", "types", "completeness", "check", "test"]
  }

  lemma SectionIs(s: string)
    ensures s in BUILD_SECTIONS <==> Section(s)
    ensures Section(s) ==> '.' !in s
  {}

  /** A key belongs to the build file exactly when it is a section name or lies below one. */
  lemma {:induction false} BuildKeyMeaning(key: string)
    ensures IsBuildKey(key) <==> exists s :: Section(s) && (key == s || s + "." <= key)
  {
    RootPrefix(key);
    var root := RootSection(key);
    SectionIs(root);
    forall s | Section(s) && (key == s || s + "." <= key) ensures s == root {
      SectionIs(s);
      RootOf(s, key);
    }
  }

  lemma {:induction false} RootPrefix(key: string)
    ensures '.' !in RootSection(key)
    ensures key == RootSection(key) || RootSection(key) + "." <= key
  {
    if key != "" && key[0] != '.' {
      RootPrefix(key[1..]);
      assert key == [key[0]] + key[1..];
    }
  }

  lemma {:induction false} RootOf(s: string, key: string)
    requires '.' !in s && (key == s || s + "." <= key)
    ensures RootSection(key) == s
  {
    if s != "" {
      assert s == [s[0]] + s[1..];
      RootOf(s[1..], key[1..]);
    }
  }

  /** The schema type of a value, or none for values without a contract. */
  function TypeOf(v: ConfigValue): (r: Option<string>)
    ensures r.Some? <==> Bridged(v)
  {
    match v
    case Datetime => None
    case Unbridged => None
    case Bool(_) => Some("bool")
    case Int(_) => Some("int")
    case Float(_) => Some("float")
    case Str(_) => Some("str")
    case Sequence(items) => if exists i | 0 <= i < |items| :: TypeOf(items[i]).None? then None else Some("slice")
    case Record(fields) => if exists i | 0 <= i < |fields| :: TypeOf(fields[i].1).None? then None else Some("record")
  }

  function PolicyOf(s: Store, key: string): ItemPolicy {
    if key in s.policies then s.policies[key] else DEFAULT_POLICY
  }

  /** Without a policy of its own a key is public, untagged and of low impact. */
  lemma UndeclaredPolicy(s: Store, key: string)
    requires key !in s.policies
    ensures PolicyOf(s, key).impact == LowImpact && PolicyOf(s, key).tags == {} && PolicyOf(s, key).readLevel == 0
  {}

  // --- Reading -------------------------------------------------------------------------

  function AllKeys(s: Store): set<string> {
    s.inlined.Keys + s.external.Keys + s.injected.Keys
  }

  /** The value of the most explicit layer that carries the key. */
  function Effective(s: Store, key: string): Option<Resolved> {
    if key in s.injected then Some(Resolved(s.injected[key], Injected))
    else if key in s.external then Some(Resolved(s.external[key], External))
    else if key in s.inlined then Some(Resolved(s.inlined[key], Inlined))
    else None
  }

  function Resolve(s: Store, key: string): Result<Resolved, ConfigError> {
    if IsBuildKey(key) then Err(BuildKey)
    else
      match Effective(s, key)
      case Some(r) => Ok(r)
      case None => Err(NotSet)
  }

  predicate Visible(s: Store, key: string, level: int) {
    level >= PolicyOf(s, key).readLevel
  }

  predicate Listed(s: Store, key: string, tags: set<string>, level: int) {
    key in AllKeys(s) && Visible(s, key, level) && tags <= PolicyOf(s, key).tags
  }

  // --- Sorted key lists -------------------------------------------------------------------

  ghost predicate StrictlySorted(keys: seq<string>) {
    forall i, j :: 0 <= i < j < |keys| ==> Before(keys[i], keys[j])
  }

  /** A strictly sorted list is determined by its elements. */
  lemma {:induction false} SortedUnique(a: seq<string>, b: seq<string>)
    requires StrictlySorted(a) && StrictlySorted(b) && forall k :: k in a <==> k in b
    ensures a == b
  {
    if a == [] {
      var x := if b == [] then "" else b[0];
      assert x in b ==> x in a;
    } else {
      assert a[0] in a;
      assert b != [];
      assert b[0] in b;
      var i :| 0 <= i < |b| && b[i] == a[0];
      var j :| 0 <= j < |a| && a[j] == b[0];
      BeforeTotal(a[0], b[0]);
      assert a[0] == b[0];
      forall k ensures k in a[1..] <==> k in b[1..] {
        BeforeTotal(a[0], a[0]);
        if k in a[1..] { assert k in b; }
        if k in b[1..] { assert k in a; }
      }
      SortedUnique(a[1..], b[1..]);
    }
  }

  method InsertKey(keys: seq<string>, key: string) returns (r: seq<string>)
    requires StrictlySorted(keys) && key !in keys
    ensures StrictlySorted(r) && forall k :: k in r <==> k == key || k in keys
  {
    var i := 0;
    while i < |keys| && Before(keys[i], key)
      invariant 0 <= i <= |keys|
      invariant forall j :: 0 <= j < i ==> Before(keys[j], key)
    {
      i := i + 1;
    }
    r := keys[..i] + [key] + keys[i..];
    InsertedSorted(keys, key, i);
  }

  lemma {:induction false} InsertedSorted(keys: seq<string>, key: string, i: nat)
    requires StrictlySorted(keys) && key !in keys && i <= |keys|
    requires (forall j :: 0 <= j < i ==> Before(keys[j], key)) && (i < |keys| ==> !Before(keys[i], key))
    ensures var r := keys[..i] + [key] + keys[i..];
      StrictlySorted(r) && forall k :: k in r <==> k == key || k in keys
  {
    if i < |keys| {
      BeforeTotal(keys[i], key);
      forall j | i <= j < |keys| ensures Before(key, keys[j]) {
        if j > i { BeforeTransitive(key, keys[i], keys[j]); }
      }
    }
    assert keys == keys[..i] + keys[i..];
  }

  // --- The store as an object ---------------------------------------------------------------

  class ConfigStore {
    var inlined: FlatMap
    var external: FlatMap
    var injected: FlatMap
    var policies: map<string, ItemPolicy>
    const levels: map<Impact, int>

    ghost function Now(): Store
      reads this
    {
      Store(inlined, external, injected, policies, levels)
    }

    constructor (inlined: FlatMap, external: FlatMap, injected: FlatMap, policies: map<string, ItemPolicy>, levels: map<Impact, int>)
      ensures Now() == Store(inlined, external, injected, policies, levels)
    {
      this.inlined, this.external, this.injected := inlined, external, injected;
      this.policies, this.levels := policies, levels;
    }

    method Declare(key: string, policy: ItemPolicy) returns (r: Result<(), ConfigError>)
      modifies `policies
      ensures (Now(), r) == AfterDeclare(old(Now()), key, policy)
    {
      if IsBuildKey(key) {
        return Err(BuildKey);
      }
      policies := policies[key := policy];
      return Ok(());
    }

    method InstallInlined(data: FlatMap) returns (r: Result<(), ConfigError>)
      modifies `inlined
      ensures (Now(), r) == AfterInstall(old(Now()), data)
    {
      var todo := data.Keys;
      while todo != {}
        invariant todo <= data.Keys
        invariant forall k :: k in data && k !in todo ==> !IsBuildKey(k)
        decreases todo
      {
        var key :| key in todo;
        if IsBuildKey(key) {
          return Err(BuildKey);
        }
        todo := todo - {key};
      }
      inlined := data;
      return Ok(());
    }

    /** Checks first, in this order, and only then writes. */
    method Set(key: string, value: ConfigValue, level: int) returns (r: Result<(), ConfigError>)
      modifies `external
      ensures (Now(), r) == AfterSet(old(Now()), key, value, level)
    {
      if IsBuildKey(key) {
        return Err(BuildKey);
      }
      if TypeOf(value).None? {
        return Err(Unbridgeable);
      }
      var policy := if key in policies then policies[key] else DEFAULT_POLICY;
      if policy.impact !in levels {
        return Err(NoSuchLevel);
      }
      if level < levels[policy.impact] {
        return Err(WriteProtected);
      }
      external := external[key := value];
      return Ok(());
    }

    /** Walks the layers from least to most explicit; the last one that carries the key wins. */
    method ResolveKey(key: string) returns (r: Result<Resolved, ConfigError>)
      ensures r == Resolve(Now(), key)
    {
      if IsBuildKey(key) {
        return Err(BuildKey);
      }
      var winner: Option<Resolved> := None;
      if key in inlined {
        winner := Some(Resolved(inlined[key], Inlined));
      }
      if key in external {
        winner := Some(Resolved(external[key], External));
      }
      if key in injected {
        winner := Some(Resolved(injected[key], Injected));
      }
      return if winner.None? then Err(NotSet) else Ok(winner.value);
    }

    method Keys() returns (keys: seq<string>)
      ensures StrictlySorted(keys) && forall k :: k in keys <==> k in AllKeys(Now())
    {
      keys := [];
      var todo := inlined.Keys + external.Keys + injected.Keys;
      while todo != {}
        invariant StrictlySorted(keys) && todo <= AllKeys(Now())
        invariant forall k :: k in keys <==> k in AllKeys(Now()) && k !in todo
        decreases todo
      {
        var key :| key in todo;
        keys := InsertKey(keys, key);
        todo := todo - {key};
      }
    }

    method MaxReadLevel() returns (top: int)
      ensures top >= 0 && forall k :: k in AllKeys(Now()) ==> PolicyOf(Now(), k).readLevel <= top
      ensures top == 0 || exists k :: k in AllKeys(Now()) && PolicyOf(Now(), k).readLevel == top
    {
      top := 0;
      var keys := Keys();
      for i := 0 to |keys|
        invariant top >= 0 && forall j :: 0 <= j < i ==> PolicyOf(Now(), keys[j]).readLevel <= top
        invariant top == 0 || exists j :: 0 <= j < i && PolicyOf(Now(), keys[j]).readLevel == top
      {
        var policy := if keys[i] in policies then policies[keys[i]] else DEFAULT_POLICY;
        if policy.readLevel > top {
          top := policy.readLevel;
        }
      }
    }

    /** Exactly the listed keys, in order. */
    method Query(tags: set<string>, level: int) returns (out: seq<string>)
      ensures StrictlySorted(out) && forall k :: k in out <==> Listed(Now(), k, tags, level)
    {
      var keys := Keys();
      out := [];
      for i := 0 to |keys|
        invariant StrictlySorted(out)
        invariant forall k :: k in out <==> k in keys[..i] && Listed(Now(), k, tags, level)
      {
        assert keys[..i + 1] == keys[..i] + [keys[i]];
        assert keys[i] in keys;
        var policy := if keys[i] in policies then policies[keys[i]] else DEFAULT_POLICY;
        if level >= policy.readLevel && tags <= policy.tags {
          forall j | 0 <= j < |out| ensures Before(out[j], keys[i]) {
            assert out[j] in out;
            var m :| 0 <= m < i && keys[m] == out[j];
          }
          out := out + [keys[i]];
        }
      }
      assert keys[..|keys|] == keys;
    }

    /** One row per queried key, in the same order; it fails only where a read fails. */
    method Browse(tags: set<string>, level: int) returns (r: Result<seq<Row>, ConfigError>)
      ensures r.Ok? ==> StrictlySorted(RowKeys(r.value)) && forall k :: k in RowKeys(r.value) <==> Listed(Now(), k, tags, level)
      ensures r.Ok? ==> forall row :: row in r.value ==> RowIsTrue(Now(), row)
      ensures r.Err? ==> !Clean(Now()) || !LevelsComplete(Now())
    {
      var keys := Query(tags, level);
      var rows: seq<Row> := [];
      for i := 0 to |keys|
        invariant RowKeys(rows) == keys[..i]
        invariant forall row :: row in rows ==> RowIsTrue(Now(), row)
      {
        var key := keys[i];
        assert key in keys;
        assert Listed(Now(), key, tags, level);
        var row := BrowseRow(key);
        if row.Err? {
          return Err(row.error);
        }
        rows := rows + [row.value];
        assert keys[..i + 1] == keys[..i] + [key];
      }
      assert keys[..|keys|] == keys;
      return Ok(rows);
    }

    method BrowseRow(key: string) returns (r: Result<Row, ConfigError>)
      ensures r.Ok? ==> r.value.key == key && RowIsTrue(Now(), r.value)
      ensures r.Err? && key in AllKeys(Now()) ==> !Clean(Now()) || !LevelsComplete(Now())
    {
      var resolved := ResolveKey(key);
      if resolved.Err? {
        return Err(resolved.error);
      }
      var policy := if key in policies then policies[key] else DEFAULT_POLICY;
      var default := if key in inlined then Some(inlined[key]) else None;
      var kind := TypeOf(resolved.value.value);
      if kind.None? {
        kind := if default.Some? then TypeOf(default.value) else None;
        if kind.None? {
          return Err(Unbridgeable);
        }
      }
      TypeOfTyped(if TypeOf(resolved.value.value).Some? then resolved.value.value else default.value, kind.value);
      assert policy.impact == LowImpact || policy.impact == HighImpact;
      if policy.impact !in levels {
        return Err(NoSuchLevel);
      }
      return Ok(Row(key, kind.value, default, resolved.value.value, resolved.value.layer,
                    policy.impact, levels[policy.impact], policy.readLevel, policy.tags));
    }
  }

  function RowKeys(rows: seq<Row>): seq<string> {
    seq(|rows|, i requires 0 <= i < |rows| => rows[i].key)
  }

  /** The name of a value's schema type. */
  predicate Typed(v: ConfigValue, kind: string) {
    Bridged(v) &&
    match kind
    case "bool" => v.Bool?
    case "int" => v.Int?
    case "float" => v.Float?
    case "str" => v.Str?
    case "slice" => v.Sequence?
    case "record" => v.Record?
    case _ => false
  }

  lemma {:induction false} TypeOfTyped(v: ConfigValue, kind: string)
    requires TypeOf(v) == Some(kind)
    ensures Typed(v, kind)
  {}

  /**
   A row shows the effective value with its layer, the inlined default, and the item's policy. Its
   type is that of the effective value, or of the default where the effective value has none.
   */
  ghost predicate RowIsTrue(s: Store, row: Row) {
    && Effective(s, row.key) == Some(Resolved(row.effective, row.layer))
    && row.default == (if row.key in s.inlined then Some(s.inlined[row.key]) else None)
    && Typed(if !Bridged(row.effective) && row.default.Some? then row.default.value else row.effective, row.kind)
    && row.impact == PolicyOf(s, row.key).impact && row.readLevel == PolicyOf(s, row.key).readLevel
    && row.tags == PolicyOf(s, row.key).tags
    && row.impact in s.levels && row.writeLevel == s.levels[row.impact]
  }

  // --- State changes and their effects ----------------------------------------------------------

  function AfterDeclare(s: Store, key: string, policy: ItemPolicy): (Store, Result<(), ConfigError>) {
    if IsBuildKey(key) then (s, Err(BuildKey)) else (s.(policies := s.policies[key := policy]), Ok(()))
  }

  function AfterInstall(s: Store, data: FlatMap): (Store, Result<(), ConfigError>) {
    if exists k | k in data :: IsBuildKey(k) then (s, Err(BuildKey)) else (s.(inlined := data), Ok(()))
  }

  function AfterSet(s: Store, key: string, value: ConfigValue, level: int): (Store, Result<(), ConfigError>) {
    if IsBuildKey(key) then (s, Err(BuildKey))
    else if !Bridged(value) then (s, Err(Unbridgeable))
    else if PolicyOf(s, key).impact !in s.levels then (s, Err(NoSuchLevel))
    else if level < s.levels[PolicyOf(s, key).impact] then (s, Err(WriteProtected))
    else (s.(external := s.external[key := value]), Ok(()))
  }

  ghost predicate CleanLayer(m: FlatMap) {
    forall k :: k in m ==> !IsBuildKey(k) && Bridged(m[k])
  }

  ghost predicate Clean(s: Store) {
    CleanLayer(s.inlined) && CleanLayer(s.external) && CleanLayer(s.injected)
  }

  predicate LevelsComplete(s: Store) {
    LowImpact in s.levels && HighImpact in s.levels
  }

  datatype Change = Write(key: string, value: ConfigValue, level: int) | Declaration(key: string, policy: ItemPolicy)

  function Apply(s: Store, c: Change): (Store, Result<(), ConfigError>) {
    match c
    case Write(key, value, level) => AfterSet(s, key, value, level)
    case Declaration(key, policy) => AfterDeclare(s, key, policy)
  }

  function Run(s: Store, changes: seq<Change>): Store
    decreases |changes|
  {
    if changes == [] then s else Apply(Run(s, changes[..|changes| - 1]), changes[|changes| - 1]).0
  }

  /**
   One change: a rejected one changes nothing; an accepted write changes the effective value of its
   own key only, and not even that when the key is injected; a declaration changes no value.
   */
  lemma ChangeEffect(s: Store, c: Change, other: string)
    ensures var (s1, r) := Apply(s, c);
      && (r.Err? ==> s1 == s)
      && (other != c.key ==> Effective(s1, other) == Effective(s, other) && PolicyOf(s1, other) == PolicyOf(s, other))
      && (c.Declaration? || c.key in s.injected ==> Effective(s1, c.key) == Effective(s, c.key))
      && (r.Ok? && c.Write? && c.key !in s.injected ==> Effective(s1, c.key) == Some(Resolved(c.value, External)))
      && s1.injected == s.injected && s1.inlined == s.inlined
  {}

  /** Over any sequence of accepted and rejected changes a clean store stays clean, so every key resolves. */
  lemma {:induction false} RunStaysClean(s: Store, changes: seq<Change>)
    requires Clean(s)
    ensures Clean(Run(s, changes)) && Run(s, changes).levels == s.levels
    decreases |changes|
  {
    if changes != [] { RunStaysClean(s, changes[..|changes| - 1]); }
  }

  /** In every state reached from a clean one, every key resolves to a value with a schema type. */
  lemma {:induction false} RunResolves(s: Store, changes: seq<Change>, key: string)
    requires Clean(s) && key in AllKeys(Run(s, changes))
    ensures Resolve(Run(s, changes), key).Ok? && Bridged(Resolve(Run(s, changes), key).value.value)
  {
    RunStaysClean(s, changes);
  }

  lemma WritesInPrefix(s: Store, changes: seq<Change>, n: nat, i: nat, key: string)
    requires i < n <= |changes|
    ensures WritesAt(s, changes[..n], i, key) == WritesAt(s, changes, i, key)
  {
    assert changes[..n][..i] == changes[..i];
  }

  lemma {:induction false} RunKeepsInjected(s: Store, changes: seq<Change>, key: string)
    ensures Run(s, changes).injected == s.injected
    ensures key in s.injected ==> Effective(Run(s, changes), key) == Effective(s, key)
    decreases |changes|
  {
    if changes != [] { RunKeepsInjected(s, changes[..|changes| - 1], key); }
  }

  lemma {:induction false} RunWithoutWrite(s: Store, changes: seq<Change>, key: string)
    requires forall i :: 0 <= i < |changes| ==> !WritesAt(s, changes, i, key)
    ensures Effective(Run(s, changes), key) == Effective(s, key)
    decreases |changes|
  {
    if changes != [] {
      var n := |changes| - 1;
      forall i | 0 <= i < n ensures !WritesAt(s, changes[..n], i, key) {
        WritesInPrefix(s, changes, n, i, key);
      }
      RunWithoutWrite(s, changes[..n], key);
      ChangeEffect(Run(s, changes[..n]), changes[n], key);
      assert !WritesAt(s, changes, n, key);
    }
  }

  /** A key that is not injected has the value of its last accepted write. */
  lemma {:induction false} RunLastWriteWins(s: Store, changes: seq<Change>, i: nat, key: string)
    requires i < |changes| && LastWriteAt(s, changes, i, key) && key !in s.injected
    ensures Effective(Run(s, changes), key) == Some(Resolved(changes[i].value, External))
    decreases |changes|
  {
    var n := |changes| - 1;
    if i == n {
      RunKeepsInjected(s, changes[..n], key);
      ChangeEffect(Run(s, changes[..n]), changes[n], key);
    } else {
      LastInPrefix(s, changes, i, key);
      RunLastWriteWins(s, changes[..n], i, key);
      NotWritten(s, changes, key);
    }
  }

  lemma {:induction false} NotWritten(s: Store, changes: seq<Change>, key: string)
    requires changes != [] && !WritesAt(s, changes, |changes| - 1, key)
    ensures Effective(Run(s, changes), key) == Effective(Run(s, changes[..|changes| - 1]), key)
  {
    var n := |changes| - 1;
    ChangeEffect(Run(s, changes[..n]), changes[n], key);
  }

  lemma LastInPrefix(s: Store, changes: seq<Change>, i: nat, key: string)
    requires i < |changes| - 1 && LastWriteAt(s, changes, i, key)
    ensures LastWriteAt(s, changes[..|changes| - 1], i, key) && !WritesAt(s, changes, |changes| - 1, key)
  {
    var n := |changes| - 1;
    forall j | i <= j < n ensures WritesAt(s, changes[..n], j, key) == WritesAt(s, changes, j, key) {
      WritesInPrefix(s, changes, n, j, key);
    }
  }

  predicate LastWriteAt(s: Store, changes: seq<Change>, i: int, key: string)
    requires 0 <= i < |changes|
  {
    WritesAt(s, changes, i, key) && forall j | i < j < |changes| :: !WritesAt(s, changes, j, key)
  }

  /** The i-th change is an accepted write of the key. */
  predicate WritesAt(s: Store, changes: seq<Change>, i: int, key: string)
    requires 0 <= i < |changes|
  {
    changes[i].Write? && changes[i].key == key && Apply(Run(s, changes[..i]), changes[i]).1.Ok?
  }

  /** Accepting a new inlined layer keeps the store clean exactly when every new value has a schema type. */
  lemma InstallClean(s: Store, data: FlatMap)
    requires Clean(s)
    ensures var (s1, r) := AfterInstall(s, data);
      && (r.Ok? <==> forall k :: k in data ==> !IsBuildKey(k))
      && (r.Ok? ==> (Clean(s1) <==> forall k :: k in data ==> Bridged(data[k])))
      && (r.Err? ==> s1 == s)
  {
    if AfterInstall(s, data).1.Ok? && Clean(AfterInstall(s, data).0) {
      assert CleanLayer(data);
    }
  }

  // --- What a user of the store sees ----------------------------------------------------------------

  /** The key belongs to the build file. */
  ghost predicate BelongsToBuild(key: string) {
    exists s :: Section(s) && (key == s || s + "." <= key)
  }

  /** Keys of the build file can be neither read, written, declared nor installed. */
  lemma {:induction false} BuildKeysRefused(s: Store, key: string, value: ConfigValue, level: int, policy: ItemPolicy, data: FlatMap)
    requires BelongsToBuild(key)
    ensures Resolve(s, key) == Err(BuildKey)
    ensures AfterSet(s, key, value, level) == (s, Err(BuildKey)) && AfterDeclare(s, key, policy) == (s, Err(BuildKey))
    ensures key in data ==> AfterInstall(s, data) == (s, Err(BuildKey))
  {
    BuildKeyMeaning(key);
  }

  /** A write is accepted exactly for other keys, with a typed value, from the level of the key's impact on. */
  lemma {:induction false} WriteIff(s: Store, key: string, value: ConfigValue, level: int)
    ensures AfterSet(s, key, value, level).1.Ok? <==>
      && !BelongsToBuild(key) && Bridged(value)
      && PolicyOf(s, key).impact in s.levels && s.levels[PolicyOf(s, key).impact] <= level
    ensures AfterSet(s, key, value, level).1.Ok? ==> AfterSet(s, key, value, level).0 == s.(external := s.external[key := value])
  {
    BuildKeyMeaning(key);
  }

  /** The layers of the values that are read. */
  lemma {:induction false} LayersShade(s: Store, key: string)
    requires !BelongsToBuild(key)
    ensures key in s.injected ==> Resolve(s, key) == Ok(Resolved(s.injected[key], Injected))
    ensures key in s.external && key !in s.injected ==> Resolve(s, key) == Ok(Resolved(s.external[key], External))
    ensures key in s.inlined && key !in s.external && key !in s.injected ==> Resolve(s, key) == Ok(Resolved(s.inlined[key], Inlined))
    ensures key !in s.inlined && key !in s.external && key !in s.injected ==> Resolve(s, key) == Err(NotSet)
  {
    BuildKeyMeaning(key);
  }

  predicate Declares(c: Change, key: string) {
    c.Declaration? && c.key == key
  }

  /** After any changes a key has the policy that was declared last. */
  lemma {:induction false} RunPolicy(s: Store, changes: seq<Change>, i: nat, key: string)
    requires i < |changes| && Declares(changes[i], key) && !BelongsToBuild(key)
    requires forall j :: i < j < |changes| ==> !Declares(changes[j], key)
    ensures PolicyOf(Run(s, changes), key) == changes[i].policy
    decreases |changes|
  {
    var n := |changes| - 1;
    if i == n {
      BuildKeyMeaning(key);
    } else {
      RunPolicy(s, changes[..n], i, key);
      ChangePolicy(Run(s, changes[..n]), changes[n], key);
    }
  }

  lemma {:induction false} ChangePolicy(s: Store, c: Change, key: string)
    requires !Declares(c, key)
    ensures PolicyOf(Apply(s, c).0, key) == PolicyOf(s, key)
  {}

  lemma {:induction false} RunWithoutDeclaration(s: Store, changes: seq<Change>, key: string)
    requires forall j :: 0 <= j < |changes| ==> !Declares(changes[j], key)
    ensures PolicyOf(Run(s, changes), key) == PolicyOf(s, key)
    decreases |changes|
  {
    if changes != [] {
      var n := |changes| - 1;
      RunWithoutDeclaration(s, changes[..n], key);
      ChangePolicy(Run(s, changes[..n]), changes[n], key);
    }
  }

  /** The keys after any changes: those there were, and those that were written. */
  ghost predicate HasValue(s: Store, changes: seq<Change>, key: string) {
    || key in s.inlined || key in s.external || key in s.injected
    || exists i :: 0 <= i < |changes| && WritesAt(s, changes, i, key)
  }

  lemma {:induction false} RunKeys(s: Store, changes: seq<Change>, key: string)
    ensures key in AllKeys(Run(s, changes)) <==> HasValue(s, changes, key)
    decreases |changes|
  {
    if changes != [] {
      var n := |changes| - 1;
      RunKeys(s, changes[..n], key);
      LastChangeKeys(s, changes, key);
      ChangeKeys(Run(s, changes[..n]), changes[n], key);
    }
  }

  lemma {:induction false} LastChangeKeys(s: Store, changes: seq<Change>, key: string)
    requires changes != []
    ensures HasValue(s, changes, key) <==> HasValue(s, changes[..|changes| - 1], key) || WritesAt(s, changes, |changes| - 1, key)
  {
    var n := |changes| - 1;
    forall i | 0 <= i < n ensures WritesAt(s, changes[..n], i, key) == WritesAt(s, changes, i, key) {
      WritesInPrefix(s, changes, n, i, key);
    }
  }

  lemma {:induction false} ChangeKeys(s: Store, c: Change, key: string)
    ensures key in AllKeys(Apply(s, c).0) <==> key in AllKeys(s) || (c.Write? && c.key == key && Apply(s, c).1.Ok?)
  {}

  /**
   A query lists exactly the keys with a value whose last declared read level is within reach and whose
   last declared tags include the wanted ones.
   */
  lemma {:induction false} RunLists(s: Store, changes: seq<Change>, i: nat, key: string, tags: set<string>, level: int)
    requires i < |changes| && Declares(changes[i], key) && !BelongsToBuild(key)
    requires forall j :: i < j < |changes| ==> !Declares(changes[j], key)
    ensures Listed(Run(s, changes), key, tags, level) <==>
      HasValue(s, changes, key) && changes[i].policy.readLevel <= level && tags <= changes[i].policy.tags
  {
    RunKeys(s, changes, key);
    RunPolicy(s, changes, i, key);
  }

  /** An undeclared key is listed from level 0 on, where no tags are wanted. */
  lemma {:induction false} RunListsUndeclared(s: Store, changes: seq<Change>, key: string, tags: set<string>, level: int)
    requires key !in s.policies && forall j :: 0 <= j < |changes| ==> !Declares(changes[j], key)
    ensures Listed(Run(s, changes), key, tags, level) <==> HasValue(s, changes, key) && 0 <= level && tags == {}
  {
    RunKeys(s, changes, key);
    RunWithoutDeclaration(s, changes, key);
    UndeclaredPolicy(s, key);
  }

  // --- Tiered queries -----------------------------------------------------------------------------

  /** A higher level lists more, and more tags list less. */
  lemma QueryMonotone(s: Store, key: string, tags: set<string>, more: set<string>, level: int, higher: int)
    requires tags <= more && level <= higher && Listed(s, key, more, level)
    ensures Listed(s, key, tags, higher)
  {}

  /** At the highest read level of any key, a query without tags lists every key. */
  lemma QueryComplete(s: Store, top: int, key: string)
    requires forall k :: k in AllKeys(s) ==> PolicyOf(s, k).readLevel <= top
    requires key in AllKeys(s)
    ensures Listed(s, key, {}, top)
  {}
}
