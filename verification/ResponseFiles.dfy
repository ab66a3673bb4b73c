/**
 Expansion of `@file` arguments: the bounded, cycle-checked recursion computes the plain
 recursive flattening.
 */
module ResponseFiles {
  import opened Outcomes
  import opened CommandTokens
  import HeaderText
  import opened PathParts

  const MAX_ARGUMENTS: nat := 16384
  const MAX_ARGUMENT_BYTES: nat := 1024 * 1024
  const MAX_DEPTH: nat := 8

  /** Where response files are read from, and which of them the read policy allows. */
  datatype Environment = Environment(
    files: string -> Option<string>, allowed: string -> bool, directory: string, windows: bool)

  predicate IsResponse(arg: string) {
    |arg| > 1 && arg[0] == '@'
  }

  function PathOf(env: Environment, arg: string): string
    requires IsResponse(arg)
  {
    HeaderText.Join(env.directory, arg[1..])
  }

  /** The arguments inside a response file, when it may be read and tokenized. */
  function Inner(env: Environment, path: string): Option<seq<string>> {
    if !env.allowed(path) || env.files(path).None? || |env.files(path).value| > MAX_ARGUMENT_BYTES then None
    else
      match Tokens(env.files(path).value, env.windows, START)
      case Ok(args) => Some(args)
      case Err(_) => None
  }

  /** Substitutes every response file by its own flattening, at most `levels` deep. */
  function Flatten(env: Environment, args: seq<string>, levels: nat): Option<seq<string>>
    decreases levels, |args|
  {
    if levels == 0 then None
    else if args == [] then Some([])
    else
      var head :=
        if !IsResponse(args[0]) then Some([args[0]])
        else if Inner(env, PathOf(env, args[0])).None? then None
        else Flatten(env, Inner(env, PathOf(env, args[0])).value, levels - 1);
      var rest := Flatten(env, args[1..], levels);
      if head.None? || rest.None? then None else Some(head.value + rest.value)
  }

  /** The bytes of every response file read on the way, counted once per reading. */
  function BytesRead(env: Environment, args: seq<string>, levels: nat): nat
    requires Flatten(env, args, levels).Some?
    decreases levels, |args|
  {
    if args == [] then 0
    else
      (if !IsResponse(args[0]) then 0
       else
         var path := PathOf(env, args[0]);
         |env.files(path).value| + BytesRead(env, Inner(env, path).value, levels - 1)) +
      BytesRead(env, args[1..], levels)
  }

  /** The response files read on the way, in the order of reading. */
  function FilesRead(env: Environment, args: seq<string>, levels: nat): seq<string>
    requires Flatten(env, args, levels).Some?
    decreases levels, |args|
  {
    if args == [] then []
    else
      (if !IsResponse(args[0]) then []
       else
         var path := PathOf(env, args[0]);
         [path] + FilesRead(env, Inner(env, path).value, levels - 1)) +
      FilesRead(env, args[1..], levels)
  }

  // --- Properties of flattening -------------------------------------------------------

  lemma {:induction false} FlattenedPlain(env: Environment, args: seq<string>, levels: nat)
    requires Flatten(env, args, levels).Some?
    ensures forall a :: a in Flatten(env, args, levels).value ==> !IsResponse(a)
    decreases levels, |args|
  {
    if args != [] {
      FlattenedPlain(env, args[1..], levels);
      if IsResponse(args[0]) {
        FlattenedPlain(env, Inner(env, PathOf(env, args[0])).value, levels - 1);
      }
    }
  }

  /** The depth limit only refuses: it never changes a flattening. */
  lemma {:induction false} FlattenMonotone(env: Environment, args: seq<string>, levels: nat, more: nat)
    requires levels <= more && Flatten(env, args, levels).Some?
    ensures Flatten(env, args, more) == Flatten(env, args, levels)
    decreases levels, |args|
  {
    if args != [] {
      FlattenMonotone(env, args[1..], levels, more);
      if IsResponse(args[0]) {
        FlattenMonotone(env, Inner(env, PathOf(env, args[0])).value, levels - 1, more - 1);
      }
    }
  }

  lemma {:induction false} FlattenConcat(env: Environment, a: seq<string>, b: seq<string>, levels: nat)
    ensures Flatten(env, a + b, levels) ==
      if Flatten(env, a, levels).Some? && Flatten(env, b, levels).Some?
      then Some(Flatten(env, a, levels).value + Flatten(env, b, levels).value) else None
    ensures Flatten(env, a + b, levels).Some? ==>
      && BytesRead(env, a + b, levels) == BytesRead(env, a, levels) + BytesRead(env, b, levels)
      && FilesRead(env, a + b, levels) == FilesRead(env, a, levels) + FilesRead(env, b, levels)
    decreases |a|
  {
    if a == [] {
      assert a + b == b;
      if Flatten(env, b, levels).Some? {
        assert [] + Flatten(env, b, levels).value == Flatten(env, b, levels).value;
      }
    } else {
      assert (a + b)[1..] == a[1..] + b;
      FlattenConcat(env, a[1..], b, levels);
      if levels > 0 && Flatten(env, a + b, levels).Some? {
        var head := if !IsResponse(a[0]) then [a[0]]
                    else Flatten(env, Inner(env, PathOf(env, a[0])).value, levels - 1).value;
        var middle, last := Flatten(env, a[1..], levels).value, Flatten(env, b, levels).value;
        assert head + (middle + last) == head + middle + last;
        FilesReadFirst(env, a, b, levels);
      }
    }
  }

  lemma {:induction false} FilesReadFirst(env: Environment, a: seq<string>, b: seq<string>, levels: nat)
    requires a != [] && Flatten(env, a + b, levels).Some? && Flatten(env, a, levels).Some? && Flatten(env, b, levels).Some?
    requires (a + b)[1..] == a[1..] + b && Flatten(env, a[1..] + b, levels).Some?
    requires FilesRead(env, a[1..] + b, levels) == FilesRead(env, a[1..], levels) + FilesRead(env, b, levels)
    ensures FilesRead(env, a + b, levels) == FilesRead(env, a, levels) + FilesRead(env, b, levels)
  {
    var path := if IsResponse(a[0]) then PathOf(env, a[0]) else "";
    var head := if IsResponse(a[0]) then [path] + FilesRead(env, Inner(env, path).value, levels - 1) else [];
    assert FilesRead(env, a, levels) == head + FilesRead(env, a[1..], levels);
    assert FilesRead(env, a + b, levels) == head + FilesRead(env, a[1..] + b, levels);
  }

  lemma {:induction false} FlattenStep(env: Environment, args: seq<string>, i: nat, levels: nat)
    requires i < |args| && levels > 0
    requires Flatten(env, args[..i], levels).Some?
    ensures
      var one := Flatten(env, [args[i]], levels);
      && Flatten(env, args[..i + 1], levels) ==
           (if one.Some? then Some(Flatten(env, args[..i], levels).value + one.value) else None)
      && (one.Some? ==>
            && BytesRead(env, args[..i + 1], levels) == BytesRead(env, args[..i], levels) + BytesRead(env, [args[i]], levels)
            && FilesRead(env, args[..i + 1], levels) == FilesRead(env, args[..i], levels) + FilesRead(env, [args[i]], levels))
      && (one.None? ==> Flatten(env, args, levels).None?)
  {
    assert args[..i + 1] == args[..i] + [args[i]];
    assert args == args[..i + 1] + args[i + 1..];
    FlattenConcat(env, args[..i], [args[i]], levels);
    FlattenConcat(env, args[..i + 1], args[i + 1..], levels);
  }

  lemma {:induction false} FlattenPrefix(env: Environment, args: seq<string>, i: nat, levels: nat)
    requires i <= |args|
    ensures Flatten(env, args, levels).Some? ==>
      && Flatten(env, args[..i], levels).Some?
      && |Flatten(env, args[..i], levels).value| <= |Flatten(env, args, levels).value|
      && BytesRead(env, args[..i], levels) <= BytesRead(env, args, levels)
  {
    assert args == args[..i] + args[i..];
    FlattenConcat(env, args[..i], args[i..], levels);
  }

  // --- Cycles ------------------------------------------------------------------------

  /** Flattening a file on the stack needs the flattening of the current arguments, no deeper. */
  ghost predicate Needs(env: Environment, stack: set<string>, args: seq<string>) {
    forall path, levels: nat ::
      path in stack && Inner(env, path).Some? && Flatten(env, Inner(env, path).value, levels).Some? ==>
        FlattensWithin(env, args, levels)
  }

  /** The arguments flatten at some depth up to `levels`. */
  ghost predicate FlattensWithin(env: Environment, args: seq<string>, levels: nat) {
    Flatten(env, args, levels).Some? || (levels > 0 && FlattensWithin(env, args, levels - 1))
  }

  lemma {:induction false} WithinHere(env: Environment, args: seq<string>, m: nat, levels: nat)
    requires m <= levels && Flatten(env, args, m).Some?
    ensures FlattensWithin(env, args, levels)
  {
    if m < levels { WithinHere(env, args, m, levels - 1); }
  }

  lemma {:induction false} WithinWhere(env: Environment, args: seq<string>, levels: nat) returns (m: nat)
    requires FlattensWithin(env, args, levels)
    ensures m <= levels && Flatten(env, args, m).Some?
  {
    if Flatten(env, args, levels).Some? { m := levels; } else { m := WithinWhere(env, args, levels - 1); }
  }

  lemma ArgumentNeeded(env: Environment, args: seq<string>, i: nat, levels: nat)
    requires i < |args| && IsResponse(args[i]) && Flatten(env, args, levels).Some?
    ensures levels > 0 && Inner(env, PathOf(env, args[i])).Some?
    ensures Flatten(env, Inner(env, PathOf(env, args[i])).value, levels - 1).Some?
  {
    assert args == args[..i] + args[i..];
    FlattenConcat(env, args[..i], args[i..], levels);
  }

  /** Arguments that name a file on their own stack have no flattening at any depth. */
  lemma {:induction false} CycleHasNoFlattening(env: Environment, args: seq<string>, i: nat, stack: set<string>, levels: nat)
    requires i < |args| && IsResponse(args[i]) && PathOf(env, args[i]) in stack && Needs(env, stack, args)
    ensures Flatten(env, args, levels).None?
    decreases levels
  {
    if Flatten(env, args, levels).Some? {
      ArgumentNeeded(env, args, i, levels);
      var m := WithinWhere(env, args, levels - 1);
      CycleHasNoFlattening(env, args, i, stack, m);
    }
  }

  lemma NeedsInner(env: Environment, stack: set<string>, args: seq<string>, i: nat)
    requires i < |args| && IsResponse(args[i]) && Needs(env, stack, args)
    requires Inner(env, PathOf(env, args[i])).Some?
    ensures Needs(env, stack + {PathOf(env, args[i])}, Inner(env, PathOf(env, args[i])).value)
  {
    var inner := Inner(env, PathOf(env, args[i])).value;
    forall path, levels: nat |
      path in stack && Inner(env, path).Some? && Flatten(env, Inner(env, path).value, levels).Some?
      ensures FlattensWithin(env, inner, levels)
    {
      var m := WithinWhere(env, args, levels);
      ArgumentNeeded(env, args, i, m);
      WithinHere(env, inner, m - 1, levels);
    }
  }

  // --- The recursion ---------------------------------------------------------------------

  class Expander {
    const env: Environment
    var expanded: seq<string>
    var stack: set<string>
    var bytes: nat
    var inputs: seq<string>

    constructor (env: Environment)
      ensures this.env == env && expanded == [] && stack == {} && bytes == 0 && inputs == []
    {
      this.env, expanded, stack, bytes, inputs := env, [], {}, 0, [];
    }

    /** What has been spent so far. */
    ghost function Now(): Spent
      reads this
    {
      Spent(expanded, bytes, inputs)
    }

    /** Success is the flattening of `args`, appended; failure means there is none within the limits. */
    method Expand(args: seq<string>, depth: nat) returns (r: Result<(), string>)
      requires depth <= MAX_DEPTH + 1 && Needs(env, stack, args) && Within(Now())
      modifies this
      ensures r.Ok? ==> Grown(env, args, MAX_DEPTH + 1 - depth, old(Now()), Now()) && Within(Now()) && stack == old(stack)
      ensures r.Err? && Flatten(env, args, MAX_DEPTH + 1 - depth).Some? ==> Beyond(env, args, MAX_DEPTH + 1 - depth, old(Now()))
      decreases MAX_DEPTH + 1 - depth
    {
      if depth > MAX_DEPTH {
        return Err("response file nesting exceeds 8 levels");
      }
      ghost var levels := MAX_DEPTH + 1 - depth;
      GrownNone(env, levels, Now());
      for i := 0 to |args|
        invariant Grown(env, args[..i], levels, old(Now()), Now()) && Within(Now()) && stack == old(stack)
      {
        if |expanded| >= MAX_ARGUMENTS {
          BeyondCount(env, args, i, levels, old(Now()), Now());
          return Err("too many compiler arguments");
        }
        ghost var before := Now();
        if IsResponse(args[i]) {
          r := ExpandFile(args, i, depth);
          if r.Err? {
            BeyondNext(env, args, i, levels, old(Now()), before);
            return;
          }
        } else {
          expanded := expanded + [args[i]];
          GrownPlain(env, args[i], levels, before, Now());
        }
        GrownNext(env, args, i, levels, old(Now()), before, Now());
      }
      assert args[..|args|] == args;
      return Ok(());
    }

    /** The body of the loop for one `@file` argument. */
    method ExpandFile(args: seq<string>, i: nat, depth: nat) returns (r: Result<(), string>)
      requires i < |args| && IsResponse(args[i])
      requires depth <= MAX_DEPTH && Needs(env, stack, args) && Within(Now()) && |expanded| < MAX_ARGUMENTS
      modifies this
      ensures r.Ok? ==> Grown(env, [args[i]], MAX_DEPTH + 1 - depth, old(Now()), Now()) && Within(Now()) && stack == old(stack)
      ensures r.Err? && Flatten(env, args, MAX_DEPTH + 1 - depth).Some? ==>
        Flatten(env, [args[i]], MAX_DEPTH + 1 - depth).Some? && Beyond(env, [args[i]], MAX_DEPTH + 1 - depth, old(Now()))
      decreases MAX_DEPTH + 1 - depth, 0
    {
      ghost var levels := MAX_DEPTH + 1 - depth;
      var path := PathOf(env, args[i]);
      FileNeeded(env, args, i, levels, Now());
      if !env.allowed(path) {
        return Err("analysis input is outside the project and explicit input roots");
      }
      if path in stack {
        CycleHasNoFlattening(env, args, i, stack, levels);
        return Err("response file cycle");
      }
      stack := stack + {path};
      var text := env.files(path);
      if text.None? || |text.value| > MAX_ARGUMENT_BYTES {
        return Err("cannot read response file");
      }
      bytes := bytes + |text.value|;
      if bytes > MAX_ARGUMENT_BYTES {
        return Err("response input exceeds size limit");
      }
      inputs := inputs + [path];
      var inner := SplitCommand(text.value, env.windows);
      if inner.Err? {
        return Err(inner.error);
      }
      NeedsInner(env, old(stack), args, i);
      ghost var entered := Now();
      r := Expand(inner.value, depth + 1);
      if r.Ok? { Left(env, args[i], levels, old(Now()), entered, Now()); }
      else { BeyondInside(env, args[i], levels, old(Now()), entered); }
      stack := stack - {path};
    }
  }

  /** The output and the budgets of an expansion. */
  datatype Spent = Spent(expanded: seq<string>, bytes: nat, inputs: seq<string>)

  predicate Within(s: Spent) {
    |s.expanded| <= MAX_ARGUMENTS && s.bytes <= MAX_ARGUMENT_BYTES
  }

  /** From `a` to `b` exactly the flattening of the arguments was added. */
  predicate Grown(env: Environment, args: seq<string>, levels: nat, a: Spent, b: Spent) {
    && Flatten(env, args, levels).Some?
    && b.expanded == a.expanded + Flatten(env, args, levels).value
    && b.bytes == a.bytes + BytesRead(env, args, levels)
    && b.inputs == a.inputs + FilesRead(env, args, levels)
  }

  /** From `a` on, the flattening of the arguments reaches a limit. */
  predicate Beyond(env: Environment, args: seq<string>, levels: nat, a: Spent)
    requires Flatten(env, args, levels).Some?
  {
    || |a.expanded| + |Flatten(env, args, levels).value| >= MAX_ARGUMENTS
    || a.bytes + BytesRead(env, args, levels) > MAX_ARGUMENT_BYTES
  }

  lemma GrownNone(env: Environment, levels: nat, a: Spent)
    requires levels > 0
    ensures forall args: seq<string> :: Grown(env, args[..0], levels, a, a)
  {
    var none: seq<string> := [];
    assert forall args: seq<string> :: args[..0] == none;
    assert a.expanded + [] == a.expanded && a.inputs + [] == a.inputs;
  }

  lemma {:induction false} BeyondCount(env: Environment, args: seq<string>, i: nat, levels: nat, a: Spent, b: Spent)
    requires i <= |args| && Grown(env, args[..i], levels, a, b) && |b.expanded| >= MAX_ARGUMENTS
    ensures Flatten(env, args, levels).Some? ==> Beyond(env, args, levels, a)
  {
    FlattenPrefix(env, args, i, levels);
  }

  lemma GrownPlain(env: Environment, arg: string, levels: nat, a: Spent, b: Spent)
    requires levels > 0 && !IsResponse(arg) && b == a.(expanded := a.expanded + [arg])
    ensures Grown(env, [arg], levels, a, b)
  {
    OnePlain(env, arg, levels);
    assert a.inputs + [] == a.inputs;
  }

  lemma GrownNext(env: Environment, args: seq<string>, i: nat, levels: nat, a: Spent, b: Spent, c: Spent)
    requires i < |args| && levels > 0 && Grown(env, args[..i], levels, a, b) && Grown(env, [args[i]], levels, b, c)
    ensures Grown(env, args[..i + 1], levels, a, c)
  {
    FlattenStep(env, args, i, levels);
  }

  /** An argument that reaches a limit makes the whole list reach it. */
  lemma {:induction false} BeyondNext(env: Environment, args: seq<string>, i: nat, levels: nat, a: Spent, b: Spent)
    requires i < |args| && levels > 0 && Grown(env, args[..i], levels, a, b)
    requires Flatten(env, args, levels).Some? ==> Flatten(env, [args[i]], levels).Some? && Beyond(env, [args[i]], levels, b)
    ensures Flatten(env, args, levels).Some? ==> Beyond(env, args, levels, a)
  {
    FlattenStep(env, args, i, levels);
    FlattenPrefix(env, args, i + 1, levels);
  }

  /** Leaving a file: its own entry, and then what its arguments added. */
  /** What flattens needs this file, and its bytes count. */
  lemma FileNeeded(env: Environment, args: seq<string>, i: nat, levels: nat, a: Spent)
    requires levels > 0 && i < |args| && IsResponse(args[i])
    ensures Flatten(env, args, levels).Some? ==>
      && Flatten(env, [args[i]], levels).Some? && Inner(env, PathOf(env, args[i])).Some?
      && Flatten(env, Inner(env, PathOf(env, args[i])).value, levels - 1).Some?
      && (a.bytes + |env.files(PathOf(env, args[i])).value| > MAX_ARGUMENT_BYTES ==> Beyond(env, [args[i]], levels, a))
  {
    if Flatten(env, args, levels).Some? {
      ArgumentNeeded(env, args, i, levels);
      OneFile(env, args[i], levels);
    }
  }

  lemma {:induction false} BeyondInside(env: Environment, arg: string, levels: nat, a: Spent, entered: Spent)
    requires levels > 0 && IsResponse(arg) && Inner(env, PathOf(env, arg)).Some?
    requires var path := PathOf(env, arg);
      entered == Spent(a.expanded, a.bytes + |env.files(path).value|, a.inputs + [path])
    ensures Flatten(env, [arg], levels).Some? && Beyond(env, Inner(env, PathOf(env, arg)).value, levels - 1, entered) ==>
      Beyond(env, [arg], levels, a)
  {
    OneFile(env, arg, levels);
  }

  lemma Left(env: Environment, arg: string, levels: nat, a: Spent, entered: Spent, b: Spent)
    requires levels > 0 && IsResponse(arg) && Inner(env, PathOf(env, arg)).Some?
    requires var path := PathOf(env, arg);
      entered == Spent(a.expanded, a.bytes + |env.files(path).value|, a.inputs + [path])
      && Grown(env, Inner(env, path).value, levels - 1, entered, b)
    ensures Grown(env, [arg], levels, a, b)
  {
    OneFile(env, arg, levels);
  }

  lemma {:induction false} OnePlain(env: Environment, arg: string, levels: nat)
    requires !IsResponse(arg) && levels > 0
    ensures Flatten(env, [arg], levels) == Some([arg]) && BytesRead(env, [arg], levels) == 0 && FilesRead(env, [arg], levels) == []
  {
    assert [arg][1..] == [] && [arg] + [] == [arg];
  }

  lemma {:induction false} OneFile(env: Environment, arg: string, levels: nat)
    requires IsResponse(arg) && levels > 0
    ensures
      var inner := Inner(env, PathOf(env, arg));
      && Flatten(env, [arg], levels) == (if inner.None? then None else Flatten(env, inner.value, levels - 1))
      && (Flatten(env, [arg], levels).Some? ==>
            && BytesRead(env, [arg], levels) ==
                 |env.files(PathOf(env, arg)).value| + BytesRead(env, inner.value, levels - 1)
            && FilesRead(env, [arg], levels) == [PathOf(env, arg)] + FilesRead(env, inner.value, levels - 1))
  {
    assert [arg][1..] == [];
    var inner := Inner(env, PathOf(env, arg));
    if inner.Some? && Flatten(env, inner.value, levels - 1).Some? {
      assert Flatten(env, inner.value, levels - 1).value + [] == Flatten(env, inner.value, levels - 1).value;
    }
  }

  /**
   A top-level expansion: the flattening, through at most eight levels of files, and the files read,
   within 16384 arguments and one megabyte. It fails only where there is none.
   */
  method ExpandResponses(env: Environment, args: seq<string>) returns (r: Result<seq<string>, string>, inputs: seq<string>)
    ensures r.Ok? ==> Flatten(env, args, 9) == Some(r.value) && inputs == FilesRead(env, args, 9)
    ensures r.Ok? ==> (forall a :: a in r.value ==> !IsResponse(a)) && |r.value| <= 16384 && BytesRead(env, args, 9) <= 0x10_0000
    ensures r.Err? && Flatten(env, args, 9).Some? ==>
      |Flatten(env, args, 9).value| >= 16384 || BytesRead(env, args, 9) > 0x10_0000
  {
    var expander := new Expander(env);
    var done := expander.Expand(args, 0);
    if done.Err? {
      return Err(done.error), expander.inputs;
    }
    FlattenedPlain(env, args, MAX_DEPTH + 1);
    assert [] + Flatten(env, args, 9).value == Flatten(env, args, 9).value;
    assert [] + FilesRead(env, args, 9) == FilesRead(env, args, 9);
    return Ok(expander.expanded), expander.inputs;
  }

  // --- What an argument means --------------------------------------------------------------

  /** `@n` names a file under the directory, or anywhere when `n` is absolute. */
  predicate ResponsePath(env: Environment, arg: string, path: string) {
    |arg| > 1 && arg[0] == '@' && if arg[1] == '/' then path == arg[1..] else NameUnder(path, env.directory, arg[1..])
  }

  /** A readable response file of at most one megabyte and the arguments in it. */
  predicate Holds(env: Environment, path: string, inner: seq<string>) {
    && env.allowed(path) && env.files(path).Some? && |env.files(path).value| <= 0x10_0000
    && Tokens(env.files(path).value, env.windows, START) == Ok(inner)
  }

  /** One argument: itself, unless it names a response file; then the file's arguments, one level deeper. */
  lemma {:induction false} ArgumentMeaning(env: Environment, arg: string, path: string, inner: seq<string>, levels: nat)
    requires levels > 0
    ensures arg == "" || arg[0] != '@' || arg == "@" ==>
      Flatten(env, [arg], levels) == Some([arg]) && FilesRead(env, [arg], levels) == []
    ensures ResponsePath(env, arg, path) && Holds(env, path, inner) ==>
      && Flatten(env, [arg], levels) == Flatten(env, inner, levels - 1)
      && (Flatten(env, [arg], levels).Some? ==> FilesRead(env, [arg], levels) == [path] + FilesRead(env, inner, levels - 1))
    ensures ResponsePath(env, arg, path) && (forall other :: !Holds(env, path, other)) ==> Flatten(env, [arg], levels).None?
  {
    if IsResponse(arg) {
      OneFile(env, arg, levels);
      if arg[1] != '/' { UnderIsJoin(path, env.directory, arg[1..]); }
      if ResponsePath(env, arg, path) {
        assert path == PathOf(env, arg);
        if Inner(env, path).Some? { assert Holds(env, path, Inner(env, path).value); }
      }
    } else {
      OnePlain(env, arg, levels);
    }
  }

  /** The flattening of a list is that of its parts in order, and so are the files read. */
  lemma {:induction false} ListMeaning(env: Environment, a: seq<string>, b: seq<string>, levels: nat)
    requires levels > 0 && Flatten(env, a, levels).Some? && Flatten(env, b, levels).Some?
    ensures Flatten(env, [], levels) == Some([]) && FilesRead(env, [], levels) == []
    ensures Flatten(env, a + b, levels) == Some(Flatten(env, a, levels).value + Flatten(env, b, levels).value)
    ensures FilesRead(env, a + b, levels) == FilesRead(env, a, levels) + FilesRead(env, b, levels)
  {
    FlattenConcat(env, a, b, levels);
  }
}
