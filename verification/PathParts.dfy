/** Names under directories and parents of files, by the components of their paths. */
module PathParts {
  import opened HeaderText
  import NativeReader

  /** The components of a directory, without an empty one behind a last separator. */
  function DirectoryParts(d: string): seq<string> {
    var cs := Components(d);
    if |cs| > 1 && cs[|cs| - 1] == "" then cs[..|cs| - 1] else cs
  }

  /** `path` is the name `n` in the directory `d`. */
  predicate NameUnder(path: string, d: string, n: string) {
    Components(path) == DirectoryParts(d) + Components(n)
  }

  /** `p` is `f` without its last component; the parent of a file of the root directory is the root. */
  predicate ParentOf(p: string, f: string) {
    var cs := Components(f);
    cs != [] &&
    var front := cs[..|cs| - 1];
    if front == [] then p == "" else if front == [""] then p == "/" else Components(p) == front
  }

  lemma {:induction false} SamePath(a: string, b: string)
    requires Components(a) == Components(b)
    ensures a == b
  {
    NativeReader.GlueComponents(a);
    NativeReader.GlueComponents(b);
  }

  /** Components hold no separator, so a path has them exactly between its separators. */
  lemma {:induction false} ComponentsPlain(path: string)
    ensures Components(path) != [] && forall c :: c in Components(path) ==> '/' !in c
  {
    if path != "" { ComponentsPlain(path[1..]); }
  }

  lemma {:induction false} EndsInSeparator(e: string)
    ensures Components(e + "/") == Components(e) + [""] && Components(e) != []
  {
    NativeReader.ComponentsJoin(e, "");
    assert e + "/" + "" == e + "/";
  }

  lemma {:induction false} LastComponent(d: string)
    ensures var cs := Components(d); cs != [] && (cs[|cs| - 1] == "" ==> d == "" || d[|d| - 1] == '/')
  {
    var cs := Components(d);
    NativeReader.GlueComponents(d);
    if cs[|cs| - 1] == "" && |cs| > 1 {
      var front := cs[..|cs| - 1];
      NativeReader.GlueConcat(front, [""]);
      assert cs == front + [""];
    }
  }

  lemma {:induction false} JoinedParts(d: string, n: string)
    requires !AbsolutePath(n)
    ensures Components(Join(d, n)) == DirectoryParts(d) + Components(n)
  {
    if d != "" && d[|d| - 1] == '/' {
      var e := d[..|d| - 1];
      assert d == e + "/";
      EndsInSeparator(e);
      NativeReader.ComponentsJoin(e, n);
    } else {
      LastComponent(d);
      NativeReader.ComponentsJoin(d, n);
    }
  }

  lemma UnderIsJoin(path: string, d: string, n: string)
    requires !AbsolutePath(n)
    ensures NameUnder(path, d, n) <==> path == Join(d, n)
  {
    JoinedParts(d, n);
    if NameUnder(path, d, n) { SamePath(path, Join(d, n)); }
  }

  function WithChar(cs: seq<string>, c: char): seq<string>
    requires cs != []
  {
    cs[..|cs| - 1] + [cs[|cs| - 1] + [c]]
  }

  lemma {:induction false} LongerName(e: string, c: char)
    requires c != '/'
    ensures Components(e) != [] && Components(e + [c]) == WithChar(Components(e), c)
  {
    ComponentsPlain(e);
    if e == "" {
      assert "" + [c] == [c] && [c][1..] == "" && [c] + "" == [c];
      assert Components([c]) == [[c]];
    } else {
      var rest := Components(e[1..]);
      LongerName(e[1..], c);
      assert (e + [c])[1..] == e[1..] + [c];
      if e[0] == '/' {
        assert [""] + WithChar(rest, c) == WithChar([""] + rest, c);
      } else {
        WithFront(rest, e[0], c);
      }
    }
  }

  lemma WithFront(rest: seq<string>, first: char, c: char)
    requires rest != []
    ensures var longer := WithChar(rest, c);
      [[first] + longer[0]] + longer[1..] == WithChar([[first] + rest[0]] + rest[1..], c)
  {
    if |rest| == 1 { assert [first] + (rest[0] + [c]) == [first] + rest[0] + [c]; }
  }

  lemma {:induction false} ParentIsParent(p: string, f: string)
    ensures ParentOf(p, f) <==> p == Parent(f)
  {
    if f == "" {
      assert Components(f) == [""];
    } else {
      var e, c := f[..|f| - 1], f[|f| - 1];
      assert f == e + [c];
      if c == '/' {
        EndsInSeparator(e);
        assert Components(f)[..|Components(e)|] == Components(e);
        NativeReader.GlueComponents(e);
        if Components(p) == Components(e) { SamePath(p, e); }
      } else {
        LongerName(e, c);
        assert Components(f)[..|Components(f)| - 1] == Components(e)[..|Components(e)| - 1];
        ParentIsParent(p, e);
      }
    }
  }
}
