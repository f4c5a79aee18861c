/** POSIX path handling as the server uses it: `path.join` of an absolute,
    already normalised directory with a request- or upload-supplied name, and
    `path.extname` of the result. A path is modelled by its list of segments. */
module Paths {
  import opened Options
  import opened Text

  /** A segment that normalisation keeps as it is. */
  predicate IsPlainSegment(s: string) {
    s != "" && s != "." && s != ".." && '/' !in s
  }

  predicate AllPlain(segs: seq<string>) {
    forall i :: 0 <= i < |segs| ==> IsPlainSegment(segs[i])
  }

  /** Splits on every '/': "a//b" gives ["a", "", "b"] and "/a" gives ["", "a"]. */
  function Split(p: string): (r: seq<string>)
    ensures |r| >= 1
    ensures forall i :: 0 <= i < |r| ==> '/' !in r[i]
  {
    if p == [] then [""]
    else
      var rest := Split(p[1..]);
      if p[0] == '/' then [""] + rest
      else [[p[0]] + rest[0]] + rest[1..]
  }

  /** The segments glued back together with '/' between them. */
  function Glue(segs: seq<string>): string
    requires |segs| >= 1
  {
    if |segs| == 1 then segs[0] else segs[0] + "/" + Glue(segs[1..])
  }

  /** Extending the first segment by a character in front extends the
      glued string by that character. */
  lemma GlueExtendFirst(c: char, segs: seq<string>)
    requires |segs| >= 1
    ensures Glue([[c] + segs[0]] + segs[1..]) == [c] + Glue(segs)
  {
    var t := [[c] + segs[0]] + segs[1..];
    if |segs| > 1 {
      var g := Glue(segs[1..]);
      calc {
        Glue(t);
        { assert t[0] == [c] + segs[0] && t[1..] == segs[1..]; }
        [c] + segs[0] + "/" + g;
        { Regroup([c], segs[0], "/", g); }
        [c] + (segs[0] + "/" + g);
      }
    }
  }

  lemma Regroup(a: string, b: string, c: string, d: string)
    ensures a + b + c + d == a + (b + c + d)
  {
  }

  /** Splitting loses nothing: gluing the pieces gives the path back. */
  lemma {:induction false} GlueSplit(p: string)
    ensures Glue(Split(p)) == p
  {
    if p != [] {
      var rest := Split(p[1..]);
      GlueSplit(p[1..]);
      if p[0] == '/' {
        assert Split(p)[1..] == rest;
      } else {
        GlueExtendFirst(p[0], rest);
      }
      assert p == [p[0]] + p[1..];
    }
  }

  /** A name without a separator is a single segment. */
  lemma {:induction false} SplitNoSlash(a: string)
    requires '/' !in a
    ensures Split(a) == [a]
  {
    if a != [] {
      SplitNoSlash(a[1..]);
      assert a == [a[0]] + a[1..];
    }
  }

  /** A separator after a separator-free prefix starts a new segment. */
  lemma {:induction false} SplitAfter(a: string, rest: string)
    requires '/' !in a
    ensures Split(a + "/" + rest) == [a] + Split(rest)
  {
    if a == [] {
      assert a + "/" + rest == "/" + rest;
      assert ("/" + rest)[1..] == rest;
    } else {
      SplitAfter(a[1..], rest);
      assert (a + "/" + rest)[1..] == a[1..] + "/" + rest;
      assert a == [a[0]] + a[1..];
    }
  }

  /** The spelling of a non-root absolute path: "/s0/s1/...". */
  function Spell(segs: seq<string>): string {
    if segs == [] then "" else "/" + segs[0] + Spell(segs[1..])
  }

  /** The absolute path with the given segments; the root is "/". */
  function Render(segs: seq<string>): string {
    if segs == [] then "/" else Spell(segs)
  }

  lemma {:induction false} SpellAppend(a: seq<string>, b: seq<string>)
    ensures Spell(a + b) == Spell(a) + Spell(b)
  {
    if a != [] {
      calc {
        Spell(a + b);
        { assert (a + b)[0] == a[0] && (a + b)[1..] == a[1..] + b; }
        "/" + a[0] + Spell(a[1..] + b);
        { SpellAppend(a[1..], b); }
        "/" + a[0] + (Spell(a[1..]) + Spell(b));
        Spell(a) + Spell(b);
      }
    } else {
      assert a + b == b;
    }
  }

  lemma SpellSingle(n: string)
    ensures Spell([n]) == "/" + n
  {
    assert [n][1..] == [];
  }

  /** One more segment adds "/" and that segment to the spelling. */
  lemma RenderChild(segs: seq<string>, n: string)
    ensures Render(segs + [n]) == Spell(segs) + "/" + n
  {
    var t := segs + [n];
    assert t != [];
    calc {
      Render(t);
      Spell(t);
      { SpellAppend(segs, [n]); }
      Spell(segs) + Spell([n]);
      { SpellSingle(n); }
      Spell(segs) + ("/" + n);
      Spell(segs) + "/" + n;
    }
  }

  /** The normalisation `path.join` applies, starting from the segments of an
      absolute directory: empty and "." segments vanish, ".." removes the last
      segment and cannot climb above the root, every other segment is appended. */
  function Resolve(stack: seq<string>, segs: seq<string>): (r: seq<string>)
    ensures AllPlain(stack) && (forall i :: 0 <= i < |segs| ==> '/' !in segs[i]) ==> AllPlain(r)
    decreases |segs|
  {
    if segs == [] then stack
    else if segs[0] == "" || segs[0] == "." then
      assert forall i :: 0 <= i < |segs[1..]| ==> segs[1..][i] == segs[i + 1];
      Resolve(stack, segs[1..])
    else if segs[0] == ".." then Resolve(if stack == [] then [] else stack[..|stack| - 1], segs[1..])
    else
      assert forall i :: 0 <= i < |segs[1..]| ==> segs[1..][i] == segs[i + 1];
      Resolve(stack + [segs[0]], segs[1..])
  }

  /** `path.join(Render(dir), name)` for a normalised absolute directory
      `dir`: an absolute path whose segments are all plain. */
  function Join(dir: seq<string>, name: string): (p: string)
    ensures |p| >= 1 && p[0] == '/'
    ensures AllPlain(dir) ==> exists segs :: AllPlain(segs) && p == Render(segs)
  {
    Render(Resolve(dir, Split(name)))
  }

  /** Plain segments are appended one by one. */
  lemma {:induction false} ResolvePlain(stack: seq<string>, xs: seq<string>, ys: seq<string>)
    requires AllPlain(xs)
    ensures Resolve(stack, xs + ys) == Resolve(stack + xs, ys)
    decreases |xs|
  {
    if xs != [] {
      calc {
        Resolve(stack, xs + ys);
        { assert (xs + ys)[0] == xs[0] && IsPlainSegment(xs[0]) && (xs + ys)[1..] == xs[1..] + ys; }
        Resolve(stack + [xs[0]], xs[1..] + ys);
        { ResolvePlain(stack + [xs[0]], xs[1..], ys); }
        Resolve(stack + [xs[0]] + xs[1..], ys);
        { assert stack + [xs[0]] + xs[1..] == stack + xs; }
        Resolve(stack + xs, ys);
      }
    } else {
      assert xs + ys == ys && stack + xs == stack;
    }
  }

  /** A leading separator contributes an empty first segment. */
  lemma SplitLeadingSlash(x: string)
    requires x != [] && x[0] == '/'
    ensures Split(x) == [""] + Split(x[1..])
  {
  }

  /** A leading separator, a separator-free segment and another separator
      give an empty segment, that segment and the segments of the rest. */
  lemma SplitSlashSegment(d: string, y: string)
    requires '/' !in d
    ensures Split("/" + d + "/" + y) == ["", d] + Split(y)
  {
    var m := d + "/" + y;
    assert "/" + d + "/" + y == "/" + m;
    SplitLeadingSlash("/" + m);
    assert ("/" + m)[1..] == m;
    SplitAfter(d, y);
  }

  /** The spelling of a longer directory, followed by "/" and a name. */
  lemma SpellConsSlash(d: string, tail: seq<string>, name: string)
    ensures var x := Spell(tail) + "/" + name;
      |x| >= 1 && Spell([d] + tail) + "/" + name == "/" + d + "/" + x[1..]
  {
    var x := Spell(tail) + "/" + name;
    SpelledStartsWithSlash(tail, name);
    assert ([d] + tail)[1..] == tail;
    assert "/" + d + Spell(tail) + "/" + name == "/" + d + "/" + x[1..];
  }

  /** What follows a leading separator splits into the remaining segments. */
  lemma SplitAfterRoot(x: string, segs: seq<string>)
    requires x != [] && x[0] == '/' && Split(x) == [""] + segs
    ensures Split(x[1..]) == segs
  {
    SplitLeadingSlash(x);
    assert Split(x[1..]) == Split(x)[1..];
  }

  /** One step of `SplitSpelled`: a plain segment in front of a directory
      adds itself after the root's empty segment. */
  lemma SplitSpelledCons(d: string, tail: seq<string>, name: string)
    requires IsPlainSegment(d)
    requires Split(Spell(tail) + "/" + name) == [""] + (tail + Split(name))
    ensures Split(Spell([d] + tail) + "/" + name) == [""] + ([d] + tail + Split(name))
  {
    var x := Spell(tail) + "/" + name;
    SpellConsSlash(d, tail, name);
    SpelledStartsWithSlash(tail, name);
    SplitAfterRoot(x, tail + Split(name));
    SplitSlashSegment(d, x[1..]);
    ConsRegroup("", d, tail, Split(name));
  }

  lemma ConsRegroup<T>(a: T, b: T, xs: seq<T>, ys: seq<T>)
    ensures [a, b] + (xs + ys) == [a] + ([b] + xs + ys)
  {
  }

  /** The spelling of a directory followed by "/" and a name splits into the
      root's empty segment, the directory's segments and the name's segments. */
  lemma {:induction false} SplitSpelled(dir: seq<string>, name: string)
    requires AllPlain(dir)
    ensures Split(Spell(dir) + "/" + name) == [""] + (dir + Split(name))
    decreases |dir|
  {
    if dir == [] {
      var x := "/" + name;
      assert Spell(dir) + "/" + name == x;
      SplitLeadingSlash(x);
      assert x[1..] == name;
      assert dir + Split(name) == Split(name);
    } else {
      SplitSpelled(dir[1..], name);
      SplitSpelledCons(dir[0], dir[1..], name);
      assert [dir[0]] + dir[1..] == dir;
    }
  }

  lemma SpelledStartsWithSlash(dir: seq<string>, name: string)
    ensures var x := Spell(dir) + "/" + name; x[0] == '/' && x == "/" + x[1..]
  {
  }

  /** `Join` agrees with normalising the concatenated string "dir/name",
      which is how `path.join` is defined. */
  lemma JoinIsNormalisedConcatenation(dir: seq<string>, name: string)
    requires dir != [] && AllPlain(dir)
    ensures Join(dir, name) == Render(Resolve([], Split(Render(dir) + "/" + name)))
  {
    calc {
      Render(Resolve([], Split(Render(dir) + "/" + name)));
      { SplitSpelled(dir, name); }
      Render(Resolve([], [""] + (dir + Split(name))));
      { assert ([""] + (dir + Split(name)))[1..] == dir + Split(name); }
      Render(Resolve([], dir + Split(name)));
      { ResolvePlain([], dir, Split(name)); assert [] + dir == dir; }
      Render(Resolve(dir, Split(name)));
    }
  }

  /** Without ".." segments the directory is never left: the result keeps the
      directory's segments as a prefix. */
  lemma {:induction false} ResolveKeepsPrefix(stack: seq<string>, segs: seq<string>)
    requires ".." !in segs
    ensures |stack| <= |Resolve(stack, segs)| && Resolve(stack, segs)[..|stack|] == stack
    decreases |segs|
  {
    if segs != [] {
      if segs[0] == "" || segs[0] == "." {
        ResolveKeepsPrefix(stack, segs[1..]);
      } else {
        ResolveKeepsPrefix(stack + [segs[0]], segs[1..]);
        assert (stack + [segs[0]])[..|stack|] == stack;
      }
    }
  }

  /** A name with no ".." segment joins to a path that starts with the
      directory's own spelling. */
  lemma JoinWithoutParentStaysUnder(dir: seq<string>, name: string)
    requires dir != [] && ".." !in Split(name)
    ensures StartsWith(Join(dir, name), Render(dir))
  {
    var r := Resolve(dir, Split(name));
    ResolveKeepsPrefix(dir, Split(name));
    assert r == dir + r[|dir|..];
    SpellAppend(dir, r[|dir|..]);
  }

  /** A plain name joins to the directory's child of that name. */
  lemma JoinPlain(dir: seq<string>, n: string)
    requires IsPlainSegment(n)
    ensures Join(dir, n) == Render(dir + [n]) == Spell(dir) + "/" + n
  {
    SplitNoSlash(n);
    assert Resolve(dir, [n]) == Resolve(dir + [n], []);
    RenderChild(dir, n);
  }

  /** "../f" joined to a directory is the entry `f` beside that directory. */
  lemma JoinParentEntry(parent: seq<string>, last: string, f: string)
    requires IsPlainSegment(f)
    ensures Join(parent + [last], ".." + "/" + f) == Spell(parent) + "/" + f
  {
    var dir := parent + [last];
    SplitAfter("..", f);
    SplitNoSlash(f);
    var segs := [".."] + [f];
    calc {
      Resolve(dir, segs);
      { assert dir[..|dir| - 1] == parent && segs[1..] == [f]; }
      Resolve(parent, [f]);
      Resolve(parent + [f], []);
    }
    RenderChild(parent, f);
  }

  /** `s.lastIndexOf(c)`. */
  function LastIndexOf(s: string, c: char): (r: Option<nat>)
    ensures r.Some? ==> r.value < |s| && s[r.value] == c
    ensures r.Some? ==> forall j :: r.value < j < |s| ==> s[j] != c
    ensures r.None? ==> c !in s
  {
    if s == [] then None
    else if s[|s| - 1] == c then Some(|s| - 1)
    else LastIndexOf(s[..|s| - 1], c)
  }

  /** The last segment of a path. */
  function Basename(p: string): (b: string)
    ensures '/' !in b && EndsWith(p, b)
  {
    match LastIndexOf(p, '/')
    case None => p
    case Some(i) => p[i + 1..]
  }

  /** `path.extname`: from the last '.' of the last segment to its end, or ""
      when that segment has no '.', starts with its only '.', or is "..". The
      extension is a dotted ending of the path with no other '.' and no '/'. */
  function ExtName(p: string): (e: string)
    ensures e != "" ==> e[0] == '.' && '.' !in e[1..] && '/' !in e && EndsWith(p, e)
  {
    var b := Basename(p);
    if b == ".." then ""
    else match LastIndexOf(b, '.')
      case Some(i) =>
        if i > 0 then
          assert b[i..][1..] == b[i + 1..];
          SuffixOfSuffix(p, b, b[i..]);
          b[i..]
        else ""
      case None => ""
  }

  lemma SuffixOfSuffix(s: string, t: string, u: string)
    requires EndsWith(s, t) && EndsWith(t, u)
    ensures EndsWith(s, u)
  {
    assert s[|s| - |u|..] == t[|t| - |u|..];
  }

  /** The last segment of a child path is the child's name. */
  lemma BasenameOfChild(dir: seq<string>, n: string)
    requires '/' !in n
    ensures Basename(Spell(dir) + "/" + n) == n
  {
    var p := Spell(dir) + "/" + n;
    var k := |Spell(dir)|;
    assert p[k] == '/';
    var r := LastIndexOf(p, '/');
    assert r.Some?;
    assert r.value == k;
    assert p[k + 1..] == n;
  }

  /** A name ending with a dotted suffix that has no other '.', with something
      in front of it, has that suffix as its extension. */
  lemma ExtNameOfSuffix(dir: seq<string>, n: string, e: string)
    requires IsPlainSegment(n) && |e| >= 1 && e[0] == '.' && '.' !in e[1..]
    requires EndsWith(n, e) && |n| > |e|
    ensures ExtName(Spell(dir) + "/" + n) == e
  {
    BasenameOfChild(dir, n);
    var k := |n| - |e|;
    assert n[k] == e[0];
    var r := LastIndexOf(n, '.');
    assert r.Some?;
    assert r.value == k;
    assert n[k..] == e;
  }

  /** A name whose only '.' is its first character has no extension. */
  lemma ExtNameOfDotName(dir: seq<string>, n: string)
    requires '/' !in n && |n| >= 1 && n[0] == '.' && '.' !in n[1..]
    ensures ExtName(Spell(dir) + "/" + n) == ""
  {
    BasenameOfChild(dir, n);
    assert n != ".." by {
      assert ".."[1..] == ".";
    }
    var r := LastIndexOf(n, '.');
    assert r.Some?;
  }
}
