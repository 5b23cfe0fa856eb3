/**
  POSIX path joining and resolution, as Node's `path.join` and `path.resolve` perform them.

  A path is cut at every '/' into segments. Normalisation walks the segments left to right
  with a stack: an empty segment (from "//" or an end slash) and "." are skipped, ".." pops
  the previous segment, and any other segment is pushed. A ".." with nothing to pop (or with
  only ".." below it) is kept in a relative path and dropped in an absolute one. The stack is
  then joined with '/', a leading '/' is put back on an absolute path, and a trailing '/' of
  the input is kept. An empty relative result is ".", or "./" when the input ended in '/'.
*/
module PosixPath {

  // ---------------------------------------------------------------------------------------
  // Segments
  // ---------------------------------------------------------------------------------------

  /** The pieces of `s` between slashes, empty pieces included: "a//b/" gives "a", "", "b", "". */
  function Split(s: string): (segs: seq<string>)
    ensures |segs| >= 1
    ensures forall i | 0 <= i < |segs| :: '/' !in segs[i]
    decreases |s|
  {
    if s == [] then [""]
    else if s[0] == '/' then [""] + Split(s[1..])
    else
      var rest := Split(s[1..]);
      [[s[0]] + rest[0]] + rest[1..]
  }

  /** The segments glued back together with '/' between them. */
  function JoinSlash(segs: seq<string>): string
  {
    if segs == [] then ""
    else if |segs| == 1 then segs[0]
    else segs[0] + "/" + JoinSlash(segs[1..])
  }

  /** The last segment of a path (the empty string when the path ends in '/'). */
  function Basename(path: string): string
  {
    var segs := Split(path);
    segs[|segs| - 1]
  }

  /** A segment that normalisation keeps as it is and that no slash can hide in. */
  predicate PlainSegment(seg: string)
  {
    seg != "" && seg != "." && seg != ".." && '/' !in seg
  }

  predicate AllPlain(segs: seq<string>)
  {
    forall i | 0 <= i < |segs| :: PlainSegment(segs[i])
  }

  /** A relative path with no empty, "." or ".." segment, such as "@app/main" or "package.json". */
  predicate PlainPath(p: string)
  {
    AllPlain(Split(p))
  }

  predicate EndsWith(s: string, suffix: string)
  {
    |suffix| <= |s| && s[|s| - |suffix|..] == suffix
  }

  // ---------------------------------------------------------------------------------------
  // Normalisation
  // ---------------------------------------------------------------------------------------

  /** One segment of the normalisation walk applied to the stack of kept segments. */
  function Step(stack: seq<string>, seg: string, allowAboveRoot: bool): seq<string>
  {
    if seg == "" || seg == "." then stack
    else if seg == ".." then
      if |stack| > 0 && stack[|stack| - 1] != ".." then stack[..|stack| - 1]
      else if allowAboveRoot then stack + [".."]
      else stack
    else stack + [seg]
  }

  /** The stack left after walking all of `segs`; no empty or "." segment survives, and an
      absolute walk (`allowAboveRoot` false) keeps no "..". */
  function ResolveSegments(segs: seq<string>, allowAboveRoot: bool): (stack: seq<string>)
    ensures forall i | 0 <= i < |stack| :: stack[i] != "" && stack[i] != "."
    ensures forall i | 0 <= i < |stack| :: stack[i] == ".." || stack[i] in segs
    ensures !allowAboveRoot ==> ".." !in stack
    ensures forall i, j | 0 <= i < j < |stack| :: stack[j] == ".." ==> stack[i] == ".."
    decreases |segs|
  {
    if segs == [] then []
    else Step(ResolveSegments(segs[..|segs| - 1], allowAboveRoot), segs[|segs| - 1], allowAboveRoot)
  }

  /** A normalised path: between the slash of a root and the slash at the end no segment is
      empty, no segment after the first is "."; an absolute path has no ".." and a relative one has them only at its front;
      "." stands alone, with at most a closing slash. */
  predicate NormalForm(r: string)
  {
    var segs := Split(r);
    && r != ""
    && (forall i | 0 < i < |segs| - 1 :: segs[i] != "")
    && (forall i | 0 < i < |segs| :: segs[i] != ".")
    && (r[0] == '/' ==> ".." !in segs)
    && (forall i, j | 0 <= i < j < |segs| :: segs[j] == ".." ==> segs[i] == "..")
    && (segs[0] == "." ==> r == "." || r == "./")
  }

  /** `path.posix.normalize`. */
  function Normalize(path: string): (r: string)
    ensures NormalForm(r)
    ensures path != "" && path[0] == '/' ==> r[0] == '/'
    ensures path != "" && path[|path| - 1] == '/' ==> r[|r| - 1] == '/'
  {
    if path == "" then DotNormal(); "."
    else
      var absolute := path[0] == '/';
      var trailing := path[|path| - 1] == '/';
      var stack := ResolveSegments(Split(path), !absolute);
      if stack == [] then
        if absolute then RootNormal(); "/"
        else if trailing then DotSlashNormal(); "./"
        else DotNormal(); "."
      else
        var body := JoinSlash(stack);
        var kept := if trailing then body + "/" else body;
        NoSlashInStack(Split(path), stack);
        LayoutNormal(stack, absolute, trailing);
        JoinSlashLast(stack);
        if absolute then "/" + kept else kept
  }

  /** The segments the walk keeps come from `segs`, so they hold no slash. */
  lemma NoSlashInStack(segs: seq<string>, stack: seq<string>)
    requires forall k | 0 <= k < |segs| :: '/' !in segs[k]
    requires forall i | 0 <= i < |stack| :: stack[i] == ".." || stack[i] in segs
    ensures forall i | 0 <= i < |stack| :: '/' !in stack[i]
  {
    forall i | 0 <= i < |stack|
      ensures '/' !in stack[i]
    {
      if stack[i] != ".." {
        var k :| 0 <= k < |segs| && segs[k] == stack[i];
      }
    }
  }

  lemma DotNormal()
    ensures NormalForm(".")
  {
    SplitSingle(".");
  }

  lemma DotSlashNormal()
    ensures NormalForm("./")
  {
    assert "./" == "." + "/" + "";
    SplitConcat(".", "");
    SplitSingle(".");
  }

  lemma RootNormal()
    ensures NormalForm("/")
  {
    assert "/" == "" + "/" + "";
    SplitConcat("", "");
  }

  /** A non-empty kept stack, glued with '/', with the root slash and the closing slash put
      back, is in normal form. */
  lemma LayoutNormal(stack: seq<string>, absolute: bool, trailing: bool)
    requires stack != []
    requires forall i | 0 <= i < |stack| :: stack[i] != "" && stack[i] != "." && '/' !in stack[i]
    requires forall i, j | 0 <= i < j < |stack| :: stack[j] == ".." ==> stack[i] == ".."
    requires absolute ==> ".." !in stack
    ensures
      var body := JoinSlash(stack);
      var kept := if trailing then body + "/" else body;
      NormalForm(if absolute then "/" + kept else kept)
  {
    var body := JoinSlash(stack);
    var kept := if trailing then body + "/" else body;
    var r := if absolute then "/" + kept else kept;
    var pre: seq<string> := if absolute then [""] else [];
    var post: seq<string> := if trailing then [""] else [];
    LayoutSplit(stack, kept, r, absolute, trailing);
    assert pre + (stack + post) == pre + stack + post;
    SegmentsNormal(r, pre, stack, post);
  }

  /** The segments of a glued stack with an optional root slash and closing slash. */
  lemma LayoutSplit(stack: seq<string>, kept: string, r: string, absolute: bool, trailing: bool)
    requires stack != []
    requires forall i | 0 <= i < |stack| :: stack[i] != "" && '/' !in stack[i]
    requires kept == if trailing then JoinSlash(stack) + "/" else JoinSlash(stack)
    requires r == if absolute then "/" + kept else kept
    ensures r != ""
    ensures Split(r) == (if absolute then [""] else []) + (stack + (if trailing then [""] else []))
  {
    var body := JoinSlash(stack);
    var post: seq<string> := if trailing then [""] else [];
    SplitJoinSlash(stack);
    SplitClosingSlash(body, trailing);
    assert Split(kept) == stack + post;
    SplitRootSlash(kept, absolute);
    if !absolute {
      assert Split(r) == [] + (stack + post);
      assert Split(r)[0] == stack[0] != Split("")[0];
    }
  }

  /** A closing slash adds one empty last segment. */
  lemma SplitClosingSlash(body: string, trailing: bool)
    ensures Split(if trailing then body + "/" else body) == Split(body) + (if trailing then [""] else [])
  {
    if trailing {
      assert body + "/" == body + "/" + "";
      SplitConcat(body, "");
    }
  }

  /** A root slash adds one empty first segment. */
  lemma SplitRootSlash(kept: string, absolute: bool)
    ensures Split(if absolute then "/" + kept else kept) == (if absolute then [""] else []) + Split(kept)
  {
    if absolute {
      assert "/" + kept == "" + "/" + kept;
      SplitConcat("", kept);
    }
  }

  /** A path whose segments are a kept stack between an optional root and an optional closing
      empty segment is in normal form. */
  lemma SegmentsNormal(r: string, pre: seq<string>, stack: seq<string>, post: seq<string>)
    requires r != "" && Split(r) == pre + stack + post
    requires pre == [] || pre == [""]
    requires post == [] || post == [""]
    requires stack != []
    requires forall i | 0 <= i < |stack| :: stack[i] != "" && stack[i] != "."
    requires forall i, j | 0 <= i < j < |stack| :: stack[j] == ".." ==> stack[i] == ".."
    requires pre == [""] ==> ".." !in stack
    ensures NormalForm(r)
  {
    var segs := Split(r);
    assert r[0] == '/' ==> segs[0] == "";
    StackSegments(segs, pre, stack, post);
  }

  /** The segment-level clauses of the normal form for a kept stack between an optional root
      and an optional closing empty segment. */
  lemma StackSegments(segs: seq<string>, pre: seq<string>, stack: seq<string>, post: seq<string>)
    requires segs == pre + stack + post
    requires pre == [] || pre == [""]
    requires post == [] || post == [""]
    requires stack != []
    requires forall i | 0 <= i < |stack| :: stack[i] != "" && stack[i] != "."
    requires forall i, j | 0 <= i < j < |stack| :: stack[j] == ".." ==> stack[i] == ".."
    requires pre == [""] ==> ".." !in stack
    ensures segs[0] == (if pre == [] then stack[0] else "")
    ensures forall i | 0 < i < |segs| - 1 :: segs[i] != ""
    ensures forall i | 0 < i < |segs| :: segs[i] != "."
    ensures pre == [""] ==> ".." !in segs
    ensures forall i, j | 0 <= i < j < |segs| :: segs[j] == ".." ==> segs[i] == ".."
  {
    forall i | 0 < i < |segs| - 1
      ensures segs[i] != ""
    {
      assert segs[i] == stack[i - |pre|];
    }
    forall i | 0 < i < |segs|
      ensures segs[i] != "."
    {
      if i < |pre| + |stack| {
        assert segs[i] == stack[i - |pre|];
      } else {
        assert segs[i] == "";
      }
    }
    if pre == [] {
      forall i, j | 0 <= i < j < |segs| && segs[j] == ".."
        ensures segs[i] == ".."
      {
        assert j < |stack| && segs[j] == stack[j] && segs[i] == stack[i];
      }
    } else {
      assert forall k | 0 <= k < |segs| :: segs[k] == "" || segs[k] in stack;
    }
  }

  /** Cutting the glued segments at their slashes gives them back. */
  lemma {:induction false} SplitJoinSlash(stack: seq<string>)
    requires stack != []
    requires forall i | 0 <= i < |stack| :: '/' !in stack[i]
    ensures Split(JoinSlash(stack)) == stack
    decreases |stack|
  {
    if |stack| == 1 {
      SplitSingle(stack[0]);
    } else {
      SplitJoinSlash(stack[1..]);
      SplitSingle(stack[0]);
      SplitConcat(stack[0], JoinSlash(stack[1..]));
    }
  }

  /** The non-empty arguments of `path.join`, glued with '/'; "" when there is none. */
  function Joined(args: seq<string>): string
  {
    if args == [] then ""
    else
      var prev := Joined(args[..|args| - 1]);
      var arg := args[|args| - 1];
      if arg == "" then prev else if prev == "" then arg else prev + "/" + arg
  }

  /** `path.posix.join(...args)`. */
  function Join(args: seq<string>): (r: string)
    ensures NormalForm(r)
    ensures args != [] && args[0] != "" && args[0][0] == '/' ==> r[0] == '/'
    ensures args != [] && args[|args| - 1] != "" && args[|args| - 1][|args[|args| - 1]| - 1] == '/' ==>
      r[|r| - 1] == '/'
  {
    if args != [] && args[0] != "" then JoinedStart(args); Normalize(Joined(args))
    else Normalize(Joined(args))
  }

  /** The glued arguments start where the first argument does. */
  lemma {:induction false} JoinedStart(args: seq<string>)
    requires args != [] && args[0] != ""
    ensures Joined(args) != "" && Joined(args)[0] == args[0][0]
    decreases |args|
  {
    if |args| > 1 {
      var init := args[..|args| - 1];
      assert init[0] == args[0];
      JoinedStart(init);
    } else {
      assert args[..0] == [];
    }
  }

  /** The right-to-left scan of `path.resolve`: each non-empty argument is put in front of
      what has been gathered, until an absolute one is met. Yields the gathered path and
      whether it is absolute. */
  function Gather(args: seq<string>, acc: string): (string, bool)
    decreases |args|
  {
    if args == [] then (acc, false)
    else
      var arg := args[|args| - 1];
      if arg == "" then Gather(args[..|args| - 1], acc)
      else if arg[0] == '/' then (arg + "/" + acc, true)
      else Gather(args[..|args| - 1], arg + "/" + acc)
  }

  /** `path.posix.resolve(p)` in a process whose working directory is `cwd`. */
  function Resolve(cwd: string, p: string): (r: string)
    ensures r != ""
    ensures (cwd != "" && cwd[0] == '/') || (p != "" && p[0] == '/') ==> r[0] == '/'
    ensures r == "/" || r[|r| - 1] != '/'
  {
    GatherRooted(cwd, p);
    var gathered := Gather([cwd, p], "");
    var stack := ResolveSegments(Split(gathered.0), !gathered.1);
    var body := JoinSlash(stack);
    if stack != [] then
      JoinSlashLast(stack);
      if gathered.1 then "/" + body else body
    else
      if gathered.1 then "/" else "."
  }

  /** The scan of `path.resolve` ends at an absolute path when the working directory or the
      argument is one. */
  lemma GatherRooted(cwd: string, p: string)
    ensures (cwd != "" && cwd[0] == '/') || (p != "" && p[0] == '/') ==> Gather([cwd, p], "").1
  {
    assert [cwd, p][..1] == [cwd];
    assert [cwd][..0] == [];
    if p == "" {
      assert Gather([cwd, p], "") == Gather([cwd], "");
    } else if p[0] != '/' {
      assert Gather([cwd, p], "") == Gather([cwd], p + "/" + "");
    }
  }

  /** Segments whose last one is non-empty glue into a path that ends with that segment's
      last character. */
  lemma {:induction false} JoinSlashLast(segs: seq<string>)
    requires segs != [] && segs[|segs| - 1] != ""
    ensures JoinSlash(segs) != ""
    ensures JoinSlash(segs)[|JoinSlash(segs)| - 1] == segs[|segs| - 1][|segs[|segs| - 1]| - 1]
    decreases |segs|
  {
    if |segs| > 1 {
      var rest := segs[1..];
      assert rest[|rest| - 1] == segs[|segs| - 1];
      JoinSlashLast(rest);
    }
  }

  // ---------------------------------------------------------------------------------------
  // Lemmas about segments
  // ---------------------------------------------------------------------------------------

  /** A slash between two strings separates their segments. */
  lemma {:induction false} SplitConcat(a: string, b: string)
    ensures Split(a + "/" + b) == Split(a) + Split(b)
    decreases |a|
  {
    if a == [] {
      assert a + "/" + b == "/" + b;
      assert ("/" + b)[1..] == b;
    } else {
      assert (a + "/" + b)[0] == a[0];
      assert (a + "/" + b)[1..] == a[1..] + "/" + b;
      SplitConcat(a[1..], b);
    }
  }

  /** A string without a slash is a single segment. */
  lemma {:induction false} SplitSingle(x: string)
    requires '/' !in x
    ensures Split(x) == [x]
    decreases |x|
  {
    if x != [] {
      assert '/' !in x[1..] by {
        forall k | 0 <= k < |x[1..]| ensures x[1..][k] != '/' {
          assert x[1..][k] == x[k + 1];
        }
      }
      SplitSingle(x[1..]);
      assert [x[0]] + x[1..] == x;
    }
  }

  /** Splitting and gluing back gives the original string. */
  lemma {:induction false} JoinSplit(s: string)
    ensures JoinSlash(Split(s)) == s
    decreases |s|
  {
    if s != [] {
      JoinSplit(s[1..]);
      var rest := Split(s[1..]);
      if s[0] == '/' {
        assert Split(s) == [""] + rest;
        assert ([""] + rest)[1..] == rest;
        assert s == "/" + s[1..];
      } else {
        assert Split(s) == [[s[0]] + rest[0]] + rest[1..];
        if |rest| == 1 {
          assert s == [s[0]] + s[1..];
        } else {
          assert ([[s[0]] + rest[0]] + rest[1..])[1..] == rest[1..];
          assert JoinSlash(rest) == rest[0] + "/" + JoinSlash(rest[1..]);
          assert s == [s[0]] + s[1..];
        }
      }
    }
  }

  /** Segments split apart by `Split` determine the string. */
  lemma SplitInjective(a: string, b: string)
    requires Split(a) == Split(b)
    ensures a == b
  {
    JoinSplit(a);
    JoinSplit(b);
  }

  /** Gluing two non-empty segment lists puts a slash between their gluings. */
  lemma {:induction false} JoinSlashAppend(a: seq<string>, b: seq<string>)
    requires a != [] && b != []
    ensures JoinSlash(a + b) == JoinSlash(a) + "/" + JoinSlash(b)
    decreases |a|
  {
    if |a| == 1 {
      assert (a + b)[1..] == b;
    } else {
      assert (a + b)[1..] == a[1..] + b;
      JoinSlashAppend(a[1..], b);
    }
  }

  /** A plain path is non-empty and neither starts nor ends with a slash. */
  lemma PlainPathShape(p: string)
    requires PlainPath(p)
    ensures p != "" && p[0] != '/' && p[|p| - 1] != '/'
  {
    var segs := Split(p);
    assert PlainSegment(segs[0]) && PlainSegment(segs[|segs| - 1]);
    if p != "" && p[|p| - 1] == '/' {
      var n := |p| - 1;
      assert p == p[..n] + "/" + "";
      SplitConcat(p[..n], "");
    }
  }

  /** Two plain paths joined by a slash form a plain path. */
  lemma PlainConcat(a: string, b: string)
    requires PlainPath(a) && PlainPath(b)
    ensures PlainPath(a + "/" + b)
  {
    SplitConcat(a, b);
  }

  // ---------------------------------------------------------------------------------------
  // Lemmas about normalisation
  // ---------------------------------------------------------------------------------------

  /** Walking plain segments pushes each of them, whatever came before. */
  lemma {:induction false} ResolvePlainSuffix(a: seq<string>, b: seq<string>, allowAboveRoot: bool)
    requires AllPlain(b)
    ensures ResolveSegments(a + b, allowAboveRoot) == ResolveSegments(a, allowAboveRoot) + b
    decreases |b|
  {
    if b == [] {
      assert a + b == a;
    } else {
      var n := |b| - 1;
      assert AllPlain(b[..n]);
      ResolvePlainSuffix(a, b[..n], allowAboveRoot);
      assert (a + b)[..|a + b| - 1] == a + b[..n];
      assert (a + b)[|a + b| - 1] == b[n];
      assert b[..n] + [b[n]] == b;
    }
  }

  /** Normalisation leaves a plain path untouched. */
  lemma NormalizePlain(p: string)
    requires PlainPath(p)
    ensures Normalize(p) == p
  {
    PlainPathShape(p);
    var segs := Split(p);
    ResolvePlainSuffix([], segs, true);
    assert [] + segs == segs;
    JoinSplit(p);
  }

  /** The last segment of `x + "/" + f` is `f` when `f` has no slash. */
  lemma BasenameAfterSlash(x: string, f: string)
    requires '/' !in f
    ensures Basename(x + "/" + f) == f
  {
    SplitConcat(x, f);
    SplitSingle(f);
  }

  /** A leading slash does not change the last segment. */
  lemma BasenameRooted(y: string)
    ensures Basename("/" + y) == Basename(y)
  {
    SplitConcat("", y);
    assert "" + "/" + y == "/" + y;
  }

  /** Gluing a stack and one more segment `f` ends in `f`. */
  lemma BasenameOfStack(stack: seq<string>, f: string)
    requires PlainSegment(f)
    ensures JoinSlash(stack + [f]) != ""
    ensures Basename(JoinSlash(stack + [f])) == f
  {
    if stack == [] {
      assert stack + [f] == [f];
      SplitSingle(f);
    } else {
      JoinSlashAppend(stack, [f]);
      BasenameAfterSlash(JoinSlash(stack), f);
    }
  }

  // ---------------------------------------------------------------------------------------
  // Lemmas about join and resolve
  // ---------------------------------------------------------------------------------------

  /** Joining three plain paths only puts one slash between each two of them. */
  lemma JoinPlain3(a: string, b: string, c: string)
    requires PlainPath(a) && PlainPath(b) && PlainPath(c)
    ensures Join([a, b, c]) == a + "/" + b + "/" + c
  {
    PlainPathShape(a);
    PlainPathShape(b);
    PlainPathShape(c);
    assert [a, b, c][..2] == [a, b];
    assert [a, b][..1] == [a];
    assert [a][..0] == [];
    assert Joined([a]) == a;
    assert Joined([a, b]) == a + "/" + b;
    assert Joined([a, b, c]) == a + "/" + b + "/" + c;
    PlainConcat(a, b);
    PlainConcat(a + "/" + b, c);
    NormalizePlain(a + "/" + b + "/" + c);
  }

  /** Joining any directory with a plain file name yields a path whose last segment is that
      name, and which is absolute when the directory is. */
  lemma JoinFileName(dir: string, name: string)
    requires PlainSegment(name)
    ensures Basename(Join([dir, name])) == name
    ensures dir != "" && dir[0] == '/' ==> Join([dir, name])[0] == '/'
  {
    assert [dir, name][..1] == [dir];
    assert [dir][..0] == [];
    assert Joined([dir]) == dir;
    SplitSingle(name);
    if dir == "" {
      assert Joined([dir, name]) == name;
      NormalizePlain(name);
    } else {
      var raw := dir + "/" + name;
      assert Joined([dir, name]) == raw;
      SplitConcat(dir, name);
      assert raw[0] == dir[0];
      assert raw[|raw| - 1] == name[|name| - 1];
      var absolute := dir[0] == '/';
      ResolvePlainSuffix(Split(dir), [name], !absolute);
      var stack := ResolveSegments(Split(dir), !absolute);
      BasenameOfStack(stack, name);
      var body := JoinSlash(stack + [name]);
      assert Normalize(raw) == if absolute then "/" + body else body;
      if absolute {
        BasenameRooted(body);
      }
    }
  }

  /** Resolving a plain relative path from an absolute working directory yields an absolute
      path that ends with that relative path. */
  lemma ResolvePlain(cwd: string, rel: string)
    requires cwd != "" && cwd[0] == '/'
    requires PlainPath(rel)
    ensures Resolve(cwd, rel)[0] == '/'
    ensures EndsWith(Resolve(cwd, rel), "/" + rel)
  {
    ResolveAbsoluteBody(cwd, rel);
    RootedEndsWith(ResolveSegments(Split(cwd), false), rel);
  }

  /** Resolving a plain relative path from an absolute working directory resolves the
      directory's segments and appends the path's own. */
  lemma ResolveAbsoluteBody(cwd: string, rel: string)
    requires cwd != "" && cwd[0] == '/'
    requires PlainPath(rel)
    ensures Resolve(cwd, rel) == "/" + JoinSlash(ResolveSegments(Split(cwd), false) + Split(rel))
  {
    PlainPathShape(rel);
    assert [cwd, rel][..1] == [cwd];
    var gathered := cwd + "/" + (rel + "/" + "");
    assert Gather([cwd, rel], "") == (gathered, true);
    SplitConcat(cwd, rel + "/" + "");
    SplitConcat(rel, "");
    var segs := Split(cwd) + Split(rel);
    assert Split(gathered) == segs + [""];
    assert (segs + [""])[..|segs|] == segs;
    assert ResolveSegments(Split(gathered), false) == ResolveSegments(segs, false);
    ResolvePlainSuffix(Split(cwd), Split(rel), false);
  }

  /** A rooted path whose last segments are those of `rel` ends with `"/" + rel`. */
  lemma RootedEndsWith(stack: seq<string>, rel: string)
    ensures ("/" + JoinSlash(stack + Split(rel)))[0] == '/'
    ensures EndsWith("/" + JoinSlash(stack + Split(rel)), "/" + rel)
  {
    JoinSplit(rel);
    if stack == [] {
      assert stack + Split(rel) == Split(rel);
      EndsWithAppend("", "/" + rel);
    } else {
      JoinSlashAppend(stack, Split(rel));
      EndsWithAppend("/" + JoinSlash(stack), "/" + rel);
    }
  }

  /** A concatenation ends with its second part. */
  lemma EndsWithAppend(x: string, y: string)
    ensures EndsWith(x + y, y)
  {
    assert (x + y)[|x|..] == y;
  }

  /** Three non-empty arguments are glued with one slash between each two. */
  lemma JoinedThree(a: string, b: string, c: string)
    requires a != "" && b != "" && c != ""
    ensures Joined([a, b, c]) == a + "/" + b + "/" + c
  {
    assert [a, b, c][..2] == [a, b];
    assert [a, b][..1] == [a];
    assert [a][..0] == [];
    assert Joined([a]) == a;
    assert Joined([a, b]) == a + "/" + b;
  }

  /** An empty last argument adds nothing: with two plain paths before it, `join(a, b, "")`
      is `a + "/" + b`. */
  lemma JoinEmptyLast(a: string, b: string)
    requires PlainPath(a) && PlainPath(b)
    ensures Join([a, b, ""]) == a + "/" + b
  {
    PlainPathShape(a);
    PlainPathShape(b);
    assert [a, b, ""][..2] == [a, b];
    assert [a, b][..1] == [a];
    assert [a][..0] == [];
    assert Joined([a]) == a;
    assert Joined([a, b, ""]) == a + "/" + b;
    PlainConcat(a, b);
    NormalizePlain(a + "/" + b);
  }

  /** A last argument starting with ".." climbs out of the directory the second argument
      names: `join(root, scope/pkg, ../q)` is `root/scope/q`. */
  lemma JoinParent(root: string, scope: string, pkg: string, q: string)
    requires PlainSegment(root) && PlainSegment(scope) && PlainSegment(pkg) && PlainPath(q)
    ensures Join([root, scope + "/" + pkg, ".." + "/" + q]) == root + "/" + scope + "/" + q
  {
    PlainPathShape(q);
    JoinedThree(root, scope + "/" + pkg, ".." + "/" + q);
    var raw := root + "/" + (scope + "/" + (pkg + "/" + (".." + "/" + q)));
    assert Joined([root, scope + "/" + pkg, ".." + "/" + q]) == raw;
    var climbed := [root, scope, pkg, ".."];
    SplitParent(root, scope, pkg, q);
    ResolvePlainSuffix(climbed, Split(q), true);
    ResolveParent(root, scope, pkg);
    var stack := [root, scope] + Split(q);
    assert ResolveSegments(Split(raw), true) == stack;
    assert raw[0] == root[0] && raw[|raw| - 1] == q[|q| - 1];
    JoinSlashAppend([root, scope], Split(q));
    JoinSplit(q);
    assert JoinSlash([root, scope]) == root + "/" + scope;
  }

  /** The segments of `root/scope/pkg/../q`. */
  lemma SplitParent(root: string, scope: string, pkg: string, q: string)
    requires PlainSegment(root) && PlainSegment(scope) && PlainSegment(pkg)
    ensures Split(root + "/" + (scope + "/" + (pkg + "/" + (".." + "/" + q)))) ==
      [root, scope, pkg, ".."] + Split(q)
  {
    var t1 := ".." + "/" + q;
    var t2 := pkg + "/" + t1;
    var t3 := scope + "/" + t2;
    SplitCons("..", q);
    SplitCons(pkg, t1);
    SplitCons(scope, t2);
    SplitCons(root, t3);
    assert [root] + ([scope] + ([pkg] + ([".."] + Split(q)))) == [root, scope, pkg, ".."] + Split(q);
  }

  /** A segment with no slash, then a slash, then `t`: that segment, then the segments of `t`. */
  lemma SplitCons(x: string, t: string)
    requires '/' !in x
    ensures Split(x + "/" + t) == [x] + Split(t)
  {
    SplitConcat(x, t);
    SplitSingle(x);
  }

  /** The ".." after three plain segments takes the third one away. */
  lemma ResolveParent(root: string, scope: string, pkg: string)
    requires PlainSegment(root) && PlainSegment(scope) && PlainSegment(pkg)
    ensures ResolveSegments([root, scope, pkg, ".."], true) == [root, scope]
  {
    assert [root, scope, pkg, ".."][..3] == [] + [root, scope, pkg];
    ResolvePlainSuffix([], [root, scope, pkg], true);
  }

  /** `join(root, scope/pkg, ../other/rest)` lands in the sibling directory `root/scope/other`. */
  lemma JoinSibling(root: string, scope: string, pkg: string, other: string, rest: string)
    requires PlainSegment(root) && PlainSegment(scope) && PlainSegment(pkg)
    requires PlainSegment(other) && PlainPath(rest)
    ensures Join([root, scope + "/" + pkg, "../" + other + "/" + rest]) ==
      root + "/" + (scope + "/" + other) + "/" + rest
  {
    SplitSingle(other);
    PlainConcat(other, rest);
    assert "../" + other + "/" + rest == ".." + "/" + (other + "/" + rest);
    JoinParent(root, scope, pkg, other + "/" + rest);
  }
}
