/**
 * Lexical path safety. The string checks of the source are stated on strings; their meaning is proved on segment
 * stacks: the list of names a slash-separated path walks through once "." and ".." are resolved.
 */
module SafePaths {
  import opened Text

  // ---------------------------------------------------------------- strings and segments

  /** strings.Split(p, "/") */
  function Parts(p: string): (parts: seq<string>)
    ensures parts != [] && forall part | part in parts :: '/' !in part
  {
    if p == [] then [[]]
    else if p[0] == '/' then [[]] + Parts(p[1..])
    else
      var rest := Parts(p[1..]);
      [[p[0]] + rest[0]] + rest[1..]
  }

  /** strings.Join(segs, "/") */
  function JoinSegments(segs: seq<string>): string {
    if segs == [] then []
    else if |segs| == 1 then segs[0]
    else segs[0] + "/" + JoinSegments(segs[1..])
  }

  /** One step of resolving a path: empty names and "." vanish, ".." takes the last name back. */
  function Push(stack: seq<string>, part: string, rooted: bool): seq<string> {
    if part == "" || part == "." then stack
    else if part == ".." then
      if stack != [] && stack[|stack| - 1] != ".." then stack[..|stack| - 1]
      else if rooted then stack
      else stack + [".."]
    else stack + [part]
  }

  /** The segment stack after walking parts from a given stack. */
  function Walk(stack: seq<string>, parts: seq<string>, rooted: bool): seq<string> {
    if parts == [] then stack
    else Push(Walk(stack, parts[..|parts| - 1], rooted), parts[|parts| - 1], rooted)
  }

  predicate IsAbs(p: string) { p != "" && p[0] == '/' }

  function Render(rooted: bool, segs: seq<string>): string {
    if rooted then "/" + JoinSegments(segs) else if segs == [] then "." else JoinSegments(segs)
  }

  /** filepath.Clean */
  function Clean(p: string): string { Render(IsAbs(p), Walk([], Parts(p), IsAbs(p))) }

  /** filepath.Join of two elements */
  function Join2(a: string, b: string): string {
    if a == "" && b == "" then ""
    else if a == "" then Clean(b)
    else if b == "" then Clean(a)
    else Clean(a + "/" + b)
  }

  /** filepath.Abs, with the working directory as a parameter. */
  function Abs(cwd: string, p: string): string {
    if IsAbs(p) then Clean(p) else Join2(cwd, p)
  }

  function CommonPrefix(a: seq<string>, b: seq<string>): nat {
    if a != [] && b != [] && a[0] == b[0] then 1 + CommonPrefix(a[1..], b[1..]) else 0
  }

  function Ups(n: nat): seq<string> { seq(n, i => "..") }

  /** filepath.Rel between two absolute paths. */
  function Rel(base: string, target: string): string {
    Render(false, UpAndDown(Walk([], Parts(base), true), Walk([], Parts(target), true)))
  }

  function UpAndDown(b: seq<string>, t: seq<string>): seq<string> {
    var n := CommonPrefix(b, t);
    CommonPrefixBound(b, t);
    Ups(|b| - n) + t[n..]
  }

  lemma {:induction false} CommonPrefixBound(a: seq<string>, b: seq<string>)
    ensures CommonPrefix(a, b) <= |a| && CommonPrefix(a, b) <= |b|
    ensures CommonPrefix(a, b) == |a| <==> a <= b
  {
    if a != [] && b != [] && a[0] == b[0] {
      CommonPrefixBound(a[1..], b[1..]);
      assert a == [a[0]] + a[1..] && b == [b[0]] + b[1..];
      if a[1..] <= b[1..] {
        assert b == a + b[|a|..];
      }
    }
  }

  // ---------------------------------------------------------------- the three functions of the source

  predicate EscapesUpward(p: string) { p == ".." || "../" <= p }

  function CleanRelativePath(p: string): Result<string> {
    if p == "" then Failure("path is empty")
    else
      var clean := Clean(p);
      if clean == "." then Failure("path resolves to current directory")
      else if IsAbs(clean) then Failure("absolute paths are not allowed")
      else if EscapesUpward(clean) then Failure("parent traversal is not allowed")
      else Success(clean)
  }

  function EnsureUnderRoot(cwd: string, root: string, candidate: string): Result<string> {
    var rootAbs, candAbs := Abs(cwd, root), Abs(cwd, candidate);
    if EscapesUpward(Rel(rootAbs, candAbs)) then Failure("path escapes root") else Success(candAbs)
  }

  function SafeJoinUnder(cwd: string, root: string, rel: string): Result<string> {
    match CleanRelativePath(rel)
    case Failure(e) => Failure(e)
    case Success(clean) => EnsureUnderRoot(cwd, root, Join2(root, clean))
  }

  // ---------------------------------------------------------------- segment specification

  /** The names a relative path resolves to. */
  function RelSegments(p: string): seq<string> { Walk([], Parts(p), false) }

  /** The names an arbitrary path resolves to from the file-system root. */
  function AbsSegments(cwd: string, p: string): seq<string> {
    if IsAbs(p) then Walk([], Parts(p), true) else Walk([], Parts(cwd) + Parts(p), true)
  }

  /** A name that can stand in a resolved path. */
  predicate Name(s: string) { s != "" && s != "." && s != ".." && '/' !in s }

  predicate Names(segs: seq<string>) { forall s | s in segs :: Name(s) }

  /** What resolving leaves: names, after a run of ".." that only a relative path can have. */
  predicate Resolved(segs: seq<string>, rooted: bool) {
    if segs == [] then true
    else if segs[0] == ".." then !rooted && Resolved(segs[1..], rooted)
    else Names(segs)
  }

  // ---------------------------------------------------------------- lemmas about strings

  lemma {:induction false} PartsOfJoinedPair(a: string, b: string)
    ensures Parts(a + "/" + b) == Parts(a) + Parts(b)
  {
    var s := a + "/" + b;
    if a == [] {
      assert s[1..] == b;
    } else {
      assert s[1..] == a[1..] + "/" + b;
      PartsOfJoinedPair(a[1..], b);
    }
  }

  lemma {:induction false} PartsOfName(s: string)
    requires '/' !in s
    ensures Parts(s) == [s]
  {
    if s != [] {
      PartsOfName(s[1..]);
      assert [s[0]] + s[1..] == s;
    }
  }

  lemma {:induction false} PartsOfJoin(segs: seq<string>)
    requires segs != [] && forall s | s in segs :: '/' !in s
    ensures Parts(JoinSegments(segs)) == segs
  {
    PartsOfName(segs[0]);
    if |segs| > 1 {
      PartsOfJoin(segs[1..]);
      PartsOfJoinedPair(segs[0], JoinSegments(segs[1..]));
    }
  }

  // ---------------------------------------------------------------- lemmas about walking

  lemma {:induction false} WalkAppend(stack: seq<string>, a: seq<string>, b: seq<string>, rooted: bool)
    ensures Walk(stack, a + b, rooted) == Walk(Walk(stack, a, rooted), b, rooted)
  {
    if b == [] {
      assert a + b == a;
    } else {
      var n := |b| - 1;
      assert (a + b)[..|a + b| - 1] == a + b[..n];
      WalkAppend(stack, a, b[..n], rooted);
    }
  }

  lemma {:induction false} WalkOne(stack: seq<string>, part: string, rooted: bool)
    ensures Walk(stack, [part], rooted) == Push(stack, part, rooted)
  {
    assert [part][..0] == [];
  }

  lemma {:induction false} WalkNames(stack: seq<string>, names: seq<string>, rooted: bool)
    requires Names(names)
    ensures Walk(stack, names, rooted) == stack + names
  {
    if names != [] {
      WalkNames(stack, names[..|names| - 1], rooted);
      assert Name(names[|names| - 1]);
    }
  }

  lemma {:induction false} ResolvedEnd(segs: seq<string>, part: string, rooted: bool)
    requires Resolved(segs, rooted) && segs != []
    ensures Resolved(segs[..|segs| - 1], rooted)
    ensures Name(part) ==> Resolved(segs + [part], rooted)
    ensures !rooted && segs[|segs| - 1] == ".." ==> Resolved(segs + [".."], rooted)
    ensures Name(segs[|segs| - 1]) || segs[|segs| - 1] == ".."
    ensures rooted ==> Name(segs[|segs| - 1])
  {
    if segs[0] == ".." {
      assert (segs + [part])[1..] == segs[1..] + [part];
      assert (segs + [".."])[1..] == segs[1..] + [".."];
      if |segs| > 1 {
        assert segs[..|segs| - 1][1..] == segs[1..][..|segs[1..]| - 1];
        ResolvedEnd(segs[1..], part, rooted);
      } else {
        assert Resolved([".."], rooted);
      }
    } else {
      assert Name(segs[|segs| - 1]);
    }
  }

  lemma {:induction false} WalkResolves(stack: seq<string>, parts: seq<string>, rooted: bool)
    requires Resolved(stack, rooted) && forall part | part in parts :: '/' !in part
    ensures Resolved(Walk(stack, parts, rooted), rooted)
  {
    if parts != [] {
      var init, part := parts[..|parts| - 1], parts[|parts| - 1];
      WalkResolves(stack, init, rooted);
      var w := Walk(stack, init, rooted);
      if w != [] {
        ResolvedEnd(w, part, rooted);
      }
    }
  }

  /** Resolving a relative path before walking it changes nothing. */
  lemma {:induction false} WalkOfResolved(stack: seq<string>, parts: seq<string>, rooted: bool)
    requires forall part | part in parts :: '/' !in part
    ensures Walk(stack, Walk([], parts, false), rooted) == Walk(stack, parts, rooted)
  {
    if parts != [] {
      var init, part := parts[..|parts| - 1], parts[|parts| - 1];
      var w := Walk([], init, false);
      WalkOfResolved(stack, init, rooted);
      WalkResolves([], init, false);
      if part == ".." {
        if w != [] {
          ResolvedEnd(w, part, false);
        }
        if w == [] || w[|w| - 1] == ".." {
          assert (w + [".."])[..|w|] == w;
        }
      } else if part != "" && part != "." {
        assert (w + [part])[..|w|] == w;
      }
    }
  }

  lemma {:induction false} ResolvedIsFixed(segs: seq<string>, rooted: bool)
    requires Resolved(segs, rooted)
    ensures Walk([], segs, rooted) == segs
  {
    if segs != [] {
      ResolvedEnd(segs, "x", rooted);
      ResolvedIsFixed(segs[..|segs| - 1], rooted);
      if segs[|segs| - 1] == ".." && |segs| > 1 {
        DotDotRun(segs, |segs| - 2, rooted);
      }
    }
  }

  lemma {:induction false} DotDotRun(segs: seq<string>, k: nat, rooted: bool)
    requires Resolved(segs, rooted) && k + 1 < |segs| && segs[|segs| - 1] == ".."
    ensures segs[k] == ".."
  {
    if segs[0] == ".." {
      if k > 0 {
        DotDotRun(segs[1..], k - 1, rooted);
      }
    } else {
      LastIsName(segs);
    }
  }

  lemma LastIsName(segs: seq<string>)
    requires Names(segs) && segs != []
    ensures Name(segs[|segs| - 1])
  {}

  lemma {:induction false} NoSlashInResolved(segs: seq<string>, rooted: bool)
    requires Resolved(segs, rooted)
    ensures forall s | s in segs :: '/' !in s && s != "" && s != "."
  {
    if segs != [] && segs[0] == ".." {
      NoSlashInResolved(segs[1..], rooted);
      forall s | s in segs ensures s == ".." || s in segs[1..] {}
    }
  }

  /** A rendered resolved path walks to the same place as its segments. */
  lemma {:induction false} WalkOfRendered(stack: seq<string>, segs: seq<string>, rooted: bool)
    requires Resolved(segs, false)
    ensures Walk(stack, Parts(Render(false, segs)), rooted) == Walk(stack, segs, rooted)
    ensures !IsAbs(Render(false, segs)) && Render(false, segs) != ""
  {
    NoSlashInResolved(segs, false);
    if segs == [] {
      PartsOfName(".");
      WalkOne(stack, ".", rooted);
    } else {
      PartsOfJoin(segs);
      assert segs[0] in segs;
    }
  }

  lemma {:induction false} RenderedRooted(segs: seq<string>)
    requires Resolved(segs, true)
    ensures Walk([], Parts(Render(true, segs)), true) == segs
  {
    NoSlashInResolved(segs, true);
    var p := Render(true, segs);
    assert p[1..] == JoinSegments(segs);
    if segs == [] {
      WalkOne([], "", true);
      assert Parts(p) == [""] + [""];
      WalkAppend([], [""], [""], true);
    } else {
      PartsOfJoin(segs);
      assert Parts(p) == [""] + segs;
      WalkAppend([], [""], segs, true);
      WalkOne([], "", true);
      ResolvedIsFixed(segs, true);
    }
  }

  // ---------------------------------------------------------------- what Clean, Join and Abs mean

  lemma {:induction false} CleanMeaning(p: string)
    ensures IsAbs(Clean(p)) <==> IsAbs(p)
    ensures Walk([], Parts(Clean(p)), IsAbs(p)) == Walk([], Parts(p), IsAbs(p))
    ensures Resolved(Walk([], Parts(p), IsAbs(p)), IsAbs(p))
  {
    var rooted := IsAbs(p);
    WalkResolves([], Parts(p), rooted);
    var segs := Walk([], Parts(p), rooted);
    if rooted {
      RenderedRooted(segs);
    } else {
      WalkOfRendered([], segs, false);
      ResolvedIsFixed(segs, false);
    }
  }

  /** Joining leaves nothing to clean. */
  lemma JoinIsClean(a: string, b: string)
    ensures Join2(a, b) == "" <==> a == "" && b == ""
    ensures Join2(a, b) != "" ==> Clean(Join2(a, b)) == Join2(a, b)
  {
    forall p ensures Clean(Clean(p)) == Clean(p) && Clean(p) != "" {
      CleanMeaning(p);
      if !IsAbs(p) { WalkOfRendered([], Walk([], Parts(p), false), false); }
    }
    hide Clean;
  }

  lemma AbsMeaning(cwd: string, p: string)
    requires IsAbs(cwd)
    ensures Abs(cwd, p) == Render(true, AbsSegments(cwd, p))
    ensures Names(AbsSegments(cwd, p))
  {
    if IsAbs(p) {
      WalkResolves([], Parts(p), true);
      RootedAreNames(AbsSegments(cwd, p));
    } else {
      PartsOfJoinedPair(cwd, p);
      WalkResolves([], Parts(cwd) + Parts(p), true);
      RootedAreNames(AbsSegments(cwd, p));
      if p == "" {
        WalkAppend([], Parts(cwd), [""], true);
        WalkOne(Walk([], Parts(cwd), true), "", true);
      }
    }
  }

  lemma {:induction false} RootedAreNames(segs: seq<string>)
    requires Resolved(segs, true)
    ensures Names(segs)
  {}

  lemma {:induction false} NamesAreResolved(segs: seq<string>, rooted: bool)
    requires Names(segs)
    ensures Resolved(segs, rooted)
  {
    if segs != [] {
      assert Name(segs[0]);
    }
  }

  /** Cleaning a path does not change where it leads. */
  lemma AbsOfClean(cwd: string, p: string)
    ensures AbsSegments(cwd, Clean(p)) == AbsSegments(cwd, p)
  {
    CleanMeaning(p);
    if !IsAbs(p) {
      var start := Walk([], Parts(cwd), true);
      WalkAppend([], Parts(cwd), Parts(Clean(p)), true);
      WalkAppend([], Parts(cwd), Parts(p), true);
      WalkOfRendered(start, Walk([], Parts(p), false), true);
      WalkOfResolved(start, Parts(p), true);
    }
  }

  lemma {:induction false} WalkThenNames(base: seq<string>, names: seq<string>)
    requires Names(names)
    ensures Walk([], base + names, true) == Walk([], base, true) + names
  {
    hide Walk, Names;
    WalkAppend([], base, names, true);
    WalkNames(Walk([], base, true), names, true);
  }

  lemma {:induction false} AbsOfPair(cwd: string, root: string, rel: string, names: seq<string>)
    requires root != "" && Parts(rel) == names && Names(names)
    ensures AbsSegments(cwd, root + "/" + rel) == AbsSegments(cwd, root) + names
  {
    hide Walk, Parts, Names;
    PartsOfJoinedPair(root, rel);
    assert (root + "/" + rel)[0] == root[0];
    WalkThenNames(Parts(root), names);
    WalkThenNames(Parts(cwd) + Parts(root), names);
    assert Parts(cwd) + (Parts(root) + names) == (Parts(cwd) + Parts(root)) + names;
  }

  lemma {:induction false} AbsOfNamesAlone(cwd: string, rel: string, names: seq<string>)
    requires Parts(rel) == names && Names(names) && !IsAbs(rel)
    ensures AbsSegments(cwd, rel) == AbsSegments(cwd, "") + names
  {
    PartsOfName("");
    WalkAppend([], Parts(cwd), [""], true);
    WalkOne(Walk([], Parts(cwd), true), "", true);
    WalkAppend([], Parts(cwd), names, true);
    WalkNames(Walk([], Parts(cwd), true), names, true);
  }

  /** The joined path, made absolute, is the root's names followed by the relative names. */
  lemma {:induction false} JoinedSegments(cwd: string, root: string, names: seq<string>)
    requires Names(names) && names != []
    ensures AbsSegments(cwd, Join2(root, JoinSegments(names))) == AbsSegments(cwd, root) + names
  {
    var rel := JoinSegments(names);
    NamesAreResolved(names, false);
    WalkOfRendered([], names, false);
    PartsOfJoin(names);
    if root == "" {
      AbsOfClean(cwd, rel);
      AbsOfNamesAlone(cwd, rel, names);
    } else {
      AbsOfClean(cwd, root + "/" + rel);
      AbsOfPair(cwd, root, rel, names);
    }
  }

  lemma RelMeaning(b: seq<string>, t: seq<string>)
    requires Names(b) && Names(t)
    ensures Rel(Render(true, b), Render(true, t)) == Render(false, UpAndDown(b, t))
  {
    NamesAreResolved(b, true);
    NamesAreResolved(t, true);
    RenderedRooted(b);
    RenderedRooted(t);
  }

  lemma EscapesUpwardMeaning(segs: seq<string>)
    requires forall s | s in segs :: s != "" && '/' !in s
    ensures EscapesUpward(Render(false, segs)) <==> segs != [] && segs[0] == ".."
  {
    if segs != [] {
      var p := Render(false, segs);
      if segs[0] == ".." && |segs| > 1 {
        assert p == "../" + JoinSegments(segs[1..]);
      }
      PartsOfJoin(segs);
      PartsOfName("..");
      if "../" <= p {
        assert p == ".." + "/" + p[3..];
        PartsOfJoinedPair("..", p[3..]);
      }
    }
  }

  // ---------------------------------------------------------------- main laws

  /** A path is accepted exactly when it is relative and resolves to at least one name without leaving its start. */
  lemma CleanRelativePathMeaning(p: string)
    ensures CleanRelativePath(p).Success? <==> !IsAbs(p) && RelSegments(p) != [] && RelSegments(p)[0] != ".."
    ensures CleanRelativePath(p).Success? ==>
              && Names(RelSegments(p))
              && CleanRelativePath(p).value == JoinSegments(RelSegments(p))
  {
    CleanMeaning(p);
    if p == "" {
      WalkOne([], "", false);
    } else if !IsAbs(p) {
      var segs := RelSegments(p);
      NoSlashInResolved(segs, false);
      EscapesUpwardMeaning(segs);
      if segs != [] {
        PartsOfJoin(segs);
        PartsOfName(".");
        assert segs[0] != ".";
      }
    }
  }

  /** Confinement: a candidate is accepted exactly when it resolves to the root or to something below it. */
  lemma EnsureUnderRootMeaning(cwd: string, root: string, candidate: string)
    requires IsAbs(cwd)
    ensures EnsureUnderRoot(cwd, root, candidate).Success? <==> AbsSegments(cwd, root) <= AbsSegments(cwd, candidate)
    ensures EnsureUnderRoot(cwd, root, candidate).Success? ==>
              EnsureUnderRoot(cwd, root, candidate).value == Render(true, AbsSegments(cwd, candidate))
  {
    var b, t := AbsSegments(cwd, root), AbsSegments(cwd, candidate);
    AbsMeaning(cwd, root);
    AbsMeaning(cwd, candidate);
    RelMeaning(b, t);
    CommonPrefixBound(b, t);
    var n := CommonPrefix(b, t);
    var segs := UpAndDown(b, t);
    forall s | s in segs ensures s != "" && '/' !in s {
      if s in t[n..] { assert Name(s); }
    }
    EscapesUpwardMeaning(segs);
    if n == |b| {
      assert segs == t[n..];
      if segs != [] { assert Name(segs[0]) by { assert segs[0] in t; } }
    } else {
      assert segs[0] == "..";
    }
  }

  /**
   * For every root: the join is accepted exactly when the relative path is, and the result is the root's names
   * followed by the relative path's names, so it lies strictly below the root.
   */
  lemma SafeJoinMeaning(cwd: string, root: string, rel: string)
    requires IsAbs(cwd)
    ensures SafeJoinUnder(cwd, root, rel).Success? <==> CleanRelativePath(rel).Success?
    ensures SafeJoinUnder(cwd, root, rel).Success? ==>
              && RelSegments(rel) != []
              && SafeJoinUnder(cwd, root, rel).value == Render(true, AbsSegments(cwd, root) + RelSegments(rel))
  {
    CleanRelativePathMeaning(rel);
    if CleanRelativePath(rel).Success? {
      var clean := CleanRelativePath(rel).value;
      JoinedSegments(cwd, root, RelSegments(rel));
      EnsureUnderRootMeaning(cwd, root, Join2(root, clean));
    }
  }

  /** Taking the result relative to the root gives the cleaned path back. */
  lemma RelOfSafeJoin(cwd: string, root: string, rel: string)
    requires IsAbs(cwd) && SafeJoinUnder(cwd, root, rel).Success?
    ensures CleanRelativePath(rel) == Success(Rel(Abs(cwd, root), SafeJoinUnder(cwd, root, rel).value))
  {
    SafeJoinMeaning(cwd, root, rel);
    CleanRelativePathMeaning(rel);
    AbsMeaning(cwd, root);
    var b, s := AbsSegments(cwd, root), RelSegments(rel);
    RelMeaning(b, b + s);
    CommonPrefixBound(b, b + s);
    assert Ups(0) + (b + s)[|b|..] == s;
  }

  /** The text of a list of names is an accepted path that resolves to those names. */
  lemma {:induction false} JoinedNames(names: seq<string>)
    requires Names(names) && names != []
    ensures RelSegments(JoinSegments(names)) == names
    ensures CleanRelativePath(JoinSegments(names)) == Success(JoinSegments(names))
  {
    PartsOfJoin(names);
    WalkNames([], names, false);
    NamesAreResolved(names, false);
    WalkOfRendered([], names, false);
    assert Name(names[0]);
    CleanRelativePathMeaning(JoinSegments(names));
  }

  /** Cleaning an accepted path again changes nothing. */
  lemma CleanRelativePathIdempotent(p: string)
    requires CleanRelativePath(p).Success?
    ensures CleanRelativePath(CleanRelativePath(p).value) == CleanRelativePath(p)
  {
    CleanRelativePathMeaning(p);
    JoinedNames(RelSegments(p));
  }

  lemma SegmentsOfPair(a: string, b: string)
    requires Names(RelSegments(b))
    ensures RelSegments(a + "/" + b) == RelSegments(a) + RelSegments(b)
  {
    PartsOfJoinedPair(a, b);
    WalkAppend([], Parts(a), Parts(b), false);
    WalkOfResolved(RelSegments(a), Parts(b), false);
    WalkNames(RelSegments(a), RelSegments(b), false);
  }

  /** A name leads one down, ".." from there back up; "." and an extra slash lead nowhere. */
  lemma DownAndUp(a: string, name: string)
    requires Name(name)
    ensures RelSegments(a + "/" + name) == RelSegments(a) + [name]
    ensures RelSegments(a + "/" + name + "/..") == RelSegments(a)
    ensures RelSegments(a + "/.") == RelSegments(a + "/") == RelSegments(a)
  {
    OnePartMore(a, name);
    OnePartMore(a + "/" + name, "..");
    OnePartMore(a, ".");
    OnePartMore(a, "");
    assert a + "/" + name + "/" + ".." == a + "/" + name + "/..";
    assert a + "/" + "." == a + "/.";
    assert a + "/" + "" == a + "/";
  }

  lemma OnePartMore(a: string, part: string)
    requires '/' !in part
    ensures RelSegments(a + "/" + part) == Push(RelSegments(a), part, false)
  {
    PartsOfJoinedPair(a, part);
    PartsOfName(part);
    WalkAppend([], Parts(a), [part], false);
    WalkOne(RelSegments(a), part, false);
  }

  lemma AbsOfRendered(cwd: string, segs: seq<string>)
    requires Names(segs)
    ensures AbsSegments(cwd, Render(true, segs)) == segs
  {
    NamesAreResolved(segs, true);
    RenderedRooted(segs);
  }

  lemma PairAccepted(a: string, b: string)
    requires CleanRelativePath(a).Success? && CleanRelativePath(b).Success?
    ensures CleanRelativePath(a + "/" + b).Success?
    ensures RelSegments(a + "/" + b) == RelSegments(a) + RelSegments(b)
  {
    CleanRelativePathMeaning(a);
    CleanRelativePathMeaning(b);
    SegmentsOfPair(a, b);
    AbsOfPairStart(a, b);
    CleanRelativePathMeaning(a + "/" + b);
  }

  lemma AbsOfPairStart(a: string, b: string)
    requires a != ""
    ensures IsAbs(a + "/" + b) == IsAbs(a)
  {}

  lemma JoinUnderJoined(cwd: string, root: string, a: string, b: string) returns (mid: string, full: string)
    requires IsAbs(cwd)
    requires CleanRelativePath(a).Success? && CleanRelativePath(b).Success?
    ensures SafeJoinUnder(cwd, root, a) == Success(mid)
    ensures SafeJoinUnder(cwd, mid, b) == Success(full)
    ensures full == Render(true, AbsSegments(cwd, root) + RelSegments(a) + RelSegments(b))
  {
    CleanRelativePathMeaning(a);
    SafeJoinMeaning(cwd, root, a);
    AbsMeaning(cwd, root);
    mid := SafeJoinUnder(cwd, root, a).value;
    AbsOfRendered(cwd, AbsSegments(cwd, root) + RelSegments(a));
    SafeJoinMeaning(cwd, mid, b);
    full := SafeJoinUnder(cwd, mid, b).value;
  }

  lemma JoinPair(cwd: string, root: string, a: string, b: string) returns (full: string)
    requires IsAbs(cwd)
    requires CleanRelativePath(a).Success? && CleanRelativePath(b).Success?
    ensures SafeJoinUnder(cwd, root, a + "/" + b) == Success(full)
    ensures full == Render(true, AbsSegments(cwd, root) + RelSegments(a) + RelSegments(b))
  {
    PairAccepted(a, b);
    SafeJoinMeaning(cwd, root, a + "/" + b);
    full := SafeJoinUnder(cwd, root, a + "/" + b).value;
    assert AbsSegments(cwd, root) + RelSegments(a) + RelSegments(b)
        == AbsSegments(cwd, root) + (RelSegments(a) + RelSegments(b));
  }

  /** Joining in two steps, through mid, is joining once with both parts. */
  lemma NestedJoin(cwd: string, root: string, a: string, b: string) returns (mid: string, full: string)
    requires IsAbs(cwd)
    requires CleanRelativePath(a).Success? && CleanRelativePath(b).Success?
    ensures SafeJoinUnder(cwd, root, a) == Success(mid)
    ensures SafeJoinUnder(cwd, mid, b) == Success(full)
    ensures SafeJoinUnder(cwd, root, a + "/" + b) == Success(full)
  {
    mid, full := JoinUnderJoined(cwd, root, a, b);
    var once := JoinPair(cwd, root, a, b);
  }

  /** Two accepted paths land on the same file exactly when they clean to the same path. */
  lemma SafeJoinInjective(cwd: string, root: string, a: string, b: string)
    requires IsAbs(cwd) && SafeJoinUnder(cwd, root, a).Success? && SafeJoinUnder(cwd, root, b).Success?
    ensures SafeJoinUnder(cwd, root, a) == SafeJoinUnder(cwd, root, b) <==> CleanRelativePath(a) == CleanRelativePath(b)
  {
    SafeJoinMeaning(cwd, root, a);
    SafeJoinMeaning(cwd, root, b);
    RelOfSafeJoin(cwd, root, a);
    RelOfSafeJoin(cwd, root, b);
    CleanRelativePathMeaning(a);
    CleanRelativePathMeaning(b);
    if CleanRelativePath(a) == CleanRelativePath(b) {
      PartsOfJoin(RelSegments(a));
      PartsOfJoin(RelSegments(b));
    }
  }

  /** A name that merely starts with two dots is an ordinary name. */
  lemma DottedNamesAccepted(tail: string)
    requires tail != "" && '/' !in tail
    ensures CleanRelativePath(".." + tail) == Success(".." + tail)
  {
    var p := ".." + tail;
    PartsOfName(p);
    assert p[2..] == tail;
    assert Name(p);
    WalkOne([], p, false);
    CleanRelativePathMeaning(p);
  }
}
