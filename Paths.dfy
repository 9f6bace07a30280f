/**
 * The part of POSIX `node:path` the CLI uses, over '/'-separated path strings:
 * `join`, `dirname`, `extname(p) === ".json"`, `isAbsolute`, and `relative` from a
 * package directory back to the project root.
 */
module Paths {
  import opened Strings

  function Segments(p: string): seq<string> {
    Split(p, '/')
  }

  /**
   * `path.join(a, b)` for already normalised operands: an empty or "." left side
   * contributes nothing, and an empty join is ".". The result is never empty, keeps a
   * real base in front and a non-empty name at the end.
   */
  function Join(a: string, b: string): (r: string)
    ensures r != ""
    ensures a != "" && a != "." ==> StartsWith(r, a)
    ensures b != "" ==> EndsWith(r, b)
    ensures a != "" && a != "." && b != "" ==> r == a + "/" + b
  {
    if a == "" || a == "." then (if b == "" then "." else b)
    else if b == "" then a
    else
      var r := a + "/" + b;
      assert r[..|a|] == a;
      assert r[|r| - |b|..] == b;
      r
  }

  /**
   * `path.dirname(p)` of a relative path: everything before the last '/', or ".".
   * A path with a '/' is its dirname, a '/', and its last segment.
   */
  function Dirname(p: string): (d: string)
    ensures '/' !in p ==> d == "."
    ensures '/' in p ==> p == d + "/" + Segments(p)[|Segments(p)| - 1]
  {
    var segs := Segments(p);
    if |segs| == 1 then "."
    else
      var init, last := segs[..|segs| - 1], segs[|segs| - 1];
      JoinSplit(p, '/');
      assert segs == init + [last];
      JoinWithSnoc(init, last, '/');
      JoinWith(init, '/')
  }

  /** The directory part of dir + "/" + name is dir. */
  lemma DirnameOfChild(dir: string, name: string)
    requires '/' !in name
    ensures Dirname(dir + "/" + name) == dir
  {
    SplitConcat(dir, name, '/');
    SplitNoSeparator(name, '/');
    JoinSplit(dir, '/');
    var segs := Segments(dir + "/" + name);
    assert segs[..|segs| - 1] == Segments(dir);
  }

  /** The last segment of a path is a suffix of it. */
  lemma LastSegmentSuffix(p: string)
    ensures EndsWith(p, Segments(p)[|Segments(p)| - 1])
  {
    var base := Segments(p)[|Segments(p)| - 1];
    if '/' in p {
      var d := Dirname(p);
      assert p[|p| - |base|..] == base;
    } else {
      SplitNoSeparator(p, '/');
    }
  }

  predicate IsAbsolute(p: string) {
    |p| > 0 && p[0] == '/'
  }

  /**
   * `path.extname(p) === ".json"`: the last segment ends in ".json" and the dot is
   * not the segment's first character (a bare ".json" has no extension). Such a
   * path ends in ".json" after at least one other character.
   */
  predicate HasJsonExtension(p: string)
    ensures HasJsonExtension(p) ==> |p| > 5 && EndsWith(p, ".json")
  {
    var segs := Segments(p);
    var base := segs[|segs| - 1];
    LastSegmentSuffix(p);
    EndsWithTrans(p, base, ".json");
    |base| > 5 && EndsWith(base, ".json")
  }

  /** Depth below the starting directory after one more segment ("." and "" stay). */
  function Step(depth: nat, seg: string): nat {
    if seg == "" || seg == "." then depth
    else if seg == ".." then (if depth > 0 then depth - 1 else 0)
    else depth + 1
  }

  /** Depth reached by following segs from a directory depth levels below the root. */
  function Walk(depth: nat, segs: seq<string>): nat
    decreases |segs|
  {
    if segs == [] then depth else Walk(Step(depth, segs[0]), segs[1..])
  }

  /** How many directories p lies below the directory it is relative to. */
  function Depth(p: string): nat {
    Walk(0, Segments(p))
  }

  /** n parent-directory segments. */
  function Ups(n: nat): (r: seq<string>)
    ensures |r| == n && forall k :: 0 <= k < n ==> r[k] == ".."
  {
    if n == 0 then [] else Ups(n - 1) + [".."]
  }

  /**
   * `path.relative(path.join(root, pkg), root)`: one ".." per level of pkg, and the
   * empty path when pkg is the root itself.
   */
  function RelativeToRoot(pkg: string): (r: string)
    ensures Depth(pkg) == 0 ==> r == ""
    ensures Depth(pkg) > 0 ==> Segments(r) == Ups(Depth(pkg))
  {
    var ups := Ups(Depth(pkg));
    if ups == [] then ""
    else
      SplitJoin(ups, '/');
      JoinWith(ups, '/')
  }

  lemma {:induction false} WalkConcat(d: nat, a: seq<string>, b: seq<string>)
    ensures Walk(d, a + b) == Walk(Walk(d, a), b)
    decreases |a|
  {
    if a == [] {
      assert a + b == b;
    } else {
      assert (a + b)[1..] == a[1..] + b;
      WalkConcat(Step(d, a[0]), a[1..], b);
    }
  }

  lemma {:induction false} WalkUps(d: nat, n: nat)
    ensures Walk(d, Ups(n)) == if d >= n then d - n else 0
    decreases n
  {
    if n > 0 {
      WalkUps(d, n - 1);
      WalkConcat(d, Ups(n - 1), [".."]);
    }
  }

  /**
   * Following the relative path from the package directory (Depth(pkg) levels
   * below the root) ends exactly at the root.
   */
  lemma RelativeLeadsToRoot(pkg: string)
    ensures Walk(Depth(pkg), Segments(RelativeToRoot(pkg))) == 0
  {
    if Depth(pkg) > 0 {
      WalkUps(Depth(pkg), Depth(pkg));
    } else {
      assert Segments(RelativeToRoot(pkg)) == [""];
    }
  }

  /** A plain relative path: non-empty segments, none of them "." or "..". */
  predicate IsPlainRelative(p: string) {
    forall seg :: seg in Segments(p) ==> seg != "" && seg != "." && seg != ".."
  }

  lemma {:induction false} WalkPlain(d: nat, segs: seq<string>)
    requires forall seg :: seg in segs ==> seg != "" && seg != "." && seg != ".."
    ensures Walk(d, segs) == d + |segs|
    decreases |segs|
  {
    if segs != [] {
      assert segs[0] in segs;
      assert forall seg :: seg in segs[1..] ==> seg in segs;
      WalkPlain(d + 1, segs[1..]);
    }
  }

  /** For a plain relative path the relative path back has one ".." per segment. */
  lemma PlainRelativeDepth(pkg: string)
    requires IsPlainRelative(pkg)
    ensures Depth(pkg) == |Segments(pkg)|
    ensures Segments(RelativeToRoot(pkg)) == Ups(|Segments(pkg)|)
  {
    WalkPlain(0, Segments(pkg));
  }

  /** A package two levels down, such as "packages/a", is reached from the root by "../..". */
  lemma RelativeToRootTwoLevels(top: string, name: string)
    requires '/' !in top && top != "" && top != "." && top != ".."
    requires '/' !in name && name != "" && name != "." && name != ".."
    ensures RelativeToRoot(top + "/" + name) == "../.."
  {
    var segs := [top, name];
    assert Segments(top + "/" + name) == segs by {
      SplitConcat(top, name, '/');
      SplitNoSeparator(top, '/');
      SplitNoSeparator(name, '/');
    }
    assert Depth(top + "/" + name) == 2 by {
      assert Step(0, top) == 1 && segs[1..] == [name];
      assert Step(1, name) == 2 && [name][1..] == [];
      assert Walk(0, segs) == Walk(1, [name]) == Walk(2, []);
    }
    var ups := ["..", ".."];
    assert Ups(2) == ups;
    assert JoinWith(ups, '/') == "../.." by {
      assert ups[1..] == [".."];
    }
  }
}
