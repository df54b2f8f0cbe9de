/**
 POSIX path helpers as Node's `path` module computes them, as far as bin/index.js uses
 them: `join` (lines 29, 48, 72, 118, 174, 219), `dirname` (line 150), `basename`
 (line 43), and the rewrite of `target` that replaces every match of the global
 pattern `[^\/]*` by "." to climb from a document's directory back to the working
 directory (line 219).
 */
module Paths {

  predicate NoSlash(s: string)
  {
    forall i :: 0 <= i < |s| ==> s[i] != '/'
  }

  /** A name a directory listing can hold: non-empty, no '/', neither "." nor "..". */
  predicate ValidName(n: string)
  {
    n != "" && n != "." && n != ".." && NoSlash(n)
  }

  /** `p.split("/")` */
  function Split(p: string): (segs: seq<string>)
    ensures |segs| >= 1
    ensures forall i :: 0 <= i < |segs| ==> NoSlash(segs[i])
    decreases |p|
  {
    if p == [] then [""]
    else if p[0] == '/' then [""] + Split(p[1..])
    else
      var rest := Split(p[1..]);
      [[p[0]] + rest[0]] + rest[1..]
  }

  /** `segs.join("/")` */
  function JoinSegs(segs: seq<string>): string
    decreases |segs|
  {
    if segs == [] then ""
    else if |segs| == 1 then segs[0]
    else segs[0] + "/" + JoinSegs(segs[1..])
  }

  /**
   One pass of Node's `normalizeString` over the segments: "" and "." are dropped,
   ".." removes the last kept segment unless that is itself "..", in which case (or
   when nothing is kept) it is kept only for a relative path.
   */
  function Resolve(segs: seq<string>, acc: seq<string>, allowAboveRoot: bool): seq<string>
    decreases |segs|
  {
    if segs == [] then acc
    else
      var s := segs[0];
      if s == "" || s == "." then Resolve(segs[1..], acc, allowAboveRoot)
      else if s == ".." then
        if acc != [] && acc[|acc| - 1] != ".." then Resolve(segs[1..], acc[..|acc| - 1], allowAboveRoot)
        else if allowAboveRoot then Resolve(segs[1..], acc + [".."], allowAboveRoot)
        else Resolve(segs[1..], acc, allowAboveRoot)
      else Resolve(segs[1..], acc + [s], allowAboveRoot)
  }

  /** `path.posix.normalize` */
  function Normalize(p: string): string
  {
    if p == "" then "."
    else
      var isAbsolute := p[0] == '/';
      var trailing := p[|p| - 1] == '/';
      var s := JoinSegs(Resolve(Split(p), [], !isAbsolute));
      if s == "" then (if isAbsolute then "/" else if trailing then "./" else ".")
      else
        var t := if trailing then s + "/" else s;
        if isAbsolute then "/" + t else t
  }

  /** `path.posix.join(a, b)`: the non-empty arguments joined by '/', then normalised. */
  function Join(a: string, b: string): string
  {
    if a == "" && b == "" then "."
    else if a == "" then Normalize(b)
    else if b == "" then Normalize(a)
    else Normalize(a + "/" + b)
  }

  /** Drops trailing '/' characters, but never the first character. */
  function TrimTrailingFrom1(p: string): (q: string)
    ensures |q| <= |p| && q == p[..|q|]
    ensures p != "" ==> q != ""
    decreases |p|
  {
    if |p| > 1 && p[|p| - 1] == '/' then TrimTrailingFrom1(p[..|p| - 1]) else p
  }

  /** Drops every trailing '/' character. */
  function TrimTrailing(p: string): (q: string)
    ensures |q| <= |p| && q == p[..|q|]
    decreases |p|
  {
    if p != "" && p[|p| - 1] == '/' then TrimTrailing(p[..|p| - 1]) else p
  }

  /** The greatest index at or above `lo` that holds '/', or -1 when there is none. */
  function LastSlash(q: string, lo: nat): (i: int)
    ensures i == -1 || (lo <= i < |q| && q[i] == '/')
    ensures i == -1 ==> forall k :: lo <= k < |q| ==> q[k] != '/'
    decreases |q|
  {
    if |q| <= lo then -1
    else if q[|q| - 1] == '/' then |q| - 1
    else LastSlash(q[..|q| - 1], lo)
  }

  /** `path.posix.dirname` */
  function Dirname(p: string): string
  {
    if p == "" then "."
    else
      var hasRoot := p[0] == '/';
      var q := TrimTrailingFrom1(p);
      var end := LastSlash(q, 1);
      if end == -1 then (if hasRoot then "/" else ".")
      else if hasRoot && end == 1 then "//"
      else q[..end]
  }

  /** `path.posix.basename` */
  function Basename(p: string): string
  {
    var q := TrimTrailing(p);
    q[LastSlash(q, 0) + 1..]
  }

  // The replacement of every match of the global pattern `[^\/]*` by "." (line 219).
  // The pattern matches every maximal run of non-'/' characters, and also the empty
  // string right after each run, so a non-empty segment turns into ".." and an empty
  // segment into ".".
  function Up(target: string): string
  {
    JoinSegs(UpSegments(Split(target)))
  }

  function UpSegment(s: string): string
  {
    if s == "" then "." else ".."
  }

  function UpSegments(segs: seq<string>): seq<string>
  {
    seq(|segs|, i requires 0 <= i < |segs| => UpSegment(segs[i]))
  }

  /** k copies of "..". */
  function Ups(k: nat): seq<string>
  {
    seq(k, i => "..")
  }

  /** Every segment is a plain name: a path that only goes down, such as `a/b`. */
  predicate IsDownward(p: string)
  {
    var segs := Split(p);
    forall i :: 0 <= i < |segs| ==> ValidName(segs[i])
  }

  /** Segments that climb with ".." first and then go down through plain names. */
  predicate UpThenDown(segs: seq<string>)
  {
    (forall i :: 0 <= i < |segs| ==> segs[i] == ".." || ValidName(segs[i]))
    && (forall i, j :: 0 <= i < j < |segs| && segs[j] == ".." ==> segs[i] == "..")
  }

  /** A relative path in the form `normalize` produces, such as `../../a/b`. */
  predicate IsRelative(p: string)
  {
    UpThenDown(Split(p))
  }

  // ---------------------------------------------------------------------------
  // Splitting and joining

  lemma {:induction false} SplitNoSlash(a: string)
    requires NoSlash(a)
    ensures Split(a) == [a]
    decreases |a|
  {
    if a != [] {
      SplitNoSlash(a[1..]);
      assert a == [a[0]] + a[1..];
    }
  }

  /** A leading separator opens an empty first segment. */
  lemma SplitSlashCons(s: string)
    ensures Split("/" + s) == [""] + Split(s)
  {
    assert ("/" + s)[1..] == s;
  }

  /** Any other leading character joins the first segment. */
  lemma SplitCharCons(c: char, s: string)
    requires c != '/'
    ensures Split([c] + s) == [[c] + Split(s)[0]] + Split(s)[1..]
  {
    assert ([c] + s)[1..] == s;
  }

  /** Splitting at a separator splits the two sides independently. */
  lemma {:induction false} SplitAppendSlash(a: string, b: string)
    ensures Split(a + "/" + b) == Split(a) + Split(b)
    decreases |a|
  {
    if a == [] {
      assert a + "/" + b == "/" + b;
      SplitSlashCons(b);
    } else {
      var c, t := a[0], a[1..];
      assert a == [c] + t;
      assert a + "/" + b == [c] + (t + "/" + b);
      SplitAppendSlash(t, b);
      if c == '/' {
        SlashConsAppend(t, b);
      } else {
        CharConsAppend(c, t, b);
      }
    }
  }

  lemma SlashConsAppend(t: string, b: string)
    requires Split(t + "/" + b) == Split(t) + Split(b)
    ensures Split("/" + (t + "/" + b)) == Split("/" + t) + Split(b)
  {
    SplitSlashCons(t);
    SplitSlashCons(t + "/" + b);
  }

  lemma CharConsAppend(c: char, t: string, b: string)
    requires c != '/'
    requires Split(t + "/" + b) == Split(t) + Split(b)
    ensures Split([c] + (t + "/" + b)) == Split([c] + t) + Split(b)
  {
    SplitCharCons(c, t);
    SplitCharCons(c, t + "/" + b);
    ExtendFirst([c], Split(t), Split(b));
  }

  /** Extending the first segment commutes with appending more segments. */
  lemma ExtendFirst(pre: string, x: seq<string>, y: seq<string>)
    requires |x| >= 1
    ensures [pre + (x + y)[0]] + (x + y)[1..] == ([pre + x[0]] + x[1..]) + y
  {
    assert (x + y)[0] == x[0];
    assert (x + y)[1..] == x[1..] + y;
  }

  /** Joining the pieces of a split gives the path back. */
  lemma {:induction false} JoinSplit(p: string)
    ensures JoinSegs(Split(p)) == p
    decreases |p|
  {
    if p == [] {
    } else if p[0] == '/' {
      JoinSplit(p[1..]);
      assert [""] + Split(p[1..]) == Split(p);
      assert ([""] + Split(p[1..]))[1..] == Split(p[1..]);
    } else {
      JoinSplit(p[1..]);
      var rest := Split(p[1..]);
      var segs := Split(p);
      assert segs == [[p[0]] + rest[0]] + rest[1..];
      if |rest| == 1 {
        assert p == [p[0]] + p[1..];
      } else {
        assert segs[1..] == rest[1..];
        assert JoinSegs(rest) == rest[0] + "/" + JoinSegs(rest[1..]);
        assert p == [p[0]] + p[1..];
      }
    }
  }

  /** Splitting a join of slash-free segments gives the segments back. */
  lemma {:induction false} SplitJoin(segs: seq<string>)
    requires |segs| >= 1
    requires forall i :: 0 <= i < |segs| ==> NoSlash(segs[i])
    ensures Split(JoinSegs(segs)) == segs
    decreases |segs|
  {
    SplitNoSlash(segs[0]);
    if |segs| > 1 {
      SplitJoin(segs[1..]);
      SplitAppendSlash(segs[0], JoinSegs(segs[1..]));
      assert segs == [segs[0]] + segs[1..];
    }
  }

  lemma {:induction false} JoinSegsAppend(xs: seq<string>, ys: seq<string>)
    requires |xs| >= 1 && |ys| >= 1
    ensures JoinSegs(xs + ys) == JoinSegs(xs) + "/" + JoinSegs(ys)
    decreases |xs|
  {
    if |xs| > 1 {
      JoinSegsAppend(xs[1..], ys);
      assert (xs + ys)[1..] == xs[1..] + ys;
    } else {
      assert (xs + ys)[1..] == ys;
    }
  }

  lemma {:induction false} SplitLastEmpty(p: string)
    requires p != "" && p[|p| - 1] == '/'
    ensures Split(p)[|Split(p)| - 1] == ""
    decreases |p|
  {
    if |p| > 1 {
      SplitLastEmpty(p[1..]);
    }
  }

  // ---------------------------------------------------------------------------
  // Normalisation

  /** Resolving two runs of segments one after the other. */
  lemma {:induction false} ResolveAppend(a: seq<string>, b: seq<string>, acc: seq<string>, above: bool)
    ensures Resolve(a + b, acc, above) == Resolve(b, Resolve(a, acc, above), above)
    decreases |a|
  {
    if a == [] {
      assert a + b == b;
    } else {
      var ab := a + b;
      assert ab != [] && ab[0] == a[0] && ab[1..] == a[1..] + b;
      var s := a[0];
      var next := if s == "" || s == "." then acc
        else if s == ".." then
          (if acc != [] && acc[|acc| - 1] != ".." then acc[..|acc| - 1]
           else if above then acc + [".."] else acc)
        else acc + [s];
      assert Resolve(ab, acc, above) == Resolve(a[1..] + b, next, above);
      assert Resolve(a, acc, above) == Resolve(a[1..], next, above);
      ResolveAppend(a[1..], b, next, above);
    }
  }

  /** Segments already in up-then-down form are kept as they are. */
  lemma {:induction false} ResolveKeeps(segs: seq<string>, acc: seq<string>)
    requires UpThenDown(acc + segs)
    ensures Resolve(segs, acc, true) == acc + segs
    decreases |segs|
  {
    if segs != [] {
      var all := acc + segs;
      assert all[|acc|] == segs[0];
      assert acc + [segs[0]] + segs[1..] == all;
      if segs[0] == ".." {
        if acc != [] {
          assert all[|acc| - 1] == acc[|acc| - 1];
        }
      } else {
        assert ValidName(segs[0]);
      }
      ResolveKeeps(segs[1..], acc + [segs[0]]);
    }
  }

  /** Plain names are pushed one by one. */
  lemma {:induction false} ResolveNames(names: seq<string>, acc: seq<string>, above: bool)
    requires forall i :: 0 <= i < |names| ==> ValidName(names[i])
    ensures Resolve(names, acc, above) == acc + names
    decreases |names|
  {
    if names != [] {
      assert ValidName(names[0]);
      ResolveNames(names[1..], acc + [names[0]], above);
      assert acc + [names[0]] + names[1..] == acc + names;
    }
  }

  /** As many ".." as names pushed remove exactly those names. */
  lemma {:induction false} ResolvePops(names: seq<string>, acc: seq<string>, above: bool)
    requires forall i :: 0 <= i < |names| ==> ValidName(names[i])
    ensures Resolve(Ups(|names|), acc + names, above) == acc
    decreases |names|
  {
    if names != [] {
      var k := |names|;
      var rest := acc + names;
      assert rest[|rest| - 1] == names[k - 1];
      assert ValidName(names[k - 1]);
      assert rest[..|rest| - 1] == acc + names[..k - 1];
      assert Ups(k)[1..] == Ups(k - 1);
      ResolvePops(names[..k - 1], acc, above);
    }
  }

  /** A path already in normal relative form is its own normalisation. */
  lemma NormalizeRelative(p: string)
    requires IsRelative(p)
    ensures Normalize(p) == p
  {
    var segs := Split(p);
    assert segs[0] != "";
    if p == "" {
      assert false;
    }
    if p[|p| - 1] == '/' {
      SplitLastEmpty(p);
      assert false;
    }
    ResolveKeeps(segs, []);
    assert [] + segs == segs;
    JoinSplit(p);
  }

  /** Joining two relative paths whose segments still climb first and then descend is plain concatenation. */
  lemma JoinRelative(a: string, b: string)
    requires UpThenDown(Split(a) + Split(b))
    ensures Join(a, b) == a + "/" + b
    ensures IsRelative(a + "/" + b)
  {
    var sa, sb := Split(a), Split(b);
    assert (sa + sb)[0] == sa[0] && (sa + sb)[|sa|] == sb[0];
    assert a != "" && b != "";
    SplitAppendSlash(a, b);
    NormalizeRelative(a + "/" + b);
  }

  /** Appending a plain name to a downward path. */
  lemma JoinName(d: string, n: string)
    requires IsDownward(d) && ValidName(n)
    ensures Join(d, n) == d + "/" + n
    ensures IsDownward(d + "/" + n)
    ensures Split(d + "/" + n) == Split(d) + [n]
  {
    SplitNoSlash(n);
    SplitAppendSlash(d, n);
    var all := Split(d) + [n];
    assert forall i :: 0 <= i < |all| ==> ValidName(all[i]);
    JoinRelative(d, n);
  }

  lemma NameIsDownward(n: string)
    requires ValidName(n)
    ensures IsDownward(n) && Split(n) == [n]
  {
    SplitNoSlash(n);
  }

  // ---------------------------------------------------------------------------
  // dirname and basename of the paths the walk produces

  lemma {:induction false} LastSlashSkips(x: string, y: string, lo: nat)
    requires NoSlash(y)
    ensures LastSlash(x + y, lo) == LastSlash(x, lo)
    decreases |y|
  {
    if y == [] {
      assert x + y == x;
    } else {
      var xy := x + y;
      var y' := y[..|y| - 1];
      assert xy[|xy| - 1] == y[|y| - 1] != '/';
      assert xy[..|xy| - 1] == x + y';
      assert NoSlash(y');
      LastSlashSkips(x, y', lo);
      if |xy| <= lo {
        assert LastSlash(xy, lo) == -1;
        assert LastSlash(x, lo) == -1;
      } else {
        assert LastSlash(xy, lo) == LastSlash(x + y', lo);
      }
    }
  }

  /** The directory of `d/n` is `d`. */
  lemma DirnameOfChild(d: string, n: string)
    requires d != "" && d != "/" && ValidName(n)
    ensures Dirname(d + "/" + n) == d
  {
    var p := d + "/" + n;
    assert p[|p| - 1] == n[|n| - 1];
    assert TrimTrailingFrom1(p) == p;
    LastSlashSkips(d + "/", n, 1);
    assert (d + "/")[|d|] == '/';
    assert p[..|d|] == d;
    assert p[0] == d[0];
  }

  /** A bare name lives in ".". */
  lemma DirnameOfName(n: string)
    requires ValidName(n)
    ensures Dirname(n) == "."
  {
    assert n[|n| - 1] != '/';
    assert TrimTrailingFrom1(n) == n;
  }

  /** The last segment of `d/n` is `n`. */
  lemma BasenameOfChild(d: string, n: string)
    requires ValidName(n)
    ensures Basename(d + "/" + n) == n
    ensures Basename(n) == n
  {
    var p := d + "/" + n;
    assert p[|p| - 1] == n[|n| - 1];
    assert TrimTrailing(p) == p;
    assert TrimTrailing(n) == n;
    LastSlashSkips(d + "/", n, 0);
    assert (d + "/")[|d|] == '/';
    assert p[|d| + 1..] == n;
    assert n == [] + n;
    LastSlashSkips([], n, 0);
  }

  // ---------------------------------------------------------------------------
  // Climbing out of a document's directory

  /** The rewrite keeps the number of segments and turns each one into "." or "..". */
  lemma UpSplit(t: string)
    ensures Split(Up(t)) == UpSegments(Split(t))
    ensures |Split(Up(t))| == |Split(t)|
  {
    var u := UpSegments(Split(t));
    forall i | 0 <= i < |u|
      ensures NoSlash(u[i])
    {
      assert u[i] == "." || u[i] == "..";
    }
    SplitJoin(u);
  }

  /** Below a downward directory, the rewrite is one ".." per segment. */
  lemma UpOfDownward(t: string)
    requires IsDownward(t)
    ensures Split(Up(t)) == Ups(|Split(t)|)
    ensures IsRelative(Up(t))
  {
    UpSplit(t);
  }

  /** A root-level document's directory "." climbs one level too: it becomes "..". */
  lemma UpOfDot()
    ensures Up(".") == ".."
  {
    SplitNoSlash(".");
  }

  // ---------------------------------------------------------------------------
  // Resolving a reference from a document's directory

  /** A downward path neither starts nor ends with '/'. */
  lemma DownwardEnds(p: string)
    requires IsDownward(p)
    ensures p != "" && p[0] != '/' && p[|p| - 1] != '/'
  {
    var segs := Split(p);
    assert ValidName(segs[0]);
    assert ValidName(segs[|segs| - 1]);
    if p != "" && p[|p| - 1] == '/' {
      SplitLastEmpty(p);
      assert false;
    }
  }

  /** Joining two downward paths is plain concatenation, and stays downward. */
  lemma JoinDownward(d: string, p: string)
    requires IsDownward(d) && IsDownward(p)
    ensures Join(d, p) == d + "/" + p
    ensures IsDownward(d + "/" + p)
  {
    var all := Split(d) + Split(p);
    assert forall i :: 0 <= i < |all| ==> ValidName(all[i]);
    JoinRelative(d, p);
    SplitAppendSlash(d, p);
  }

  /** k climbs followed by a downward path are in up-then-down form. */
  lemma UpsThenDownward(k: nat, p: string)
    requires IsDownward(p)
    ensures UpThenDown(Ups(k) + Split(p))
  {
    var all := Ups(k) + Split(p);
    forall i | 0 <= i < |all|
      ensures all[i] == ".." || ValidName(all[i])
      ensures all[i] == ".." ==> i < k
    {
      if i >= k {
        assert all[i] == Split(p)[i - k];
      }
    }
  }

  /** The segments of `t/(Up(t)/p)`: those of t, one ".." per segment of t, then those of p. */
  lemma ClimbSegments(t: string, p: string)
    requires IsDownward(t) && IsDownward(p)
    ensures Split(t + "/" + (Up(t) + "/" + p)) == Split(t) + Ups(|Split(t)|) + Split(p)
  {
    UpOfDownward(t);
    SplitAppendSlash(Up(t), p);
    SplitAppendSlash(t, Up(t) + "/" + p);
  }

  /** Pushing the names of t, popping each with "..", then pushing p's names leaves p's names. */
  lemma ClimbResolves(t: seq<string>, p: seq<string>)
    requires forall i :: 0 <= i < |t| ==> ValidName(t[i])
    requires forall i :: 0 <= i < |p| ==> ValidName(p[i])
    ensures Resolve(t + Ups(|t|) + p, [], true) == p
  {
    ResolveAppend(t + Ups(|t|), p, [], true);
    ResolveAppend(t, Ups(|t|), [], true);
    ResolveNames(t, [], true);
    assert [] + t == t;
    ResolvePops(t, [], true);
    ResolveNames(p, [], true);
    assert [] + p == p;
  }

  /**
   From a downward directory, climbing out with the rewritten directory and then
   descending along a downward path lands exactly on that path.
   */
  lemma ClimbThenDescend(t: string, p: string)
    requires IsDownward(t) && IsDownward(p)
    ensures Join(t, Up(t) + "/" + p) == p
  {
    DownwardEnds(t);
    DownwardEnds(p);
    var whole := t + "/" + (Up(t) + "/" + p);
    ClimbSegments(t, p);
    ClimbResolves(Split(t), Split(p));
    JoinSplit(p);
    assert whole[0] == t[0];
    assert whole[|whole| - 1] == p[|p| - 1];
  }

  /** A relative reference resolved from "." is itself. */
  lemma JoinDot(p: string)
    requires IsRelative(p)
    ensures Join(".", p) == p
  {
    var segs := Split(p);
    assert segs[0] != "";
    if p == "" {
      assert false;
    }
    if p[|p| - 1] == '/' {
      SplitLastEmpty(p);
      assert false;
    }
    SplitNoSlash(".");
    SplitAppendSlash(".", p);
    var whole := "." + "/" + p;
    assert Split(whole) == ["."] + segs;
    assert (["."] + segs)[1..] == segs;
    assert Resolve(["."] + segs, [], true) == Resolve(segs, [], true);
    ResolveKeeps(segs, []);
    assert [] + segs == segs;
    JoinSplit(p);
    assert whole[|whole| - 1] == p[|p| - 1];
  }
}
