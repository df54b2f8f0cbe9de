/**
 File discovery, `fetchFiles` (bin/index.js, lines 17-56).

 The search root is listed, and its entries become a worklist of paths relative to
 the root. The loop walks that worklist while appending to it, so directories are
 expanded breadth-first. An entry whose relative path contains "node_modules" is
 skipped; a regular file (by lstat, so symbolic links are neither followed nor
 returned) is kept when its full path matches the user's pattern; a directory is
 expanded unless its basename is one of the excluded names. An error on one entry
 (lstat or readdir throwing) is reported and only that entry is skipped.

 The file system is a finite tree: each directory holds its listing in readdir
 order, and lstat of a listed child is what the tree holds for it.
 */
module Discovery {
  import opened Optional
  import opened Paths
  import opened Strings

  /** What lstat, and for a directory readdir, report for one path. */
  datatype Entry =
    | File                       // a regular file
    | Other                      // a symbolic link, socket, ...: neither file nor directory to lstat
    | Failing                    // lstat, or readdir of this directory, throws
    | Dir(children: seq<Child>)  // a directory and its listing, in readdir order

  datatype Child = Child(name: string, entry: Entry)

  /** One worklist element: the path relative to the search root, and what it names. */
  datatype Item = Item(rel: string, entry: Entry)

  function Size(e: Entry): nat
  {
    match e
    case Dir(cs) => 1 + SizeAll(cs)
    case _ => 1
  }

  function SizeAll(cs: seq<Child>): nat
  {
    if cs == [] then 0 else Size(cs[0].entry) + SizeAll(cs[1..])
  }

  function QueueSize(q: seq<Item>): nat
  {
    if q == [] then 0 else Size(q[0].entry) + QueueSize(q[1..])
  }

  /** The search root's listing as the first worklist: bare names (line 18). */
  function RootItems(cs: seq<Child>): seq<Item>
  {
    seq(|cs|, i requires 0 <= i < |cs| => Item(cs[i].name, cs[i].entry))
  }

  /** A directory's listing appended to the worklist: `path.join(file, f)` (line 48). */
  function Kids(rel: string, cs: seq<Child>): seq<Item>
  {
    seq(|cs|, i requires 0 <= i < |cs| => Item(Join(rel, cs[i].name), cs[i].entry))
  }

  /** What the loop does with one worklist element: files it keeps, elements it appends. */
  datatype Step = Step(keep: seq<Item>, push: seq<Item>)

  function Visit(root: string, exclude: seq<string>, matches: string -> bool, it: Item): Step
  {
    if Contains(it.rel, "node_modules") then Step([], [])
    else
      var filepath := Join(root, it.rel);
      match it.entry
      case File => if matches(filepath) then Step([it], []) else Step([], [])
      case Dir(cs) => if Basename(filepath) in exclude then Step([], []) else Step([], Kids(it.rel, cs))
      case _ => Step([], [])
  }

  /**
   The breadth-first walk as a recursive definition over the worklist: the kept
   files, in the order the worklist reaches them.
   */
  function Walk(root: string, exclude: seq<string>, matches: string -> bool, q: seq<Item>): (r: seq<Item>)
    ensures forall k :: 0 <= k < |r| ==>
      r[k].entry == File && !Contains(r[k].rel, "node_modules") && matches(Join(root, r[k].rel))
    decreases QueueSize(q)
  {
    if q == [] then []
    else
      var st := Visit(root, exclude, matches, q[0]);
      VisitShrinks(root, exclude, matches, q);
      st.keep + Walk(root, exclude, matches, q[1..] + st.push)
  }

  /** The full paths of the kept files: what the loop pushes (line 34). */
  function FullPaths(root: string, items: seq<Item>): seq<string>
  {
    seq(|items|, i requires 0 <= i < |items| => Join(root, items[i].rel))
  }

  /**
   The same search as a recursive descent: the set of matching files at or below
   one worklist element. This is the reference the walk is checked against.
   */
  function Found(root: string, exclude: seq<string>, matches: string -> bool, it: Item): set<string>
    decreases Size(it.entry), 0
  {
    if Contains(it.rel, "node_modules") then {}
    else
      var filepath := Join(root, it.rel);
      match it.entry
      case File => if matches(filepath) then {filepath} else {}
      case Dir(cs) =>
        if Basename(filepath) in exclude then {}
        else
          KidsSize(it.rel, cs);
          FoundAll(root, exclude, matches, Kids(it.rel, cs))
      case _ => {}
  }

  function FoundAll(root: string, exclude: seq<string>, matches: string -> bool, q: seq<Item>): set<string>
    decreases QueueSize(q), 1
  {
    if q == [] then {}
    else Found(root, exclude, matches, q[0]) + FoundAll(root, exclude, matches, q[1..])
  }

  /**
   The body of the loop for one worklist element (lines 27-51): the full path it
   contributes to the result, if any, and the listing it appends to the worklist.
   */
  method VisitEntry(root: string, exclude: seq<string>, matches: string -> bool, it: Item)
    returns (kept: seq<string>, listing: seq<Item>)
    ensures kept == FullPaths(root, Visit(root, exclude, matches, it).keep)
    ensures listing == Visit(root, exclude, matches, it).push
  {
    kept, listing := [], [];
    var file := it.rel;
    if !Contains(file, "node_modules") {
      var filepath := Join(root, file);
      match it.entry {
        case File =>
          if matches(filepath) {
            kept := [filepath];
          }
        case Dir(cs) =>
          if Basename(filepath) !in exclude {
            listing := Kids(file, cs);
          }
        case _ =>
      }
    }
  }

  /**
   `fetchFiles`: lists the root (a failure there is not caught inside, so the whole
   run ends: `None`), then walks the growing worklist.
   */
  method FetchFiles(root: string, top: Entry, exclude: seq<string>, matches: string -> bool)
    returns (r: Option<seq<string>>)
    ensures !top.Dir? ==> r == None
    ensures top.Dir? ==> r == Some(FullPaths(root, Walk(root, exclude, matches, RootItems(top.children))))
  {
    if !top.Dir? {
      return None;
    }
    var files := RootItems(top.children);
    ghost var all := FullPaths(root, Walk(root, exclude, matches, files));
    var fetched: seq<string> := [];
    var i := 0;
    assert files[i..] == files;
    while i < |files|
      invariant 0 <= i <= |files|
      invariant fetched + FullPaths(root, Walk(root, exclude, matches, files[i..])) == all
      decreases QueueSize(files[i..])
    {
      var kept, listing := VisitEntry(root, exclude, matches, files[i]);
      FetchStep(root, exclude, matches, all, fetched, files, i, kept, listing);
      fetched := fetched + kept;
      files := files + listing;
      i := i + 1;
    }
    assert files[i..] == [];
    assert fetched + [] == fetched;
    return Some(fetched);
  }

  // ---------------------------------------------------------------------------
  // Sizes and termination

  lemma {:induction false} QueueSizeAppend(a: seq<Item>, b: seq<Item>)
    ensures QueueSize(a + b) == QueueSize(a) + QueueSize(b)
    decreases |a|
  {
    if a == [] {
      assert a + b == b;
    } else {
      assert (a + b)[1..] == a[1..] + b;
      QueueSizeAppend(a[1..], b);
    }
  }

  lemma {:induction false} KidsSize(rel: string, cs: seq<Child>)
    ensures QueueSize(Kids(rel, cs)) == SizeAll(cs)
    decreases |cs|
  {
    if cs != [] {
      KidsSize(Join(rel, cs[0].name), []);
      assert Kids(rel, cs)[1..] == Kids(rel, cs[1..]);
      KidsSize(rel, cs[1..]);
    }
  }

  /** Visiting the head of the worklist leaves strictly less to walk. */
  lemma VisitShrinks(root: string, exclude: seq<string>, matches: string -> bool, q: seq<Item>)
    requires q != []
    ensures QueueSize(q[1..] + Visit(root, exclude, matches, q[0]).push) < QueueSize(q)
  {
    var st := Visit(root, exclude, matches, q[0]);
    QueueSizeAppend(q[1..], st.push);
    if st.push != [] {
      KidsSize(q[0].rel, q[0].entry.children);
    }
  }

  /**
   One turn of the loop: what was fetched so far, then the walk of the worklist,
   equals what is fetched after the head is visited, then the walk of the rest
   with the head's listing appended.
   */
  lemma WalkStep(root: string, exclude: seq<string>, matches: string -> bool, done: seq<string>, q: seq<Item>)
    requires q != []
    ensures QueueSize(q[1..] + Visit(root, exclude, matches, q[0]).push) < QueueSize(q)
    ensures done + FullPaths(root, Walk(root, exclude, matches, q))
         == (done + FullPaths(root, Visit(root, exclude, matches, q[0]).keep))
            + FullPaths(root, Walk(root, exclude, matches, q[1..] + Visit(root, exclude, matches, q[0]).push))
  {
    var st := Visit(root, exclude, matches, q[0]);
    VisitShrinks(root, exclude, matches, q);
    var rest := Walk(root, exclude, matches, q[1..] + st.push);
    assert Walk(root, exclude, matches, q) == st.keep + rest;
    FullPathsAppend(root, st.keep, rest);
    var a, b := FullPaths(root, st.keep), FullPaths(root, rest);
    assert done + (a + b) == (done + a) + b;
  }

  /** One turn of the worklist loop keeps the paths still to come equal to the walk of the rest. */
  lemma FetchStep(root: string, exclude: seq<string>, matches: string -> bool, all: seq<string>,
                  fetched: seq<string>, files: seq<Item>, i: nat, kept: seq<string>, listing: seq<Item>)
    requires i < |files|
    requires fetched + FullPaths(root, Walk(root, exclude, matches, files[i..])) == all
    requires kept == FullPaths(root, Visit(root, exclude, matches, files[i]).keep)
    requires listing == Visit(root, exclude, matches, files[i]).push
    ensures QueueSize((files + listing)[i + 1..]) < QueueSize(files[i..])
    ensures (fetched + kept) + FullPaths(root, Walk(root, exclude, matches, (files + listing)[i + 1..])) == all
  {
    var q := files[i..];
    assert q[0] == files[i];
    assert (files + listing)[i + 1..] == q[1..] + listing;
    WalkStep(root, exclude, matches, fetched, q);
  }

  lemma {:induction false} FullPathsAppend(root: string, a: seq<Item>, b: seq<Item>)
    ensures FullPaths(root, a + b) == FullPaths(root, a) + FullPaths(root, b)
  {
    var l, r := FullPaths(root, a + b), FullPaths(root, a) + FullPaths(root, b);
    assert |l| == |r|;
    forall k | 0 <= k < |l|
      ensures l[k] == r[k]
    {
      if k < |a| {
        assert (a + b)[k] == a[k];
      } else {
        assert (a + b)[k] == b[k - |a|];
      }
    }
  }

  // ---------------------------------------------------------------------------
  // The walk finds exactly what the recursive descent finds

  function ToSet(s: seq<string>): set<string>
  {
    set x | x in s
  }

  lemma {:induction false} FoundAllAppend(root: string, exclude: seq<string>, matches: string -> bool, a: seq<Item>, b: seq<Item>)
    ensures FoundAll(root, exclude, matches, a + b)
         == FoundAll(root, exclude, matches, a) + FoundAll(root, exclude, matches, b)
    decreases |a|
  {
    if a == [] {
      assert a + b == b;
    } else {
      assert (a + b)[0] == a[0] && (a + b)[1..] == a[1..] + b;
      FoundAllAppend(root, exclude, matches, a[1..], b);
    }
  }

  /** One element's share of the recursive descent is what it keeps plus what its listing finds. */
  lemma FoundByVisit(root: string, exclude: seq<string>, matches: string -> bool, it: Item)
    ensures Found(root, exclude, matches, it)
         == ToSet(FullPaths(root, Visit(root, exclude, matches, it).keep))
            + FoundAll(root, exclude, matches, Visit(root, exclude, matches, it).push)
  {
    var st := Visit(root, exclude, matches, it);
    if st.keep != [] {
      assert FullPaths(root, st.keep) == [Join(root, it.rel)];
    }
  }

  /**
   The worklist walk keeps exactly the files the recursive descent finds: every
   matching regular file outside "node_modules" paths and excluded directories.
   */
  lemma {:induction false} WalkFindsAll(root: string, exclude: seq<string>, matches: string -> bool, q: seq<Item>)
    ensures ToSet(FullPaths(root, Walk(root, exclude, matches, q))) == FoundAll(root, exclude, matches, q)
    decreases QueueSize(q)
  {
    if q != [] {
      var st := Visit(root, exclude, matches, q[0]);
      var next := q[1..] + st.push;
      VisitShrinks(root, exclude, matches, q);
      WalkFindsAll(root, exclude, matches, next);
      FullPathsAppend(root, st.keep, Walk(root, exclude, matches, next));
      FoundAllAppend(root, exclude, matches, q[1..], st.push);
      FoundByVisit(root, exclude, matches, q[0]);
      var rest := FullPaths(root, Walk(root, exclude, matches, next));
      assert ToSet(FullPaths(root, st.keep) + rest) == ToSet(FullPaths(root, st.keep)) + ToSet(rest);
    }
  }

  // ---------------------------------------------------------------------------
  // Breadth-first order

  /** Directory listings hold only names readdir can return. */
  predicate WellNamed(e: Entry)
  {
    match e
    case Dir(cs) => forall i :: 0 <= i < |cs| ==> ValidName(cs[i].name) && WellNamed(cs[i].entry)
    case _ => true
  }

  /** The depth of a relative path: its number of segments. */
  function Depth(rel: string): nat
  {
    |Split(rel)|
  }

  /**
   A worklist as breadth-first search keeps it: plain relative paths, depths that
   never decrease, and at most one level between the first and the last element.
   */
  predicate Layered(q: seq<Item>)
  {
    (forall i :: 0 <= i < |q| ==> IsDownward(q[i].rel) && WellNamed(q[i].entry))
    && (forall i, j :: 0 <= i < j < |q| ==> Depth(q[i].rel) <= Depth(q[j].rel))
    && (forall i :: 0 <= i < |q| ==> Depth(q[i].rel) <= Depth(q[0].rel) + 1)
  }

  /** A listing appended to the worklist sits one level below its directory. */
  lemma KidsBelow(rel: string, cs: seq<Child>)
    requires IsDownward(rel) && WellNamed(Dir(cs))
    ensures forall k :: 0 <= k < |Kids(rel, cs)| ==>
      IsDownward(Kids(rel, cs)[k].rel) && WellNamed(Kids(rel, cs)[k].entry)
      && Depth(Kids(rel, cs)[k].rel) == Depth(rel) + 1
  {
    forall k | 0 <= k < |cs|
      ensures IsDownward(Kids(rel, cs)[k].rel) && Depth(Kids(rel, cs)[k].rel) == Depth(rel) + 1
    {
      JoinName(rel, cs[k].name);
    }
  }

  /** A visit keeps the element itself or nothing, and appends only its listing. */
  lemma VisitPushesBelow(root: string, exclude: seq<string>, matches: string -> bool, it: Item)
    requires IsDownward(it.rel) && WellNamed(it.entry)
    ensures var st := Visit(root, exclude, matches, it);
      (st.keep == [] || st.keep == [it])
      && forall k :: 0 <= k < |st.push| ==>
        IsDownward(st.push[k].rel) && WellNamed(st.push[k].entry) && Depth(st.push[k].rel) == Depth(it.rel) + 1
  {
    var st := Visit(root, exclude, matches, it);
    if st.push != [] {
      KidsBelow(it.rel, it.entry.children);
    }
  }

  /** Taking the head off a layered worklist and appending elements one level below it keeps it layered. */
  lemma AppendBelowLayered(q: seq<Item>, push: seq<Item>)
    requires Layered(q) && q != []
    requires forall k :: 0 <= k < |push| ==>
      IsDownward(push[k].rel) && WellNamed(push[k].entry) && Depth(push[k].rel) == Depth(q[0].rel) + 1
    ensures Layered(q[1..] + push)
    ensures forall k :: 0 <= k < |q[1..] + push| ==> Depth(q[0].rel) <= Depth((q[1..] + push)[k].rel)
  {
    var next := q[1..] + push;
    var d0 := Depth(q[0].rel);
    var n := |q| - 1;
    forall i | 0 <= i < |next|
      ensures IsDownward(next[i].rel) && WellNamed(next[i].entry)
      ensures d0 <= Depth(next[i].rel) <= d0 + 1
    {
      if i < n {
        assert next[i] == q[i + 1];
      } else {
        assert next[i] == push[i - n];
      }
    }
    forall i, j | 0 <= i < j < |next|
      ensures Depth(next[i].rel) <= Depth(next[j].rel)
    {
      if j < n {
        assert next[i] == q[i + 1] && next[j] == q[j + 1];
      } else {
        assert next[j] == push[j - n];
      }
    }
  }

  predicate DepthSorted(r: seq<Item>)
  {
    forall i, j :: 0 <= i < j < |r| ==> Depth(r[i].rel) <= Depth(r[j].rel)
  }

  predicate AllAtLeast(r: seq<Item>, d: nat)
  {
    forall k :: 0 <= k < |r| ==> d <= Depth(r[k].rel)
  }

  lemma PrependShallowest(keep: seq<Item>, rest: seq<Item>, d: nat)
    requires keep == [] || (|keep| == 1 && Depth(keep[0].rel) == d)
    requires DepthSorted(rest) && AllAtLeast(rest, d)
    ensures DepthSorted(keep + rest) && AllAtLeast(keep + rest, d)
  {
    var r := keep + rest;
    if keep == [] {
      assert r == rest;
    } else {
      assert forall k :: 1 <= k < |r| ==> r[k] == rest[k - 1];
    }
  }

  /**
   Files come out in breadth-first order: never a shallower file after a deeper
   one, and none shallower than the head of the worklist.
   */
  lemma {:induction false} WalkIsBreadthFirst(root: string, exclude: seq<string>, matches: string -> bool, q: seq<Item>)
    requires Layered(q) && q != []
    ensures DepthSorted(Walk(root, exclude, matches, q))
    ensures AllAtLeast(Walk(root, exclude, matches, q), Depth(q[0].rel))
    decreases QueueSize(q)
  {
    var st := Visit(root, exclude, matches, q[0]);
    var next := q[1..] + st.push;
    var d0 := Depth(q[0].rel);
    VisitShrinks(root, exclude, matches, q);
    VisitPushesBelow(root, exclude, matches, q[0]);
    AppendBelowLayered(q, st.push);
    var rest := Walk(root, exclude, matches, next);
    if next != [] {
      WalkIsBreadthFirst(root, exclude, matches, next);
      assert AllAtLeast(rest, d0);
    }
    assert Walk(root, exclude, matches, q) == st.keep + rest;
    PrependShallowest(st.keep, rest, d0);
  }

  /** The first worklist, the root's listing, is layered. */
  lemma RootItemsLayered(cs: seq<Child>)
    requires WellNamed(Dir(cs))
    ensures Layered(RootItems(cs))
    ensures forall k :: 0 <= k < |cs| ==> Depth(RootItems(cs)[k].rel) == 1
  {
    forall k | 0 <= k < |cs|
      ensures IsDownward(cs[k].name) && Depth(cs[k].name) == 1
    {
      NameIsDownward(cs[k].name);
    }
  }

  /**
   The files `fetchFiles` returns, for a well-named tree: exactly the matching
   files the recursive descent finds, in breadth-first order of depth.
   */
  lemma FetchFilesOrder(root: string, cs: seq<Child>, exclude: seq<string>, matches: string -> bool)
    requires WellNamed(Dir(cs))
    ensures ToSet(FullPaths(root, Walk(root, exclude, matches, RootItems(cs))))
         == FoundAll(root, exclude, matches, RootItems(cs))
    ensures DepthSorted(Walk(root, exclude, matches, RootItems(cs)))
  {
    WalkFindsAll(root, exclude, matches, RootItems(cs));
    RootItemsLayered(cs);
    if cs != [] {
      WalkIsBreadthFirst(root, exclude, matches, RootItems(cs));
    }
  }
}
