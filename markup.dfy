/**
 The markup of one document as the block loop of `mimc` sees it (bin/index.js, lines
 164-222): a tree of elements, text and comments, the cheerio selections the loop
 makes on a diagram block (`children("code")`, `find("code")`,
 `children(".data-diagram")`), and the rewrite of a rendered block's children.

 Attributes are kept as a list in document order, as the element's attribute object
 keeps them; a name occurs at most once in markup the parser produced.
 */
module Markup {
  import opened Optional

  datatype Attr = Attr(name: string, value: string)

  datatype Node =
    | Text(text: string)
    | Comment(text: string)
    | Element(tag: string, attrs: seq<Attr>, kids: seq<Node>)

  /** The two kinds of selector the block loop uses: a tag name and a class name. */
  datatype Selector = Tag(name: string) | Class(name: string)

  /** `.data-diagram`: the class of the node the rewrite appends. */
  const MarkerClass: string := "data-diagram"

  /** JavaScript truthiness of a value that is `null` or a string. */
  predicate Truthy(o: Option<string>)
  {
    o.Some? && o.value != ""
  }

  // ---------------------------------------------------------------------------
  // Attributes

  /** `el.attribs[name]` */
  function GetAttr(attrs: seq<Attr>, name: string): Option<string>
    decreases |attrs|
  {
    if attrs == [] then None
    else if attrs[0].name == name then Some(attrs[0].value)
    else GetAttr(attrs[1..], name)
  }

  /**
   `$(el).attr(name, value)`: an existing attribute keeps its place and takes the new
   value; a new one goes last.
   */
  function SetAttr(attrs: seq<Attr>, name: string, value: string): (r: seq<Attr>)
    ensures GetAttr(r, name) == Some(value)
    ensures forall n :: n != name ==> GetAttr(r, n) == GetAttr(attrs, n)
    ensures GetAttr(attrs, name).Some? ==> |r| == |attrs|
    ensures GetAttr(attrs, name).None? ==> r == attrs + [Attr(name, value)]
    decreases |attrs|
  {
    if attrs == [] then [Attr(name, value)]
    else if attrs[0].name == name then [Attr(name, value)] + attrs[1..]
    else [attrs[0]] + SetAttr(attrs[1..], name, value)
  }

  // ---------------------------------------------------------------------------
  // Class lists

  /**
   The white space the selector engine separates class names by: the characters a
   JavaScript `\s` matches.
   */
  predicate IsSpace(c: char)
  {
    var k := c as int;
    (9 <= k <= 13) || k == 32 || k == 0xA0 || k == 0x1680 || (0x2000 <= k <= 0x200A)
    || k == 0x2028 || k == 0x2029 || k == 0x202F || k == 0x205F || k == 0x3000 || k == 0xFEFF
  }

  /** The length of the run of non-space characters s starts with. */
  function WordLength(s: string): (n: nat)
    ensures n <= |s|
    ensures s != [] && !IsSpace(s[0]) ==> n > 0
    ensures forall i :: 0 <= i < n ==> !IsSpace(s[i])
    ensures n < |s| ==> IsSpace(s[n])
    decreases |s|
  {
    if s == [] || IsSpace(s[0]) then 0 else 1 + WordLength(s[1..])
  }

  /** The class names of a `class` attribute value. */
  function Words(s: string): (ws: seq<string>)
    ensures forall k :: 0 <= k < |ws| ==> ws[k] != ""
    ensures forall k, i :: 0 <= k < |ws| && 0 <= i < |ws[k]| ==> !IsSpace(ws[k][i])
    decreases |s|
  {
    if s == [] then []
    else if IsSpace(s[0]) then Words(s[1..])
    else
      var n := WordLength(s);
      assert forall i :: 0 <= i < n ==> s[..n][i] == s[i];
      [s[..n]] + Words(s[n..])
  }

  /** Class names written out with one space between them, as a `class` value. */
  function Unwords(ws: seq<string>): string
  {
    if ws == [] then ""
    else if |ws| == 1 then ws[0]
    else ws[0] + " " + Unwords(ws[1..])
  }

  predicate HasClass(attrs: seq<Attr>, c: string)
  {
    var v := GetAttr(attrs, "class");
    v.Some? && c in Words(v.value)
  }

  /** Whether a node is an element the selector picks. */
  predicate Matches(n: Node, sel: Selector)
  {
    n.Element? &&
    match sel
    case Tag(t) => n.tag == t
    case Class(c) => HasClass(n.attrs, c)
  }

  // ---------------------------------------------------------------------------
  // Serialisation, as far as `.html()` shows it

  function OuterHtml(n: Node): string
    decreases n
  {
    match n
    case Text(t) => t
    case Comment(t) => "<!--" + t + "-->"
    case Element(tag, attrs, kids) =>
      "<" + tag + AttrsHtml(attrs)
      + (if kids == [] then "/>" else ">" + InnerHtml(kids) + "</" + tag + ">")
  }

  /** `.html()` of an element: its children serialised one after the other. */
  function InnerHtml(kids: seq<Node>): string
    decreases kids
  {
    if kids == [] then "" else OuterHtml(kids[0]) + InnerHtml(kids[1..])
  }

  function AttrsHtml(attrs: seq<Attr>): string
    decreases |attrs|
  {
    if attrs == [] then ""
    else " " + attrs[0].name + "=\"" + QuoteEscaped(attrs[0].value) + "\"" + AttrsHtml(attrs[1..])
  }

  /** Attribute values are written with `"` as `&quot;` and nothing else changed. */
  function QuoteEscaped(v: string): string
    decreases |v|
  {
    if v == [] then ""
    else (if v[0] == '"' then "&quot;" else [v[0]]) + QuoteEscaped(v[1..])
  }

  /** `.html()` of a selection: the inner markup of its first element, `null` when it is empty. */
  function Html(sel: Option<Node>): Option<string>
  {
    match sel
    case None => None
    case Some(n) => if n.Element? then Some(InnerHtml(n.kids)) else Some(OuterHtml(n))
  }

  // ---------------------------------------------------------------------------
  // Selections

  /** The first element child the selector picks: what `.children(sel)` starts with. */
  function FirstChild(kids: seq<Node>, sel: Selector): (r: Option<Node>)
    ensures r.Some? ==> Matches(r.value, sel) && r.value in kids
    ensures r.None? <==> forall i :: 0 <= i < |kids| ==> !Matches(kids[i], sel)
    decreases |kids|
  {
    if kids == [] then None
    else if Matches(kids[0], sel) then Some(kids[0])
    else FirstChild(kids[1..], sel)
  }

  /** The nodes of a forest in document order: each node, then its descendants, then its later siblings. */
  function Preorder(kids: seq<Node>): seq<Node>
    decreases kids
  {
    if kids == [] then []
    else [kids[0]] + (if kids[0].Element? then Preorder(kids[0].kids) else []) + Preorder(kids[1..])
  }

  /** The first descendant, in document order, the selector picks: what `.find(sel)` starts with. */
  function Find(kids: seq<Node>, sel: Selector): (r: Option<Node>)
    ensures r.Some? ==> Matches(r.value, sel)
    ensures FirstChild(kids, sel).Some? ==> r.Some?
    decreases kids
  {
    if kids == [] then None
    else if Matches(kids[0], sel) then Some(kids[0])
    else
      var inside := if kids[0].Element? then Find(kids[0].kids, sel) else None;
      if inside.Some? then inside else Find(kids[1..], sel)
  }

  /** Whether any node in the forest, at any depth, is one the selector picks. */
  predicate AnyMatch(kids: seq<Node>, sel: Selector)
    decreases kids
  {
    if kids == [] then false
    else
      Matches(kids[0], sel)
      || (kids[0].Element? && AnyMatch(kids[0].kids, sel))
      || AnyMatch(kids[1..], sel)
  }

  /** `.children(sel).remove()`: the element children the selector picks are dropped. */
  function RemoveChildren(kids: seq<Node>, sel: Selector): (r: seq<Node>)
    ensures forall i :: 0 <= i < |r| ==> !Matches(r[i], sel)
    ensures forall i :: 0 <= i < |r| ==> r[i] in kids
    ensures |r| <= |kids|
    decreases |kids|
  {
    if kids == [] then []
    else if Matches(kids[0], sel) then RemoveChildren(kids[1..], sel)
    else [kids[0]] + RemoveChildren(kids[1..], sel)
  }

  /**
   `.find(sel).replaceWith(comment)`: every outermost descendant the selector picks
   is replaced by the comment; a match inside a replaced one goes with it.
   */
  function ReplaceAll(kids: seq<Node>, sel: Selector, note: string): (r: seq<Node>)
    ensures |r| == |kids|
    ensures forall i :: 0 <= i < |kids| && Matches(kids[i], sel) ==> r[i] == Comment(note)
    ensures forall i :: 0 <= i < |kids| && !kids[i].Element? ==> r[i] == kids[i]
    ensures forall i :: 0 <= i < |kids| && kids[i].Element? && !Matches(kids[i], sel) ==>
      r[i] == Element(kids[i].tag, kids[i].attrs, ReplaceAll(kids[i].kids, sel, note))
    decreases kids
  {
    if kids == [] then []
    else
      var head :=
        if Matches(kids[0], sel) then Comment(note)
        else if kids[0].Element? then Element(kids[0].tag, kids[0].attrs, ReplaceAll(kids[0].kids, sel, note))
        else kids[0];
      [head] + ReplaceAll(kids[1..], sel, note)
  }

  /** How many children the selector picks. */
  function Count(kids: seq<Node>, sel: Selector): nat
    decreases |kids|
  {
    if kids == [] then 0
    else (if Matches(kids[0], sel) then 1 else 0) + Count(kids[1..], sel)
  }

  // ---------------------------------------------------------------------------
  // The rewrite of a rendered block (lines 204-222)

  /** The comment that takes the place of inline code (line 211). */
  function CodeNote(dir: string): string
  {
    " Code file located in " + dir + " "
  }

  /** The `<img>` of the appended marker (line 217-221). */
  function Image(src: string, title: string): Node
  {
    Element("img", [Attr("src", src), Attr("title", title), Attr("alt", title)], [])
  }

  /** The appended `<div class="data-diagram">`, as the template at lines 215-222 parses. */
  function Marker(src: string, title: string, stamp: string): Node
  {
    Element("div", [Attr("class", MarkerClass)],
      [Text("\n"), Comment(" Image auto generated on " + stamp + " "), Text("\n"),
       Image(src, title), Text("\n")])
  }

  /**
   What is left of a rendered block's children before the new marker goes in: old
   markers go when the first one has content, and inline code is replaced by a note
   naming `dir` when the first code child has content.
   */
  function Kept(kids: seq<Node>, dir: string): seq<Node>
  {
    var cleared :=
      if Truthy(Html(FirstChild(kids, Class(MarkerClass)))) then RemoveChildren(kids, Class(MarkerClass))
      else kids;
    if Truthy(Html(FirstChild(cleared, Tag("code")))) then ReplaceAll(cleared, Tag("code"), CodeNote(dir))
    else cleared
  }

  /** The children of a rendered block after lines 204-222: the kept ones, then a new marker. */
  function Rewrite(kids: seq<Node>, dir: string, src: string, title: string, stamp: string): seq<Node>
  {
    Kept(kids, dir) + [Marker(src, title, stamp)]
  }

  /** Lines 204-222 in the order the program runs them on a rendered block's children. */
  method RewriteChildren(kids: seq<Node>, dir: string, src: string, title: string, stamp: string) returns (r: seq<Node>)
    ensures r == Rewrite(kids, dir, src, title, stamp)
  {
    r := kids;
    if Truthy(Html(FirstChild(r, Class(MarkerClass)))) {
      r := RemoveChildren(r, Class(MarkerClass));
    }
    if Truthy(Html(FirstChild(r, Tag("code")))) {
      r := ReplaceAll(r, Tag("code"), CodeNote(dir));
    }
    r := r + [Marker(src, title, stamp)];
  }

  // ---------------------------------------------------------------------------
  // Lemmas

  /** The marker carries content, so a later run always sees it as one to remove. */
  lemma MarkerShape(src: string, title: string, stamp: string)
    ensures Matches(Marker(src, title, stamp), Class(MarkerClass))
    ensures !Matches(Marker(src, title, stamp), Tag("code"))
    ensures Truthy(Html(Some(Marker(src, title, stamp))))
    ensures GetAttr(Image(src, title).attrs, "src") == Some(src)
    ensures GetAttr(Image(src, title).attrs, "title") == Some(title)
    ensures GetAttr(Image(src, title).attrs, "alt") == Some(title)
  {
    MarkerClassWords();
    var attrs := Image(src, title).attrs;
    assert "src"[0] != "title"[0] && "src"[0] != "alt"[0] && "title"[0] != "alt"[0];
    assert GetAttr(attrs, "title") == GetAttr(attrs[1..], "title");
    assert GetAttr(attrs, "alt") == GetAttr(attrs[1..], "alt") == GetAttr(attrs[2..], "alt");
    assert Truthy(Html(Some(Marker(src, title, stamp)))) by {
      assert InnerHtml(Marker(src, title, stamp).kids) == "\n" + InnerHtml(Marker(src, title, stamp).kids[1..]);
    }
  }

  /** The marker's class attribute names exactly the marker class. */
  lemma MarkerClassWords()
    ensures Words(MarkerClass) == [MarkerClass]
  {
    var a, b := "data-", "diagram";
    assert forall i :: 0 <= i < |a| ==> 45 <= a[i] as int <= 122;
    assert forall i :: 0 <= i < |b| ==> 45 <= b[i] as int <= 122;
    NoSpaceAll(a + b);
    assert a + b == MarkerClass;
    WordsOfWord(MarkerClass);
  }

  lemma {:induction false} NoSpaceAll(s: string)
    requires forall i :: 0 <= i < |s| ==> !IsSpace(s[i])
    ensures NoSpace(s)
    decreases |s|
  {
    if s != [] {
      NoSpaceAll(s[1..]);
    }
  }

  /** No character of s is white space. */
  predicate NoSpace(s: string)
    decreases |s|
  {
    s == [] || (!IsSpace(s[0]) && NoSpace(s[1..]))
  }

  /** A run of non-space characters is one class name. */
  lemma WordsOfWord(s: string)
    requires s != [] && NoSpace(s)
    ensures Words(s) == [s]
  {
    WordLengthAll(s);
    assert s[..|s|] == s && s[|s|..] == [];
  }

  lemma {:induction false} WordLengthAll(s: string)
    requires NoSpace(s)
    ensures WordLength(s) == |s|
    decreases |s|
  {
    if s != [] {
      WordLengthAll(s[1..]);
    }
  }

  /** A run of non-space characters followed by white space or nothing is one word long. */
  lemma {:induction false} WordLengthPrefix(w: string, t: string)
    requires NoSpace(w)
    requires t == [] || IsSpace(t[0])
    ensures WordLength(w + t) == |w|
    decreases |w|
  {
    if w == [] {
      assert w + t == t;
    } else {
      assert (w + t)[1..] == w[1..] + t;
      WordLengthPrefix(w[1..], t);
    }
  }

  /** A class name followed by a space and more class names splits off first. */
  lemma WordsCons(w: string, rest: string)
    requires w != [] && NoSpace(w)
    ensures Words(w + " " + rest) == [w] + Words(rest)
  {
    var s := w + " " + rest;
    WordLengthPrefix(w, " " + rest);
    assert s == w + (" " + rest);
    assert s[..|w|] == w && s[|w|..] == " " + rest;
    assert (" " + rest)[1..] == rest;
  }

  /** Splitting class names written out with single spaces gives them back. */
  lemma {:induction false} WordsUnwords(ws: seq<string>)
    requires forall k :: 0 <= k < |ws| ==> ws[k] != [] && NoSpace(ws[k])
    ensures Words(Unwords(ws)) == ws
    decreases |ws|
  {
    if |ws| == 1 {
      WordsOfWord(ws[0]);
    } else if |ws| > 1 {
      WordsUnwords(ws[1..]);
      WordsCons(ws[0], Unwords(ws[1..]));
    }
  }

  /** Dropping picked children removes all of them and keeps the others, in order. */
  lemma {:induction false} RemoveChildrenCount(kids: seq<Node>, sel: Selector)
    ensures Count(RemoveChildren(kids, sel), sel) == 0
    ensures Count(kids, sel) == 0 ==> RemoveChildren(kids, sel) == kids
    decreases |kids|
  {
    if kids != [] {
      RemoveChildrenCount(kids[1..], sel);
    }
  }

  /** Counting over a concatenation. */
  lemma {:induction false} CountAppend(a: seq<Node>, b: seq<Node>, sel: Selector)
    ensures Count(a + b, sel) == Count(a, sel) + Count(b, sel)
    decreases |a|
  {
    if a == [] {
      assert a + b == b;
    } else {
      assert (a + b)[1..] == a[1..] + b;
      CountAppend(a[1..], b, sel);
    }
  }

  /** A forest without picked children has none picked: the counting and the search agree. */
  lemma {:induction false} CountZero(kids: seq<Node>, sel: Selector)
    ensures Count(kids, sel) == 0 <==> FirstChild(kids, sel).None?
    decreases |kids|
  {
    if kids != [] {
      CountZero(kids[1..], sel);
    }
  }

  /**
   Replacing code keeps every element child that is not code, with its tag and
   attributes; code children become comments. So no child the replacement makes is
   a marker unless it was one before, and a non-code marker survives.
   */
  lemma {:induction false} ReplaceAllKeepsChildren(kids: seq<Node>, note: string, c: string)
    ensures Count(ReplaceAll(kids, Tag("code"), note), Class(c))
         == Count(kids, Class(c)) - CodeCount(kids, c)
    decreases |kids|
  {
    if kids != [] {
      ReplaceAllKeepsChildren(kids[1..], note, c);
    }
  }

  /** How many children are `code` elements with class `c`. */
  function CodeCount(kids: seq<Node>, c: string): (n: nat)
    ensures n <= Count(kids, Class(c))
    decreases |kids|
  {
    if kids == [] then 0
    else (if Matches(kids[0], Tag("code")) && Matches(kids[0], Class(c)) then 1 else 0) + CodeCount(kids[1..], c)
  }

  /** After the replacement no `code` element is left at any depth. */
  lemma {:induction false} ReplaceAllRemovesAll(kids: seq<Node>, sel: Selector, note: string)
    ensures !AnyMatch(ReplaceAll(kids, sel, note), sel)
    decreases kids
  {
    if kids != [] {
      if !Matches(kids[0], sel) && kids[0].Element? {
        ReplaceAllRemovesAll(kids[0].kids, sel, note);
      }
      ReplaceAllRemovesAll(kids[1..], sel, note);
      assert ReplaceAll(kids, sel, note)[1..] == ReplaceAll(kids[1..], sel, note);
    }
  }

  /** With nothing to replace, the replacement changes nothing. */
  lemma {:induction false} ReplaceAllNoMatch(kids: seq<Node>, sel: Selector, note: string)
    requires !AnyMatch(kids, sel)
    ensures ReplaceAll(kids, sel, note) == kids
    decreases kids
  {
    if kids != [] {
      if kids[0].Element? {
        ReplaceAllNoMatch(kids[0].kids, sel, note);
      }
      ReplaceAllNoMatch(kids[1..], sel, note);
      assert ReplaceAll(kids, sel, note) == [kids[0]] + kids[1..];
    }
  }

  /** The descendant search returns the first node in document order that the selector picks. */
  lemma {:induction false} FindIsFirstInPreorder(kids: seq<Node>, sel: Selector)
    ensures Find(kids, sel) == FirstChild(Preorder(kids), sel)
    decreases kids
  {
    if kids != [] {
      var inner := if kids[0].Element? then Preorder(kids[0].kids) else [];
      var rest := Preorder(kids[1..]);
      if kids[0].Element? {
        FindIsFirstInPreorder(kids[0].kids, sel);
      }
      FindIsFirstInPreorder(kids[1..], sel);
      assert Preorder(kids) == [kids[0]] + (inner + rest);
      FirstChildAppend([kids[0]], inner + rest, sel);
      FirstChildAppend(inner, rest, sel);
    }
  }

  /** The search over two runs of siblings looks in the second only when the first has no match. */
  lemma {:induction false} FindAppend(a: seq<Node>, b: seq<Node>, sel: Selector)
    ensures Find(a + b, sel) == if Find(a, sel).Some? then Find(a, sel) else Find(b, sel)
    decreases a
  {
    if a == [] {
      assert a + b == b;
    } else {
      assert (a + b)[0] == a[0] && (a + b)[1..] == a[1..] + b;
      FindAppend(a[1..], b, sel);
    }
  }

  /** The search finds something exactly when something at some depth matches. */
  lemma {:induction false} FindIffAny(kids: seq<Node>, sel: Selector)
    ensures Find(kids, sel).Some? <==> AnyMatch(kids, sel)
    decreases kids
  {
    if kids != [] {
      if kids[0].Element? {
        FindIffAny(kids[0].kids, sel);
      }
      FindIffAny(kids[1..], sel);
    }
  }

  /** Removing markers keeps the first code child when that child is not itself a marker. */
  lemma {:induction false} RemoveKeepsFirstCode(kids: seq<Node>)
    requires FirstChild(kids, Tag("code")).Some?
    requires !Matches(FirstChild(kids, Tag("code")).value, Class(MarkerClass))
    ensures FirstChild(RemoveChildren(kids, Class(MarkerClass)), Tag("code")) == FirstChild(kids, Tag("code"))
    decreases |kids|
  {
    if !Matches(kids[0], Tag("code")) {
      RemoveKeepsFirstCode(kids[1..]);
    }
  }

  /**
   A rendered block ends with exactly one new marker, whose image has the block's
   title as both `title` and `alt`. When the first old marker had content (or there
   was none) it is the only marker; when the first code child had content (and is not
   itself a marker) no `code` element is left anywhere in the block.
   */
  lemma RewriteShape(kids: seq<Node>, dir: string, src: string, title: string, stamp: string)
    ensures var r := Rewrite(kids, dir, src, title, stamp);
      |r| > 0 && r[|r| - 1] == Marker(src, title, stamp)
    ensures var first := FirstChild(kids, Class(MarkerClass));
      first.None? || Truthy(Html(first)) ==> Count(Rewrite(kids, dir, src, title, stamp), Class(MarkerClass)) == 1
    ensures var code := FirstChild(kids, Tag("code"));
      Truthy(Html(code)) && !Matches(code.value, Class(MarkerClass))
      ==> !AnyMatch(Rewrite(kids, dir, src, title, stamp)[..|Rewrite(kids, dir, src, title, stamp)| - 1], Tag("code"))
  {
    var r := Rewrite(kids, dir, src, title, stamp);
    assert r[..|r| - 1] == Kept(kids, dir);
    var first := FirstChild(kids, Class(MarkerClass));
    if first.None? || Truthy(Html(first)) {
      OneMarker(kids, dir, src, title, stamp);
    }
    var code := FirstChild(kids, Tag("code"));
    if Truthy(Html(code)) && !Matches(code.value, Class(MarkerClass)) {
      KeptCodeFree(kids, dir);
    }
  }

  /** The new marker is the only one left when the old ones were removed or absent. */
  lemma OneMarker(kids: seq<Node>, dir: string, src: string, title: string, stamp: string)
    requires FirstChild(kids, Class(MarkerClass)).None? || Truthy(Html(FirstChild(kids, Class(MarkerClass))))
    ensures Count(Rewrite(kids, dir, src, title, stamp), Class(MarkerClass)) == 1
  {
    KeptMarkerFree(kids, dir);
    MarkerCount(src, title, stamp);
    CountAppend(Kept(kids, dir), [Marker(src, title, stamp)], Class(MarkerClass));
  }

  /** The appended marker, on its own, is one marker. */
  lemma MarkerCount(src: string, title: string, stamp: string)
    ensures Count([Marker(src, title, stamp)], Class(MarkerClass)) == 1
  {
    MarkerShape(src, title, stamp);
    assert [Marker(src, title, stamp)][1..] == [];
  }

  /** Inline code with content, outside any marker, is replaced everywhere in the kept children. */
  lemma KeptCodeFree(kids: seq<Node>, dir: string)
    requires Truthy(Html(FirstChild(kids, Tag("code"))))
    requires !Matches(FirstChild(kids, Tag("code")).value, Class(MarkerClass))
    ensures !AnyMatch(Kept(kids, dir), Tag("code"))
  {
    var m := Class(MarkerClass);
    var first := FirstChild(kids, m);
    var cleared := if Truthy(Html(first)) then RemoveChildren(kids, m) else kids;
    if Truthy(Html(first)) {
      RemoveKeepsFirstCode(kids);
    }
    assert FirstChild(cleared, Tag("code")) == FirstChild(kids, Tag("code"));
    ReplaceAllRemovesAll(cleared, Tag("code"), CodeNote(dir));
  }

  /** When the first old marker had content, or there was none, no marker is kept. */
  lemma KeptMarkerFree(kids: seq<Node>, dir: string)
    requires FirstChild(kids, Class(MarkerClass)).None? || Truthy(Html(FirstChild(kids, Class(MarkerClass))))
    ensures Count(Kept(kids, dir), Class(MarkerClass)) == 0
  {
    var m := Class(MarkerClass);
    var first := FirstChild(kids, m);
    var cleared := if Truthy(Html(first)) then RemoveChildren(kids, m) else kids;
    if first.None? {
      CountZero(kids, m);
    } else {
      RemoveChildrenCount(kids, m);
    }
    ReplaceAllKeepsChildren(cleared, CodeNote(dir), MarkerClass);
  }

  /** The search over a concatenation finds the first part's match before the second's. */
  lemma {:induction false} FirstChildAppend(a: seq<Node>, b: seq<Node>, sel: Selector)
    ensures FirstChild(a + b, sel) == if FirstChild(a, sel).Some? then FirstChild(a, sel) else FirstChild(b, sel)
    decreases |a|
  {
    if a == [] {
      assert a + b == b;
    } else {
      assert (a + b)[0] == a[0] && (a + b)[1..] == a[1..] + b;
      FirstChildAppend(a[1..], b, sel);
    }
  }

  lemma {:induction false} RemoveChildrenAppend(a: seq<Node>, b: seq<Node>, sel: Selector)
    ensures RemoveChildren(a + b, sel) == RemoveChildren(a, sel) + RemoveChildren(b, sel)
    decreases |a|
  {
    if a == [] {
      assert a + b == b;
    } else {
      assert (a + b)[0] == a[0] && (a + b)[1..] == a[1..] + b;
      RemoveChildrenAppend(a[1..], b, sel);
    }
  }

  /** A picked child is a picked node at some depth. */
  lemma {:induction false} FirstChildIsAny(kids: seq<Node>, sel: Selector)
    requires FirstChild(kids, sel).Some?
    ensures AnyMatch(kids, sel)
    decreases |kids|
  {
    if !Matches(kids[0], sel) {
      FirstChildIsAny(kids[1..], sel);
    }
  }

  /**
   Rerunning on a rewritten block only swaps the marker: the second rewrite removes
   the first one's marker (it has content), finds no code with content, and appends
   its own. This holds whenever the first old marker had content or there was none.
   */
  lemma RewriteRerun(kids: seq<Node>, dir: string, src: string, title: string, stamp: string,
                     dir2: string, src2: string, title2: string, stamp2: string)
    requires FirstChild(kids, Class(MarkerClass)).None? || Truthy(Html(FirstChild(kids, Class(MarkerClass))))
    ensures Kept(Rewrite(kids, dir, src, title, stamp), dir2) == Kept(kids, dir)
    ensures Rewrite(Rewrite(kids, dir, src, title, stamp), dir2, src2, title2, stamp2)
         == Rewrite(kids, dir, src2, title2, stamp2)
  {
    var m := Class(MarkerClass);
    var noted := Kept(kids, dir);
    var mk := Marker(src, title, stamp);
    var r := noted + [mk];
    MarkerShape(src, title, stamp);
    KeptMarkerFree(kids, dir);
    CountZero(noted, m);
    FirstChildAppend(noted, [mk], m);
    assert FirstChild(r, m) == Some(mk);
    RemoveChildrenAppend(noted, [mk], m);
    RemoveChildrenCount(noted, m);
    assert RemoveChildren([mk], m) == [];
    assert RemoveChildren(r, m) == noted;
    assert !Truthy(Html(FirstChild(noted, Tag("code")))) by {
      var cleared := if Truthy(Html(FirstChild(kids, m))) then RemoveChildren(kids, m) else kids;
      if Truthy(Html(FirstChild(cleared, Tag("code")))) {
        ReplaceAllRemovesAll(cleared, Tag("code"), CodeNote(dir));
        if FirstChild(noted, Tag("code")).Some? {
          FirstChildIsAny(noted, Tag("code"));
        }
      }
    }
  }

  /**
   The other children are left as they were: with no marker child and no code child
   with content, the rewrite only appends the marker.
   */
  lemma RewriteAppendsOnly(kids: seq<Node>, dir: string, src: string, title: string, stamp: string)
    requires !Truthy(Html(FirstChild(kids, Class(MarkerClass))))
    requires !Truthy(Html(FirstChild(kids, Tag("code"))))
    ensures Rewrite(kids, dir, src, title, stamp) == kids + [Marker(src, title, stamp)]
  {
  }

  /**
   An empty first marker is not removed, so each run adds one more marker: the rewrite
   keeps every old marker (less those that are `code` elements, when code is replaced)
   and adds its own.
   */
  lemma MarkersAccumulate(kids: seq<Node>, dir: string, src: string, title: string, stamp: string)
    requires FirstChild(kids, Class(MarkerClass)).Some?
    requires !Truthy(Html(FirstChild(kids, Class(MarkerClass))))
    ensures Count(Rewrite(kids, dir, src, title, stamp), Class(MarkerClass))
         == Count(kids, Class(MarkerClass)) + 1
            - (if Truthy(Html(FirstChild(kids, Tag("code")))) then CodeCount(kids, MarkerClass) else 0)
  {
    var m := Class(MarkerClass);
    var noted :=
      if Truthy(Html(FirstChild(kids, Tag("code")))) then ReplaceAll(kids, Tag("code"), CodeNote(dir))
      else kids;
    if Truthy(Html(FirstChild(kids, Tag("code")))) {
      ReplaceAllKeepsChildren(kids, CodeNote(dir), MarkerClass);
    }
    MarkerShape(src, title, stamp);
    assert Count([Marker(src, title, stamp)], m) == 1;
    CountAppend(noted, [Marker(src, title, stamp)], m);
  }

  /**
   After the rewrite the first code child is empty or absent, so a rerun reads no
   inline code. Code children after an empty first one are kept as they were.
   */
  lemma RewriteHidesCode(kids: seq<Node>, dir: string, src: string, title: string, stamp: string)
    ensures !Truthy(Html(FirstChild(Rewrite(kids, dir, src, title, stamp), Tag("code"))))
  {
    var m := Class(MarkerClass);
    var noted := Kept(kids, dir);
    var cleared := if Truthy(Html(FirstChild(kids, m))) then RemoveChildren(kids, m) else kids;
    if Truthy(Html(FirstChild(cleared, Tag("code")))) {
      ReplaceAllRemovesAll(cleared, Tag("code"), CodeNote(dir));
      if FirstChild(noted, Tag("code")).Some? {
        FirstChildIsAny(noted, Tag("code"));
      }
    }
    FirstChildAppend(noted, [Marker(src, title, stamp)], Tag("code"));
  }
}
