/**
 The diagram-sync engine of bin/index.js: the sidecar decision of `generateCodeFile`
 (lines 65-86), the render request of `generateDiagram` (lines 94-123), and the block
 loop of `mimc` (lines 146-237) with its id assignment, output directory and image
 reference.

 Everything outside the document is an abstract store: text files by path (the
 sidecars), rendered images by path (each records the page the renderer was given),
 and the directories made so far. `Date.now()` and `new Date()` are inputs: the k-th
 block of a document is visited at clock value `clock(k)` and stamped `stamps(k)`.
 */
module Sync {
  import opened Optional
  import opened Strings
  import opened Paths
  import opened Slugs
  import opened Markup

  /** The two options the block loop reads: `--common-image-output` and `--images-ouput`. */
  datatype Config = Config(commonImageOutput: bool, imagesOutput: string)

  /** What the renderer is asked for (lines 108-120): the body style rule, the diagram source, transparency. */
  datatype Page = Page(style: Option<string>, code: string, transparent: bool)

  datatype Store = Store(files: map<string, string>, images: map<string, Page>, dirs: set<string>)

  /** The result of `generateCodeFile`: the new store, the resolved source, and whether it warned. */
  datatype Sourced = Sourced(store: Store, code: Option<string>, warned: bool)

  /** One block after the loop body: the new store and the block's new markup. */
  datatype Outcome = Outcome(store: Store, block: Node)

  /** One document after the loop: the new store and the document's new top-level nodes. */
  datatype Synced = Synced(store: Store, nodes: seq<Node>)

  // ---------------------------------------------------------------------------
  // Paths (lines 72, 118, 150, 172-174, 217-221)

  /**
   The directory references are made from. The test at line 150 can never fail: the
   pattern's empty alternative matches at the start of every string, so the target is
   always the document's dirname.
   */
  function Target(file: string): string
  {
    Dirname(file)
  }

  /** Where the sidecars and images of a document go (lines 172-174). */
  function OutDir(cfg: Config, target: string): string
  {
    if cfg.commonImageOutput then cfg.imagesOutput else Join(target, cfg.imagesOutput)
  }

  function SidecarName(id: string): string { "code-" + id + ".txt" }

  function DiagramName(id: string): string { "diagram-" + id + ".png" }

  /** `path.join(dir, "code-<id>.txt")` (line 72) */
  function SidecarPath(dir: string, id: string): string
  {
    Join(dir, SidecarName(id))
  }

  /** `path.join(dir, "diagram-<id>.png")` (line 118) */
  function ArtifactPath(dir: string, id: string): string
  {
    Join(dir, DiagramName(id))
  }

  /**
   The `src` of the appended image (lines 217-221): relative to the document, through
   a climb of one ".." per segment of the target in common mode.
   */
  function ImgSrc(cfg: Config, target: string, id: string): string
  {
    (if cfg.commonImageOutput then Join(Up(target), cfg.imagesOutput) else cfg.imagesOutput)
    + "/" + DiagramName(id)
  }

  // ---------------------------------------------------------------------------
  // Block attributes, as `$(element).data()` gives them (line 176)

  /** `attr[key]`: the raw value of the `data-<key>` attribute. */
  function Data(attrs: seq<Attr>, key: string): Option<string>
  {
    GetAttr(attrs, "data-" + key)
  }

  /** `attr.title || ""` (line 180) */
  function Title(attrs: seq<Attr>): string
  {
    if Truthy(Data(attrs, "title")) then Data(attrs, "title").value else ""
  }

  /** The identifier before slugging: the stored one when present, else the clock value (lines 167, 183-187). */
  function RawId(attrs: seq<Attr>, now: nat): (id: string)
    ensures id != ""
    ensures Truthy(Data(attrs, "mermaid")) ==> id == Data(attrs, "mermaid").value
    ensures !Truthy(Data(attrs, "mermaid")) ==> id == DecimalString(now) && IsNumeric(id)
  {
    DecimalStringIsNumeric(now);
    if Truthy(Data(attrs, "mermaid")) then Data(attrs, "mermaid").value else DecimalString(now)
  }

  /** The identifier that names the block's files (lines 189-192). */
  function BlockId(attrs: seq<Attr>, now: nat): string
  {
    NormalizeId(RawId(attrs, now))
  }

  /** The block's attributes after line 183-187: a missing identifier is written in. */
  function IdAttrs(attrs: seq<Attr>, now: nat): (r: seq<Attr>)
    ensures Data(r, "mermaid") == Some(RawId(attrs, now))
    ensures forall n :: n != "data-mermaid" ==> GetAttr(r, n) == GetAttr(attrs, n)
    ensures Truthy(Data(attrs, "mermaid")) ==> r == attrs
    ensures !Truthy(Data(attrs, "mermaid")) ==> Data(r, "mermaid") == Some(DecimalString(now))
  {
    assert "data-" + "mermaid" == "data-mermaid";
    if Truthy(Data(attrs, "mermaid")) then attrs else SetAttr(attrs, "data-mermaid", DecimalString(now))
  }

  /**
   `attr.transparent == true`. Without the value coercion of `.data()` this is the raw
   text "true" (turned into the boolean) or "1" (turned into a number equal to true).
   */
  predicate Transparent(attrs: seq<Attr>)
  {
    Data(attrs, "transparent") == Some("true") || Data(attrs, "transparent") == Some("1")
  }

  /** One declaration of the body rule (lines 110-111): present only for a truthy value. */
  function Decl(property: string, v: Option<string>): string
  {
    if Truthy(v) then property + v.value + "px;" else ""
  }

  /** The text of the `body` rule around its two declarations (lines 109-112). */
  function Rule(w: string, h: string): string
  {
    "body {\n        " + w + "\n        " + h + "\n      }"
  }

  lemma RuleHolds(w: string, h: string)
    ensures Contains(Rule(w, h), w) && Contains(Rule(w, h), h)
  {
    ContainsInfix("body {\n        ", w, "\n        " + h + "\n      }");
    assert "body {\n        " + w + ("\n        " + h + "\n      }") == Rule(w, h);
    ContainsInfix("body {\n        " + w + "\n        ", h, "\n      }");
  }

  /** The `body` rule of the render page (lines 108-114), absent when neither size is set. */
  function Style(attrs: seq<Attr>): (r: Option<string>)
    ensures r.Some? <==> Truthy(Data(attrs, "width")) || Truthy(Data(attrs, "height"))
    ensures r.Some? && Truthy(Data(attrs, "width")) ==>
      Contains(r.value, "width:" + Data(attrs, "width").value + "px;")
    ensures r.Some? && Truthy(Data(attrs, "height")) ==>
      Contains(r.value, "height:" + Data(attrs, "height").value + "px;")
    ensures r.Some? ==> r.value == Rule(Decl("width:", Data(attrs, "width")), Decl("height:", Data(attrs, "height")))
  {
    var w, h := Decl("width:", Data(attrs, "width")), Decl("height:", Data(attrs, "height"));
    RuleHolds(w, h);
    if Truthy(Data(attrs, "width")) || Truthy(Data(attrs, "height")) then Some(Rule(w, h)) else None
  }

  /** The request `generateDiagram` makes of the renderer for one block. */
  function RenderPage(attrs: seq<Attr>, code: string): (p: Page)
    ensures p.code == code
    ensures p.style.Some? <==> Truthy(Data(attrs, "width")) || Truthy(Data(attrs, "height"))
    ensures p.style == Style(attrs)
    ensures p.transparent <==> Transparent(attrs)
  {
    Page(Style(attrs), code, Transparent(attrs))
  }

  // ---------------------------------------------------------------------------
  // Specification of the side-effecting steps

  /**
   `generateCodeFile` (lines 65-86). Inline code wins whenever it has content and is
   written to the sidecar only when no sidecar exists; without inline code an existing
   sidecar is read; in the two remaining cases it warns and hands back what it got.
   */
  function CodeFile(st: Store, dir: string, data: Option<string>, id: string): (r: Sourced)
    ensures r.store.images == st.images && r.store.dirs == st.dirs + {dir}
    ensures forall q :: q in st.files ==> q in r.store.files && r.store.files[q] == st.files[q]
    ensures r.store.files.Keys == st.files.Keys + (if Truthy(data) then {SidecarPath(dir, id)} else {})
    ensures Truthy(data) ==> r.code == data
    ensures Truthy(data) && SidecarPath(dir, id) !in st.files ==> r.store.files[SidecarPath(dir, id)] == data.value
    ensures !Truthy(data) && SidecarPath(dir, id) in st.files ==> r.code == Some(st.files[SidecarPath(dir, id)])
    ensures !Truthy(data) && SidecarPath(dir, id) !in st.files ==> r.code == data
    ensures r.warned <==> (SidecarPath(dir, id) in st.files <==> Truthy(data))
  {
    var file := SidecarPath(dir, id);
    var st1 := Store(st.files, st.images, st.dirs + {dir});
    if file !in st.files && Truthy(data) then
      Sourced(Store(st.files[file := data.value], st.images, st1.dirs), data, false)
    else if file in st.files && !Truthy(data) then
      Sourced(st1, Some(st.files[file]), false)
    else
      Sourced(st1, data, true)
  }

  /** `generateDiagram` (lines 94-123): the image path now holds a render of this page. */
  function Diagram(st: Store, dir: string, code: string, id: string, attrs: seq<Attr>): (r: Store)
    ensures r.files == st.files && r.dirs == st.dirs + {dir}
    ensures r.images.Keys == st.images.Keys + {ArtifactPath(dir, id)}
    ensures r.images[ArtifactPath(dir, id)] == RenderPage(attrs, code)
    ensures forall q :: q in st.images && q != ArtifactPath(dir, id) ==> r.images[q] == st.images[q]
  {
    Store(st.files, st.images[ArtifactPath(dir, id) := RenderPage(attrs, code)], st.dirs + {dir})
  }

  /** The inline source of a block (lines 168-171): read only when the first code child has content. */
  function InlineCode(kids: seq<Node>): (code: Option<string>)
    ensures Truthy(Html(FirstChild(kids, Tag("code")))) ==>
      code.Some? && code == Html(FirstChild(Preorder(kids), Tag("code")))
    ensures !Truthy(Html(FirstChild(kids, Tag("code")))) ==> code.None?
  {
    FindIsFirstInPreorder(kids, Tag("code"));
    if Truthy(Html(FirstChild(kids, Tag("code")))) then Html(Find(kids, Tag("code"))) else None
  }

  /**
   One turn of the block loop (lines 166-223). The identifier is assigned in the markup
   whatever happens next; the block is rendered and rewritten only when a source with
   content is found, and then only files named by the slugged identifier are touched.
   */
  function ProcessBlock(cfg: Config, target: string, st: Store, b: Node, now: nat, stamp: string): (o: Outcome)
    requires b.Element?
    ensures o.block.Element? && o.block.tag == b.tag
    ensures o.block.attrs == IdAttrs(b.attrs, now) && Truthy(Data(o.block.attrs, "mermaid"))
    ensures forall q :: q in st.files ==> q in o.store.files && o.store.files[q] == st.files[q]
    ensures o.store.dirs == st.dirs + {OutDir(cfg, target)}
    ensures o.store.files.Keys <= st.files.Keys + {SidecarPath(OutDir(cfg, target), BlockId(b.attrs, now))}
    ensures o.store.images.Keys <= st.images.Keys + {ArtifactPath(OutDir(cfg, target), BlockId(b.attrs, now))}
    ensures var dir, id := OutDir(cfg, target), BlockId(b.attrs, now);
      var s := CodeFile(st, dir, InlineCode(b.kids), id);
      Truthy(s.code) ==>
        o.store == Diagram(s.store, dir, s.code.value, id, b.attrs)
        && o.block.kids == Rewrite(b.kids, dir, ImgSrc(cfg, target, id), Title(b.attrs), stamp)
    ensures var s := CodeFile(st, OutDir(cfg, target), InlineCode(b.kids), BlockId(b.attrs, now));
      !Truthy(s.code) ==> o.store == s.store && o.block.kids == b.kids
  {
    var dir := OutDir(cfg, target);
    var id := BlockId(b.attrs, now);
    var s := CodeFile(st, dir, InlineCode(b.kids), id);
    if Truthy(s.code) then
      Outcome(Diagram(s.store, dir, s.code.value, id, b.attrs),
              Element(b.tag, IdAttrs(b.attrs, now), Rewrite(b.kids, dir, ImgSrc(cfg, target, id), Title(b.attrs), stamp)))
    else
      Outcome(s.store, Element(b.tag, IdAttrs(b.attrs, now), b.kids))
  }

  /** `div[data-mermaid]` (line 164), at the top level of the document. */
  predicate IsBlock(n: Node)
  {
    n.Element? && n.tag == "div" && GetAttr(n.attrs, "data-mermaid").Some?
  }

  /** The positions of the blocks at or after `from`, in document order. */
  function Blocks(nodes: seq<Node>, from: nat): (r: seq<nat>)
    ensures forall k :: 0 <= k < |r| ==> from <= r[k] < |nodes| && IsBlock(nodes[r[k]])
    ensures forall j, k :: 0 <= j < k < |r| ==> r[j] < r[k]
    ensures forall i :: from <= i < |nodes| && IsBlock(nodes[i]) ==> i in r
    decreases |nodes| - from
  {
    if from >= |nodes| then []
    else if IsBlock(nodes[from]) then [from] + Blocks(nodes, from + 1)
    else Blocks(nodes, from + 1)
  }

  /** Positions that all hold elements, in increasing order. */
  predicate Selection(nodes: seq<Node>, idx: seq<nat>)
  {
    (forall k :: 0 <= k < |idx| ==> idx[k] < |nodes| && nodes[idx[k]].Element?)
    && (forall j, k :: 0 <= j < k < |idx| ==> idx[j] < idx[k])
  }

  /**
   The block loop from the k-th selected block on: each block is processed in turn,
   with the store the previous one left; every node that is not selected is left as it
   was.
   */
  function SyncBlocks(cfg: Config, target: string, st: Store, nodes: seq<Node>, idx: seq<nat>, k: nat,
                      clock: nat -> nat, stamps: nat -> string): (r: Synced)
    requires Selection(nodes, idx)
    ensures |r.nodes| == |nodes|
    ensures forall i :: 0 <= i < |nodes| && i !in idx ==> r.nodes[i] == nodes[i]
    ensures forall q :: q in st.files ==> q in r.store.files && r.store.files[q] == st.files[q]
    ensures forall k :: 0 <= k < |idx| ==> r.nodes[idx[k]].Element? && Truthy(Data(r.nodes[idx[k]].attrs, "mermaid"))
    decreases |idx|
  {
    if idx == [] then Synced(st, nodes)
    else
      var o := ProcessBlock(cfg, target, st, nodes[idx[0]], clock(k), stamps(k));
      var r := SyncBlocks(cfg, target, o.store, nodes[idx[0] := o.block], idx[1..], k + 1, clock, stamps);
      SyncFrame(nodes, idx, o.block, st, o.store, r);
      r
  }

  /** What the rest of the loop keeps, lifted over one more block processed in front of it. */
  lemma SyncFrame(nodes: seq<Node>, idx: seq<nat>, blk: Node, st: Store, st1: Store, r: Synced)
    requires Selection(nodes, idx) && idx != []
    requires blk.Element? && Truthy(Data(blk.attrs, "mermaid"))
    requires forall q :: q in st.files ==> q in st1.files && st1.files[q] == st.files[q]
    requires |r.nodes| == |nodes|
    requires forall i :: 0 <= i < |nodes| && i !in idx[1..] ==> r.nodes[i] == nodes[idx[0] := blk][i]
    requires forall q :: q in st1.files ==> q in r.store.files && r.store.files[q] == st1.files[q]
    requires forall k :: 0 <= k < |idx[1..]| ==>
      r.nodes[idx[1..][k]].Element? && Truthy(Data(r.nodes[idx[1..][k]].attrs, "mermaid"))
    ensures forall i :: 0 <= i < |nodes| && i !in idx ==> r.nodes[i] == nodes[i]
    ensures forall q :: q in st.files ==> q in r.store.files && r.store.files[q] == st.files[q]
    ensures forall k :: 0 <= k < |idx| ==> r.nodes[idx[k]].Element? && Truthy(Data(r.nodes[idx[k]].attrs, "mermaid"))
  {
    assert idx[0] !in idx[1..] by {
      forall k | 0 <= k < |idx[1..]|
        ensures idx[1..][k] != idx[0]
      {
        assert idx[1..][k] == idx[k + 1];
      }
    }
    forall k | 0 <= k < |idx|
      ensures r.nodes[idx[k]].Element? && Truthy(Data(r.nodes[idx[k]].attrs, "mermaid"))
    {
      if k > 0 {
        assert idx[k] == idx[1..][k - 1];
      }
    }
  }

  /** One turn of the block loop, and the selection that is left after it. */
  lemma SyncBlocksStep(cfg: Config, target: string, st: Store, nodes: seq<Node>, idx: seq<nat>, k: nat,
                       clock: nat -> nat, stamps: nat -> string)
    requires Selection(nodes, idx) && idx != []
    ensures var o := ProcessBlock(cfg, target, st, nodes[idx[0]], clock(k), stamps(k));
      Selection(nodes[idx[0] := o.block], idx[1..])
      && SyncBlocks(cfg, target, st, nodes, idx, k, clock, stamps)
         == SyncBlocks(cfg, target, o.store, nodes[idx[0] := o.block], idx[1..], k + 1, clock, stamps)
  {
    var o := ProcessBlock(cfg, target, st, nodes[idx[0]], clock(k), stamps(k));
    SelectionStep(nodes, idx, o.block);
  }

  /** Replacing the first selected element by an element leaves the rest a selection. */
  lemma SelectionStep(nodes: seq<Node>, idx: seq<nat>, blk: Node)
    requires Selection(nodes, idx) && idx != [] && blk.Element?
    ensures Selection(nodes[idx[0] := blk], idx[1..])
  {
    forall k | 0 <= k < |idx[1..]|
      ensures idx[1..][k] < |nodes| && nodes[idx[0] := blk][idx[1..][k]].Element?
    {
      assert idx[1..][k] == idx[k + 1];
    }
  }

  /** One turn of the loop in `Disk.Mimc`, stated on the loop's own index. */
  lemma MimcStep(cfg: Config, target: string, st: Store, nodes: seq<Node>, idx: seq<nat>, i: nat,
                 clock: nat -> nat, stamps: nat -> string, st2: Store, updated: Node, result: Synced)
    requires i < |idx| && Selection(nodes, idx[i..])
    requires SyncBlocks(cfg, target, st, nodes, idx[i..], i, clock, stamps) == result
    requires nodes[idx[i]].Element?
    requires Outcome(st2, updated) == ProcessBlock(cfg, target, st, nodes[idx[i]], clock(i), stamps(i))
    ensures Selection(nodes[idx[i] := updated], idx[i + 1..])
    ensures SyncBlocks(cfg, target, st2, nodes[idx[i] := updated], idx[i + 1..], i + 1, clock, stamps) == result
  {
    assert idx[i..][0] == idx[i];
    assert idx[i..][1..] == idx[i + 1..];
    SyncBlocksStep(cfg, target, st, nodes, idx[i..], i, clock, stamps);
  }

  /** `mimc` on one document: every block of it, in document order, numbered from 0. */
  function SyncDocument(cfg: Config, file: string, st: Store, nodes: seq<Node>,
                        clock: nat -> nat, stamps: nat -> string): Synced
  {
    SyncBlocks(cfg, Target(file), st, nodes, Blocks(nodes, 0), 0, clock, stamps)
  }

  /**
   Lines 167 and 183-192: the clock value is written into a block without an
   identifier; the identifier that names the files is the stored or new one, slugged
   unless it is all digits.
   */
  method AssignId(attrs: seq<Attr>, now: nat) returns (r: seq<Attr>, id: string)
    ensures r == IdAttrs(attrs, now) && id == BlockId(attrs, now)
  {
    id := DecimalString(now);
    r := attrs;
    if !Truthy(Data(attrs, "mermaid")) {
      r := SetAttr(r, "data-mermaid", id);
    } else {
      id := Data(attrs, "mermaid").value;
    }
    if !IsNumeric(id) {
      id := Slug(id);
    }
  }

  // ---------------------------------------------------------------------------
  // The state the program changes in place

  /** The file system: sidecars and other text, rendered images, directories, parsed documents. */
  class Disk {
    var files: map<string, string>
    var images: map<string, Page>
    var dirs: set<string>
    var docs: map<string, seq<Node>>

    function Snapshot(): Store
      reads this
    {
      Store(files, images, dirs)
    }

    constructor (files: map<string, string>, images: map<string, Page>, dirs: set<string>, docs: map<string, seq<Node>>)
      ensures Snapshot() == Store(files, images, dirs) && this.docs == docs
    {
      this.files, this.images, this.dirs, this.docs := files, images, dirs, docs;
    }

    /** `generateCodeFile` (lines 65-86) */
    method GenerateCodeFile(dir: string, data: Option<string>, id: string) returns (code: Option<string>, warned: bool)
      modifies this
      ensures var r := CodeFile(old(Snapshot()), dir, data, id);
        Snapshot() == r.store && code == r.code && warned == r.warned
      ensures docs == old(docs)
    {
      if dir !in dirs {
        dirs := dirs + {dir};
      }
      var file := Join(dir, "code-" + id + ".txt");
      code, warned := data, false;
      if file !in files && Truthy(data) {
        files := files[file := data.value];
      } else if file in files && !Truthy(data) {
        code := Some(files[file]);
      } else {
        warned := true;
      }
    }

    /** `generateDiagram` (lines 94-123), with the render itself recorded as the page it was given. */
    method GenerateDiagram(dir: string, data: string, id: string, attr: seq<Attr>)
      modifies this
      ensures Snapshot() == Diagram(old(Snapshot()), dir, data, id, attr)
      ensures docs == old(docs)
    {
      if dir !in dirs {
        dirs := dirs + {dir};
      }
      var body: Option<string> := None;
      if Truthy(Data(attr, "width")) || Truthy(Data(attr, "height")) {
        body := Style(attr);
      }
      var transparent := Data(attr, "transparent") == Some("true") || Data(attr, "transparent") == Some("1");
      images := images[Join(dir, "diagram-" + id + ".png") := Page(body, data, transparent)];
    }

    /** The body of the block loop (lines 166-223) for one block. */
    method SyncBlock(cfg: Config, target: string, element: Node, now: nat, stamp: string) returns (updated: Node)
      requires element.Element?
      modifies this
      ensures Outcome(Snapshot(), updated) == ProcessBlock(cfg, target, old(Snapshot()), element, now, stamp)
      ensures docs == old(docs)
    {
      var code: Option<string> := None;
      if Truthy(Html(FirstChild(element.kids, Tag("code")))) {
        code := Html(Find(element.kids, Tag("code")));
      }
      var dir := if cfg.commonImageOutput then cfg.imagesOutput else Join(target, cfg.imagesOutput);
      var attr := element.attrs;
      var title := if Truthy(Data(attr, "title")) then Data(attr, "title").value else "";
      var attrs, id := AssignId(attr, now);
      var warned;
      code, warned := GenerateCodeFile(dir, code, id);
      var kids := element.kids;
      if Truthy(code) {
        GenerateDiagram(dir, code.value, id, attr);
        kids := RewriteChildren(kids, dir, ImgSrc(cfg, target, id), title, stamp);
      }
      updated := Element(element.tag, attrs, kids);
    }

    /**
     `mimc` (lines 146-237): the document is read, its blocks are processed in document
     order, and it is written back. A document that cannot be read leaves everything as
     it was.
     */
    method Mimc(cfg: Config, file: string, clock: nat -> nat, stamps: nat -> string)
      modifies this
      ensures file !in old(docs) ==> Snapshot() == old(Snapshot()) && docs == old(docs)
      ensures file in old(docs) ==>
        var r := SyncDocument(cfg, file, old(Snapshot()), old(docs[file]), clock, stamps);
        Snapshot() == r.store && docs == old(docs)[file := r.nodes]
    {
      if file !in docs {
        return;
      }
      var nodes := docs[file];
      var target := Dirname(file);
      var mermaids := Blocks(nodes, 0);
      nodes := SyncAll(cfg, target, nodes, mermaids, clock, stamps);
      docs := docs[file := nodes];
    }

    /** The block loop (lines 164-224): the selected blocks in turn, the k-th at clock value `clock(k)`. */
    method SyncAll(cfg: Config, target: string, nodes0: seq<Node>, mermaids: seq<nat>,
                   clock: nat -> nat, stamps: nat -> string) returns (nodes: seq<Node>)
      requires Selection(nodes0, mermaids)
      modifies this
      ensures var r := SyncBlocks(cfg, target, old(Snapshot()), nodes0, mermaids, 0, clock, stamps);
        Snapshot() == r.store && nodes == r.nodes
      ensures docs == old(docs)
    {
      nodes := nodes0;
      ghost var result := SyncBlocks(cfg, target, Snapshot(), nodes, mermaids, 0, clock, stamps);
      var index := 0;
      assert mermaids[index..] == mermaids;
      while index < |mermaids|
        invariant 0 <= index <= |mermaids|
        invariant Selection(nodes, mermaids[index..])
        invariant SyncBlocks(cfg, target, Snapshot(), nodes, mermaids[index..], index, clock, stamps) == result
        invariant docs == old(docs)
      {
        ghost var st := Snapshot();
        var element := nodes[mermaids[index]];
        var updated := SyncBlock(cfg, target, element, clock(index), stamps(index));
        MimcStep(cfg, target, st, nodes, mermaids, index, clock, stamps, Snapshot(), updated, result);
        nodes := nodes[mermaids[index] := updated];
        index := index + 1;
      }
      assert mermaids[index..] == [];
    }
  }

  // ---------------------------------------------------------------------------
  // Lemmas
  /** The file names built from a slash-free identifier are plain names. */
  lemma FileNamesValid(id: string)
    requires NoSlash(id)
    ensures ValidName(DiagramName(id)) && ValidName(SidecarName(id))
  {
    var d, c := DiagramName(id), SidecarName(id);
    assert |d| >= 12 && |c| >= 9;
    forall i | 0 <= i < |d|
      ensures d[i] != '/'
    {
      if 8 <= i < 8 + |id| {
        assert d[i] == id[i - 8];
      }
    }
    forall i | 0 <= i < |c|
      ensures c[i] != '/'
    {
      if 5 <= i < 5 + |id| {
        assert c[i] == id[i - 5];
      }
    }
  }

  /** A slug or a run of digits has no '/'. */
  lemma BlockIdNoSlash(attrs: seq<Attr>, now: nat)
    ensures NoSlash(BlockId(attrs, now))
  {
    var id := BlockId(attrs, now);
    NormalizeIdProperties(RawId(attrs, now));
    assert forall i :: 0 <= i < |id| ==> IsSlugChar(id[i]);
  }

  /**
   For a document below the working directory and a downward output option, the
   image reference, resolved from the document's directory, names the rendered
   image, in both output modes.
   */
  lemma SrcResolves(cfg: Config, target: string, id: string)
    requires IsDownward(target) && IsDownward(cfg.imagesOutput) && NoSlash(id)
    ensures Join(target, ImgSrc(cfg, target, id)) == ArtifactPath(OutDir(cfg, target), id)
  {
    FileNamesValid(id);
    if cfg.commonImageOutput {
      CommonSrcResolves(target, cfg.imagesOutput, DiagramName(id));
    } else {
      OwnSrcResolves(target, cfg.imagesOutput, DiagramName(id));
    }
  }

  lemma CommonSrcResolves(target: string, out: string, name: string)
    requires IsDownward(target) && IsDownward(out) && ValidName(name)
    ensures Join(target, Join(Up(target), out) + "/" + name) == Join(out, name)
  {
    JoinName(out, name);
    UpOfDownward(target);
    UpsThenDownward(|Split(target)|, out);
    JoinRelative(Up(target), out);
    assert Join(Up(target), out) + "/" + name == Up(target) + "/" + (out + "/" + name);
    ClimbThenDescend(target, out + "/" + name);
  }

  lemma OwnSrcResolves(target: string, out: string, name: string)
    requires IsDownward(target) && IsDownward(out) && ValidName(name)
    ensures Join(target, out + "/" + name) == Join(Join(target, out), name)
  {
    JoinName(out, name);
    JoinDownward(target, out + "/" + name);
    JoinDownward(target, out);
    JoinName(target + "/" + out, name);
    assert target + "/" + (out + "/" + name) == target + "/" + out + "/" + name;
  }

  /**
   A document at the top of the working directory has target ".". In per-document
   mode its reference resolves to the image; in common mode the rewrite turns "."
   into "..", so the reference points one directory above the image.
   */
  lemma RootLevelDocument(cfg: Config, file: string, id: string)
    requires ValidName(file) && IsDownward(cfg.imagesOutput) && NoSlash(id)
    ensures Target(file) == "."
    ensures !cfg.commonImageOutput ==>
      Join(Target(file), ImgSrc(cfg, Target(file), id)) == ArtifactPath(OutDir(cfg, Target(file)), id)
    ensures cfg.commonImageOutput ==>
      ImgSrc(cfg, Target(file), id) == "../" + ArtifactPath(OutDir(cfg, Target(file)), id)
      && Join(Target(file), ImgSrc(cfg, Target(file), id)) == "../" + ArtifactPath(OutDir(cfg, Target(file)), id)
  {
    DirnameOfName(file);
    FileNamesValid(id);
    if cfg.commonImageOutput {
      RootCommonSrc(cfg.imagesOutput, DiagramName(id));
    } else {
      RootOwnSrc(cfg.imagesOutput, DiagramName(id));
    }
  }

  /** From ".", the common-mode reference is "../" before the image path, and resolves to that. */
  lemma RootCommonSrc(out: string, name: string)
    requires IsDownward(out) && ValidName(name)
    ensures Join(Up("."), out) + "/" + name == "../" + Join(out, name)
    ensures Join(".", "../" + Join(out, name)) == "../" + Join(out, name)
  {
    JoinName(out, name);
    UpOfDot();
    assert Split("..") == Ups(1) by {
      SplitNoSlash("..");
    }
    UpsThenDownward(1, out);
    JoinRelative("..", out);
    assert Join(Up("."), out) + "/" + name == "../" + (out + "/" + name);
    UpsThenDownward(1, out + "/" + name);
    JoinRelative("..", out + "/" + name);
    assert ".." + "/" + (out + "/" + name) == "../" + (out + "/" + name);
    JoinDot("../" + (out + "/" + name));
  }

  /** From ".", the per-document reference resolves to the image path. */
  lemma RootOwnSrc(out: string, name: string)
    requires IsDownward(out) && ValidName(name)
    ensures Join(".", out + "/" + name) == Join(Join(".", out), name)
  {
    JoinName(out, name);
    JoinDot(out);
    JoinDot(out + "/" + name);
  }

  /** Writing the identifier changes no other `data-` value of the block. */
  lemma DataKept(attrs: seq<Attr>, now: nat, key: string)
    requires key != "mermaid"
    ensures Data(IdAttrs(attrs, now), key) == Data(attrs, key)
  {
    var n := "data-" + key;
    PrefixDistinct("data-", key, "mermaid");
    assert "data-" + "mermaid" == "data-mermaid";
    assert n != "data-mermaid";
    assert GetAttr(IdAttrs(attrs, now), n) == GetAttr(attrs, n);
  }

  lemma PrefixDistinct(p: string, a: string, b: string)
    requires a != b
    ensures p + a != p + b
  {
    assert (p + a)[|p|..] == a && (p + b)[|p|..] == b;
  }

  /** The render request depends only on the attributes the identifier leaves alone. */
  lemma RenderPageKept(attrs: seq<Attr>, now: nat, code: string)
    ensures RenderPage(IdAttrs(attrs, now), code) == RenderPage(attrs, code)
    ensures Title(IdAttrs(attrs, now)) == Title(attrs)
  {
    DataKept(attrs, now, "width");
    DataKept(attrs, now, "height");
    DataKept(attrs, now, "transparent");
    DataKept(attrs, now, "title");
  }

  /**
   Running the loop body twice on a block the first run rendered. The second run
   keeps the identifier, finds no inline code and reads the sidecar, which now exists;
   it writes no file. When the sidecar has content it renders that content again at
   the same path and only the marker changes; otherwise it leaves the block alone.
   */
  lemma BlockRerun(cfg: Config, target: string, st: Store, b: Node, now: nat, stamp: string, now2: nat, stamp2: string)
    requires b.Element?
    requires FirstChild(b.kids, Class(MarkerClass)).None? || Truthy(Html(FirstChild(b.kids, Class(MarkerClass))))
    requires Truthy(CodeFile(st, OutDir(cfg, target), InlineCode(b.kids), BlockId(b.attrs, now)).code)
    ensures var o1 := ProcessBlock(cfg, target, st, b, now, stamp);
      var o2 := ProcessBlock(cfg, target, o1.store, o1.block, now2, stamp2);
      var dir, id := OutDir(cfg, target), BlockId(b.attrs, now);
      var p := SidecarPath(dir, id);
      p in o1.store.files
      && o2.block.attrs == o1.block.attrs
      && o2.store.files == o1.store.files && o2.store.dirs == o1.store.dirs
      && (Truthy(Some(o1.store.files[p])) ==>
            o2.block.kids == Rewrite(b.kids, dir, ImgSrc(cfg, target, id), Title(b.attrs), stamp2)
            && o2.store.images == o1.store.images[ArtifactPath(dir, id) := RenderPage(b.attrs, o1.store.files[p])])
      && (!Truthy(Some(o1.store.files[p])) ==> o2 == o1)
  {
    var dir, id := OutDir(cfg, target), BlockId(b.attrs, now);
    var p := SidecarPath(dir, id);
    var src, title := ImgSrc(cfg, target, id), Title(b.attrs);
    var o1 := ProcessBlock(cfg, target, st, b, now, stamp);
    var a1 := o1.block.attrs;
    assert o1.block == Element(b.tag, IdAttrs(b.attrs, now), Rewrite(b.kids, dir, src, title, stamp))
      && p in o1.store.files && dir in o1.store.dirs by {
      var s1 := CodeFile(st, dir, InlineCode(b.kids), id);
      assert o1.store == Diagram(s1.store, dir, s1.code.value, id, b.attrs);
    }
    assert IdAttrs(a1, now2) == a1 && BlockId(a1, now2) == id && Title(a1) == title by {
      assert Truthy(Data(a1, "mermaid"));
      RenderPageKept(b.attrs, now, "");
    }
    assert InlineCode(o1.block.kids) == None by {
      RewriteHidesCode(b.kids, dir, src, title, stamp);
    }
    assert CodeFile(o1.store, dir, None, id) == Sourced(o1.store, Some(o1.store.files[p]), false) by {
    }
    RenderPageKept(b.attrs, now, o1.store.files[p]);
    RewriteRerun(b.kids, dir, src, title, stamp, dir, src, title, stamp2);
  }

  /**
   Two new blocks visited at the same clock value get the same identifier: the second
   block's inline code is not saved, because the first block's sidecar already
   exists, and its render replaces the first block's image at the same path.
   */
  lemma SameClockCollision(cfg: Config, target: string, st: Store, b1: Node, b2: Node,
                           now: nat, stamp1: string, stamp2: string)
    requires b1.Element? && b2.Element?
    requires !Truthy(Data(b1.attrs, "mermaid")) && !Truthy(Data(b2.attrs, "mermaid"))
    requires Truthy(InlineCode(b1.kids)) && Truthy(InlineCode(b2.kids))
    ensures var o1 := ProcessBlock(cfg, target, st, b1, now, stamp1);
      var o2 := ProcessBlock(cfg, target, o1.store, b2, now, stamp2);
      var dir, id := OutDir(cfg, target), DecimalString(now);
      BlockId(b1.attrs, now) == id && BlockId(b2.attrs, now) == id
      && o2.store.files == o1.store.files
      && o2.store.images[ArtifactPath(dir, id)] == RenderPage(b2.attrs, InlineCode(b2.kids).value)
      && (SidecarPath(dir, id) !in st.files ==> o2.store.files[SidecarPath(dir, id)] == InlineCode(b1.kids).value)
  {
    DecimalStringIsNumeric(now);
    var dir, id := OutDir(cfg, target), DecimalString(now);
    var o1 := ProcessBlock(cfg, target, st, b1, now, stamp1);
    assert SidecarPath(dir, id) in o1.store.files;
  }

  /**
   A block with neither inline code nor a sidecar with content is not rendered and
   keeps its children; only its identifier is written in, and nothing but the output
   directory is added to the store.
   */
  lemma UnresolvedBlock(cfg: Config, target: string, st: Store, b: Node, now: nat, stamp: string)
    requires b.Element?
    requires !Truthy(InlineCode(b.kids))
    requires var p := SidecarPath(OutDir(cfg, target), BlockId(b.attrs, now));
      p !in st.files || st.files[p] == ""
    ensures var o := ProcessBlock(cfg, target, st, b, now, stamp);
      o.block == Element(b.tag, IdAttrs(b.attrs, now), b.kids)
      && o.store == Store(st.files, st.images, st.dirs + {OutDir(cfg, target)})
  {
  }

  /** A block without an identifier is named by the clock value, which is never slugged. */
  lemma FreshBlockId(attrs: seq<Attr>, now: nat)
    requires !Truthy(Data(attrs, "mermaid"))
    ensures BlockId(attrs, now) == DecimalString(now)
    ensures Data(IdAttrs(attrs, now), "mermaid") == Some(BlockId(attrs, now))
  {
    NormalizeIdProperties(DecimalString(now));
  }

  /**
   Without inline code, an existing sidecar with content is the source: it is rendered
   at the block's image path, no file changes, and the block is rewritten.
   */
  lemma SidecarRenders(cfg: Config, target: string, st: Store, b: Node, now: nat, stamp: string)
    requires b.Element?
    requires !Truthy(InlineCode(b.kids))
    requires var p := SidecarPath(OutDir(cfg, target), BlockId(b.attrs, now));
      p in st.files && st.files[p] != ""
    ensures var o := ProcessBlock(cfg, target, st, b, now, stamp);
      var dir, id := OutDir(cfg, target), BlockId(b.attrs, now);
      o.store.files == st.files
      && o.store.images == st.images[ArtifactPath(dir, id) := RenderPage(b.attrs, st.files[SidecarPath(dir, id)])]
      && o.block.kids == Rewrite(b.kids, dir, ImgSrc(cfg, target, id), Title(b.attrs), stamp)
  {
  }

  /**
   Inline code and an existing sidecar: the sidecar is not overwritten, the program
   warns, and the inline code is what gets rendered.
   */
  lemma InlineOverSidecar(cfg: Config, target: string, st: Store, b: Node, now: nat, stamp: string)
    requires b.Element?
    requires Truthy(InlineCode(b.kids))
    requires SidecarPath(OutDir(cfg, target), BlockId(b.attrs, now)) in st.files
    ensures var o := ProcessBlock(cfg, target, st, b, now, stamp);
      var dir, id := OutDir(cfg, target), BlockId(b.attrs, now);
      CodeFile(st, dir, InlineCode(b.kids), id).warned
      && o.store.files == st.files
      && o.store.images == st.images[ArtifactPath(dir, id) := RenderPage(b.attrs, InlineCode(b.kids).value)]
      && o.block.kids == Rewrite(b.kids, dir, ImgSrc(cfg, target, id), Title(b.attrs), stamp)
  {
  }

  /**
   When the first run saved the inline code to a new sidecar, a second run changes
   nothing in the store and only replaces the marker in the block.
   */
  lemma BlockRerunStable(cfg: Config, target: string, st: Store, b: Node, now: nat, stamp: string, now2: nat, stamp2: string)
    requires b.Element?
    requires FirstChild(b.kids, Class(MarkerClass)).None? || Truthy(Html(FirstChild(b.kids, Class(MarkerClass))))
    requires Truthy(InlineCode(b.kids))
    requires SidecarPath(OutDir(cfg, target), BlockId(b.attrs, now)) !in st.files
    ensures var o1 := ProcessBlock(cfg, target, st, b, now, stamp);
      var o2 := ProcessBlock(cfg, target, o1.store, o1.block, now2, stamp2);
      o2.store == o1.store && o2.block.attrs == o1.block.attrs
      && o2.block.kids == Rewrite(b.kids, OutDir(cfg, target), ImgSrc(cfg, target, BlockId(b.attrs, now)), Title(b.attrs), stamp2)
  {
    var dir, id := OutDir(cfg, target), BlockId(b.attrs, now);
    var art := ArtifactPath(dir, id);
    var code := InlineCode(b.kids).value;
    var o1 := ProcessBlock(cfg, target, st, b, now, stamp);
    var o2 := ProcessBlock(cfg, target, o1.store, o1.block, now2, stamp2);
    FirstRunSaves(cfg, target, st, b, now, stamp);
    BlockRerun(cfg, target, st, b, now, stamp, now2, stamp2);
    RewriteSameStore(o1.store, o2.store, art, RenderPage(b.attrs, code));
  }

  /** Writing a page that is already stored at the same path leaves the store as it was. */
  lemma RewriteSameStore(s1: Store, s2: Store, art: string, page: Page)
    requires art in s1.images && s1.images[art] == page
    requires s2.files == s1.files && s2.dirs == s1.dirs && s2.images == s1.images[art := page]
    ensures s2 == s1
  {
    assert s1.images[art := page] == s1.images;
  }

  /** A first run on a block with inline code and no sidecar saves that code and renders it. */
  lemma FirstRunSaves(cfg: Config, target: string, st: Store, b: Node, now: nat, stamp: string)
    requires b.Element?
    requires Truthy(InlineCode(b.kids))
    requires SidecarPath(OutDir(cfg, target), BlockId(b.attrs, now)) !in st.files
    ensures var o1 := ProcessBlock(cfg, target, st, b, now, stamp);
      var dir, id := OutDir(cfg, target), BlockId(b.attrs, now);
      Truthy(CodeFile(st, dir, InlineCode(b.kids), id).code)
      && SidecarPath(dir, id) in o1.store.files
      && o1.store.files[SidecarPath(dir, id)] == InlineCode(b.kids).value
      && ArtifactPath(dir, id) in o1.store.images
      && o1.store.images[ArtifactPath(dir, id)] == RenderPage(b.attrs, InlineCode(b.kids).value)
  {
    var dir, id := OutDir(cfg, target), BlockId(b.attrs, now);
    var s1 := CodeFile(st, dir, InlineCode(b.kids), id);
    assert s1.code == InlineCode(b.kids);
  }
}
