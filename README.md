# mimc diagram sync, modelled in Dafny

mimc is a command-line tool (`bin/index.js`). It finds Markdown/HTML documents under a directory and renders every `<div data-mermaid>` block in them to a PNG image. It then rewrites each such block so that the rendered image is shown and the diagram source lives in a `code-<id>.txt` sidecar file. This project models the engine of that tool. The command-line parsing, the logging and the headless browser are left out.

- **File discovery (`fetchFiles`)**, modules `Discovery`, `Paths` and `Strings`:
  - The file system is a finite tree of entries: file, directory with its listing, something else (such as a symbolic link), or an entry whose `lstat`/`readdir` throws. The user's file pattern is an abstract predicate.
  - `Discovery.FetchFiles` is the loop as written. It walks a worklist that it appends to while iterating.
  - It is proved equal to a recursive definition of the walk, `Discovery.Walk`.
  - The walk is proved to find exactly the files a recursive descent finds, `Discovery.Found`/`FoundAll`, and to return them in breadth-first order.
- **Paths**, module `Paths`:
  - Node's POSIX `path.join`, `normalize`, `dirname` and `basename`, following Node's own segment algorithm.
  - The rewrite `target.replace(/[^\/]*/g, ".")`, which turns every non-empty segment of the document's directory into `..` and an empty one (as in an absolute `/a`) into `.`.
- **Identifiers**, module `Slugs`:
  - the decimal text of the clock value;
  - the all-digits test;
  - the slug (`replace(/[^A-Z0-9]+/gi, "-").toLowerCase()`), proved against an independent "dash every character, then squeeze" definition.
- **Block markup**, module `Markup`:
  - a block's children as an element tree;
  - the cheerio operations the loop uses: `.children(sel).html()`, `.find(sel).html()`, `.children(sel).remove()`, `.find(sel).replaceWith(...)`, `.attr(name, value)`;
  - the appended `<div class="data-diagram">` marker.
- **Sidecar and render steps, and the block loop**, module `Sync`:
  - The store holds text files by path, rendered images by path (each records the page the renderer was given: style rule, diagram source, transparency) and the directories made.
  - `generateCodeFile`, `generateDiagram` and `mimc` are methods of the class `Sync.Disk`, which owns that store and the parsed documents.
  - Each method is proved equal to a function on values: `CodeFile`, `Diagram`, `ProcessBlock`, `SyncBlocks`, `SyncDocument`.
  - The lemmas about those functions state what a run, and a second run, does to a block and to the store.

`Date.now()` and `new Date()` are inputs: the k-th block of a document is visited at clock value `clock(k)` and stamped with the text `stamps(k)`.

## Model

| member | source | states |
|---|---|---|
| `Strings.ContainsInfix` | bin/index.js:24 | `includes` finds every infix of a string (used for the `node_modules` test and the style rule) |
| `Slugs.DecimalStringIsNumeric` | bin/index.js:167 | the text of a clock value always passes `/^\d+$/`, so a fresh identifier is never slugged |
| `Slugs.ReplaceRunsIsSqueezedDashes` | bin/index.js:191 | the run replacement equals the independent definition: every non-alphanumeric character becomes `-`, then each run of `-` is squeezed to one |
| `Slugs.ReplaceRunsNoDoubleDash` | bin/index.js:191 | the replacement never produces two adjacent `-` |
| `Slugs.ReplaceRunsFixesClean` | bin/index.js:191 | a string of letters, digits and single `-` is left unchanged by the replacement |
| `Slugs.SlugIsSlug` | bin/index.js:191 | a slug holds only `a-z`, `0-9`, `-`, and never `--` |
| `Slugs.SlugIdempotent` | bin/index.js:191 | slugging a slug changes nothing |
| `Slugs.LowerAllFixesSlug` | bin/index.js:191 | lower-casing a slug changes nothing |
| `Slugs.SlugOfAlnum` | bin/index.js:191 | an all-alphanumeric identifier is only lower-cased |
| `Slugs.NormalizeIdProperties` | bin/index.js:189-192 | an all-digit identifier is kept verbatim; any other identifier becomes its slug; the result is slug-safe; normalising twice equals normalising once |
| `Paths.SplitAppendSlash` | bin/index.js:29 | splitting `a/b` at `/` gives the segments of `a` followed by those of `b` |
| `Paths.JoinSplit` | bin/index.js:29 | joining the segments of a path with `/` gives the path back |
| `Paths.SplitJoin` | bin/index.js:29 | splitting a join of slash-free segments gives the segments back |
| `Paths.ResolveAppend` | bin/index.js:29 | normalising two runs of segments is normalising the first and then the second from where it stopped |
| `Paths.ResolvePops` | bin/index.js:219 | as many `..` as names pushed remove exactly those names |
| `Paths.NormalizeRelative` | bin/index.js:29 | a path already in climb-then-descend form is its own normalisation |
| `Paths.JoinRelative` | bin/index.js:219 | joining two paths whose segments climb first and then descend is plain concatenation with `/` |
| `Paths.JoinName` | bin/index.js:48 | `path.join(file, f)` of a downward path and a listed name is `file + "/" + f`, one segment deeper |
| `Paths.DirnameOfChild` | bin/index.js:150 | the dirname of `d/n` is `d` |
| `Paths.DirnameOfName` | bin/index.js:150 | the dirname of a bare name is `.` |
| `Paths.BasenameOfChild` | bin/index.js:43 | the basename of `d/n`, and of `n`, is `n` |
| `Paths.UpSplit` | bin/index.js:219 | the rewrite of the target keeps its number of segments and turns each one into `..`, or into `.` when empty |
| `Paths.UpOfDownward` | bin/index.js:219 | below the working directory the rewrite is one `..` per segment and is a relative path |
| `Paths.UpOfDot` | bin/index.js:219 | the rewrite of `.` is `..` |
| `Paths.JoinDownward` | bin/index.js:174 | joining two downward paths is their concatenation with `/` |
| `Paths.ClimbThenDescend` | bin/index.js:219 | from a downward directory, climbing out through its rewrite and then descending along a downward path lands on that path |
| `Paths.JoinDot` | bin/index.js:174 | joining `.` to a relative path gives the path |
| `Discovery.Walk` | bin/index.js:22-53 | every file the walk keeps is a regular file, its relative path does not contain `node_modules`, and its full path matches the pattern |
| `Discovery.VisitEntry` | bin/index.js:22-51 | the loop body for one worklist element yields the full paths and the listing that the walk's step prescribes |
| `Discovery.FetchFiles` | bin/index.js:17-56 | a root that cannot be listed ends the run; otherwise the result is the full paths of the recursive walk from the root's listing |
| `Discovery.FetchStep` | bin/index.js:22-53 | one loop turn shrinks the remaining worklist and keeps "fetched so far, then the walk of the rest" equal to the whole result |
| `Discovery.WalkStep` | bin/index.js:22-53 | the walk of a worklist is what its head keeps followed by the walk of the rest with the head's listing appended |
| `Discovery.VisitShrinks` | bin/index.js:48 | replacing a directory by its listing shrinks the worklist, so the loop ends |
| `Discovery.FullPathsAppend` | bin/index.js:34 | the full paths of two runs of kept files are the full paths of each run in turn |
| `Discovery.FoundAllAppend` | bin/index.js:22-53 | the recursive descent over two runs of elements finds the union of what each run finds |
| `Discovery.FoundByVisit` | bin/index.js:22-51 | what the descent finds below one element is what the loop keeps for it plus what the descent finds in its listing |
| `Discovery.WalkFindsAll` | bin/index.js:17-56 | the walk returns exactly the matching regular files outside `node_modules` paths and excluded directories that the recursive descent finds; failing entries are skipped |
| `Discovery.KidsBelow` | bin/index.js:48 | a directory's listing is appended one level below the directory |
| `Discovery.VisitPushesBelow` | bin/index.js:22-51 | a visit keeps the element itself or nothing, and appends only elements one level deeper |
| `Discovery.AppendBelowLayered` | bin/index.js:48 | taking the head off a worklist ordered by depth and appending its listing keeps it ordered by depth, within one level |
| `Discovery.PrependShallowest` | bin/index.js:34 | prepending a file no deeper than the rest keeps the result ordered by depth |
| `Discovery.WalkIsBreadthFirst` | bin/index.js:22-53 | files come out in breadth-first order: never a shallower file after a deeper one |
| `Discovery.RootItemsLayered` | bin/index.js:18 | the root's listing is a worklist of depth-one names |
| `Discovery.FetchFilesOrder` | bin/index.js:17-56 | for a tree whose listings hold plain names, the returned paths are exactly the files the descent finds, in breadth-first order |
| `Markup.SetAttr` | bin/index.js:184 | after `.attr(name, value)` the attribute reads `value`, every other attribute reads as before, and a new attribute goes last |
| `Markup.WordLength` | bin/index.js:205 | the first class name of a `class` value is its whole leading run of non-space characters: none of them is white space and the character after it is |
| `Markup.Words` | bin/index.js:205 | the class names of a `class` value are non-empty and contain no white space |
| `Markup.WordsCons` | bin/index.js:205 | a class name followed by a space splits off as the first name, and the rest is split on its own |
| `Markup.WordsUnwords` | bin/index.js:205 | splitting class names written with single spaces between them gives exactly those names back, in order |
| `Markup.FirstChild` | bin/index.js:169 | the first child the selector picks is a matching child, and there is none exactly when no child matches |
| `Markup.Find` | bin/index.js:170 | the first descendant found matches, and there is one whenever a child matches |
| `Markup.FindIffAny` | bin/index.js:170 | the descendant search finds something exactly when something at some depth matches |
| `Markup.FindIsFirstInPreorder` | bin/index.js:170 | `.find(sel)` yields the first node, in document order (each node before its descendants, these before its later siblings), that the selector picks |
| `Markup.FindAppend` | bin/index.js:170 | the search over two runs of siblings looks in the second only when the first has no match |
| `Markup.RemoveChildren` | bin/index.js:206 | after the removal no child matches, every remaining child was a child before, and none is added |
| `Markup.RemoveChildrenCount` | bin/index.js:206 | the removal leaves no matching child, and changes nothing when no child matches |
| `Markup.ReplaceAll` | bin/index.js:211 | every node the selector picks becomes the comment naming the output directory; text and comments stay; any other element keeps its tag and attributes, with the same replacement made in its children; the number of children is kept |
| `Markup.ReplaceAllNoMatch` | bin/index.js:211 | with no matching element at any depth, the replacement changes nothing |
| `Markup.ReplaceAllRemovesAll` | bin/index.js:211 | after the replacement no `code` element is left at any depth |
| `Markup.ReplaceAllKeepsChildren` | bin/index.js:211 | the replacement takes away, of the children carrying a class, exactly those that are themselves `code` elements |
| `Markup.CountAppend` | bin/index.js:215 | counting matching children is additive over appending |
| `Markup.CountZero` | bin/index.js:205 | no child matches exactly when `.children(sel)` is empty |
| `Markup.RemoveKeepsFirstCode` | bin/index.js:205-212 | removing old markers keeps the first `code` child when that child is not a marker |
| `Markup.RewriteChildren` | bin/index.js:204-222 | the three steps as the program runs them give the specified rewrite of the children |
| `Markup.MarkerShape` | bin/index.js:215-222 | the appended marker carries the class `data-diagram`, is not `code`, has content, and its image has the given `src`, and the title as both `title` and `alt` |
| `Markup.MarkerClassWords` | bin/index.js:215 | the marker's `class` value names exactly the class `data-diagram` |
| `Markup.RewriteShape` | bin/index.js:204-222 | a rendered block ends with the new marker; it is the only marker when the first old one had content or none existed; no `code` is left when the first `code` child had content and is not itself a marker |
| `Markup.OneMarker` | bin/index.js:205-222 | when old markers are removed or absent, the rewritten block holds exactly one marker |
| `Markup.KeptCodeFree` | bin/index.js:209-212 | inline code with content that is not itself a marker is replaced at every depth |
| `Markup.KeptMarkerFree` | bin/index.js:205-212 | when the first old marker had content, or none existed, no old marker survives |
| `Markup.FirstChildAppend` | bin/index.js:215 | appending children does not change the first match of a selector that already matches a child |
| `Markup.RemoveChildrenAppend` | bin/index.js:206 | removing matches is done separately on each side of an append |
| `Markup.FirstChildIsAny` | bin/index.js:210 | a first matching child is a match at some depth |
| `Markup.RewriteRerun` | bin/index.js:204-222 | when the first old marker has content or none exists, rewriting a rewritten block only swaps the marker: the result equals one rewrite of the original children with the second run's image and stamp |
| `Markup.RewriteAppendsOnly` | bin/index.js:204-222 | with no marker child and no `code` child with content, the rewrite only appends the marker |
| `Markup.MarkersAccumulate` | bin/index.js:205-215 | when the first old marker is empty, no marker is removed: the run adds one marker, less only the markers that were `code` elements and got replaced |
| `Markup.RewriteHidesCode` | bin/index.js:169 | after a rewrite the first `code` child is empty or absent, so a later run reads no inline code (`code` children after an empty first one are kept) |
| `Sync.RawId` | bin/index.js:183-187 | the identifier before slugging is never empty: it is the stored `data-mermaid` value when that is truthy, and otherwise the decimal text of the clock value, which is all digits |
| `Sync.IdAttrs` | bin/index.js:183-187 | after the assignment `data-mermaid` holds the identifier; a block without one gets the decimal text of the clock value; no other attribute changes, and a block with an identifier is left as it was |
| `Sync.FreshBlockId` | bin/index.js:167-192 | a block without an identifier is named by the clock value's text, unslugged, and that same text is written into `data-mermaid` |
| `Sync.AssignId` | bin/index.js:183-192 | the loop's statements produce the specified attributes and the identifier that names the files |
| `Sync.RuleHolds` | bin/index.js:109-112 | the `body` rule contains both of its declarations |
| `Sync.Style` | bin/index.js:108-114 | a style rule exists exactly when width or height is set; it is the `body` rule whose width slot holds `width:<w>px;` when width is set and is empty otherwise, and likewise for height; so it contains the declaration of each size that is set |
| `Sync.RenderPage` | bin/index.js:108-121 | the render request carries the diagram source, exactly the block's style rule (present exactly when a size is set), and transparency exactly when the `transparent` attribute is `true` |
| `Sync.CodeFile` | bin/index.js:65-86 | the output directory is made; inline code with content is returned and is written only to a missing sidecar; an existing sidecar is never overwritten and is returned when there is no inline code; it warns exactly when both or neither exist; no file but the sidecar is added and no image changes |
| `Sync.Diagram` | bin/index.js:94-123 | rendering adds the image at `dir/diagram-<id>.png` with this block's page, and changes no file and no other image |
| `Sync.InlineCode` | bin/index.js:168-171 | inline code is read exactly when the first `code` child has content, and it is then the content of the first `code` element in document order, at any depth |
| `Sync.ProcessBlock` | bin/index.js:166-223 | the loop body for one block: the identifier is written in and existing files are kept; the source is what `CodeFile` resolves; when it has content, the image is rendered from it at the slug-named path and the children are rewritten with that image; otherwise the store is `CodeFile`'s (only the output directory added) and the children stay as they were |
| `Sync.Blocks` | bin/index.js:164 | the selected positions are exactly those of the top-level `div[data-mermaid]` elements, in document order |
| `Sync.SyncBlocks` | bin/index.js:164-224 | the loop over the selected blocks keeps the number of nodes, changes no other node, never overwrites or removes an existing file, and leaves every selected block with an identifier |
| `Sync.SyncFrame` | bin/index.js:164-224 | what the rest of the loop keeps still holds with one more block processed in front of it |
| `Sync.SyncBlocksStep` | bin/index.js:165-166 | one turn of the loop processes the next selected block and continues on the rest |
| `Sync.MimcStep` | bin/index.js:165-224 | one loop turn, stated on the loop index, keeps the remaining loop's result equal to the whole loop's result |
| `Sync.Disk.GenerateCodeFile` | bin/index.js:65-86 | the store after the call, the returned source and the warning are those `CodeFile` specifies; documents are untouched |
| `Sync.Disk.GenerateDiagram` | bin/index.js:94-123 | the store after the call is the one `Diagram` specifies, with the page assembled as `RenderPage` states |
| `Sync.Disk.SyncBlock` | bin/index.js:166-223 | the store and the block after the loop body are those `ProcessBlock` specifies |
| `Sync.Disk.SyncAll` | bin/index.js:164-224 | the loop leaves the store and nodes that `SyncBlocks` specifies |
| `Sync.Disk.Mimc` | bin/index.js:146-237 | an unreadable document leaves everything as it was; otherwise the store and the written document are those of `SyncDocument` |
| `Sync.FileNamesValid` | bin/index.js:72 | the sidecar and image names built from a slash-free identifier are plain file names |
| `Sync.BlockIdNoSlash` | bin/index.js:189-192 | the identifier used for file names never contains `/` |
| `Sync.SrcResolves` | bin/index.js:217-221 | for a document below the working directory and a downward output option, the image `src` resolved from the document's directory is the rendered image's path, in both modes |
| `Sync.CommonSrcResolves` | bin/index.js:219 | in common mode the climb through the rewritten target and down the output directory reaches the image |
| `Sync.OwnSrcResolves` | bin/index.js:217-221 | in per-document mode the `src` resolved from the target is the image path |
| `Sync.RootLevelDocument` | bin/index.js:150 | a document at the top has target `.`; in per-document mode its `src` resolves to the image; in common mode the `src` is `../` followed by the image path, so it points one directory above the working directory and misses the image |
| `Sync.RootCommonSrc` | bin/index.js:219 | from `.` the common-mode `src` is `../` before the image path, and resolves to that |
| `Sync.RootOwnSrc` | bin/index.js:217-221 | from `.` the per-document `src` resolves to the image path |
| `Sync.DataKept` | bin/index.js:176-187 | writing the identifier changes no other `data-` value |
| `Sync.RenderPageKept` | bin/index.js:183-198 | the render request and the title do not depend on the identifier being written in |
| `Sync.BlockRerun` | bin/index.js:166-223 | when the first run found code and the first old marker had content or none existed, the sidecar then exists and a second run keeps the identifier and writes no file; with sidecar content it re-renders at the same image path and the children equal one rewrite with the new stamp; with an empty sidecar it changes nothing |
| `Sync.FirstRunSaves` | bin/index.js:74-76 | a first run with inline code and no sidecar saves the code to the sidecar and renders it |
| `Sync.BlockRerunStable` | bin/index.js:166-223 | when the first old marker had content or none existed and the first run saved the inline code to a new sidecar, a second run leaves the store exactly as it was and only replaces the marker |
| `Sync.SameClockCollision` | bin/index.js:167 | two new blocks visited at the same clock value share one identifier: the second block's inline code is not saved and its render replaces the first block's image |
| `Sync.UnresolvedBlock` | bin/index.js:194-196 | with neither inline code nor a sidecar with content, the block keeps its children, only its identifier is written in, and only the output directory is added to the store |
| `Sync.SidecarRenders` | bin/index.js:77-79 | without inline code, an existing sidecar with content is rendered at the block's image path, no file changes, and the block is rewritten |
| `Sync.InlineOverSidecar` | bin/index.js:74-82 | with inline code and an existing sidecar, the program warns, the sidecar is not overwritten, and the inline code is what gets rendered |

## Left out

- The command line (lines 239-276): commander's option parsing and defaults, and the call of `mimc` for each found file. The two options the loop reads are the `Config` datatype. The search root, the pattern and the excluded names are parameters.
- Logging with `console`/`chalk`, including the debug output. The warning of `generateCodeFile` is the `warned` flag.
- The renderer (`nodeHtmlToImage`, mermaid, the CDN script, lines 101-106 and 117-121): an image is recorded as the page it was asked to render (style rule, diagram source, transparency). The page's HTML text is not modelled. A failed render is not modelled either: the program has no rejection path there (line 121), so its promise stays pending and the run stops at that block.
- Cheerio parsing and serialisation (lines 157-161, 226-230). A document is a sequence of top-level nodes. Blocks nested inside other elements are not selected. Nothing is claimed about the byte-exact text written back. The HTML of the appended marker is modelled as the element tree it parses to.
- Sync.Transparent: `.data()` converts values, and the model keeps the raw strings and calls a value truthy when it is non-empty. `attr.transparent == true` is modelled as the text `true` or `1`; other spellings loosely equal to true (`1.0`, ` 1`, `[1]`) are left out.
- Sync.RawId: the model treats every non-empty stored identifier as a string. The program converts `"0"`, `"NaN"`, `"false"` and `"null"` to falsy values, so it writes a new clock identifier over them. It converts `"true"`, numbers such as `"-5"`, `"1.5"` and `"Infinity"`, and JSON arrays and objects to non-strings. For most of them the digit test at line 190 fails, so `id.replace` at line 191 throws and the document is left unwritten. A JSON array whose text is all digits passes that test instead: for `data-mermaid="[123]"` the program reads the array `[123]`, whose text is `123`, and names the files `code-123.txt` and `diagram-123.png`, while the model keeps the raw text `[123]`, slugs it to `-123-` and names `code--123-.txt` and `diagram--123-.png`.
- Sync.Title: the same conversion turns the titles and sizes `"0"`, `"NaN"`, `"false"` and `"null"` into falsy values, which the program drops; the model keeps them as text. It also turns a JSON-shaped title or size into an array or object, which the template prints differently (`[1, 2]` as `1,2`, `{"a":1}` as `[object Object]`); the model keeps the raw text.
- The user's `markdownFile` regular expression is an abstract predicate on the full path.
- The real file system: `mkdirSync` failures, a sidecar path that is a directory, and the time between `existsSync` and `writeFileSync`. The documents are kept apart from the sidecar files. A directory is recorded as made.
- Sync.Disk.Mimc: `Date.now()` is the input `clock(k)`; its decimal text has no exponent form. `new Date()` is the input text `stamps(k)`.
- Sync.Disk.Mimc: the promise plumbing. A document that cannot be read never resolves in the program; the model leaves the state unchanged. An exception inside the loop is not modelled.
- Markup.Image: a title containing `"` is escaped by the serialiser of the model. In the program it would end the attribute early in the parsed template.
- Discovery.FetchFiles: the tree is a snapshot. Changes to the file system during the walk are not modelled. `Discovery.WalkIsBreadthFirst` assumes listings hold only names `readdir` can return.
