# LUWRAIN browser document core in Dafny

This project models four pieces of the LUWRAIN browser and document tree and proves what they
promise.

- **Line layout of a web block** (`WebKitBlockBase`). A block holds text runs. `buildLines`
  packs the runs into lines no wider than the block. It prefers to cut a run at a word break,
  which is a non-space character that follows a space. A run without any break is cut after
  exactly the space left, even on a partly filled line. When a run has breaks but none fits,
  a partly filled line is emitted first, and an empty line gets a full-width cut. The model
  has three layers:
  - `TextRuns`: the breaks of a run.
  - `BreakSearch`: the break search of `findNextBreak`.
  - `LinePacking`: a functional packer that follows the loop of `buildLines` branch by branch.
  The class `WebKitBlockBase.WebKitBlock` holds the same loops as imperative methods and is
  proved equal to that packer. The main theorems are about `LinePacking.Pack`. Every line
  fits the width. Every fragment and every line is non-empty. The text of the lines, in
  order, is exactly the text of the runs. The open line has no fragments exactly when the
  whole width is free, so the "having fragments without consumed space" exception is never
  thrown. The getters `GetLeft`, `GetRight`, `GetWidth` (right minus left), `GetTop`,
  `GetBottom` (top plus the number of lines) and `GetHeight` (the number of lines) are plain
  reads of the block's fields.
- **Table-row normalisation** (`TableRow`). `Commit` wraps, in place, every child of a row
  that is not a table cell into a new cell. `AddEmptyCells` pads a short row with placeholder
  cells that hold a paragraph `"-"`. Node classes are the `kind` of a single `DocTree.Node`
  class.
- **Document property store** (`Document`). It covers properties, title, links, the URL
  taken from the `"url"` property, and the order of the passes of `buildView`.
- **Format selection** (`Factory`). It covers the extension table, the content-type table,
  and the order in which `fromPath(path, contentType, charset)` consults them.

Java exceptions become `Wrappers.Result` or `Wrappers.Outcome` values. Java `null` arguments
cannot occur, because Dafny references and sequences are non-null. So the `NullCheck` failures
are not represented, and neither is the `null` branch of `getTitle`. `Character.isSpace` is
modelled exactly: space, tab, line feed, form feed and carriage return. `String.trim` strips
every character up to U+0020.

Three consequences of the code are worth stating outright:
- `findNextBreak` never returns the first break of a run (`breaks[0]`), because its left scan
  starts on it. `BreakSearch.FirstBreakSkipped` shows a case.
- "The quick brown fox" at width 10 gives the lines "The quick " and "brown fox": the space
  before a break stays at the end of the earlier line. `LinePacking.SampleSentenceAtWidthTen`
  states this.
- "supercalifragilistic" has 20 characters and no breaks; at width 8 it is cut into lines of
  8, 8 and 4 characters. `LinePacking.SampleWordAtWidthEight` states this.

## Model

| member | source | states |
|---|---|---|
| TextRuns.BreaksBelowExactly | src/main/java/org/luwrain/web/WebKitBlockBase.java:137-142 | the breaks found below position n increase strictly; each is a position where a non-space follows a space; every such position below n is among them |
| TextRuns.Breaks | src/main/java/org/luwrain/web/WebKitBlockBase.java:134-147 | the breaks of a run increase strictly, and a position is a break exactly when a non-space character follows a space character there |
| TextRuns.GetBreaks | src/main/java/org/luwrain/web/WebKitBlockBase.java:134-147 | the loop of getBreaks computes exactly the breaks of the run's text |
| TextRuns.SampleSentenceBreaksBelowTen | src/main/java/org/luwrain/web/WebKitBlockBase.java:134-147 | the first ten characters of "The quick brown fox" hold one break, at 4 |
| TextRuns.SampleSentenceBreaks | src/main/java/org/luwrain/web/WebKitBlockBase.java:134-147 | "The quick brown fox" has breaks at 4, 10 and 16 |
| TextRuns.NoSpaceNoBreaks | src/main/java/org/luwrain/web/WebKitBlockBase.java:137-142 | a text without space characters has no breaks |
| TextRuns.SampleWordHasNoBreaks | src/main/java/org/luwrain/web/WebKitBlockBase.java:137-142 | "supercalifragilistic" has 20 characters and no breaks |
| BreakSearch.ScanLeft | src/main/java/org/luwrain/web/WebKitBlockBase.java:112 | the left scan stops at the last break at or before the current position, counting from the first break; it never moves past a break beyond that position |
| BreakSearch.ScanRight | src/main/java/org/luwrain/web/WebKitBlockBase.java:113-115 | the right scan stops at the last break, after the left one, that lies within the available space of the position; every break it skipped lies beyond that space |
| BreakSearch.NextBreakIsLargestFitting | src/main/java/org/luwrain/web/WebKitBlockBase.java:105-117 | findNextBreak gives -1 exactly when no break other than the first lies after the position and within the available space; otherwise it gives the largest such break |
| BreakSearch.FirstBreakSkipped | src/main/java/org/luwrain/web/WebKitBlockBase.java:112-116 | with breaks 2 and 12, position 0 and space 5, the result is -1 although break 2 fits |
| BreakSearch.FindNextBreak | src/main/java/org/luwrain/web/WebKitBlockBase.java:105-117 | the two loops of findNextBreak compute the break search above |
| LinePacking.NewFragment | src/main/java/org/luwrain/web/WebKitBlockBase.java:158-174 | a fragment is made exactly when 0 <= fromPos <= toPos <= the run's length, and its text is that slice of the run; otherwise the error names the first check that fails: a negative position, reversed bounds, or a position past the end |
| LinePacking.NewLine | src/main/java/org/luwrain/web/WebKitBlockBase.java:185-193 | a line keeps its fragments, and its text is their texts concatenated in order |
| LinePacking.FragmentsEmptyIffLineEmpty | src/main/java/org/luwrain/web/WebKitBlockBase.java:81-84 | during packing the open line has no fragments exactly when the whole width is free, so the exception for fragments without consumed space cannot occur |
| LinePacking.Flush | src/main/java/org/luwrain/web/WebKitBlockBase.java:55-60 | emitting the open line keeps every line within the width, frees the whole width, and changes neither the position nor the text laid out so far |
| LinePacking.Place | src/main/java/org/luwrain/web/WebKitBlockBase.java:63-76 | putting the next part of the run on the open line moves the position to its end, uses its length of space, and appends exactly that part to the laid-out text |
| LinePacking.CutFullLine | src/main/java/org/luwrain/web/WebKitBlockBase.java:81-87 | when nothing fits on an empty line, a full-width piece of the run becomes a line of its own |
| LinePacking.Step | src/main/java/org/luwrain/web/WebKitBlockBase.java:52-98 | one pass of the loop keeps lines within the width and fragments non-empty; it never moves the position back; when it does not advance, it frees the whole line; the laid-out text grows by exactly what was consumed |
| LinePacking.BreakStep | src/main/java/org/luwrain/web/WebKitBlockBase.java:77-97 | the break-search branch keeps lines within the width and fragments non-empty; it cuts a full line, flushes, or places up to the break found, and the laid-out text grows by exactly what was consumed |
| LinePacking.PackRunFrom | src/main/java/org/luwrain/web/WebKitBlockBase.java:49-98 | the loop over one run ends at the run's end, and the laid-out text grows by exactly the rest of the run |
| LinePacking.PackRuns | src/main/java/org/luwrain/web/WebKitBlockBase.java:45-99 | after all runs, the lines and the open line hold exactly the text of the runs, in order, within the width |
| LinePacking.PackRunsAppend | src/main/java/org/luwrain/web/WebKitBlockBase.java:47-99 | packing one more run continues, at that run's start, from the state the earlier runs left |
| LinePacking.Pack | src/main/java/org/luwrain/web/WebKitBlockBase.java:38-103 | every line fits the width, has fragments, and every fragment is non-empty; the lines together hold exactly the text of the runs, in order |
| LinePacking.SampleSentenceAtWidthTen | src/main/java/org/luwrain/web/WebKitBlockBase.java:38-103 | "The quick brown fox" at width 10 gives the lines "The quick " and "brown fox" |
| LinePacking.UnbreakableRunAtWidthEight | src/main/java/org/luwrain/web/WebKitBlockBase.java:70-75 | any 20-character run without breaks at width 8 is cut into three lines: characters 0-7, 8-15 and 16-19 |
| LinePacking.SampleWordAtWidthEight | src/main/java/org/luwrain/web/WebKitBlockBase.java:70-75 | "supercalifragilistic" at width 8 gives lines of 8, 8 and 4 characters |
| WebKitBlockBase.WebKitBlock.GetLeft | src/main/java/org/luwrain/web/WebKitBlockBase.java:119 | getLeft gives the block's left edge |
| WebKitBlockBase.WebKitBlock.GetRight | src/main/java/org/luwrain/web/WebKitBlockBase.java:120 | getRight gives the block's right edge |
| WebKitBlockBase.WebKitBlock.GetWidth | src/main/java/org/luwrain/web/WebKitBlockBase.java:121 | getWidth is the right edge minus the left edge, positive exactly when left is below right |
| WebKitBlockBase.WebKitBlock.GetTop | src/main/java/org/luwrain/web/WebKitBlockBase.java:122 | getTop gives the block's top |
| WebKitBlockBase.WebKitBlock.GetBottom | src/main/java/org/luwrain/web/WebKitBlockBase.java:123 | getBottom is the top plus the height (the number of lines), never above the top |
| WebKitBlockBase.WebKitBlock.GetHeight | src/main/java/org/luwrain/web/WebKitBlockBase.java:124 | getHeight is the number of lines, not the height field |
| WebKitBlockBase.WebKitBlock.LayoutStep | src/main/java/org/luwrain/web/WebKitBlockBase.java:52-98 | one pass of the while loop changes only the lines; it appends to them and updates the open line, the space left and the position exactly as the packing step does |
| WebKitBlockBase.WebKitBlock.LayoutBreakStep | src/main/java/org/luwrain/web/WebKitBlockBase.java:77-97 | the break-search branch of the loop (forced cut of a full line, flush, or placement up to the break) updates lines, open line, space left and position exactly as the packing step does |
| WebKitBlockBase.WebKitBlock.LayoutRun | src/main/java/org/luwrain/web/WebKitBlockBase.java:49-98 | the while loop over a run leaves the lines, the open line and the space left as the packer leaves them after that run |
| WebKitBlockBase.WebKitBlock.LayoutAllRuns | src/main/java/org/luwrain/web/WebKitBlockBase.java:45-99 | starting from an empty open line with the whole width free, the loop over the runs leaves the lines, the open line and the space left as the packer leaves them after all runs; with no runs nothing changes |
| WebKitBlockBase.WebKitBlock.LayoutRuns | src/main/java/org/luwrain/web/WebKitBlockBase.java:45-101 | the loop over the runs and the last flush leave exactly the packed lines of the runs, or the old lines when there are no runs |
| WebKitBlockBase.WebKitBlock.ClearLinesPerRun | src/main/java/org/luwrain/web/WebKitBlockBase.java:40-41 | the clearing loop empties the lines when there is at least one run, and otherwise leaves them as they were |
| WebKitBlockBase.WebKitBlock.LayoutLines | src/main/java/org/luwrain/web/WebKitBlockBase.java:45-102 | after the width check, the lines become the packed lines of the runs (the old ones when there are no runs) and the height their number |
| WebKitBlockBase.WebKitBlock.BuildLines | src/main/java/org/luwrain/web/WebKitBlockBase.java:38-103 | only the lines and the height change; the width used is right minus left; buildLines fails exactly when it is not positive; the old lines are cleared only if there is a run; on success the lines are the packed lines of the runs at that width and the height is their number |
| DocTree.Node.Commit | src/main/java/org/luwrain/doctree/TableRow.java:31-45 | afterwards every child of the row is a table cell in the same array; cells keep their index and are untouched; any other child becomes the only child of a new cell at its index; that cell's parent is the row, and the child's parent is the cell (the last one when a child is listed twice); the new cells are distinct objects, one per index; every old child keeps its own children and text |
| DocTree.Node.WrapAt | src/main/java/org/luwrain/doctree/TableRow.java:35-42 | one pass of the loop leaves a cell at index i untouched, and otherwise puts a new cell there whose only child is the old child and whose parent is the row, the old child getting the cell as parent and keeping its own children and text; the new cell is not at any other index; no other index changes |
| DocTree.Node.NewCellAround | src/main/java/org/luwrain/doctree/TableRow.java:38-41 | the new cell is fresh, has the child as its only child and the row as its parent, and becomes the child's parent |
| DocTree.Node.AddEmptyCells | src/main/java/org/luwrain/doctree/TableRow.java:47-64 | a row with at least num children is unchanged; otherwise its children become a new array of exactly num entries, with the old children first; each added entry is a distinct new cell of the row holding one paragraph "-" whose parent is the cell; the row always ends with at least num children |
| DocTree.Node.NewPlaceholderCells | src/main/java/org/luwrain/doctree/TableRow.java:54-62 | the padding loop creates exactly the requested number of distinct new placeholder cells |
| DocTree.Node.NewPlaceholderCell | src/main/java/org/luwrain/doctree/TableRow.java:57-60 | a new placeholder cell is a table cell of the row whose only child is a paragraph "-" with the cell as parent |
| DocTree.PadTwice | src/main/java/org/luwrain/doctree/TableRow.java:51-63 | padding a row twice to the same count leaves the same children array after the second call |
| Documents.Lookup | src/main/java/org/luwrain/doctree/Document.java:101-106 | reading a property fails exactly for an empty name, and otherwise gives the stored value, or "" for a name never set |
| Documents.Store | src/main/java/org/luwrain/doctree/Document.java:94-99 | storing fails exactly for an empty name, and otherwise the stored names are the old ones plus the new name |
| Documents.StoreThenLookup | src/main/java/org/luwrain/doctree/Document.java:94-106 | after a property is set, reading it gives the value set, and every other name reads as before |
| Documents.Document.constructor | src/main/java/org/luwrain/doctree/Document.java:41-46 | a document made from a root has that root, title "", no properties, no links yet (getHrefs gives null) and no view |
| Documents.Document.WithTitle | src/main/java/org/luwrain/doctree/Document.java:48-54 | a document made from a title and a root has both, no properties, no links yet (getHrefs gives null) and no view |
| Documents.Document.GetProperty | src/main/java/org/luwrain/doctree/Document.java:101-106 | getProperty fails exactly for an empty name, and otherwise gives the stored value, or "" for a name never set |
| Documents.Document.SetProperty | src/main/java/org/luwrain/doctree/Document.java:94-99 | setProperty fails exactly for an empty name and then changes nothing; otherwise it stores the value under the name; no other field changes |
| Documents.Document.SetHrefs | src/main/java/org/luwrain/doctree/Document.java:108-112 | after setHrefs, getHrefs gives exactly the links passed; nothing else changes |
| Documents.Document.GetHrefs | src/main/java/org/luwrain/doctree/Document.java:133 | getHrefs gives the stored links, null until setHrefs is called |
| Documents.Document.GetTitle | src/main/java/org/luwrain/doctree/Document.java:128 | getTitle gives the stored title, which is never null |
| Documents.Document.GetUrl | src/main/java/org/luwrain/doctree/Document.java:114-126 | there is no URL exactly when the "url" property is empty or not a well-formed URL; otherwise the URL is built from that property |
| Documents.Document.BuildView | src/main/java/org/luwrain/doctree/Document.java:56-77 | buildView always assigns the row parts; with no row parts it stops after the tree passes and the row-part build, leaving paragraphs and rows untouched; otherwise it also assigns paragraphs and rows and runs the layout passes in the source's order; properties, title, links and root stay; the nodes of the tree may change |
| Factory.Trim | src/main/java/org/luwrain/doctree/Factory.java:310 | trimming gives the slice of the value between its leading and trailing blanks (characters up to U+0020); the result is empty exactly for an all-blank value, and otherwise starts and ends with a non-blank character |
| Factory.ExtensionFormat | src/main/java/org/luwrain/doctree/Factory.java:267-286 | a lower-cased extension selects a format exactly when it is one of that format's extensions (epub, txt, doc, docx, html/htm, zip, fb2); the format selected is the one listing it |
| Factory.SuggestFilterByExtension | src/main/java/org/luwrain/doctree/Factory.java:258-287 | an empty path is an error; a path without extension gives UNRECOGNIZED; otherwise a format is selected exactly when the lower-cased extension is one of its extensions |
| Factory.ContentTypeFormat | src/main/java/org/luwrain/doctree/Factory.java:309-321 | a normalised content type selects a format exactly when it is that format's content type (text/html, application/fb2, application/fb2+zip) |
| Factory.ChooseFilterByContentType | src/main/java/org/luwrain/doctree/Factory.java:307-322 | a content type selects a format exactly when its lower-cased, trimmed value is that format's content type |
| Factory.ExtensionCaseInsensitive | src/main/java/org/luwrain/doctree/Factory.java:266-286 | two extensions that differ only in letter case select the same format |
| Factory.UpperCaseExtension | src/main/java/org/luwrain/doctree/Factory.java:266-281 | the extension "HTM" selects HTML |
| Factory.TrimIgnoresPadding | src/main/java/org/luwrain/doctree/Factory.java:310 | trimming a value with blanks added around it gives the same result as trimming the value |
| Factory.ContentTypePadded | src/main/java/org/luwrain/doctree/Factory.java:310 | blanks around any content type do not change the format it selects |
| Factory.BlankContentTypeUnrecognized | src/main/java/org/luwrain/doctree/Factory.java:55-56 | a blank content type would select nothing anyway, so skipping its lookup changes no outcome |
| Factory.ChooseFormat | src/main/java/org/luwrain/doctree/Factory.java:49-64 | a non-blank, recognised content type decides; otherwise the path's extension decides, an empty path is an error, and when neither is recognised the result is the null document; a chosen format is never UNRECOGNIZED |
| Factory.ContentTypeWins | src/main/java/org/luwrain/doctree/Factory.java:54-58 | with a recognised content type the extension is never consulted, so even an empty path gives a format and no error |
| Factory.StreamFormat | src/main/java/org/luwrain/doctree/Factory.java:148-150 | fromInputStream goes on exactly when the lower-cased, trimmed content type belongs to a format, with that format; otherwise it returns null |

## Left out

- Reading documents: `fromPath(Path, Format, String)`, the filter classes (Html, Doc, DocX, Epub, Zip, FictionBook2, the text filters), `loadFromStream` and `loadFromText` parse files through libraries that are not part of this model.
- Network and files: `fromUrl`, `fromUrlImpl`, the rest of `fromInputStream` (temporary files, charset sniffing through `XmlEncoding` and `HtmlEncoding`), `downloadToTmpFile` and `extractCharsetInfo` are I/O.
- MIME parsing: `getBaseContentType` and `getCharset` call `javax.activation.MimeType`, which is not part of this model.
- Factory.SuggestFilterByExtension: `FileTypes.getExtension` is not part of this model. It is a parameter, and `None` stands for its `null`.
- Factory.ToLower: lower-cases ASCII letters only. Java's `toLowerCase` follows the default locale. In a Turkish locale "I" becomes a dotless i, so "ZIP" or "APPLICATION/FB2" would not be recognised there. No other non-ASCII character lower-cases to a letter used in the two tables, so the tables' results agree otherwise.
- Documents.Document.GetUrl: `new URL(value)` is not part of this model. A `wellFormed` parameter stands for the `MalformedURLException` check.
- Documents.Document.BuildView: `NodeImpl.commit`, `setEmptyMark`, `removeEmpty`, `RowPartsBuilder` and `Layout` are not part of this model. Their results are parameters, and the calls are recorded, in order, in a ghost trace. What the tree passes do to the nodes is not modelled: the ghost `tree` parameter only lets them change.
- `getIterator`, `getLineCount` and `getLine` of `Document` hand over to `Iterator` and `Layout`, which are not part of this model. The `idx` map is not modelled either.
- DocTree.Node.Commit: the final `super.commit()` call (`Node.commit`) is not part of this model. The warning logged for each wrapped child is left out.
- DocTree.Node.AddEmptyCells: `NodeFactory.newPara("-")` is not part of this model. Its result is a paragraph node whose text is "-".
- Null children: the `NullCheck.notNullItems` checks of `commit`, `addEmptyCells`, `setHrefs` and `buildView` cannot fail here, because the arrays and sequences hold non-null values.
- `int[]` breaks, `List` and `ArrayList` are sequences. Positions are bounded by string lengths, so 32-bit overflow cannot occur in them.
- WebKitBlockBase.WebKitBlock.BuildLines: the width `right - left` is computed without 32-bit wrap-around. Java's subtraction wraps when the geometry spans more than 2^31 - 1.
- LinePacking.Pack, TextRuns.Breaks and WebKitBlockBase.WebKitBlock.BuildLines count positions and widths in Unicode scalar values, since a Dafny `string` is a sequence of them. Java's `length`, `charAt` and `substring` count UTF-16 code units. So for text beyond the Basic Multilingual Plane the line counts and cut positions differ: four U+1F600 emoji at width 4 make one line here and two in Java. Java's possible cut inside a surrogate pair is not represented.
- The block's `text` field, `stop()`, `toString()`, logging and the debugging and UI classes around the block are left out.
