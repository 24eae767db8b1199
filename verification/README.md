# md2everything core, modelled in Dafny

This project models three parts of the md2everything repository and proves
properties of them.

1. **The converter** (`converter.py`, class `MarkdownConverter`):
   - The web-page export: the diagram rewrite `_process_mermaid`, then the
     page assembly `to_html` / `_get_html_template`.
   - The packaged-document export `to_docx`. It walks the direct children of
     the parsed tree (`_process_docx_element`) and builds tables
     (`_add_docx_table`). Each handled tag appends headings, paragraphs,
     list items, code or notice paragraphs, quotes, rules and tables to a
     growing document, with fixed formatting.
2. **The access-control matrix** of the matrix demonstration tool
   (`task2/acm_gui.py`, class `ACMTool`). It has a subject list, an object
   list and a per-subject row of permission sets.
   - Updated in place by `add_subject_logic`, `add_object_logic`,
     `set_permission` and `init_data`.
   - Read by the allow/deny `check` and by the row rendering of `refresh_view`.
3. **The DES key normalisation** of `DESCrypto.__init__`
   (`task1/crypto_algorithms.py`). The key is padded with `'0'` or cut to
   eight characters, then UTF-8 encoded.

## Modules

| file | module | contents |
|---|---|---|
| `wrappers.dfy` | `Wrappers` | `Option`, `Result` |
| `markup.dfy` | `Markup` | the parsed tree (`Node`) and the queries the converter makes of it (`get_text`, `find_all`, `find`, `str.strip`, substring tests) |
| `mermaid.dfy` | `Mermaid` | `_process_mermaid` as a tree-to-tree function with its error path |
| `html_page.dfy` | `HtmlPage` | `_get_html_template` and `to_html` |
| `docx.dfy` | `Docx` | the word-processor document, a class whose `blocks` sequence grows |
| `docx_export.dfy` | `DocxExport` | the specification of the walk (`Emit`, `Steps`, `Chain`, `Walk`) and of the table builder (`Grid`, `FilledTable`), and the converter's methods, proved to build exactly that |
| `docx_properties.dfy` | `DocxProperties` | what each tag produces, the tags the walk passes over, and the raise-and-stop behaviour of the walk |
| `string_order.dfy` | `StringOrder` | code-point order on strings, the sorted listing of a set, and `join` / `split` |
| `access_control.dfy` | `AccessControl` | the matrix as a value with its coverage invariant and operations, the class `AccessMatrix` updating its fields in place, and the initial matrix |
| `des_key.dfy` | `DesKey` | key normalisation, UTF-8 encoding, the stored key |

### Error paths

The converter raises in several places. Each raise is an error value in the
model:

- **A detached `replace_with`.** A `pre` with two or more matching `code`
  children makes the second `replace_with` run on a detached node.
  `Mermaid.ProcessMermaid` returns `Err(ReplaceDetached)` for this.
  - `ProcessMermaid` accepts any root. On a root that is itself a matching
    `pre` it returns the same error, since such a root has no parent.
  - The converter always passes the parsed document (`[document]`), which
    is never a `pre`, so for the converter this second case cannot arise.
    `Mermaid.DocumentRewrite` states the outcome for that root.
- **`runs[0]` on an empty run list.** A heading of level 1 to 3, a block
  quote or a code block whose text is empty has no run to format. This is
  `NoRunToFormat`.
- **The header shading.** For each first-row cell the converter asks the
  cell properties for a shading element with `get_or_add_shd`. The cell
  properties of python-docx have no such method, so the call raises
  `AttributeError`. By then the first header cell has its text and its bold
  white run. So every table whose first row has a `th` or `td` raises
  there. This is `ShadingUnsupported`; see "## Findings".
- **A table row wider than the first.** It indexes past the grid width.
  This is `CellOutOfRange`. As the code is written it can only happen when
  the first row has no cell and the grid therefore has no columns.

A raise in the walk stops it. The blocks appended up to that point stay in
the document, and `to_docx` returns no document.

### Code over documented design

Where the documented design of the converter and the code differ, the model
follows the code:

- **Only direct children are walked.** An unhandled tag, `h5` and `h6`
  included, adds nothing, and the walk does not descend into it. The
  documented design recurses into unknown tags.
- **Tables raise.** A table whose first row has a cell raises at the header
  shading. In the intended table (`DocxExport.IntendedTable`), a row longer
  than the first is not truncated but raises. Rows written before it stay
  filled; later rows stay unassigned.
- **The two diagram tests differ.** The packaged-document export never
  calls the diagram rewrite. It tests the first `code` descendant of a
  `pre` for a class containing `"mermaid"`, which is a wider test than the
  rewrite's `"language-mermaid"`.
- **Headings run from `h1` to `h4` only.** There is no level 5 or 6.

## Model

| member | source | states |
|---|---|---|
| Markup.GetText | converter.py:316 | `get_text()`: the text strings of the subtree concatenated in document order; its contract is `Markup.GetTextPreorder` |
| Markup.ConcatText | converter.py:316 | the flattened texts of a sequence of children, concatenated in order; its contract is `Markup.ConcatTextPreorder` |
| Markup.GetTextPreorder | converter.py:316 | the flattened text of an element is exactly the text of its text-node descendants, taken in document order |
| Markup.ConcatTextPreorder | converter.py:316 | the same for a sequence of children: each child's text, then its descendants', then the next child's |
| Markup.FindAll | converter.py:369 | `find_all`: every node found is a descendant element with one of the searched names; `Markup.FindAllPreorder` gives the whole list |
| Markup.FindAllIn | converter.py:380 | the search over a sequence of children finds only elements with one of the searched names; `Markup.FindAllInPreorder` gives the whole list |
| Markup.FindAllPreorder | converter.py:369 | `find_all` lists exactly the strict descendants with one of the names, in document (preorder) order, each as often as it occurs |
| Markup.FindAllInPreorder | converter.py:380 | the same over a sequence of children: each child, then its descendants, then the next child's, filtered by name |
| Markup.FindAllExactly | converter.py:369 | a node is found exactly when it is a strict descendant with one of the names |
| Markup.FindFirst | converter.py:342 | `find` gives a node exactly when `find_all` finds one, and then the first node `find_all` lists, which has the searched name |
| Markup.FindFirstIsFirst | converter.py:342 | the node `find` gives is the first strict descendant in document order with the name |
| Markup.ChildrenNamed | converter.py:334 | `find_all(..., recursive=False)`: each direct child with the name, as often as it occurs, and nothing else; no more than there are children; in order by `Markup.MatchingAppend` |
| Markup.Matching | converter.py:334 | the name filter keeps no more nodes than it is given |
| Markup.MatchingCount | converter.py:334 | the name filter keeps each matching node exactly as often as it occurs and drops every other node |
| Markup.MatchingAppend | converter.py:334 | filtering a concatenation is filtering each part: the filter keeps document order |
| Markup.MatchingFirst | converter.py:342 | the first node the filter keeps is the first matching node, and no node before it matches |
| Markup.IsSpace | converter.py:316 | the characters for which `str.isspace` holds; used by the strip lemmas below |
| Markup.TrimStart | converter.py:316 | the result is a suffix of the input, only whitespace is cut, and it does not start with whitespace |
| Markup.TrimEnd | converter.py:316 | the result is a prefix of the input, only whitespace is cut, and it does not end with whitespace |
| Markup.Strip | converter.py:316 | `str.strip()`: a slice of the input with only whitespace cut on either side, neither starting nor ending with whitespace |
| Markup.StripEmptyIffAllSpace | converter.py:329-330 | the stripped text is empty exactly when the text is all whitespace |
| Markup.StripIdempotent | converter.py:316 | stripping twice is stripping once |
| Markup.Contains | converter.py:348 | `needle in s` as a prefix test at each position; its contracts are `Markup.ContainsAt` and `Markup.ContainsSomewhere` |
| Markup.ContainsAt | converter.py:348 | a needle occurring at a position is contained in the string |
| Markup.ContainsSomewhere | converter.py:348 | a contained needle occurs at some position: with `ContainsAt`, containment is exactly occurrence |
| Mermaid.IsMermaidCode | converter.py:269 | a `code` element with a class containing "language-mermaid"; compared with the packaged-document test in `DocxProperties.DiagramTestWider` |
| Mermaid.Rewrite | converter.py:269-274 | each outermost diagram block replaced by the notice, everything else rebuilt as it was; its contracts are the rewrite lemmas below |
| Mermaid.RewriteAll | converter.py:269-274 | the rewrite of each child, one result per child |
| Mermaid.ProcessMermaid | converter.py:265-276 | the rewrite succeeds exactly when the root is not a diagram block and no `pre` has two matching `code` children; on success no diagram block is left anywhere in the tree |
| Mermaid.DocumentRewrite | converter.py:267-276 | on the parsed document, which is the root the converter passes, the rewrite raises exactly when some `pre` holds two matching `code` children, and otherwise rewrites the children |
| Mermaid.RewriteKeepsMermaidCount | converter.py:269-274 | rewriting children keeps the number of matching `code` children |
| Mermaid.RewriteRemovesDiagrams | converter.py:269-274 | no diagram block survives the rewrite at any depth |
| Mermaid.RewriteIdentity | converter.py:269-274 | a tree without diagram blocks is left exactly as it was, including a matching `code` that is not directly under a `pre` |
| Mermaid.NoDiagramNoDouble | converter.py:273-274 | a tree without diagram blocks cannot make `replace_with` meet a detached `pre` |
| Mermaid.ProcessMermaidIdempotent | converter.py:265-276 | running the rewrite on its own output succeeds and changes nothing |
| Mermaid.RewriteShape | converter.py:270-274 | a diagram block is replaced by the `mermaid-note` div; every other element keeps its name, classes and number of children; text is untouched |
| Mermaid.DiagramSourceDropped | converter.py:270-274 | the text of a rewritten diagram block is the fixed notice, whatever the diagram source was |
| HtmlPage.Page | converter.py:38-263 | the page's length is that of head, title, fixed middle, content and tail together |
| HtmlPage.ContentRoundTrip | converter.py:45-248 | the content is recovered from the page built around it |
| HtmlPage.ContentOfSound | converter.py:38-263 | a page from which a content is recovered is rebuilt exactly from that content |
| HtmlPage.TitleVerbatim | converter.py:45 | the title sits unescaped right after the page head |
| HtmlPage.ToHtml | converter.py:278-283 | `to_html` produces a page exactly when the rewrite succeeds |
| HtmlPage.ToHtmlContent | converter.py:278-283 | a produced page holds the serialisation of a tree without diagram blocks, and converting that tree again gives the same page |
| Docx.Document.constructor | converter.py:287 | a new document has an empty body and the template's own `Normal` font |
| Docx.Document.SetNormalFont | converter.py:290-293 | the `Normal` style gets the family and size; the body is unchanged |
| Docx.Document.AddHeading | converter.py:316 | `add_heading` appends one heading of the given level and text |
| Docx.Document.AddParagraph | converter.py:331 | `add_paragraph` appends one `Normal` paragraph of the text |
| Docx.Document.AddTable | converter.py:376-377 | `add_table` appends one table with the given style and cells |
| Docx.Document.SetLastStyle | converter.py:336 | only the style of the last paragraph changes |
| Docx.Document.SetLastIndent | converter.py:354 | only the left indent of the last paragraph changes |
| Docx.Document.FormatLastRun | converter.py:319 | `runs[0].font...` succeeds exactly when the last block has text, and then changes only that block's font; otherwise nothing changes |
| DocxExport.Emit | converter.py:310-365 | the blocks one child appends and its raise, by tag: text and unhandled tags add nothing; its contracts are the `DocxProperties` outcome lemmas |
| DocxExport.HeadingBlocks | converter.py:314-326 | the heading branch's blocks and raise; its contract is `DocxProperties.HeadingOutcome` |
| DocxExport.ParagraphBlocks | converter.py:328-331 | the paragraph branch; its contract is `DocxProperties.ParagraphOutcome` |
| DocxExport.ListBlocks | converter.py:333-336 | the list branch; its contract is `DocxProperties.ListOutcome` |
| DocxExport.PreBlocks | converter.py:341-356 | the preformatted branch; its contract is `DocxProperties.PreOutcome` |
| DocxExport.QuoteBlocks | converter.py:358-362 | the block-quote branch; its contract is `DocxProperties.QuoteOutcome` |
| DocxExport.Walk | converter.py:308-312 | the walk over the direct children, stopping at the first raise; its contracts are `DocxExport.WalkAppend` and `DocxProperties.WalkFirstRaise` |
| DocxExport.TableBlocks | converter.py:367-393 | `_add_docx_table`: nothing without rows, otherwise `FilledTable`; its contract is `DocxProperties.TableOutcome` |
| DocxExport.FilledTable | converter.py:373-393 | the table as the converter builds it, up to the shading raise or a long row; its contract is `DocxProperties.FilledTableOutcome` |
| DocxExport.HeaderStopGrid | converter.py:382-392 | the grid left by the shading raise: only the first header cell written, in the header font, without fill |
| DocxExport.IntendedTable | converter.py:373-393 | the table the converter evidently means to build, with the header row shaded; its contract is `DocxProperties.IntendedTableOutcome` |
| DocxExport.HeaderStopTable | converter.py:382-392 | a grid holding just the first header cell is the as-written table of a first row with a cell, with the shading raise |
| DocxExport.ColumnlessTable | converter.py:373-384 | with no cell in the first row the grid has no columns, and the table raises exactly at the first later row with a cell |
| DocxExport.Repeat | converter.py:365 | `'─' * 50`: `n` copies of the character |
| DocxExport.HeadingLevel | converter.py:315 | the level is the tag's digit, 1 to 4 |
| DocxExport.CellTexts | converter.py:380-383 | one stripped text per `th`/`td` descendant of the row |
| DocxExport.RowTexts | converter.py:379-380 | one list of cell texts per row |
| DocxExport.FirstLongRow | converter.py:379-382 | the index of the first row with more cells than the grid is wide: every earlier row fits, and the one found does not |
| DocxExport.ToDocx | converter.py:285-306 | `to_docx` returns a document exactly when the walk over the root's children does not raise; the document holds the walk's blocks and a 11pt "Microsoft YaHei" `Normal` style; otherwise the walk's error |
| DocxExport.ProcessElement | converter.py:308-312 | the loop over the direct children appends exactly the walk's blocks, up to the first raise, and returns the walk's error, the one raised by the failing child |
| DocxExport.ProcessChild | converter.py:310-365 | one child appends exactly what `Emit` specifies for it and returns `Emit`'s error |
| DocxExport.FormatRunTwice | converter.py:319-320 | two font assignments on the last block's run: both applied and no error, or `NoRunToFormat` at the first when there is no run |
| DocxExport.AddHeading | converter.py:314-326 | the heading branch appends `HeadingBlocks` and returns its error |
| DocxExport.StyleHeading | converter.py:318-326 | sets the size and colour of the heading just added, by level, replacing it by `StyledHeading` and returning its error |
| DocxExport.AddParagraph | converter.py:328-331 | the paragraph branch appends `ParagraphBlocks` and never raises |
| DocxExport.AddList | converter.py:333-336 | the loop over the `li` children appends `ListBlocks` and never raises |
| DocxExport.AddListItem | converter.py:335-336 | one item appends its list paragraph |
| DocxExport.AddPre | converter.py:341-356 | the preformatted branch appends `PreBlocks` and returns its error |
| DocxExport.AddQuote | converter.py:358-362 | the block-quote branch appends `QuoteBlocks` and returns its error |
| DocxExport.AddTable | converter.py:367-377 | `_add_docx_table` appends `TableBlocks` and returns its error |
| DocxExport.BuildGrid | converter.py:373-393 | the grid filled by the nested loops, and the raise, are exactly `FilledTable` of the rows' cell texts |
| DocxExport.FillRow | converter.py:380-393 | one row's cells are written left to right. In the first row, the first cell gets its text and header font and then the shading raises. In a later row the loop raises exactly when the row is wider than the grid; otherwise the whole row is written |
| DocxExport.FirstLongRowAt | converter.py:379-382 | a position with only fitting rows before it and a long row (or the end) at it is the first long row |
| DocxExport.ChainAppend | converter.py:310 | chaining two runs of steps is the first chain, followed by the second when the first did not raise |
| DocxExport.WalkAppend | converter.py:310-312 | the walk of two runs of children is the first walk, followed by the second when the first did not raise: document order, and nothing after a raise |
| DocxProperties.HeadingOutcome | converter.py:314-326 | `h1`..`h4` add one heading of the tag's level with the stripped text; levels 1-3 raise exactly when the text is blank, otherwise get their size and colour; level 4 keeps a plain run |
| DocxProperties.HeadingStyles | converter.py:318-326 | 24pt (102,126,234), 20pt (73,80,87), 16pt (108,117,125), and nothing for level 4 |
| DocxProperties.ParagraphOutcome | converter.py:328-331 | a `p` adds nothing exactly when its text is blank, otherwise one plain paragraph of the stripped text; it never raises |
| DocxProperties.QuoteOutcome | converter.py:358-362 | a `blockquote` adds one paragraph of the stripped text indented 0.5in; it raises exactly when the text is blank, otherwise its run is italic and grey |
| DocxProperties.ListOutcome | converter.py:333-336 | a `ul`/`ol` adds one paragraph per direct `li` child, in order, with the item's stripped text, `List Bullet` for `ul` and `List Number` for `ol`; it never raises |
| DocxProperties.PreOutcome | converter.py:341-356 | a `pre` without `code` adds nothing; with a "mermaid" class it adds the bold accent-coloured notice; otherwise the unstripped code text indented 0.5in in 9pt Consolas, raising exactly when that text is empty |
| DocxProperties.DiagramNoticeHasRun | converter.py:349-351 | the notice paragraph has a run, so the diagram branch never raises |
| DocxProperties.DiagramTestWider | converter.py:269 | every `code` the rewrite treats as a diagram is treated as one by the packaged-document test (converter.py:348) |
| DocxProperties.DiagramTestStrictlyWider | converter.py:348 | a `code` classed just "mermaid" is a diagram for the packaged-document test but not for the rewrite |
| DocxProperties.FilledTableOutcome | converter.py:367-393 | as written: one "Light Grid Accent 1" table, one row per `tr`, as many columns as the first row has cells. A first row with a cell raises the shading error, leaving only cell (0,0) written, bold and white without fill. Otherwise the grid has no columns and raises `CellOutOfRange` exactly when a later row has a cell. It completes exactly when no row has a cell |
| DocxProperties.FilledTableWithoutHeader | converter.py:373-393 | with no cell in the first row, the as-written and the intended table agree |
| DocxProperties.HeaderTableRaises | converter.py:391-392 | the table with a single header cell "A" ends with the shading error |
| DocxProperties.IntendedTableOutcome | converter.py:367-393 | the intended table: one "Light Grid Accent 1" table, one row per `tr`, as many columns as the first row has cells. It raises exactly when some row is wider than the first. Otherwise every row is written, short rows padded with unassigned cells; with a raise, rows up to and including the first long one are written. Row 0 is bold and white on the `667EEA` fill |
| DocxProperties.TableOutcome | converter.py:367-393 | a table without `tr` adds nothing; otherwise the as-written table above, sized by the rows. It completes exactly when no row has a `th`/`td`, and raises the shading error when the first row has one |
| DocxProperties.RuleOutcome | converter.py:364-365 | an `hr` adds one plain paragraph of fifty `─` and never raises |
| DocxProperties.UnhandledIgnored | converter.py:310-314 | a child with an unhandled tag adds nothing and raises nothing, whatever it contains |
| DocxProperties.WalkSkipsUnhandled | converter.py:310-312 | children that are all text or unhandled tags add nothing |
| DocxProperties.ChainNoRaise | converter.py:310 | a chain raises exactly when one of its steps raises, and without a raise it holds all steps' blocks in order |
| DocxProperties.ChainFirstRaise | converter.py:310 | a chain stops at its first raising step, with the blocks up to and including it and that step's error |
| DocxProperties.WalkFirstRaise | converter.py:308-365 | the walk holds every child's blocks in document order when no child raises; otherwise the blocks up to and including the first raising child, and its error |
| StringOrder.BelowIrreflexive | task2/acm_gui.py:201 | no string is below itself |
| StringOrder.BelowTransitive | task2/acm_gui.py:201 | the string order is transitive |
| StringOrder.BelowTotal | task2/acm_gui.py:201 | any two different strings are ordered |
| StringOrder.BelowAsymmetric | task2/acm_gui.py:201 | the string order is asymmetric |
| StringOrder.LeastExists | task2/acm_gui.py:201 | a non-empty set of strings has a least element |
| StringOrder.LeastUnique | task2/acm_gui.py:201 | the least element is unique |
| StringOrder.SortedElems | task2/acm_gui.py:201 | `sorted(list(s))`: strictly ascending, exactly the set's elements |
| StringOrder.SortedUnique | task2/acm_gui.py:201 | two strictly ascending listings of the same elements are equal |
| StringOrder.Join | task2/acm_gui.py:201 | `",".join` of no parts is empty and of one part is that part |
| StringOrder.Split | task2/acm_gui.py:201 | the view never splits; `split` is the inverse partner of the cell's comma join, and gives at least one piece |
| StringOrder.SplitAfterWord | task2/acm_gui.py:201 | a step toward inverting the cell's comma join (the view never splits): splitting after a separator-free word glues it to the first piece |
| StringOrder.SplitJoin | task2/acm_gui.py:201 | splitting a join at the separator gives the parts back when none contains it |
| StringOrder.JoinHasSeparator | task2/acm_gui.py:201 | a join of two or more parts contains the separator |
| AccessControl.CellText | task2/acm_gui.py:200-201 | the text of a cell: "-" for no rights, otherwise the rights sorted and joined by ","; its contracts are `CellTextDash` and `CellTextSplits` |
| AccessControl.ValidState | task2/acm_gui.py:50-66 | the invariant the three update methods keep: a row for exactly the listed subjects, a cell for exactly the listed objects in each row, distinct non-empty names; kept by the `...Valid` lemmas |
| AccessControl.Cell | task2/acm_gui.py:200 | `self.matrix[sub].get(obj, set())`: the rights of a subject on an object, none when there is no cell; used by `Check` and the update lemmas |
| AccessControl.EmptyRow | task2/acm_gui.py:53-55 | a row with exactly the listed objects, each with no rights |
| AccessControl.RenderCell | task2/acm_gui.py:200-201 | the loop that picks the least remaining right each time produces the cell text: "-" for none, otherwise the sorted rights joined by "," |
| AccessControl.CellTextDash | task2/acm_gui.py:201 | a cell shows "-" exactly for no rights or the single right "-" |
| AccessControl.CellTextSplits | task2/acm_gui.py:201 | a non-empty cell's text splits at the commas back into the sorted rights when no right contains a comma |
| AccessControl.AddedSubject | task2/acm_gui.py:50-55 | an empty or listed name changes nothing; otherwise the subject is appended and gets a row; objects unchanged |
| AccessControl.AddedSubjectCells | task2/acm_gui.py:53-55 | the new subject's row has every listed object with no rights, and no other subject's cell changes |
| AccessControl.AddedSubjectValid | task2/acm_gui.py:50-55 | adding a subject keeps the matrix covered, with distinct non-empty names |
| AccessControl.AddedObject | task2/acm_gui.py:57-62 | an empty or listed name changes nothing; otherwise the object is appended; subjects and the set of rows unchanged |
| AccessControl.AddedObjectCells | task2/acm_gui.py:60-62 | every listed subject's row gets the new object, and every existing cell keeps its rights |
| AccessControl.AddedObjectValid | task2/acm_gui.py:57-62 | adding an object keeps the matrix covered, with distinct non-empty names |
| AccessControl.PermissionSet | task2/acm_gui.py:64-66 | unlisted names change nothing; the lists never change |
| AccessControl.PermissionSetCells | task2/acm_gui.py:64-66 | for listed names exactly that cell holds the rights afterwards, and every other cell is unchanged |
| AccessControl.PermissionSetValid | task2/acm_gui.py:64-66 | setting a permission keeps the matrix covered |
| AccessControl.Check | task2/acm_gui.py:167-177 | on a covered matrix the error outcome means exactly that a name is not listed; allow exactly when the right is in the cell; deny only when it is not |
| AccessControl.NewSubjectDenied | task2/acm_gui.py:50-55 | a new subject is denied everything on every listed object |
| AccessControl.NewObjectDenied | task2/acm_gui.py:57-62 | every listed subject is denied everything on a new object |
| AccessControl.CheckAfterPermission | task2/acm_gui.py:64-66 | after setting a cell, the check on it allows exactly the given rights |
| AccessControl.SubjectsAdded | task2/acm_gui.py:37-39 | the three subject additions on the empty matrix give three empty rows |
| AccessControl.ObjectAddedToEveryRow | task2/acm_gui.py:57-62 | adding an object to three equal rows adds an empty cell to each |
| AccessControl.InitialNames | task2/acm_gui.py:37-43 | the six additions give the three subjects and three objects with every cell empty |
| AccessControl.NamesOnlyValid | task2/acm_gui.py:37-43 | that matrix is covered |
| AccessControl.AliceGranted | task2/acm_gui.py:45 | the first grant gives Alice Read and Write on File1.txt |
| AccessControl.BobGranted | task2/acm_gui.py:46 | the second gives Bob Read on File1.txt |
| AccessControl.AdminGranted | task2/acm_gui.py:47 | the third gives Admin Read, Write and Own on File1.txt |
| AccessControl.ExecuteGranted | task2/acm_gui.py:48 | the fourth gives Admin Execute on App.exe and completes the initial matrix |
| AccessControl.InitialRows | task2/acm_gui.py:45-48 | the initial matrix is the named empty one with exactly those four cells set |
| AccessControl.InitialChecks | task2/acm_gui.py:167-177 | on the initial matrix Admin may execute App.exe, Alice may write File1.txt, Bob may not write File1.txt or read File2.txt, and Eve is unknown |
| AccessControl.AccessMatrix.constructor | task2/acm_gui.py:33 | a new tool holds the covered initial matrix |
| AccessControl.AccessMatrix.AddSubject | task2/acm_gui.py:50-55 | the fields become `AddedSubject` of the old ones, and the matrix stays covered |
| AccessControl.AccessMatrix.AddRow | task2/acm_gui.py:53-55 | the loop over the objects gives the new subject the empty row; nothing else changes |
| AccessControl.AccessMatrix.AddObject | task2/acm_gui.py:57-62 | the fields become `AddedObject` of the old ones, and the matrix stays covered |
| AccessControl.AccessMatrix.AddCells | task2/acm_gui.py:60-62 | the loop over the subjects adds the empty cell to each listed subject's row that lacks it; nothing else changes |
| AccessControl.AccessMatrix.SetPermission | task2/acm_gui.py:64-66 | the fields become `PermissionSet` of the old ones, and the matrix stays covered |
| AccessControl.AccessMatrix.InitData | task2/acm_gui.py:36-48 | on the empty matrix, the ten calls leave the covered initial matrix |
| AccessControl.AccessMatrix.RenderRows | task2/acm_gui.py:197-202 | one row per subject in order: the subject, then each object's cell text in object order |
| AccessControl.AccessMatrix.RowValues | task2/acm_gui.py:198-201 | one subject's row: its name, then each object's cell text, a missing cell shown as no rights |
| DesKey.PadRight | task1/crypto_algorithms.py:23 | `ljust`: the key is kept as a prefix and padded with the character up to the length |
| DesKey.NormalizeKey | task1/crypto_algorithms.py:22-25 | the normalised key always has eight characters |
| DesKey.ShortKeyPadded | task1/crypto_algorithms.py:22-23 | a short key stays a prefix and the rest is '0' |
| DesKey.LongKeyTruncated | task1/crypto_algorithms.py:22-25 | a key of eight or more characters becomes its first eight |
| DesKey.NormalizeIdempotent | task1/crypto_algorithms.py:22-25 | normalising twice is normalising once |
| DesKey.NormalizeFixedPoints | task1/crypto_algorithms.py:22-25 | a key is left unchanged exactly when it has eight characters |
| DesKey.NormalizeSameKey | task1/crypto_algorithms.py:22-25 | two keys normalise alike exactly when they agree on the first eight characters, a missing one counting as '0' |
| DesKey.Utf8Width | task1/crypto_algorithms.py:26 | UTF-8 uses 1 to 4 bytes per character, 1 exactly for ASCII |
| DesKey.EncodeChar | task1/crypto_algorithms.py:26 | a character's encoding has its UTF-8 width |
| DesKey.Encode | task1/crypto_algorithms.py:26 | `encode('utf-8')` gives at least one byte per character |
| DesKey.EncodeLengthAscii | task1/crypto_algorithms.py:26 | a string encodes to as many bytes as characters exactly when it is all ASCII |
| DesKey.EncodeCharDecodes | task1/crypto_algorithms.py:26 | a character's lead byte announces its width, and its bytes decode to its code point |
| DesKey.CodePoints | task1/crypto_algorithms.py:26 | a UTF-8 decoder used only as the inverse partner of the encoding in `EncodeDecodes` |
| DesKey.EncodeDecodes | task1/crypto_algorithms.py:26 | decoding the encoding gives back the code points |
| DesKey.AsciiEncodesAsIs | task1/crypto_algorithms.py:26 | an ASCII string encodes to its own code points |
| DesKey.KeyBytes | task1/crypto_algorithms.py:22-26 | the stored key has at least eight bytes |
| DesKey.KeyBytesLength | task1/crypto_algorithms.py:19-26 | the stored key has exactly eight bytes exactly when the first eight characters of the key are ASCII |
| DesKey.WideKeyTooLong | task1/crypto_algorithms.py:22-26 | the key "密钥" is normalised to "密钥000000" and stored as twelve bytes |
| DesKey.KeyBytesEightOctets | task1/crypto_algorithms.py:19-21 | the key as the comment intends it always has eight bytes |
| DesKey.EightOctetsAgreeOnAscii | task1/crypto_algorithms.py:19-26 | for an ASCII key the intended and the stored bytes are the same |

## Left out

- The markdown-to-HTML parser (`markdown.Markdown`). Its output tree is the input of the model.
- Markup.Node: the tree holds only tags and ordinary text strings. Comments, and the special strings inside `script`, `style` and `template`, are removed before the model sees the tree. `get_text()` skips these strings anyway. `str(soup)` would keep a comment, for example an HTML comment written in the markdown, but the page content of the model does not show it.
- BeautifulSoup's parsing and its serialisation `str(soup)`. `HtmlPage.ToHtml` takes the serialiser as a parameter.
- Mermaid.ProcessMermaid: the in-place `replace_with` loop is modelled as a function on tree values. Node identity, aliasing and the order of the replacements are not captured; only the raise that the order can cause is.
- HtmlPage.Page: the fixed text between the title and the content is a parameter. This covers the end of the title, the stylesheet, the print toolbar and the opening of the content container. Only the page head and tail are spelled out.
- The title and the content are put in the page unescaped. The model states this (`HtmlPage.TitleVerbatim`) and does not sanitise them.
- python-docx internals are represented as plain values: styles, runs and a cell's fill. The document keeps only the properties the converter sets. The fill is only ever set in `DocxExport.IntendedTable`, since the as-written shading request raises.
  - The east-Asian font attribute is folded into the `Normal` font family.
  - `doc.save` into a byte stream is not modelled.
- DocxExport.BuildGrid: the grid is built in a local two-dimensional array and appended to the document as one table block afterwards. In the source, `add_table` creates the table before the cells are filled, so a raise in the middle leaves a partly filled table in the document. The model appends that same partly filled grid.
- Strings are sequences of Unicode scalar values. A Python string holding a lone surrogate cannot be represented; on it `encode('utf-8')` would raise.
- `DesKey.CodePoints` decodes without validating continuation bytes. It exists only to state the round trip of the encoder.
- AccessControl.PermissionSet: the rights set is stored by value. In the source the caller's set object is stored, and later changes to that object would show in the matrix.
- The tkinter window, dialogs and Treeview of the matrix tool are user interface. The headings and columns of `refresh_view` belong to this too. What is left is the data the rows show.
- DES, RSA, OAEP, SHA-1 and HMAC are library calls, and `hash_file` is file I/O.
- The command-line entry of the converter, the web servers and the other user interfaces are outside the converter's logic.

## Findings

| source | as written | input that shows it | evidently intended | confidence | as-written member | corrected member |
|---|---|---|---|---|---|---|
| converter.py:391-392 | the shading of each header cell is requested with `get_or_add_tcPr().get_or_add_shd()`, a method the cell properties of python-docx do not have | any table whose first row has a `th` or `td`, e.g. a single header cell "A": `AttributeError` after the first cell is written, and no document | every header cell bold and white on the `667EEA` fill, the table built in full | not executed | DocxProperties.HeaderTableRaises | DocxProperties.IntendedTableOutcome |
| task1/crypto_algorithms.py:19-26 | the key is padded or cut to eight characters, then UTF-8 encoded | key "密钥": normalised to "密钥000000", stored as 12 bytes | a key of eight bytes, as the comment says and as DES requires | not executed | DesKey.WideKeyTooLong | DesKey.KeyBytesEightOctets |

As written, a table builds without a raise only when no row has a cell
(`DocxProperties.FilledTableOutcome`). The walk and the methods model the
code as written. The intended table (`DocxExport.IntendedTable`) shades the
whole header row and raises only on a row wider than the first
(`DocxProperties.IntendedTableOutcome`). The two agree whenever the first
row has no cell (`DocxProperties.FilledTableWithoutHeader`).

The stored key has eight bytes exactly when the first eight characters are
ASCII (`DesKey.KeyBytesLength`). The corrected key pads or cuts the encoded
bytes, so it has eight bytes for every key. It agrees with the stored key on
every ASCII key (`DesKey.EightOctetsAgreeOnAscii`).
