/**
 * The packaged-document side of the converter (MarkdownConverter.to_docx,
 * _process_docx_element and _add_docx_table): a walk over the DIRECT children
 * of the parsed document that appends formatted blocks to a `Document`.
 *
 * The walk is specified by `Emit` (the blocks one child appends) and `Walk`
 * (the blocks a sequence of children appends, stopping at the first raise);
 * the methods are proved to build exactly that.
 */
module DocxExport {

  import opened Wrappers
  import opened Markup
  import opened Docx

  // ---------------------------------------------------------------------
  // Fixed formatting (the converter's literal style constants)
  // ---------------------------------------------------------------------

  const HEADING_TAGS: set<string> := {"h1", "h2", "h3", "h4"}
  const ROW_TAGS: set<string> := {"tr"}
  const CELL_TAGS: set<string> := {"th", "td"}

  const ACCENT: Rgb := Rgb(102, 126, 234)
  const DARK_GREY: Rgb := Rgb(73, 80, 87)
  const GREY: Rgb := Rgb(108, 117, 125)
  const WHITE: Rgb := Rgb(255, 255, 255)

  /** The paragraph that stands in for a diagram block. */
  const DIAGRAM_NOTICE: string :=
    "\U{1F4CA} [Mermaid \U{56FE}\U{8868} - \U{8BF7}\U{5728} HTML/\U{524D}\U{7AEF}\U{7248}\U{672C}\U{67E5}\U{770B}]"

  /** The horizontal-rule paragraph: 50 box-drawing characters. */
  const RULE_TEXT: string := Repeat('\U{2500}', 50)

  const TABLE_STYLE: string := "Light Grid Accent 1"
  const HEADER_FILL: string := "667EEA"
  const CODE_INDENT: real := 0.5
  const QUOTE_INDENT: real := 0.5

  /** `c * n`: the character repeated `n` times. */
  function Repeat(c: char, n: nat): (s: string)
    ensures |s| == n && forall i :: 0 <= i < n ==> s[i] == c
  {
    if n == 0 then [] else [c] + Repeat(c, n - 1)
  }

  /** The digit of an `h1`..`h4` tag. */
  function HeadingLevel(name: string): (level: nat)
    requires name in HEADING_TAGS
    ensures 1 <= level <= 4 && name == "h" + [('0' as int + level) as char]
  {
    (name[1] as int - '0' as int) as nat
  }

  /** The size and colour given to a heading's run, by level; level 4 keeps
      the style's own. */
  function HeadingStyle(level: nat): Option<(nat, Rgb)>
  {
    if level == 1 then Some((24, ACCENT))
    else if level == 2 then Some((20, DARK_GREY))
    else if level == 3 then Some((16, GREY))
    else None
  }

  /** The font of a header-row cell: bold and white. */
  const HEADER_FONT: RunFont := RunFont(None, None, Some(WHITE), true, false)

  // ---------------------------------------------------------------------
  // Specification of the walk
  // ---------------------------------------------------------------------

  /** The raises the converter can meet: `runs[0]` of a paragraph without text,
      a table cell index at or past the grid width, and the request for a
      header cell's shading element, which the cell properties of the
      document library do not offer. */
  datatype DocxError = NoRunToFormat | CellOutOfRange | ShadingUnsupported

  /** What a step appends to the document, and whether it then raised. */
  datatype Emitted = Emitted(blocks: seq<Block>, error: Option<DocxError>)

  /** A block just added, then two assignments to `runs[0].font`: both
      applied when the block has a run, and a raise at the first one when it
      has none. */
  function WithRunEdits(b: Block, e1: RunEdit, e2: RunEdit): Emitted
    requires b.Heading? || b.Paragraph?
  {
    if b.HasRun() then Emitted([b.(font := ApplyEdit(ApplyEdit(b.font, e1), e2))], None)
    else Emitted([b], Some(NoRunToFormat))
  }

  /** The tags the walk acts on; every other tag is passed over. */
  predicate Handled(name: string)
  {
    name in HEADING_TAGS || name in {"p", "ul", "ol", "table", "pre", "blockquote", "hr"}
  }

  /** The blocks appended for one direct child of the walked element. */
  function Emit(n: Node): Emitted
  {
    if n.Text? || n.name == "" then Emitted([], None)
    else if n.name in HEADING_TAGS then HeadingBlocks(n)
    else if n.name == "p" then ParagraphBlocks(n)
    else if n.name == "ul" || n.name == "ol" then ListBlocks(n)
    else if n.name == "table" then TableBlocks(n)
    else if n.name == "pre" then PreBlocks(n)
    else if n.name == "blockquote" then QuoteBlocks(n)
    else if n.name == "hr" then Emitted([RULE], None)
    else Emitted([], None)
  }

  /** `h1`..`h4`: one heading of the tag's level holding the stripped text,
      with the level's size and colour then set on its run. */
  function HeadingBlocks(n: Node): Emitted
    requires n.Element? && n.name in HEADING_TAGS
  {
    var level := HeadingLevel(n.name);
    StyledHeading(Heading(level, Strip(GetText(n)), PLAIN_RUN))
  }

  /** A heading just added, with its level's size and colour set on its run. */
  function StyledHeading(h: Block): Emitted
    requires h.Heading?
  {
    match HeadingStyle(h.level)
    case None => Emitted([h], None)
    case Some((size, color)) => WithRunEdits(h, SetSize(size), SetColor(color))
  }

  /** `p`: one paragraph holding the stripped text, or nothing when that is empty. */
  function ParagraphBlocks(n: Node): Emitted
  {
    var text := Strip(GetText(n));
    if text == [] then Emitted([], None) else Emitted([Paragraph(text, Normal, None, PLAIN_RUN)], None)
  }

  /** `ul`/`ol`: one list paragraph per direct `li` child, in order. */
  function ListBlocks(n: Node): Emitted
    requires n.Element?
  {
    Emitted(ListItems(ChildrenNamed(n.children, "li"), if n.name == "ul" then ListBullet else ListNumber), None)
  }

  /** One paragraph per list item, in order. */
  function ListItems(items: seq<Node>, style: ParagraphStyle): (bs: seq<Block>)
    ensures |bs| == |items|
  {
    seq(|items|, i requires 0 <= i < |items| => ListItem(items[i], style))
  }

  /** The list paragraph of one item: its stripped text in the list style. */
  function ListItem(item: Node, style: ParagraphStyle): Block
  {
    Paragraph(Strip(GetText(item)), style, None, PLAIN_RUN)
  }

  /** `pre`: for its first `code` descendant, the diagram notice when a class
      of that `code` contains "mermaid", otherwise the code's text indented in
      9pt Consolas; nothing when there is no `code`. */
  function PreBlocks(n: Node): Emitted
  {
    var found := FindFirst(n, "code");
    if found.None? then Emitted([], None)
    else if AnyContains(found.value.classes, "mermaid") then
      WithRunEdits(Paragraph(DIAGRAM_NOTICE, Normal, None, PLAIN_RUN), SetColor(ACCENT), SetBold)
    else
      WithRunEdits(Paragraph(GetText(found.value), Normal, Some(CODE_INDENT), PLAIN_RUN), SetFontName("Consolas"), SetSize(9))
  }

  /** `blockquote`: one indented paragraph of the stripped text, italic and grey. */
  function QuoteBlocks(n: Node): Emitted
  {
    WithRunEdits(Paragraph(Strip(GetText(n)), Normal, Some(QUOTE_INDENT), PLAIN_RUN), SetItalic, SetColor(GREY))
  }

  /** `hr`: the rule paragraph. */
  const RULE: Block := Paragraph(RULE_TEXT, Normal, None, PLAIN_RUN)

  /** What each child appends on its own, in order. */
  function Steps(kids: seq<Node>): (es: seq<Emitted>)
    ensures |es| == |kids|
  {
    seq(|kids|, i requires 0 <= i < |kids| => Emit(kids[i]))
  }

  /** The blocks of the steps in order, up to and including the first step
      that raises, and that step's error. */
  function Chain(es: seq<Emitted>): Emitted
  {
    if es == [] then Emitted([], None)
    else
      var prev := Chain(es[..|es| - 1]);
      if prev.error.Some? then prev
      else Emitted(prev.blocks + es[|es| - 1].blocks, es[|es| - 1].error)
  }

  /** The blocks appended by the children in order, up to and including the
      first child that raises. */
  function Walk(kids: seq<Node>): Emitted
  {
    Chain(Steps(kids))
  }

  // ---------------------------------------------------------------------
  // Specification of the table builder
  // ---------------------------------------------------------------------

  /** The stripped text of each `th`/`td` of a row, in document order. */
  function CellTexts(row: Node): (ts: seq<string>)
    ensures |ts| == |FindAll(row, CELL_TAGS)|
  {
    var cells := FindAll(row, CELL_TAGS);
    seq(|cells|, j requires 0 <= j < |cells| => Strip(GetText(cells[j])))
  }

  function RowTexts(rows: seq<Node>): (ts: seq<seq<string>>)
    ensures |ts| == |rows|
  {
    seq(|rows|, i requires 0 <= i < |rows| => CellTexts(rows[i]))
  }

  /** The index of the first row with more than `cols` cells, or the number of
      rows when there is none. */
  function FirstLongRow(texts: seq<seq<string>>, cols: nat): (k: nat)
    ensures k <= |texts|
    ensures forall i :: 0 <= i < k ==> |texts[i]| <= cols
    ensures k < |texts| ==> |texts[k]| > cols
  {
    if texts == [] then 0
    else if |texts[0]| > cols then 0
    else 1 + FirstLongRow(texts[1..], cols)
  }

  /** A grid cell once the first `filled` rows have been written: the text of
      cell j of row i, formatted as a shaded header in row 0, or never
      assigned. */
  function GridCell(texts: seq<seq<string>>, filled: nat, i: nat, j: nat): Cell
    requires i < |texts|
  {
    if i < filled && j < |texts[i]| then
      if i == 0 then Filled(texts[i][j], HEADER_FONT, Some(HEADER_FILL))
      else Filled(texts[i][j], PLAIN_RUN, None)
    else Unset
  }

  /** The `|texts|` by `cols` grid with its first `filled` rows written. */
  function Grid(texts: seq<seq<string>>, cols: nat, filled: nat): seq<seq<Cell>>
  {
    seq(|texts|, i requires 0 <= i < |texts| =>
      seq(cols, j requires 0 <= j < cols => GridCell(texts, filled, i, j)))
  }

  /** What `_add_docx_table` appends: nothing without rows; otherwise one
      table sized by the row count and the first row's cell count, filled row
      by row until a row has more cells than the grid is wide. */
  function TableBlocks(table: Node): Emitted
  {
    var rows := FindAll(table, ROW_TAGS);
    if rows == [] then Emitted([], None) else FilledTable(RowTexts(rows))
  }

  /** The table built from the cell texts of at least one row, as the
      converter does it: when the first row has a cell, that cell gets its
      text and its bold white run and then the shading request raises;
      otherwise the grid has no columns and the first later row with a cell
      raises on its index. */
  function FilledTable(texts: seq<seq<string>>): Emitted
    requires texts != []
  {
    if texts[0] != [] then Emitted([Table(TABLE_STYLE, HeaderStopGrid(texts))], Some(ShadingUnsupported))
    else FilledTableUpTo(texts, 0, FirstLongRow(texts, 0))
  }

  /** The grid left by the shading raise: only the first header cell written,
      with its header font and no fill. */
  function HeaderStopGrid(texts: seq<seq<string>>): seq<seq<Cell>>
    requires texts != [] && texts[0] != []
  {
    seq(|texts|, i requires 0 <= i < |texts| =>
      seq(|texts[0]|, j requires 0 <= j < |texts[0]| =>
        if i == 0 && j == 0 then Filled(texts[0][0], HEADER_FONT, None) else Unset))
  }

  /** The table the converter evidently means to build: every row written
      until a row is wider than the first, the first row bold and white on the
      accent fill. */
  function IntendedTable(texts: seq<seq<string>>): Emitted
    requires texts != []
  {
    FilledTableUpTo(texts, |texts[0]|, FirstLongRow(texts, |texts[0]|))
  }

  function FilledTableUpTo(texts: seq<seq<string>>, cols: nat, bad: nat): Emitted
    requires bad <= |texts|
  {
    if bad == |texts| then Emitted([Table(TABLE_STYLE, Grid(texts, cols, |texts|))], None)
    else Emitted([Table(TABLE_STYLE, Grid(texts, cols, bad + 1))], Some(CellOutOfRange))
  }

  // ---------------------------------------------------------------------
  // The converter's methods
  // ---------------------------------------------------------------------

  /** `to_docx`: a new document with a 11pt "Microsoft YaHei" `Normal` style,
      filled by the walk over the parsed document's children; a raise in the
      walk is propagated and no document is returned. */
  method ToDocx(root: Node) returns (r: Result<Document, DocxError>)
    ensures Walk(Children(root)).error.None? <==> r.Ok?
    ensures r.Err? ==> r.error == Walk(Children(root)).error.value
    ensures r.Ok? ==> fresh(r.value) && r.value.blocks == Walk(Children(root)).blocks
    ensures r.Ok? ==> r.value.normalFont == Some("Microsoft YaHei") && r.value.normalSizePt == Some(11)
  {
    var doc := new Document();
    doc.SetNormalFont("Microsoft YaHei", 11);
    var err := ProcessElement(doc, root);
    match err
    case None => r := Ok(doc);
    case Some(e) => r := Err(e);
  }

  /** `_process_docx_element`: the direct children of `element`, in order. */
  method ProcessElement(doc: Document, element: Node) returns (err: Option<DocxError>)
    modifies doc
    ensures doc.blocks == old(doc.blocks) + Walk(Children(element)).blocks
    ensures err == Walk(Children(element)).error
    ensures doc.normalFont == old(doc.normalFont) && doc.normalSizePt == old(doc.normalSizePt)
  {
    var kids := Children(element);
    ghost var steps := Steps(kids);
    var i := 0;
    err := None;
    while i < |kids|
      invariant 0 <= i <= |kids|
      invariant doc.blocks == old(doc.blocks) + Chain(steps[..i]).blocks
      invariant Chain(steps[..i]).error.None? && err.None?
      invariant doc.normalFont == old(doc.normalFont) && doc.normalSizePt == old(doc.normalSizePt)
    {
      assert steps[..i + 1][..i] == steps[..i];
      assert steps[i] == Emit(kids[i]);
      ghost var before := doc.blocks;
      err := ProcessChild(doc, kids[i]);
      ghost var prefix := Chain(steps[..i]).blocks;
      assert doc.blocks == before + steps[i].blocks;
      assert doc.blocks == (old(doc.blocks) + prefix) + steps[i].blocks;
      AppendAssoc(old(doc.blocks), prefix, steps[i].blocks);
      assert Chain(steps[..i + 1]) == Emitted(prefix + steps[i].blocks, steps[i].error);
      if err.Some? {
        ChainAppend(steps[..i + 1], steps[i + 1..]);
        assert steps[..i + 1] + steps[i + 1..] == steps;
        return;
      }
      i := i + 1;
    }
    assert steps[..i] == steps;
  }

  /** The loop body of `_process_docx_element` for one child: the dispatch on
      its tag name. */
  method ProcessChild(doc: Document, child: Node) returns (err: Option<DocxError>)
    modifies doc
    ensures doc.blocks == old(doc.blocks) + Emit(child).blocks
    ensures err == Emit(child).error
    ensures doc.normalFont == old(doc.normalFont) && doc.normalSizePt == old(doc.normalSizePt)
  {
    err := None;
    if child.Text? || child.name == "" {
      return;
    }
    var name := child.name;
    if name in HEADING_TAGS {
      err := AddHeading(doc, child);
    } else if name == "p" {
      AddParagraph(doc, child);
    } else if name == "ul" || name == "ol" {
      AddList(doc, child);
    } else if name == "table" {
      err := AddTable(doc, child);
    } else if name == "pre" {
      err := AddPre(doc, child);
    } else if name == "blockquote" {
      err := AddQuote(doc, child);
    } else if name == "hr" {
      doc.AddParagraph(RULE_TEXT);
    }
  }

  /** Two successive `runs[0].font` assignments on the block just added. */
  method FormatRunTwice(doc: Document, e1: RunEdit, e2: RunEdit) returns (err: Option<DocxError>)
    requires doc.blocks != [] && (doc.blocks[|doc.blocks| - 1].Heading? || doc.blocks[|doc.blocks| - 1].Paragraph?)
    modifies doc
    ensures doc.blocks == old(doc.blocks)[..|old(doc.blocks)| - 1] + WithRunEdits(old(doc.blocks)[|old(doc.blocks)| - 1], e1, e2).blocks
    ensures err == WithRunEdits(old(doc.blocks)[|old(doc.blocks)| - 1], e1, e2).error
    ensures doc.normalFont == old(doc.normalFont) && doc.normalSizePt == old(doc.normalSizePt)
  {
    var ok := doc.FormatLastRun(e1);
    if ok {
      ok := doc.FormatLastRun(e2);
    }
    err := if ok then None else Some(NoRunToFormat);
  }

  /** The heading branch. */
  method AddHeading(doc: Document, child: Node) returns (err: Option<DocxError>)
    requires child.Element? && child.name in HEADING_TAGS
    modifies doc
    ensures doc.blocks == old(doc.blocks) + HeadingBlocks(child).blocks
    ensures err == HeadingBlocks(child).error
    ensures doc.normalFont == old(doc.normalFont) && doc.normalSizePt == old(doc.normalSizePt)
  {
    var level := HeadingLevel(child.name);
    doc.AddHeading(Strip(GetText(child)), level);
    err := StyleHeading(doc, level);
  }

  /** The size and colour assignments on the heading just added, by level. */
  method StyleHeading(doc: Document, level: nat) returns (err: Option<DocxError>)
    requires doc.blocks != [] && doc.blocks[|doc.blocks| - 1].Heading? && doc.blocks[|doc.blocks| - 1].level == level
    modifies doc
    ensures doc.blocks == old(doc.blocks)[..|old(doc.blocks)| - 1] + StyledHeading(old(doc.blocks)[|old(doc.blocks)| - 1]).blocks
    ensures err == StyledHeading(old(doc.blocks)[|old(doc.blocks)| - 1]).error
    ensures doc.normalFont == old(doc.normalFont) && doc.normalSizePt == old(doc.normalSizePt)
  {
    err := None;
    if level == 1 {
      err := FormatRunTwice(doc, SetSize(24), SetColor(ACCENT));
    } else if level == 2 {
      err := FormatRunTwice(doc, SetSize(20), SetColor(DARK_GREY));
    } else if level == 3 {
      err := FormatRunTwice(doc, SetSize(16), SetColor(GREY));
    } else {
      assert doc.blocks == doc.blocks[..|doc.blocks| - 1] + [doc.blocks[|doc.blocks| - 1]];
    }
  }

  /** The paragraph branch. */
  method AddParagraph(doc: Document, child: Node)
    modifies doc
    ensures doc.blocks == old(doc.blocks) + ParagraphBlocks(child).blocks
    ensures ParagraphBlocks(child).error.None?
    ensures doc.normalFont == old(doc.normalFont) && doc.normalSizePt == old(doc.normalSizePt)
  {
    var text := Strip(GetText(child));
    if text != [] {
      doc.AddParagraph(text);
    }
  }

  /** The list branch: a loop over the direct `li` children. */
  method AddList(doc: Document, child: Node)
    requires child.Element?
    modifies doc
    ensures doc.blocks == old(doc.blocks) + ListBlocks(child).blocks
    ensures ListBlocks(child).error.None?
    ensures doc.normalFont == old(doc.normalFont) && doc.normalSizePt == old(doc.normalSizePt)
  {
    var items := ChildrenNamed(child.children, "li");
    var style := if child.name == "ul" then ListBullet else ListNumber;
    ghost var expected := ListItems(items, style);
    for j := 0 to |items|
      invariant doc.blocks == old(doc.blocks) + expected[..j]
      invariant doc.normalFont == old(doc.normalFont) && doc.normalSizePt == old(doc.normalSizePt)
    {
      AddListItem(doc, items, j, style);
      PrefixGrows(old(doc.blocks), expected, j);
    }
    assert expected[..|items|] == expected;
  }

  /** Item `j`: a paragraph of the item's stripped text, then its style. */
  method AddListItem(doc: Document, items: seq<Node>, j: nat, style: ParagraphStyle)
    requires j < |items|
    modifies doc
    ensures doc.blocks == old(doc.blocks) + [ListItems(items, style)[j]]
    ensures doc.normalFont == old(doc.normalFont) && doc.normalSizePt == old(doc.normalSizePt)
  {
    doc.AddParagraph(Strip(GetText(items[j])));
    doc.SetLastStyle(style);
  }

  /** The preformatted branch. */
  method AddPre(doc: Document, child: Node) returns (err: Option<DocxError>)
    modifies doc
    ensures doc.blocks == old(doc.blocks) + PreBlocks(child).blocks
    ensures err == PreBlocks(child).error
    ensures doc.normalFont == old(doc.normalFont) && doc.normalSizePt == old(doc.normalSizePt)
  {
    err := None;
    var code := FindFirst(child, "code");
    if code.Some? {
      var codeText := GetText(code.value);
      var classes := code.value.classes;
      if AnyContains(classes, "mermaid") {
        doc.AddParagraph(DIAGRAM_NOTICE);
        err := FormatRunTwice(doc, SetColor(ACCENT), SetBold);
      } else {
        doc.AddParagraph(codeText);
        doc.SetLastIndent(CODE_INDENT);
        err := FormatRunTwice(doc, SetFontName("Consolas"), SetSize(9));
      }
    }
  }

  /** The block-quote branch. */
  method AddQuote(doc: Document, child: Node) returns (err: Option<DocxError>)
    modifies doc
    ensures doc.blocks == old(doc.blocks) + QuoteBlocks(child).blocks
    ensures err == QuoteBlocks(child).error
    ensures doc.normalFont == old(doc.normalFont) && doc.normalSizePt == old(doc.normalSizePt)
  {
    doc.AddParagraph(Strip(GetText(child)));
    doc.SetLastIndent(QUOTE_INDENT);
    err := FormatRunTwice(doc, SetItalic, SetColor(GREY));
  }

  /** `_add_docx_table`: the rows (all `tr` descendants) and, per row, the
      cells (all `th`/`td` descendants) written into a grid sized from the row
      count and the first row's cell count. */
  method AddTable(doc: Document, table: Node) returns (err: Option<DocxError>)
    modifies doc
    ensures doc.blocks == old(doc.blocks) + TableBlocks(table).blocks
    ensures err == TableBlocks(table).error
    ensures doc.normalFont == old(doc.normalFont) && doc.normalSizePt == old(doc.normalSizePt)
  {
    var rows := FindAll(table, ROW_TAGS);
    if rows == [] {
      return None;
    }
    var grid;
    grid, err := BuildGrid(rows);
    doc.AddTable(TABLE_STYLE, GridRows(grid));
  }

  /** The grid of `_add_docx_table` for at least one row: sized by the row
      count and the first row's cell count, filled row by row until a row
      raises, and the raise, if any. */
  method BuildGrid(rows: seq<Node>) returns (grid: array2<Cell>, error: Option<DocxError>)
    requires rows != []
    ensures fresh(grid)
    ensures FilledTable(RowTexts(rows)) == Emitted([Table(TABLE_STYLE, GridRows(grid))], error)
  {
    ghost var texts := RowTexts(rows);
    var cols := |FindAll(rows[0], CELL_TAGS)|;
    grid := new Cell[|rows|, cols]((i, j) => Unset);
    error := None;
    var r := 0;
    while r < |rows|
      invariant 0 <= r <= |rows|
      invariant grid.Length0 == |rows| && grid.Length1 == cols == |texts[0]|
      invariant forall i :: 0 <= i < r ==> texts[i] == []
      invariant GridHolds(grid, texts, r) && error.None?
      modifies grid
    {
      error := FillRow(grid, CellTexts(rows[r]), texts, r);
      if error.Some? {
        break;
      }
      r := r + 1;
    }
    if error == Some(ShadingUnsupported) {
      HeaderStopTable(grid, texts);
    } else {
      ColumnlessTable(grid, texts, r);
    }
  }

  /** One row of `_add_docx_table`: the cells' stripped texts written left to
      right into row `r` of the grid. A cell index at the grid width raises;
      in the first row, the first cell gets its text and header font and then
      the shading request raises. */
  method FillRow(grid: array2<Cell>, cells: seq<string>, ghost texts: seq<seq<string>>, r: nat) returns (error: Option<DocxError>)
    requires GridHolds(grid, texts, r) && r < |texts| && cells == texts[r]
    requires r == 0 ==> |cells| == grid.Length1
    modifies grid
    ensures r == 0 && cells != [] ==> error == Some(ShadingUnsupported) && HeaderStopHolds(grid, texts)
    ensures r > 0 || cells == [] ==>
      (error.None? <==> |cells| <= grid.Length1)
      && (error.Some? ==> error.value == CellOutOfRange)
      && GridHolds(grid, texts, r + 1)
  {
    error := None;
    var c := 0;
    while c < |cells|
      invariant 0 <= c <= |cells| && c <= grid.Length1
      invariant r == 0 ==> c == 0
      invariant GridHoldsRowPrefix(grid, texts, r, c)
      modifies grid
    {
      if c >= grid.Length1 {
        error := Some(CellOutOfRange);
        break;
      }
      if r == 0 {
        grid[r, c] := Filled(cells[c], HEADER_FONT, None);
        error := Some(ShadingUnsupported);
        return;
      }
      grid[r, c] := Filled(cells[c], PLAIN_RUN, None);
      c := c + 1;
    }
    RowPrefixComplete(grid, texts, r, c);
  }

  /** The rows of a grid as sequences. */
  function GridRows(grid: array2<Cell>): seq<seq<Cell>>
    reads grid
  {
    seq(grid.Length0, i requires 0 <= i < grid.Length0 reads grid =>
      seq(grid.Length1, j requires 0 <= j < grid.Length1 reads grid => grid[i, j]))
  }

  /** The grid holds `Grid(texts, cols, filled)`. */
  ghost predicate GridHolds(grid: array2<Cell>, texts: seq<seq<string>>, filled: nat)
    reads grid
  {
    grid.Length0 == |texts|
    && forall i, j :: 0 <= i < grid.Length0 && 0 <= j < grid.Length1 ==> grid[i, j] == GridCell(texts, filled, i, j)
  }

  /** The grid holds the first `r` rows written and the first `c` cells of row `r`. */
  ghost predicate GridHoldsRowPrefix(grid: array2<Cell>, texts: seq<seq<string>>, r: nat, c: nat)
    reads grid
  {
    grid.Length0 == |texts| && r < |texts|
    && (forall i, j :: 0 <= i < grid.Length0 && 0 <= j < grid.Length1 && i != r ==> grid[i, j] == GridCell(texts, r, i, j))
    && (forall j :: 0 <= j < grid.Length1 ==> grid[r, j] == if j < c then GridCell(texts, r + 1, r, j) else Unset)
  }

  lemma RowPrefixComplete(grid: array2<Cell>, texts: seq<seq<string>>, r: nat, c: nat)
    requires GridHoldsRowPrefix(grid, texts, r, c)
    requires c == |texts[r]| || c == grid.Length1
    ensures GridHolds(grid, texts, r + 1)
  {
  }

  /** The grid holds `HeaderStopGrid(texts)`. */
  ghost predicate HeaderStopHolds(grid: array2<Cell>, texts: seq<seq<string>>)
    requires texts != [] && texts[0] != []
    reads grid
  {
    grid.Length0 == |texts| && grid.Length1 == |texts[0]|
    && forall i, j :: 0 <= i < grid.Length0 && 0 <= j < grid.Length1 ==>
      grid[i, j] == if i == 0 && j == 0 then Filled(texts[0][0], HEADER_FONT, None) else Unset
  }

  lemma HeaderStopTable(grid: array2<Cell>, texts: seq<seq<string>>)
    requires texts != [] && texts[0] != [] && HeaderStopHolds(grid, texts)
    ensures FilledTable(texts) == Emitted([Table(TABLE_STYLE, GridRows(grid))], Some(ShadingUnsupported))
  {
    forall i | 0 <= i < |texts|
      ensures GridRows(grid)[i] == HeaderStopGrid(texts)[i]
    {
      assert forall j :: 0 <= j < |texts[0]| ==> GridRows(grid)[i][j] == HeaderStopGrid(texts)[i][j];
    }
    assert GridRows(grid) == HeaderStopGrid(texts);
  }

  /** Without cells in the first row the grid has no columns, so only the
      raise depends on the rows: the first later row with a cell. */
  lemma ColumnlessTable(grid: array2<Cell>, texts: seq<seq<string>>, k: nat)
    requires texts != [] && k <= |texts| && forall i :: 0 <= i < k ==> texts[i] == []
    requires grid.Length0 == |texts| && grid.Length1 == |texts[0]| == 0
    requires k < |texts| ==> texts[k] != []
    ensures FilledTable(texts) == Emitted([Table(TABLE_STYLE, GridRows(grid))], if k < |texts| then Some(CellOutOfRange) else None)
  {
    FirstLongRowAt(texts, 0, k);
    var filled := if k < |texts| then k + 1 else k;
    assert forall i :: 0 <= i < |texts| ==> GridRows(grid)[i] == [] == Grid(texts, 0, filled)[i];
    assert GridRows(grid) == Grid(texts, 0, filled);
  }

  lemma GridHoldsRows(grid: array2<Cell>, texts: seq<seq<string>>, filled: nat)
    requires GridHolds(grid, texts, filled)
    ensures GridRows(grid) == Grid(texts, grid.Length1, filled)
  {
    assert forall i :: 0 <= i < |texts| ==> GridRows(grid)[i] == Grid(texts, grid.Length1, filled)[i];
  }

  lemma {:induction false} FirstLongRowAt(texts: seq<seq<string>>, cols: nat, k: nat)
    requires k <= |texts|
    requires forall i :: 0 <= i < k ==> |texts[i]| <= cols
    requires k < |texts| ==> |texts[k]| > cols
    ensures FirstLongRow(texts, cols) == k
  {
    if k > 0 {
      FirstLongRowAt(texts[1..], cols, k - 1);
    }
  }

  // ---------------------------------------------------------------------
  // Document order
  // ---------------------------------------------------------------------

  /** Appending the next element to a prefix gives the longer prefix. */
  lemma PrefixGrows<T>(a: seq<T>, p: seq<T>, j: nat)
    requires j < |p|
    ensures a + p[..j] + [p[j]] == a + p[..j + 1]
  {
    assert p[..j + 1] == p[..j] + [p[j]];
  }

  lemma AppendAssoc<T>(a: seq<T>, b: seq<T>, c: seq<T>)
    ensures (a + b) + c == a + (b + c)
  {
  }

  /** Chaining two runs of steps is chaining the first followed, if it did
      not raise, by chaining the second. */
  lemma {:induction false} ChainAppend(a: seq<Emitted>, b: seq<Emitted>)
    ensures Chain(a + b) ==
      if Chain(a).error.Some? then Chain(a)
      else Emitted(Chain(a).blocks + Chain(b).blocks, Chain(b).error)
    decreases |b|
  {
    if b == [] {
      assert a + b == a;
    } else {
      var b' := b[..|b| - 1];
      assert (a + b)[..|a + b| - 1] == a + b';
      ChainAppend(a, b');
    }
  }

  /** The walk of two runs of children is the walk of the first followed, if
      it did not raise, by the walk of the second: blocks come out in document
      order, and nothing after a raise is processed. */
  lemma WalkAppend(a: seq<Node>, b: seq<Node>)
    ensures Walk(a + b) ==
      if Walk(a).error.Some? then Walk(a)
      else Emitted(Walk(a).blocks + Walk(b).blocks, Walk(b).error)
  {
    StepsAppend(a, b);
    ChainAppend(Steps(a), Steps(b));
  }

  lemma StepsAppend(a: seq<Node>, b: seq<Node>)
    ensures Steps(a + b) == Steps(a) + Steps(b)
  {
    var l, r := Steps(a + b), Steps(a) + Steps(b);
    forall i | 0 <= i < |a + b|
      ensures l[i] == r[i]
    {
      if i < |a| {
        assert (a + b)[i] == a[i];
      } else {
        assert (a + b)[i] == b[i - |a|];
      }
    }
  }
}
