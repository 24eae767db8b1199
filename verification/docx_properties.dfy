/**
 * What the packaged-document walk promises, stated over its specification
 * (`Emit`, `Walk`, `FilledTable`): one lemma per tag the walk handles, the
 * raise-and-stop behaviour of the walk, the tags it passes over, and how its
 * diagram test relates to the one the web-page rewrite uses.
 */
module DocxProperties {

  import opened Wrappers
  import opened Markup
  import opened Docx
  import opened DocxExport
  import Mermaid

  // ---------------------------------------------------------------------
  // Headings, paragraphs, block quotes
  // ---------------------------------------------------------------------

  /** An `h1`..`h4` child adds one heading of its level holding the stripped
      text; levels 1-3 then get their size and colour, which raises exactly
      when the text is blank (no run to format); level 4 never raises. */
  lemma HeadingOutcome(n: Node)
    requires n.Element? && n.name in HEADING_TAGS
    ensures |HeadingBlocks(n).blocks| == 1
    ensures HeadingBlocks(n).blocks[0].Heading?
    ensures HeadingBlocks(n).blocks[0].level == HeadingLevel(n.name)
    ensures HeadingBlocks(n).blocks[0].text == Strip(GetText(n))
    ensures HeadingBlocks(n).error.Some? <==> HeadingLevel(n.name) <= 3 && AllSpace(GetText(n))
    ensures HeadingBlocks(n).error.Some? ==> HeadingBlocks(n).error.value == NoRunToFormat
    ensures HeadingLevel(n.name) == 4 ==> HeadingBlocks(n).blocks[0].font == PLAIN_RUN
    ensures HeadingLevel(n.name) <= 3 && HeadingBlocks(n).error.None? ==>
      HeadingBlocks(n).blocks[0].font
        == PLAIN_RUN.(sizePt := Some(HeadingStyle(HeadingLevel(n.name)).value.0),
                      color := Some(HeadingStyle(HeadingLevel(n.name)).value.1))
  {
    StripEmptyIffAllSpace(GetText(n));
  }

  /** The sizes and colours by level: 24pt accent, 20pt dark grey, 16pt grey. */
  lemma HeadingStyles()
    ensures HeadingStyle(1) == Some((24, Rgb(102, 126, 234)))
    ensures HeadingStyle(2) == Some((20, Rgb(73, 80, 87)))
    ensures HeadingStyle(3) == Some((16, Rgb(108, 117, 125)))
    ensures HeadingStyle(4) == None
  {
  }

  /** A `p` child never raises, and adds nothing exactly when its text is blank;
      otherwise one unformatted paragraph of the stripped text. */
  lemma ParagraphOutcome(n: Node)
    ensures ParagraphBlocks(n).error.None?
    ensures ParagraphBlocks(n).blocks == [] <==> AllSpace(GetText(n))
    ensures ParagraphBlocks(n).blocks != [] ==>
      ParagraphBlocks(n).blocks == [Paragraph(Strip(GetText(n)), Normal, None, PLAIN_RUN)]
  {
    StripEmptyIffAllSpace(GetText(n));
  }

  /** A `blockquote` child adds one paragraph of its stripped text indented
      half an inch; it raises exactly when that text is blank, and otherwise
      its run is italic and grey. */
  lemma QuoteOutcome(n: Node)
    ensures |QuoteBlocks(n).blocks| == 1
    ensures QuoteBlocks(n).blocks[0] == Paragraph(Strip(GetText(n)), Normal, Some(0.5), QuoteBlocks(n).blocks[0].font)
    ensures QuoteBlocks(n).error.Some? <==> AllSpace(GetText(n))
    ensures QuoteBlocks(n).error.None? ==>
      QuoteBlocks(n).blocks[0].font == PLAIN_RUN.(italic := true, color := Some(Rgb(108, 117, 125)))
  {
    var text := Strip(GetText(n));
    StripEmptyIffAllSpace(GetText(n));
    assert Paragraph(text, Normal, Some(QUOTE_INDENT), PLAIN_RUN).HasRun() <==> text != [];
  }

  // ---------------------------------------------------------------------
  // Lists
  // ---------------------------------------------------------------------

  /** A `ul`/`ol` child adds one paragraph per direct `li` child and none for
      nested ones, in order, each holding the item's stripped text, bulleted
      for `ul` and numbered for `ol`; it never raises. */
  lemma ListOutcome(n: Node)
    requires n.Element?
    ensures ListBlocks(n).error.None?
    ensures |ListBlocks(n).blocks| == |ChildrenNamed(n.children, "li")|
    ensures forall j :: 0 <= j < |ListBlocks(n).blocks| ==>
      ListBlocks(n).blocks[j]
        == Paragraph(Strip(GetText(ChildrenNamed(n.children, "li")[j])),
                     if n.name == "ul" then ListBullet else ListNumber, None, PLAIN_RUN)
  {
  }

  // ---------------------------------------------------------------------
  // Preformatted blocks
  // ---------------------------------------------------------------------

  /** A `pre` child: nothing without a `code` descendant; the diagram notice,
      bold in the accent colour, when a class of the first `code` contains
      "mermaid"; otherwise the unstripped code text indented half an inch in
      9pt Consolas, raising exactly when that text is empty. */
  lemma PreOutcome(n: Node)
    ensures FindAll(n, {"code"}) == [] ==> PreBlocks(n) == Emitted([], None)
    ensures FindAll(n, {"code"}) != [] && AnyContains(FindAll(n, {"code"})[0].classes, "mermaid") ==>
      PreBlocks(n) == Emitted([Paragraph(DIAGRAM_NOTICE, Normal, None, PLAIN_RUN.(color := Some(ACCENT), bold := true))], None)
    ensures FindAll(n, {"code"}) != [] && !AnyContains(FindAll(n, {"code"})[0].classes, "mermaid") ==>
      |PreBlocks(n).blocks| == 1
      && PreBlocks(n).blocks[0].Paragraph?
      && PreBlocks(n).blocks[0].text == GetText(FindAll(n, {"code"})[0])
      && PreBlocks(n).blocks[0].leftIndentInches == Some(0.5)
      && (PreBlocks(n).error.Some? <==> GetText(FindAll(n, {"code"})[0]) == [])
      && (PreBlocks(n).error.None? ==> PreBlocks(n).blocks[0].font == PLAIN_RUN.(name := Some("Consolas"), sizePt := Some(9)))
  {
    var found := FindAll(n, {"code"});
    if found != [] {
      assert FindFirst(n, "code") == Some(found[0]);
    }
  }

  /** The notice paragraph is never empty, so the diagram branch never raises. */
  lemma DiagramNoticeHasRun()
    ensures Paragraph(DIAGRAM_NOTICE, Normal, None, PLAIN_RUN).HasRun()
  {
  }

  /** A class that contains "language-mermaid" contains "mermaid". */
  lemma {:induction false} LanguageClassContainsMermaid(s: string)
    requires Contains(s, Mermaid.LANGUAGE_MERMAID)
    ensures Contains(s, "mermaid")
    decreases |s|
  {
    if Mermaid.LANGUAGE_MERMAID <= s {
      assert s[9..16] == "mermaid";
      ContainsAt(s, "mermaid", 9);
    } else {
      LanguageClassContainsMermaid(s[1..]);
    }
  }

  /** The packaged-document test for a diagram is wider than the web-page one:
      every `code` the web-page rewrite treats as a diagram is treated as one
      here. */
  lemma DiagramTestWider(c: Node)
    requires Mermaid.IsMermaidCode(c)
    ensures AnyContains(c.classes, "mermaid")
  {
    var k :| 0 <= k < |c.classes| && Contains(c.classes[k], Mermaid.LANGUAGE_MERMAID);
    LanguageClassContainsMermaid(c.classes[k]);
  }

  /** No string contains a longer one. */
  lemma {:induction false} ContainsNotLonger(s: string, needle: string)
    requires Contains(s, needle)
    ensures |needle| <= |s|
    decreases |s|
  {
    if !(needle <= s) {
      ContainsNotLonger(s[1..], needle);
    }
  }

  /** ... and strictly wider: a `code` classed just "mermaid" is a diagram here
      but not for the web-page rewrite. */
  lemma DiagramTestStrictlyWider()
    ensures var c := Element("code", ["mermaid"], []);
      AnyContains(c.classes, "mermaid") && !Mermaid.IsMermaidCode(c)
  {
    var c := Element("code", ["mermaid"], []);
    ContainsAt("mermaid", "mermaid", 0);
    assert Contains(c.classes[0], "mermaid");
    if Mermaid.IsMermaidCode(c) {
      ContainsNotLonger("mermaid", Mermaid.LANGUAGE_MERMAID);
    }
  }

  // ---------------------------------------------------------------------
  // Tables
  // ---------------------------------------------------------------------

  /** The cell that row `i`, column `j` ends up holding when row `i` is written. */
  function WrittenCell(texts: seq<seq<string>>, i: nat, j: nat): Cell
    requires i < |texts|
  {
    if j >= |texts[i]| then Unset
    else if i == 0 then Filled(texts[i][j], HEADER_FONT, Some(HEADER_FILL))
    else Filled(texts[i][j], PLAIN_RUN, None)
  }

  /** As the converter is written, a table with at least one row is one
      `Light Grid Accent 1` table with as many rows as `tr` elements and as
      many columns as the first row has cells. When the first row has a cell,
      building raises at that cell's shading, leaving only its text in the
      bold white header font; otherwise the table has no columns and raises
      exactly when some later row has a cell. So it is built without a raise
      exactly when no row has a cell. */
  lemma FilledTableOutcome(texts: seq<seq<string>>)
    requires texts != []
    ensures |FilledTable(texts).blocks| == 1
    ensures FilledTable(texts).blocks[0].Table?
    ensures FilledTable(texts).blocks[0].tableStyle == "Light Grid Accent 1"
    ensures |FilledTable(texts).blocks[0].rows| == |texts|
    ensures forall i :: 0 <= i < |texts| ==> |FilledTable(texts).blocks[0].rows[i]| == |texts[0]|
    ensures texts[0] != [] ==> FilledTable(texts).error == Some(ShadingUnsupported)
    ensures texts[0] != [] ==>
      forall i, j :: 0 <= i < |texts| && 0 <= j < |texts[0]| ==>
        FilledTable(texts).blocks[0].rows[i][j]
        == if i == j == 0 then Filled(texts[0][0], RunFont(None, None, Some(Rgb(255, 255, 255)), true, false), None) else Unset
    ensures texts[0] == [] ==>
      (FilledTable(texts).error.Some? <==> exists i :: 0 <= i < |texts| && texts[i] != [])
      && (FilledTable(texts).error.Some? ==> FilledTable(texts).error.value == CellOutOfRange)
    ensures FilledTable(texts).error.None? <==> forall i :: 0 <= i < |texts| ==> texts[i] == []
  {
    var k := FirstLongRow(texts, 0);
    if k < |texts| {
      assert texts[k] != [];
    }
  }

  /** Shading-free reading: the as-written table and the intended one agree
      whenever the first row has no cell. */
  lemma FilledTableWithoutHeader(texts: seq<seq<string>>)
    requires texts != [] && texts[0] == []
    ensures FilledTable(texts) == IntendedTable(texts)
  {
  }

  /** A one-cell header row is enough for the raise: the table `| A |` ends
      the conversion with the shading error. */
  lemma HeaderTableRaises()
    ensures TableBlocks(Element("table", [], [Element("tr", [], [Element("th", [], [Text("A")])])])).error
      == Some(ShadingUnsupported)
  {
    var th := Element("th", [], [Text("A")]);
    var tr := Element("tr", [], [th]);
    var table := Element("table", [], [tr]);
    assert FindAllIn([Text("A")], CELL_TAGS) == [] by {
      assert [Text("A")][1..] == [];
    }
    assert FindAllIn([th], CELL_TAGS) == [th] by {
      assert [th][1..] == [];
    }
    assert FindAllIn([Text("A")], ROW_TAGS) == [] by {
      assert [Text("A")][1..] == [];
    }
    assert FindAllIn([th], ROW_TAGS) == [] by {
      assert [th][1..] == [];
    }
    assert FindAllIn([tr], ROW_TAGS) == [tr] by {
      assert [tr][1..] == [];
    }
    assert RowTexts([tr])[0] != [];
  }

  /** The table the converter evidently means to build is one
      `Light Grid Accent 1` table, as many rows as `tr` elements and as many
      columns as the first row has cells; it raises exactly when some row has
      more cells than the first. Without a raise every row is written (short
      rows padded with unassigned cells); with one, the rows up to and
      including the first long one are written (that one cut at the grid
      width) and later rows are left unassigned. The first row is always
      written in full, bold and white on the accent fill. */
  lemma IntendedTableOutcome(texts: seq<seq<string>>)
    requires texts != []
    ensures |IntendedTable(texts).blocks| == 1
    ensures IntendedTable(texts).blocks[0].Table?
    ensures IntendedTable(texts).blocks[0].tableStyle == "Light Grid Accent 1"
    ensures |IntendedTable(texts).blocks[0].rows| == |texts|
    ensures forall i :: 0 <= i < |texts| ==> |IntendedTable(texts).blocks[0].rows[i]| == |texts[0]|
    ensures IntendedTable(texts).error.Some? <==> exists i :: 0 <= i < |texts| && |texts[i]| > |texts[0]|
    ensures IntendedTable(texts).error.Some? ==> IntendedTable(texts).error.value == CellOutOfRange
    ensures IntendedTable(texts).error.None? ==>
      forall i, j :: 0 <= i < |texts| && 0 <= j < |texts[0]| ==> IntendedTable(texts).blocks[0].rows[i][j] == WrittenCell(texts, i, j)
    ensures IntendedTable(texts).error.Some? ==>
      var k := FirstLongRow(texts, |texts[0]|);
      forall i, j :: 0 <= i < |texts| && 0 <= j < |texts[0]| ==>
        IntendedTable(texts).blocks[0].rows[i][j] == if i <= k then WrittenCell(texts, i, j) else Unset
    ensures forall j :: 0 <= j < |texts[0]| ==>
      IntendedTable(texts).blocks[0].rows[0][j] == Filled(texts[0][j], RunFont(None, None, Some(Rgb(255, 255, 255)), true, false), Some("667EEA"))
  {
    var cols := |texts[0]|;
    var k := FirstLongRow(texts, cols);
    if k < |texts| {
      assert |texts[k]| > cols;
    }
  }

  /** `_add_docx_table` adds nothing for a table without `tr` descendants, and
      otherwise the table above built from the rows' stripped cell texts; it
      completes exactly when no row has a `th` or `td`. */
  lemma TableOutcome(table: Node)
    ensures FindAll(table, ROW_TAGS) == [] ==> TableBlocks(table) == Emitted([], None)
    ensures FindAll(table, ROW_TAGS) != [] ==>
      TableBlocks(table) == FilledTable(RowTexts(FindAll(table, ROW_TAGS)))
      && |TableBlocks(table).blocks[0].rows| == |FindAll(table, ROW_TAGS)|
    ensures TableBlocks(table).error.None? <==>
      forall i :: 0 <= i < |FindAll(table, ROW_TAGS)| ==> FindAll(FindAll(table, ROW_TAGS)[i], CELL_TAGS) == []
    ensures FindAll(table, ROW_TAGS) != [] && FindAll(FindAll(table, ROW_TAGS)[0], CELL_TAGS) != [] ==>
      TableBlocks(table).error == Some(ShadingUnsupported)
  {
    var rows := FindAll(table, ROW_TAGS);
    if rows != [] {
      var texts := RowTexts(rows);
      FilledTableOutcome(texts);
      assert forall i :: 0 <= i < |rows| ==> |texts[i]| == |FindAll(rows[i], CELL_TAGS)|;
    }
  }

  /** An `hr` child adds one unformatted paragraph of fifty box-drawing
      characters and never raises. */
  lemma RuleOutcome(classes: seq<string>, kids: seq<Node>)
    ensures Emit(Element("hr", classes, kids)) == Emitted([Paragraph(RULE_TEXT, Normal, None, PLAIN_RUN)], None)
    ensures |RULE_TEXT| == 50 && forall i :: 0 <= i < |RULE_TEXT| ==> RULE_TEXT[i] == '\U{2500}'
  {
  }

  // ---------------------------------------------------------------------
  // Tags the walk passes over
  // ---------------------------------------------------------------------

  /** A child whose tag is not handled adds nothing and raises nothing,
      whatever it contains: the walk does not descend into it. */
  lemma UnhandledIgnored(name: string, classes: seq<string>, kids: seq<Node>)
    requires !Handled(name)
    ensures Emit(Element(name, classes, kids)) == Emitted([], None)
  {
  }

  /** Children that are all text or unhandled tags add nothing. */
  lemma {:induction false} WalkSkipsUnhandled(kids: seq<Node>)
    requires forall k :: 0 <= k < |kids| ==> kids[k].Text? || !Handled(kids[k].name)
    ensures Walk(kids) == Emitted([], None)
    decreases |kids|
  {
    if kids != [] {
      var init := kids[..|kids| - 1];
      WalkSkipsUnhandled(init);
      assert Steps(kids)[..|kids| - 1] == Steps(init);
      assert Steps(kids)[|kids| - 1] == Emit(kids[|kids| - 1]);
    }
  }

  // ---------------------------------------------------------------------
  // The walk as a whole
  // ---------------------------------------------------------------------

  /** The blocks of all steps, front to back. */
  function Concat(es: seq<Emitted>): (bs: seq<Block>)
    ensures es == [] ==> bs == []
  {
    if es == [] then [] else es[0].blocks + Concat(es[1..])
  }

  lemma {:induction false} ConcatSnoc(es: seq<Emitted>, e: Emitted)
    ensures Concat(es + [e]) == Concat(es) + e.blocks
    decreases |es|
  {
    if es == [] {
      assert [e][1..] == [];
    } else {
      assert (es + [e])[1..] == es[1..] + [e];
      ConcatSnoc(es[1..], e);
    }
  }

  /** Chaining steps of which none raises gives all their blocks, and a
      chain raises only if one of its steps does. */
  lemma {:induction false} ChainNoRaise(es: seq<Emitted>)
    ensures Chain(es).error.None? <==> forall i :: 0 <= i < |es| ==> es[i].error.None?
    ensures Chain(es).error.None? ==> Chain(es).blocks == Concat(es)
    decreases |es|
  {
    if es != [] {
      var init := es[..|es| - 1];
      var last := es[|es| - 1];
      ChainNoRaise(init);
      assert init + [last] == es;
      ConcatSnoc(init, last);
      assert forall i :: 0 <= i < |init| ==> init[i] == es[i];
    }
  }

  /** A chain stops at its first raising step, with the blocks of the steps
      up to and including it and that step's error. */
  lemma {:induction false} ChainFirstRaise(es: seq<Emitted>, k: nat)
    requires k < |es| && es[k].error.Some?
    requires forall i :: 0 <= i < k ==> es[i].error.None?
    ensures Chain(es) == Emitted(Concat(es[..k + 1]), es[k].error)
    decreases |es|
  {
    var init := es[..|es| - 1];
    var last := es[|es| - 1];
    if k < |es| - 1 {
      assert forall i :: 0 <= i <= k ==> init[i] == es[i];
      ChainFirstRaise(init, k);
      assert init[..k + 1] == es[..k + 1];
    } else {
      assert forall i :: 0 <= i < |init| ==> init[i] == es[i];
      ChainNoRaise(init);
      ConcatSnoc(init, last);
      assert init + [last] == es;
      assert es[..k + 1] == es;
    }
  }

  /** The walk over the children, where `Steps(kids)[i]` is what child `i`
      adds on its own: the blocks of every child in document order when none
      raises; otherwise the raise of the first child that raises, with the
      blocks of the children up to and including it. */
  lemma WalkFirstRaise(kids: seq<Node>)
    ensures Walk(kids).error.None? <==> forall i :: 0 <= i < |kids| ==> Steps(kids)[i].error.None?
    ensures Walk(kids).error.None? ==> Walk(kids).blocks == Concat(Steps(kids))
    ensures forall k ::
      (0 <= k < |kids| && Steps(kids)[k].error.Some? && (forall i :: 0 <= i < k ==> Steps(kids)[i].error.None?))
      ==> Walk(kids) == Emitted(Concat(Steps(kids)[..k + 1]), Steps(kids)[k].error)
  {
    var es := Steps(kids);
    ChainNoRaise(es);
    forall k | 0 <= k < |kids| && es[k].error.Some? && (forall i :: 0 <= i < k ==> es[i].error.None?)
      ensures Chain(es) == Emitted(Concat(es[..k + 1]), es[k].error)
    {
      ChainFirstRaise(es, k);
    }
  }
}
