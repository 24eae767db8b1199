/**
 * The word-processor document as the converter builds it: a growing list of
 * blocks (headings, paragraphs, tables), each with the run formatting the
 * converter sets on it. Only the parts of the document object model that the
 * converter touches are represented, and as plain values.
 */
module Docx {

  import opened Wrappers

  /** A colour given by its red, green and blue components. */
  datatype Rgb = Rgb(red: nat, green: nat, blue: nat)

  /** The font overrides of a run; `None`/`false` means "inherited from the style". */
  datatype RunFont = RunFont(name: Option<string>, sizePt: Option<nat>, color: Option<Rgb>, bold: bool, italic: bool)

  /** A run with no override at all. */
  const PLAIN_RUN: RunFont := RunFont(None, None, None, false, false)

  /** The paragraph styles the converter assigns. */
  datatype ParagraphStyle = Normal | ListBullet | ListNumber

  /** A table cell: never assigned, or assigned a text whose single run has the
      given font, with an optional background fill (a hex colour). */
  datatype Cell = Unset | Filled(text: string, font: RunFont, shading: Option<string>)

  /** A block of the document body. A heading or paragraph holds one run when
      its text is non-empty and no run at all when it is empty. */
  datatype Block =
    | Heading(level: nat, text: string, font: RunFont)
    | Paragraph(text: string, style: ParagraphStyle, leftIndentInches: Option<real>, font: RunFont)
    | Table(tableStyle: string, rows: seq<seq<Cell>>)
  {
    /** `runs[0]` exists. */
    predicate HasRun()
    {
      (Heading? || Paragraph?) && text != []
    }
  }

  /** One assignment to a property of a run's font. */
  datatype RunEdit = SetSize(pt: nat) | SetColor(rgb: Rgb) | SetBold | SetItalic | SetFontName(fontName: string)

  function ApplyEdit(f: RunFont, e: RunEdit): RunFont
  {
    match e
    case SetSize(pt) => f.(sizePt := Some(pt))
    case SetColor(rgb) => f.(color := Some(rgb))
    case SetBold => f.(bold := true)
    case SetItalic => f.(italic := true)
    case SetFontName(n) => f.(name := Some(n))
  }

  /** The document under construction. */
  class Document {
    var blocks: seq<Block>
    /** The font family and size of the `Normal` style; `None` is the template's own. */
    var normalFont: Option<string>
    var normalSizePt: Option<nat>

    /** A new document from the default template: an empty body. */
    constructor ()
      ensures blocks == [] && normalFont == None && normalSizePt == None
    {
      blocks := [];
      normalFont := None;
      normalSizePt := None;
    }

    /** Sets the family (western and east-Asian) and size of the `Normal` style. */
    method SetNormalFont(family: string, sizePt: nat)
      modifies this
      ensures normalFont == Some(family) && normalSizePt == Some(sizePt)
      ensures blocks == old(blocks)
    {
      normalFont := Some(family);
      normalSizePt := Some(sizePt);
    }

    /** `add_heading(text, level)`: a heading paragraph, with a run only when
        the text is non-empty. */
    method AddHeading(text: string, level: nat)
      modifies this
      ensures blocks == old(blocks) + [Heading(level, text, PLAIN_RUN)]
      ensures normalFont == old(normalFont) && normalSizePt == old(normalSizePt)
    {
      blocks := blocks + [Heading(level, text, PLAIN_RUN)];
    }

    /** `add_paragraph(text)`: a `Normal` paragraph, with a run only when the
        text is non-empty. */
    method AddParagraph(text: string)
      modifies this
      ensures blocks == old(blocks) + [Paragraph(text, Normal, None, PLAIN_RUN)]
      ensures normalFont == old(normalFont) && normalSizePt == old(normalSizePt)
    {
      blocks := blocks + [Paragraph(text, Normal, None, PLAIN_RUN)];
    }

    /** `add_table` followed by the filling of its cells, as one block. */
    method AddTable(tableStyle: string, rows: seq<seq<Cell>>)
      modifies this
      ensures blocks == old(blocks) + [Table(tableStyle, rows)]
      ensures normalFont == old(normalFont) && normalSizePt == old(normalSizePt)
    {
      blocks := blocks + [Table(tableStyle, rows)];
    }

    /** `para.style = style` on the paragraph just added. */
    method SetLastStyle(style: ParagraphStyle)
      requires blocks != [] && blocks[|blocks| - 1].Paragraph?
      modifies this
      ensures blocks == old(blocks)[..|old(blocks)| - 1] + [old(blocks)[|old(blocks)| - 1].(style := style)]
      ensures normalFont == old(normalFont) && normalSizePt == old(normalSizePt)
    {
      var last := blocks[|blocks| - 1];
      blocks := blocks[..|blocks| - 1] + [last.(style := style)];
    }

    /** `para.paragraph_format.left_indent = Inches(inches)` on the paragraph just added. */
    method SetLastIndent(inches: real)
      requires blocks != [] && blocks[|blocks| - 1].Paragraph?
      modifies this
      ensures blocks == old(blocks)[..|old(blocks)| - 1] + [old(blocks)[|old(blocks)| - 1].(leftIndentInches := Some(inches))]
      ensures normalFont == old(normalFont) && normalSizePt == old(normalSizePt)
    {
      var last := blocks[|blocks| - 1];
      blocks := blocks[..|blocks| - 1] + [last.(leftIndentInches := Some(inches))];
    }

    /** An assignment to `runs[0].font` of the block just added. It fails,
        changing nothing, when the block has no run (the `IndexError` of
        indexing an empty run list). */
    method FormatLastRun(e: RunEdit) returns (ok: bool)
      requires blocks != [] && (blocks[|blocks| - 1].Heading? || blocks[|blocks| - 1].Paragraph?)
      modifies this
      ensures ok == old(blocks)[|old(blocks)| - 1].HasRun()
      ensures ok ==> blocks == old(blocks)[..|old(blocks)| - 1]
                      + [old(blocks)[|old(blocks)| - 1].(font := ApplyEdit(old(blocks)[|old(blocks)| - 1].font, e))]
      ensures !ok ==> blocks == old(blocks)
      ensures normalFont == old(normalFont) && normalSizePt == old(normalSizePt)
    {
      var last := blocks[|blocks| - 1];
      ok := last.text != [];
      if ok {
        blocks := blocks[..|blocks| - 1] + [last.(font := ApplyEdit(last.font, e))];
      }
    }
  }
}
