/**
 * The hypertext export (MarkdownConverter.to_html and _get_html_template):
 * the converted body goes through the diagram rewrite, is serialised, and
 * is placed in a fixed page around the title and the content.
 *
 * The page text before the title and after the content is spelled out. The
 * fixed text between them (the closing of the title, the stylesheet, the
 * print toolbar and the opening of the content container) is long and
 * carries no behaviour; it is the parameter `middle` here.
 */
module HtmlPage {

  import opened Wrappers
  import opened Markup
  import opened Mermaid

  /** The page up to the title. */
  const PAGE_HEAD: string :=
    "<!DOCTYPE html>\n"
    + "<html lang=\"zh-CN\">\n"
    + "<head>\n"
    + "    <meta charset=\"UTF-8\">\n"
    + "    <meta name=\"viewport\" content=\"width=device-width, initial-scale=1.0\">\n"
    + "    <title>"

  /** The page after the content: the end of the container, the print
      shortcut script and the end of the document. */
  const PAGE_TAIL: string :=
    "\n"
    + "    </div>\n"
    + "    \n"
    + "    <script>\n"
    + "        // \U{952E}\U{76D8}\U{5FEB}\U{6377}\U{952E}\U{FF1A}Ctrl+P \U{6253}\U{5370}\n"
    + "        document.addEventListener('keydown', function(e) {\n"
    + "            if ((e.ctrlKey || e.metaKey) && e.key === 'p') {\n"
    + "                e.preventDefault();\n"
    + "                window.print();\n"
    + "            }\n"
    + "        });\n"
    + "    </script>\n"
    + "</body>\n"
    + "</html>\n"

  /** `_get_html_template(content, title)`: the title and the content are put
      in verbatim, without escaping. */
  function Page(content: string, title: string, middle: string): (page: string)
    ensures |page| == |PAGE_HEAD| + |title| + |middle| + |content| + |PAGE_TAIL|
  {
    PAGE_HEAD + title + middle + content + PAGE_TAIL
  }

  /** The content of a page built with the given title and middle, if the
      page has that shape. */
  function ContentOf(page: string, title: string, middle: string): (r: Option<string>)
  {
    var front := PAGE_HEAD + title + middle;
    if |front| + |PAGE_TAIL| <= |page| && page[..|front|] == front && page[|page| - |PAGE_TAIL|..] == PAGE_TAIL
    then Some(page[|front|..|page| - |PAGE_TAIL|])
    else None
  }

  /** The content is recovered from the page. */
  lemma ContentRoundTrip(content: string, title: string, middle: string)
    ensures ContentOf(Page(content, title, middle), title, middle) == Some(content)
  {
    var page := Page(content, title, middle);
    var front := PAGE_HEAD + title + middle;
    assert page == front + content + PAGE_TAIL;
    assert page[..|front|] == front;
    assert page[|page| - |PAGE_TAIL|..] == PAGE_TAIL;
    assert page[|front|..|page| - |PAGE_TAIL|] == content;
  }

  /** Only a page of that shape has a content, and it is rebuilt from it. */
  lemma ContentOfSound(page: string, title: string, middle: string)
    requires ContentOf(page, title, middle).Some?
    ensures Page(ContentOf(page, title, middle).value, title, middle) == page
  {
    var front := PAGE_HEAD + title + middle;
    var content := page[|front|..|page| - |PAGE_TAIL|];
    Reassembled(page, front, PAGE_TAIL);
    assert Page(content, title, middle) == front + content + PAGE_TAIL;
  }

  /** A string that starts with `front` and ends with `tail` is the two
      around what lies between them. */
  lemma Reassembled(s: string, front: string, tail: string)
    requires |front| + |tail| <= |s| && s[..|front|] == front && s[|s| - |tail|..] == tail
    ensures front + s[|front|..|s| - |tail|] + tail == s
  {
    assert s == s[..|front|] + s[|front|..|s| - |tail|] + s[|s| - |tail|..];
  }

  /** The title sits verbatim right after the page head: markup in a title
      becomes markup of the page. */
  lemma TitleVerbatim(content: string, title: string, middle: string)
    ensures Page(content, title, middle)[|PAGE_HEAD|..|PAGE_HEAD| + |title|] == title
  {
    var page := Page(content, title, middle);
    assert page == PAGE_HEAD + title + (middle + content + PAGE_TAIL);
  }

  /** `to_html` once the body is converted and parsed: the diagram rewrite,
      then the serialisation `serialize` (BeautifulSoup's `str`), then the
      page. The rewrite's error propagates. The converter's `title` defaults
      to "Document". */
  function ToHtml(body: Node, title: string, middle: string, serialize: Node -> string): (r: Result<string, RewriteError>)
    ensures r.Ok? <==> ProcessMermaid(body).Ok?
  {
    match ProcessMermaid(body)
    case Err(e) => Err(e)
    case Ok(tree) => Ok(Page(serialize(tree), title, middle))
  }

  /** A page that is produced holds, as its content, the serialisation of a
      tree in which no diagram block is left, and converting the same tree a
      second time gives the same page. */
  lemma ToHtmlContent(body: Node, title: string, middle: string, serialize: Node -> string)
    requires ToHtml(body, title, middle, serialize).Ok?
    ensures exists tree :: (!HasDiagramBlock(tree)
      && ContentOf(ToHtml(body, title, middle, serialize).value, title, middle) == Some(serialize(tree))
      && ToHtml(tree, title, middle, serialize) == ToHtml(body, title, middle, serialize))
  {
    var tree := ProcessMermaid(body).value;
    ContentRoundTrip(serialize(tree), title, middle);
    ProcessMermaidIdempotent(body);
    assert !HasDiagramBlock(tree);
  }
}
