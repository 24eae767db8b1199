/**
 * The hypertext-side diagram rewrite (MarkdownConverter._process_mermaid):
 * every `pre` whose direct `code` child carries a class containing
 * "language-mermaid" is replaced by one fixed notice `div`.
 *
 * The source walks the matching `code` elements in document order and calls
 * `replace_with` on each one's `pre` parent. Replacing a `pre` detaches it, so a
 * second matching `code` under the same `pre` (or a matching `pre` that is the
 * root itself) makes `replace_with` run on a node without a parent, which raises.
 * Apart from that error the visible result does not depend on the order of the
 * replacements, and is computed here top-down. The converter always hands the
 * rewrite the parsed document itself (`DOCUMENT_NAME`), which is never a `pre`,
 * so there only the second case can happen (`DocumentRewrite`).
 */
module Mermaid {

  import opened Wrappers
  import opened Markup

  /** The class substring the rewrite searches for. */
  const LANGUAGE_MERMAID: string := "language-mermaid"

  /** The class of the notice element. */
  const NOTE_CLASS: string := "mermaid-note"

  /** The notice text put in place of a diagram. */
  const NOTE_TEXT: string :=
    "\U{1F4CA} Mermaid \U{56FE}\U{8868}\U{FF08}\U{5728}\U{524D}\U{7AEF}\U{7248}\U{672C} index.html "
    + "\U{4E2D}\U{53EF}\U{67E5}\U{770B}\U{5B8C}\U{6574}\U{56FE}\U{8868}\U{FF09}"

  /** The element that replaces a diagram block. */
  const NOTE: Node := Element("div", [NOTE_CLASS], [Text(NOTE_TEXT)])

  /** The tag name of the parsed document object, the root of every parse. */
  const DOCUMENT_NAME: string := "[document]"

  /** The raise of `replace_with` on a node that has no parent. */
  datatype RewriteError = ReplaceDetached

  /** A `code` element that the rewrite's search matches. */
  predicate IsMermaidCode(n: Node)
  {
    n.Element? && n.name == "code" && AnyContains(n.classes, LANGUAGE_MERMAID)
  }

  /** How many of the direct children are matching `code` elements. */
  function MermaidChildCount(kids: seq<Node>): nat
  {
    if kids == [] then 0
    else (if IsMermaidCode(kids[0]) then 1 else 0) + MermaidChildCount(kids[1..])
  }

  /** A `pre` that is the parent of at least one matching `code`. */
  predicate IsDiagramBlock(n: Node)
  {
    n.Element? && n.name == "pre" && MermaidChildCount(n.children) > 0
  }

  /** Some node of the subtree (the root included) is a diagram block. */
  predicate HasDiagramBlock(n: Node)
    decreases n, 1
  {
    IsDiagramBlock(n) || (n.Element? && AnyHasDiagramBlock(n.children))
  }

  predicate AnyHasDiagramBlock(ns: seq<Node>)
    decreases ns, 0
  {
    ns != [] && (HasDiagramBlock(ns[0]) || AnyHasDiagramBlock(ns[1..]))
  }

  /** Some `pre` of the subtree, at any depth, is the parent of two or more
      matching `code` elements: the second `replace_with` finds it detached. */
  predicate HasDoubleDiagram(n: Node)
    decreases n, 1
  {
    n.Element?
    && ((n.name == "pre" && MermaidChildCount(n.children) >= 2) || AnyHasDoubleDiagram(n.children))
  }

  predicate AnyHasDoubleDiagram(ns: seq<Node>)
    decreases ns, 0
  {
    ns != [] && (HasDoubleDiagram(ns[0]) || AnyHasDoubleDiagram(ns[1..]))
  }

  /** The tree with each outermost diagram block replaced by the notice. */
  function Rewrite(n: Node): Node
    decreases n, 1
  {
    if IsDiagramBlock(n) then NOTE
    else match n
      case Text(_) => n
      case Element(name, classes, kids) => Element(name, classes, RewriteAll(kids))
  }

  function RewriteAll(ns: seq<Node>): (r: seq<Node>)
    ensures |r| == |ns|
    decreases ns, 0
  {
    if ns == [] then [] else [Rewrite(ns[0])] + RewriteAll(ns[1..])
  }

  /** `_process_mermaid` on the parsed document `root`: the rewritten tree, or
      the error raised when a `replace_with` meets a detached `pre`. */
  function ProcessMermaid(root: Node): (r: Result<Node, RewriteError>)
    ensures r.Ok? <==> !IsDiagramBlock(root) && !HasDoubleDiagram(root)
    ensures r.Ok? ==> !HasDiagramBlock(r.value)
  {
    if IsDiagramBlock(root) || HasDoubleDiagram(root) then Err(ReplaceDetached)
    else
      RewriteRemovesDiagrams(root);
      Ok(Rewrite(root))
  }

  // ---------------------------------------------------------------------
  // Properties of the rewrite
  // ---------------------------------------------------------------------

  /** On the parsed document the rewrite raises exactly when some `pre` holds
      two matching `code` children, and otherwise rewrites the children. */
  lemma DocumentRewrite(kids: seq<Node>)
    ensures ProcessMermaid(Element(DOCUMENT_NAME, [], kids)).Ok? <==> !AnyHasDoubleDiagram(kids)
    ensures ProcessMermaid(Element(DOCUMENT_NAME, [], kids)).Ok? ==>
      ProcessMermaid(Element(DOCUMENT_NAME, [], kids)).value == Element(DOCUMENT_NAME, [], RewriteAll(kids))
  {
  }

  /** The matching-children count is unchanged by rewriting the children: a
      rewritten `code` is still the same `code`. */
  lemma {:induction false} RewriteKeepsMermaidCount(ns: seq<Node>)
    ensures MermaidChildCount(RewriteAll(ns)) == MermaidChildCount(ns)
  {
    if ns != [] {
      assert RewriteAll(ns)[1..] == RewriteAll(ns[1..]);
      assert IsMermaidCode(Rewrite(ns[0])) == IsMermaidCode(ns[0]);
      RewriteKeepsMermaidCount(ns[1..]);
    }
  }

  /** No diagram block survives the rewrite, at any depth. */
  lemma {:induction false} RewriteRemovesDiagrams(n: Node)
    ensures !HasDiagramBlock(Rewrite(n))
    decreases n, 1
  {
    if IsDiagramBlock(n) {
      assert !HasDiagramBlock(Text(NOTE_TEXT));
      assert [Text(NOTE_TEXT)][1..] == [];
      assert !AnyHasDiagramBlock(NOTE.children);
      assert !IsDiagramBlock(NOTE);
    } else if n.Element? {
      RewriteKeepsMermaidCount(n.children);
      RewriteAllRemovesDiagrams(n.children);
    }
  }

  lemma {:induction false} RewriteAllRemovesDiagrams(ns: seq<Node>)
    ensures !AnyHasDiagramBlock(RewriteAll(ns))
    decreases ns, 0
  {
    if ns != [] {
      RewriteRemovesDiagrams(ns[0]);
      RewriteAllRemovesDiagrams(ns[1..]);
      assert RewriteAll(ns)[1..] == RewriteAll(ns[1..]);
    }
  }

  /** A tree without diagram blocks is left exactly as it was: a matching
      `code` that is not directly under a `pre`, and every other node, is
      untouched. */
  lemma {:induction false} RewriteIdentity(n: Node)
    requires !HasDiagramBlock(n)
    ensures Rewrite(n) == n
    decreases n, 1
  {
    if n.Element? {
      RewriteAllIdentity(n.children);
    }
  }

  lemma {:induction false} RewriteAllIdentity(ns: seq<Node>)
    requires !AnyHasDiagramBlock(ns)
    ensures RewriteAll(ns) == ns
    decreases ns, 0
  {
    if ns != [] {
      RewriteIdentity(ns[0]);
      RewriteAllIdentity(ns[1..]);
    }
  }

  /** A tree without diagram blocks has no `pre` with two matching children. */
  lemma {:induction false} NoDiagramNoDouble(n: Node)
    requires !HasDiagramBlock(n)
    ensures !HasDoubleDiagram(n)
    decreases n, 1
  {
    if n.Element? {
      NoDiagramNoDoubleAll(n.children);
    }
  }

  lemma {:induction false} NoDiagramNoDoubleAll(ns: seq<Node>)
    requires !AnyHasDiagramBlock(ns)
    ensures !AnyHasDoubleDiagram(ns)
    decreases ns, 0
  {
    if ns != [] {
      NoDiagramNoDouble(ns[0]);
      NoDiagramNoDoubleAll(ns[1..]);
    }
  }

  /** Running the rewrite on its own output changes nothing. */
  lemma ProcessMermaidIdempotent(root: Node)
    requires ProcessMermaid(root).Ok?
    ensures ProcessMermaid(ProcessMermaid(root).value) == ProcessMermaid(root)
  {
    var t := ProcessMermaid(root).value;
    RewriteIdentity(t);
    NoDiagramNoDouble(t);
  }

  /** The rewrite replaces node for node: every element keeps its number of
      children, and a node is replaced by the notice exactly when it is a
      diagram block. */
  lemma RewriteShape(n: Node)
    ensures IsDiagramBlock(n) ==> Rewrite(n) == NOTE
    ensures !IsDiagramBlock(n) && n.Element? ==>
      Rewrite(n).Element? && Rewrite(n).name == n.name && Rewrite(n).classes == n.classes
      && |Rewrite(n).children| == |n.children|
    ensures n.Text? ==> Rewrite(n) == n
  {
  }

  /** The notice text stands in for the code: the flattened text of a rewritten
      diagram block is the notice, whatever the diagram source was. */
  lemma DiagramSourceDropped(n: Node)
    requires IsDiagramBlock(n)
    ensures GetText(Rewrite(n)) == NOTE_TEXT
  {
    assert ConcatText([Text(NOTE_TEXT)]) == NOTE_TEXT + ConcatText([]);
  }
}
