/**
 * The parsed hypertext tree the converter works on, and the read-only
 * queries it makes of it: flattened text, descendant search, whitespace
 * stripping and substring tests on class names.
 */
module Markup {

  import opened Wrappers

  /** A node of the parsed tree: a text string, or a tag with its class list
      and its children in document order. */
  datatype Node =
    | Text(text: string)
    | Element(name: string, classes: seq<string>, children: seq<Node>)

  /** The children of a node; a text node has none. */
  function Children(n: Node): seq<Node>
  {
    if n.Element? then n.children else []
  }

  // ---------------------------------------------------------------------
  // Flattened text (get_text)
  // ---------------------------------------------------------------------

  /** The concatenation of every text string in the subtree, in document order. */
  function GetText(n: Node): string
    decreases n, 1
  {
    match n
    case Text(s) => s
    case Element(_, _, kids) => ConcatText(kids)
  }

  function ConcatText(ns: seq<Node>): string
    decreases ns, 0
  {
    if ns == [] then [] else GetText(ns[0]) + ConcatText(ns[1..])
  }

  /** The text strings of the text nodes in `ns`, concatenated in order. */
  ghost function TextsOf(ns: seq<Node>): string
  {
    if ns == [] then [] else (if ns[0].Text? then ns[0].text else []) + TextsOf(ns[1..])
  }

  lemma {:induction false} TextsOfAppend(a: seq<Node>, b: seq<Node>)
    ensures TextsOf(a + b) == TextsOf(a) + TextsOf(b)
  {
    if a != [] {
      assert (a + b)[0] == a[0] && (a + b)[1..] == a[1..] + b;
      TextsOfAppend(a[1..], b);
    } else {
      assert a + b == b;
    }
  }

  /** The flattened text of an element is the text of its text-node
      descendants, taken in document order. */
  lemma {:induction false} GetTextPreorder(n: Node)
    requires n.Element?
    ensures GetText(n) == TextsOf(Descendants(n))
  {
    ConcatTextPreorder(n.children);
  }

  lemma {:induction false} ConcatTextPreorder(ns: seq<Node>)
    ensures ConcatText(ns) == TextsOf(DescendantsIn(ns))
    decreases ns
  {
    if ns != [] {
      ConcatTextPreorder(ns[1..]);
      TextsOfAppend([ns[0]] + Descendants(ns[0]), DescendantsIn(ns[1..]));
      TextsOfAppend([ns[0]], Descendants(ns[0]));
      assert [ns[0]][1..] == [];
      if ns[0].Element? {
        ConcatTextPreorder(ns[0].children);
      }
    }
  }

  // ---------------------------------------------------------------------
  // Descendant search (find_all / find)
  // ---------------------------------------------------------------------

  /** The strict descendants of `n` whose tag name is in `names`, in document
      (preorder) order; `n` itself is never among them. */
  function FindAll(n: Node, names: set<string>): (r: seq<Node>)
    ensures forall m :: m in r ==> m.Element? && m.name in names
    decreases n, 2
  {
    match n
    case Text(_) => []
    case Element(_, _, kids) => FindAllIn(kids, names)
  }

  /** Each node of `ns` that matches, followed by its matching descendants. */
  function FindAllIn(ns: seq<Node>, names: set<string>): (r: seq<Node>)
    ensures forall m :: m in r ==> m.Element? && m.name in names
    decreases ns, 1
  {
    if ns == [] then []
    else
      (if ns[0].Element? && ns[0].name in names then [ns[0]] else [])
      + FindAll(ns[0], names) + FindAllIn(ns[1..], names)
  }

  /** The first matching strict descendant, if any. */
  function FindFirst(n: Node, name: string): (r: Option<Node>)
    ensures r.Some? <==> FindAll(n, {name}) != []
    ensures r.Some? ==> r.value == FindAll(n, {name})[0] && r.value.Element? && r.value.name == name
  {
    var found := FindAll(n, {name});
    if found == [] then None else Some(found[0])
  }

  /** The direct children of a node with the given tag name, in order
      (find_all with recursive=False): each such child as often as it occurs,
      and nothing else. */
  function ChildrenNamed(ns: seq<Node>, name: string): (r: seq<Node>)
    ensures |r| <= |ns|
    ensures forall m :: multiset(r)[m] == if m.Element? && m.name == name then multiset(ns)[m] else 0
    ensures forall m :: m in r ==> m in ns && m.Element? && m.name == name
    ensures forall m :: m in ns && m.Element? && m.name == name ==> m in r
  {
    MatchingCount(ns, {name});
    Matching(ns, {name})
  }

  // ---------------------------------------------------------------------
  // Reference definitions: preorder listing and filtering
  // ---------------------------------------------------------------------

  /** An element whose tag name is one of `names`. */
  predicate NamedIn(m: Node, names: set<string>)
  {
    m.Element? && m.name in names
  }

  /** The strict descendants of `n`, each before its own descendants and
      siblings in document order (preorder). */
  ghost function Descendants(n: Node): seq<Node>
    decreases n, 1
  {
    match n
    case Text(_) => []
    case Element(_, _, kids) => DescendantsIn(kids)
  }

  ghost function DescendantsIn(ns: seq<Node>): seq<Node>
    decreases ns, 0
  {
    if ns == [] then [] else [ns[0]] + Descendants(ns[0]) + DescendantsIn(ns[1..])
  }

  /** The nodes of `ns` that are elements named in `names`, in order: each
      as often as it occurs in `ns`, and nothing else. */
  function Matching(ns: seq<Node>, names: set<string>): (r: seq<Node>)
    ensures |r| <= |ns|
  {
    if ns == [] then []
    else (if NamedIn(ns[0], names) then [ns[0]] else []) + Matching(ns[1..], names)
  }

  /** The filter keeps each matching node as often as it occurs and drops
      every other node. */
  lemma {:induction false} MatchingCount(ns: seq<Node>, names: set<string>)
    ensures forall m :: multiset(Matching(ns, names))[m] == if NamedIn(m, names) then multiset(ns)[m] else 0
    ensures forall m :: m in Matching(ns, names) <==> m in ns && NamedIn(m, names)
  {
    if ns != [] {
      MatchingCount(ns[1..], names);
      assert ns == [ns[0]] + ns[1..];
    }
  }

  /** Filtering distributes over concatenation, so it keeps the order. */
  lemma {:induction false} MatchingAppend(a: seq<Node>, b: seq<Node>, names: set<string>)
    ensures Matching(a + b, names) == Matching(a, names) + Matching(b, names)
  {
    if a != [] {
      assert (a + b)[0] == a[0] && (a + b)[1..] == a[1..] + b;
      MatchingAppend(a[1..], b, names);
    } else {
      assert a + b == b;
    }
  }

  /** The first node kept by the filter is the first matching node. */
  lemma {:induction false} MatchingFirst(ns: seq<Node>, names: set<string>)
    requires Matching(ns, names) != []
    ensures exists k :: (0 <= k < |ns| && ns[k] == Matching(ns, names)[0] && NamedIn(ns[k], names)
      && forall i :: 0 <= i < k ==> !NamedIn(ns[i], names))
  {
    if !NamedIn(ns[0], names) {
      MatchingFirst(ns[1..], names);
      var k :| 0 <= k < |ns[1..]| && ns[1..][k] == Matching(ns[1..], names)[0] && NamedIn(ns[1..][k], names)
        && forall i :: 0 <= i < k ==> !NamedIn(ns[1..][i], names);
      assert forall i :: 1 <= i < k + 1 ==> ns[i] == ns[1..][i - 1];
      assert ns[k + 1] == Matching(ns, names)[0];
    } else {
      assert ns[0] == Matching(ns, names)[0];
    }
  }

  /** `find_all` lists the matching strict descendants in preorder. */
  lemma {:induction false} FindAllPreorder(n: Node, names: set<string>)
    ensures FindAll(n, names) == Matching(Descendants(n), names)
    decreases n, 1
  {
    if n.Element? {
      FindAllInPreorder(n.children, names);
    }
  }

  lemma {:induction false} FindAllInPreorder(ns: seq<Node>, names: set<string>)
    ensures FindAllIn(ns, names) == Matching(DescendantsIn(ns), names)
    decreases ns, 0
  {
    if ns != [] {
      FindAllPreorder(ns[0], names);
      FindAllInPreorder(ns[1..], names);
      MatchingAppend([ns[0]] + Descendants(ns[0]), DescendantsIn(ns[1..]), names);
      MatchingAppend([ns[0]], Descendants(ns[0]), names);
      assert [ns[0]][1..] == [];
    }
  }

  /** A node is found by `find_all` exactly when it is a matching strict
      descendant. */
  lemma FindAllExactly(n: Node, names: set<string>)
    ensures forall m :: m in FindAll(n, names) <==> m in Descendants(n) && NamedIn(m, names)
  {
    FindAllPreorder(n, names);
    MatchingCount(Descendants(n), names);
  }

  /** `find` gives the first strict descendant in preorder with the name. */
  lemma FindFirstIsFirst(n: Node, name: string)
    requires FindFirst(n, name).Some?
    ensures exists k :: (0 <= k < |Descendants(n)| && Descendants(n)[k] == FindFirst(n, name).value
      && forall i :: 0 <= i < k ==> !NamedIn(Descendants(n)[i], {name}))
  {
    FindAllPreorder(n, {name});
    MatchingFirst(Descendants(n), {name});
  }

  // ---------------------------------------------------------------------
  // Whitespace stripping (str.strip with no argument)
  // ---------------------------------------------------------------------

  /** The characters for which Python's `str.isspace` holds. */
  predicate IsSpace(c: char)
  {
    || ('\t' <= c <= '\r') || ('\U{1C}' <= c <= ' ') || c == '\U{85}' || c == '\U{A0}'
    || c == '\U{1680}' || ('\U{2000}' <= c <= '\U{200A}') || c == '\U{2028}' || c == '\U{2029}'
    || c == '\U{202F}' || c == '\U{205F}' || c == '\U{3000}'
  }

  predicate AllSpace(s: string)
  {
    forall k :: 0 <= k < |s| ==> IsSpace(s[k])
  }

  /** `s` without its leading whitespace. */
  function TrimStart(s: string): (r: string)
    ensures |r| <= |s| && r == s[|s| - |r|..]
    ensures AllSpace(s[..|s| - |r|])
    ensures r != [] ==> !IsSpace(r[0])
  {
    if s != [] && IsSpace(s[0]) then
      var r := TrimStart(s[1..]);
      assert s[..|s| - |r|] == [s[0]] + s[1..][..|s| - 1 - |r|];
      assert s[|s| - |r|..] == s[1..][|s| - 1 - |r|..];
      r
    else s
  }

  /** `s` without its trailing whitespace. */
  function TrimEnd(s: string): (r: string)
    ensures |r| <= |s| && r == s[..|r|]
    ensures AllSpace(s[|r|..])
    ensures r != [] ==> !IsSpace(r[|r| - 1])
  {
    if s != [] && IsSpace(s[|s| - 1]) then
      var r := TrimEnd(s[..|s| - 1]);
      assert s[|r|..] == s[..|s| - 1][|r|..] + [s[|s| - 1]];
      assert s[..|r|] == s[..|s| - 1][..|r|];
      r
    else s
  }

  /** `s` with leading and trailing whitespace removed: a slice of `s` that
      neither starts nor ends with whitespace, with only whitespace cut off
      on either side. */
  function Strip(s: string): (r: string)
    ensures exists i, j :: 0 <= i <= j <= |s| && r == s[i..j] && AllSpace(s[..i]) && AllSpace(s[j..])
    ensures r != [] ==> !IsSpace(r[0]) && !IsSpace(r[|r| - 1])
  {
    var t := TrimStart(s);
    var r := TrimEnd(t);
    TrimmedBothEnds(s, t, r);
    r
  }

  /** A prefix of a suffix of `s`, with only whitespace cut off on either
      side, is a slice of `s` with only whitespace around it. */
  lemma TrimmedBothEnds(s: string, t: string, r: string)
    requires |t| <= |s| && t == s[|s| - |t|..] && AllSpace(s[..|s| - |t|])
    requires |r| <= |t| && r == t[..|r|] && AllSpace(t[|r|..])
    ensures exists i, j :: 0 <= i <= j <= |s| && r == s[i..j] && AllSpace(s[..i]) && AllSpace(s[j..])
  {
    var i := |s| - |t|;
    assert r == s[i..i + |r|];
    assert s[i + |r|..] == t[|r|..];
  }

  /** Stripping yields the empty string exactly when the input is all whitespace. */
  lemma StripEmptyIffAllSpace(s: string)
    ensures Strip(s) == [] <==> AllSpace(s)
  {
    var i, j :| 0 <= i <= j <= |s| && Strip(s) == s[i..j] && AllSpace(s[..i]) && AllSpace(s[j..]);
    if Strip(s) == [] {
      assert i == j;
      forall k | 0 <= k < |s| ensures IsSpace(s[k]) {
        if k < i { assert s[..i][k] == s[k]; } else { assert s[j..][k - j] == s[k]; }
      }
    } else {
      assert !IsSpace(s[i]) by { assert Strip(s)[0] == s[i]; }
    }
  }

  /** Stripping twice is stripping once. */
  lemma StripIdempotent(s: string)
    ensures Strip(Strip(s)) == Strip(s)
  {
    var r := Strip(s);
    if r != [] {
      assert !IsSpace(r[0]) && !IsSpace(r[|r| - 1]);
      assert TrimStart(r) == r;
      assert TrimEnd(r) == r;
    }
  }

  // ---------------------------------------------------------------------
  // Substring test (Python's `in` on strings)
  // ---------------------------------------------------------------------

  /** `needle` occurs in `s` as a contiguous substring. */
  predicate Contains(s: string, needle: string)
    decreases |s|
  {
    needle <= s || (s != [] && Contains(s[1..], needle))
  }

  /** `needle` occurs in `s` starting at index `i`. */
  predicate OccursAt(s: string, needle: string, i: nat)
  {
    i + |needle| <= |s| && s[i..i + |needle|] == needle
  }

  /** Containment as an explicit position. */
  lemma ContainsAt(s: string, needle: string, i: nat)
    requires OccursAt(s, needle, i)
    ensures Contains(s, needle)
    decreases i
  {
    if i > 0 {
      ContainsAt(s[1..], needle, i - 1);
      assert s[1..][i - 1..i - 1 + |needle|] == needle;
    }
  }

  /** Containment always has a position: `needle` occurs in `s` starting at
      some index. */
  lemma {:induction false} ContainsSomewhere(s: string, needle: string)
    requires Contains(s, needle)
    ensures exists i: nat :: OccursAt(s, needle, i)
    decreases |s|
  {
    if needle <= s {
      assert OccursAt(s, needle, 0);
    } else {
      ContainsSomewhere(s[1..], needle);
      var i: nat :| OccursAt(s[1..], needle, i);
      assert s[i + 1..i + 1 + |needle|] == s[1..][i..i + |needle|];
      assert OccursAt(s, needle, i + 1);
    }
  }

  /** Some class name in `cs` contains `needle`. */
  predicate AnyContains(cs: seq<string>, needle: string)
  {
    exists k :: 0 <= k < |cs| && Contains(cs[k], needle)
  }
}
