/**
 * The document tree. Every `_ASTElement` subclass is one alternative of
 * `Kind`; nodes live in an arena (`Tree.nodes`) and refer to each other by
 * index, with `-1` standing for a null parent. Owned sub-elements that are
 * not list children (a heading's text, a modifier's content, a collapse
 * block's summary, a code block's command line, a command container's
 * content) are indices stored in the kind.
 */
module Ast {
  import opened Util
  import opened Command

  datatype ModKind = Link | Image | Footnote | HeadingLink | Replace | Styled

  datatype Kind =
    | Document(iddef: map<string, nat>)
    | IdDefinition(defId: string, url: string, defType: char)
    | Heading(level: int, content: nat)
    | HLine
    | Paragraph
    | Blockquote(centered: bool)
    | ListElement(index: nat)
    | UnorderedList
    | OrderedList
    | CodeBlock(lang: string, command: Option<nat>)
    | InfoBlock(infoType: string, sym: bool)
    | FootnoteBlock(footId: string)
    | CollapseBlock(isOpen: bool, summary: nat)
    | InlineText
    | PlainText(text: string)
    | Linebreak
    | TextModification(symbol: char, inner: nat)
    | Emoji(shortcode: string)
    | Modifier(mod: ModKind, url: string, inner: nat)
    | CommandContainer(held: Option<nat>)
    | Task(checked: char, valid: bool)

  /** One element: its kind, its `commands`, its parent (`-1` for null) and its list children. */
  datatype Node = Node(kind: Kind, cmd: Command, parent: int, elements: seq<nat>)

  /** The kinds derived from `_ASTListElement`, which own an `elements` vector. */
  predicate IsListKind(k: Kind)
  {
    k.Document? || k.IdDefinition? || k.Paragraph? || k.Blockquote? || k.ListElement? ||
    k.UnorderedList? || k.OrderedList? || k.CodeBlock? || k.InfoBlock? || k.FootnoteBlock? ||
    k.CollapseBlock? || k.InlineText?
  }

  /** The kinds derived from `_ASTInlineElement`. */
  predicate IsInlineKind(k: Kind)
  {
    k.InlineText? || k.PlainText? || k.Linebreak? || k.TextModification? || k.Emoji? ||
    k.Modifier? || k.CommandContainer? || k.Task?
  }

  /** The owned sub-element a node's `process` walks before its own children. */
  function Walked(k: Kind): Option<nat>
  {
    match k
    case Heading(_, c) => Some(c)
    case CodeBlock(_, c) => c
    case CollapseBlock(_, c) => Some(c)
    case _ => None
  }

  /** Every index a kind holds. */
  predicate RefsBelow(k: Kind, size: nat)
  {
    match k
    case Document(iddef) => forall key :: key in iddef ==> iddef[key] < size
    case Heading(_, c) => c < size
    case CodeBlock(_, c) => c.Some? ==> c.value < size
    case CollapseBlock(_, c) => c < size
    case TextModification(_, c) => c < size
    case Modifier(_, _, c) => c < size
    case CommandContainer(c) => c.Some? ==> c.value < size
    case _ => true
  }

  predicate NodeOk(n: Node, size: nat)
  {
    RefsBelow(n.kind, size) && -1 <= n.parent < size &&
    (forall k :: 0 <= k < |n.elements| ==> n.elements[k] < size) &&
    (!IsListKind(n.kind) ==> n.elements == [])
  }

  /** Every index in the arena points into the arena. */
  predicate Wf(ns: seq<Node>)
  {
    forall i :: 0 <= i < |ns| ==> NodeOk(ns[i], |ns|)
  }

  // ---------------------------------------------------------------------
  // Queries. The tree is not proved acyclic, so each recursive query walks
  // at most `fuel` levels; callers pass the arena size.
  // ---------------------------------------------------------------------

  /** `isEmpty()`, per kind. */
  function IsEmpty(ns: seq<Node>, i: nat, fuel: nat): bool
    requires Wf(ns) && i < |ns|
    decreases fuel, 0
  {
    if fuel == 0 then true
    else match ns[i].kind
      case IdDefinition(_, _, _) => true
      case Heading(_, _) => false
      case HLine => false
      case Linebreak => false
      case Task(_, _) => false
      case PlainText(t) => t == []
      case Emoji(sc) => sc == []
      case TextModification(_, c) => IsEmpty(ns, c, fuel - 1)
      case Modifier(m, url, c) => if m == Image || m == Replace then false else IsEmpty(ns, c, fuel - 1) && url == []
      case CommandContainer(c) => c.None?
      case _ => AllEmpty(ns, ns[i].elements, fuel - 1)
  }

  /** The loop of `_ASTListElement::isEmpty`: every child is empty. */
  function AllEmpty(ns: seq<Node>, es: seq<nat>, fuel: nat): bool
    requires Wf(ns) && forall k :: 0 <= k < |es| ==> es[k] < |ns|
    decreases fuel, 1, |es|
  {
    if es == [] then true else IsEmpty(ns, es[0], fuel) && AllEmpty(ns, es[1..], fuel)
  }

  /** A list node is empty iff each child is; with no children it is empty. */
  lemma {:induction false} AllEmptyIff(ns: seq<Node>, es: seq<nat>, fuel: nat)
    requires Wf(ns) && forall k :: 0 <= k < |es| ==> es[k] < |ns|
    ensures AllEmpty(ns, es, fuel) <==> forall k :: 0 <= k < |es| ==> IsEmpty(ns, es[k], fuel)
    decreases |es|
  {
    if es != [] {
      AllEmptyIff(ns, es[1..], fuel);
      assert forall k :: 1 <= k < |es| ==> es[k] == es[1..][k - 1];
    }
  }

  /** `canConsume()`: an id definition never gives its command away; anything else does when empty. */
  function CanConsume(ns: seq<Node>, i: nat, fuel: nat): bool
    requires Wf(ns) && i < |ns|
  {
    !ns[i].kind.IdDefinition? && IsEmpty(ns, i, fuel)
  }

  /** `literalText()`: the plain text under an inline element. */
  function LiteralText(ns: seq<Node>, i: nat, fuel: nat): string
    requires Wf(ns) && i < |ns|
    decreases fuel, 0
  {
    if fuel == 0 then ""
    else match ns[i].kind
      case PlainText(t) => t
      case InlineText => LiteralOfAll(ns, ns[i].elements, fuel - 1)
      case TextModification(_, c) => LiteralText(ns, c, fuel - 1)
      case Modifier(_, _, c) => LiteralText(ns, c, fuel - 1)
      case _ => ""
  }

  function LiteralOfAll(ns: seq<Node>, es: seq<nat>, fuel: nat): string
    requires Wf(ns) && forall k :: 0 <= k < |es| ==> es[k] < |ns|
    decreases fuel, 1, |es|
  {
    if es == [] then "" else LiteralText(ns, es[0], fuel) + LiteralOfAll(ns, es[1..], fuel)
  }

  /**
   * `containingElement()`: an inline element defers to its parent, any
   * other element is its own container. A null parent yields `None`.
   */
  function ContainingElement(ns: seq<Node>, i: nat, fuel: nat): (r: Option<nat>)
    requires Wf(ns) && i < |ns|
    ensures r.Some? ==> r.value < |ns| && !IsInlineKind(ns[r.value].kind)
    decreases fuel
  {
    if !IsInlineKind(ns[i].kind) then Some(i)
    else if fuel == 0 || ns[i].parent < 0 then None
    else ContainingElement(ns, ns[i].parent, fuel - 1)
  }

  /** `getDocument()`: the nearest document up the parent chain. */
  function GetDocument(ns: seq<Node>, i: nat, fuel: nat): (r: Option<nat>)
    requires Wf(ns) && i < |ns|
    ensures r.Some? ==> r.value < |ns| && ns[r.value].kind.Document?
    decreases fuel
  {
    if ns[i].kind.Document? then Some(i)
    else if fuel == 0 || ns[i].parent < 0 then None
    else GetDocument(ns, ns[i].parent, fuel - 1)
  }

  /** The container found is this node itself or an ancestor of it. */
  lemma {:induction false} ContainingIsAncestor(ns: seq<Node>, i: nat, fuel: nat)
    requires Wf(ns) && i < |ns|
    ensures ContainingElement(ns, i, fuel).Some? ==> AncestorWithin(ns, i, ContainingElement(ns, i, fuel).value, fuel)
    decreases fuel
  {
    if IsInlineKind(ns[i].kind) && fuel > 0 && ns[i].parent >= 0 {
      ContainingIsAncestor(ns, ns[i].parent, fuel - 1);
    }
  }

  /** `a` is reached from `i` by following at most `fuel` parent links. */
  predicate AncestorWithin(ns: seq<Node>, i: nat, a: nat, fuel: nat)
    requires Wf(ns) && i < |ns|
    decreases fuel
  {
    i == a || (fuel > 0 && ns[i].parent >= 0 && AncestorWithin(ns, ns[i].parent, a, fuel - 1))
  }

  // ---------------------------------------------------------------------
  // The arena and the container operations
  // ---------------------------------------------------------------------

  /** The kinds whose constructor sets the parent of the sub-element it is given. */
  function Owned(k: Kind): Option<nat>
  {
    match k
    case Heading(_, c) => Some(c)
    case CollapseBlock(_, c) => Some(c)
    case TextModification(_, c) => Some(c)
    case Modifier(_, _, c) => Some(c)
    case _ => None
  }

  class Tree {
    var nodes: seq<Node>

    ghost predicate Valid()
      reads this
    {
      Wf(nodes)
    }

    constructor ()
      ensures nodes == [] && Valid()
    {
      nodes := [];
    }

    /**
     * Allocates an element with an empty command and no parent. Like the
     * C++ constructors of headings, collapse blocks, text modifications and
     * modifiers, it makes itself the parent of the sub-element it owns.
     */
    method NewNode(kind: Kind) returns (i: nat)
      requires Valid() && RefsBelow(kind, |nodes|)
      modifies this
      ensures Valid()
      ensures i == |old(nodes)| && |nodes| == i + 1
      ensures nodes[i] == Node(kind, Empty, -1, [])
      ensures Owned(kind).None? ==> nodes[..i] == old(nodes)
      ensures Owned(kind).Some? ==> nodes[..i] == old(nodes)[Owned(kind).value := old(nodes)[Owned(kind).value].(parent := i)]
    {
      i := |nodes|;
      var n := Node(kind, Empty, -1, []);
      assert RefsBelow(kind, i + 1);
      nodes := nodes + [n];
      assert forall j :: 0 <= j < i ==> NodeOk(nodes[j], |nodes|) by {
        forall j | 0 <= j < i ensures NodeOk(nodes[j], |nodes|) {
          assert NodeOk(old(nodes)[j], i);
        }
      }
      if Owned(kind).Some? {
        var c := Owned(kind).value;
        nodes := nodes[c := nodes[c].(parent := i)];
      }
      assert nodes[..i] == (if Owned(kind).Some? then old(nodes)[Owned(kind).value := old(nodes)[Owned(kind).value].(parent := i)] else old(nodes));
    }

    /**
     * `_ASTListElement::addElement`: a null child (`-1`) is ignored; any
     * other child gets the container as parent and is appended as the last
     * element, so the container grows by exactly one.
     */
    method AddElement(c: nat, child: int)
      requires Valid() && c < |nodes| && IsListKind(nodes[c].kind) && -1 <= child < |nodes|
      modifies this
      ensures Valid() && |nodes| == |old(nodes)|
      ensures child < 0 ==> nodes == old(nodes)
      ensures child >= 0 ==> nodes == Adopted(old(nodes), c, child, old(nodes)[c].elements + [child])
      ensures child >= 0 ==> |nodes[c].elements| == |old(nodes)[c].elements| + 1
      ensures child >= 0 ==> nodes[c].elements[|nodes[c].elements| - 1] == child && nodes[child].parent == c
    {
      if child >= 0 {
        var es := nodes[c].elements + [child];
        nodes := nodes[child := nodes[child].(parent := c)];
        nodes := nodes[c := nodes[c].(elements := es)];
        AdoptedWf(old(nodes), c, child, es);
      }
    }

    /**
     * `_ASTListElement::prependElement`: a non-null child becomes element 0
     * and the existing elements follow in their old order.
     */
    method PrependElement(c: nat, child: int)
      requires Valid() && c < |nodes| && IsListKind(nodes[c].kind) && -1 <= child < |nodes|
      modifies this
      ensures Valid() && |nodes| == |old(nodes)|
      ensures child < 0 ==> nodes == old(nodes)
      ensures child >= 0 ==> nodes == Adopted(old(nodes), c, child, [child] + old(nodes)[c].elements)
      ensures child >= 0 ==> nodes[c].elements[0] == child && nodes[c].elements[1..] == old(nodes)[c].elements
    {
      if child >= 0 {
        var es := [child] + nodes[c].elements;
        nodes := nodes[child := nodes[child].(parent := c)];
        nodes := nodes[c := nodes[c].(elements := es)];
        AdoptedWf(old(nodes), c, child, es);
      }
    }

    /** `_ASTListElement::addElements`: adds each element of the list in order. */
    method AddElements(c: nat, children: seq<int>)
      requires Valid() && c < |nodes| && IsListKind(nodes[c].kind)
      requires forall k :: 0 <= k < |children| ==> -1 <= children[k] < |nodes|
      modifies this
      ensures Valid() && |nodes| == |old(nodes)|
      ensures nodes[c].elements == old(nodes)[c].elements + NonNull(children)
      ensures forall j :: 0 <= j < |nodes| ==> nodes[j].kind == old(nodes)[j].kind
      ensures forall j :: 0 <= j < |nodes| && j != c ==> nodes[j].elements == old(nodes)[j].elements
    {
      var k := 0;
      while k < |children|
        invariant 0 <= k <= |children|
        invariant Valid() && |nodes| == |old(nodes)|
        invariant IsListKind(nodes[c].kind)
        invariant nodes[c].elements == old(nodes)[c].elements + NonNull(children[..k])
        invariant forall j :: 0 <= j < |nodes| ==> nodes[j].kind == old(nodes)[j].kind
        invariant forall j :: 0 <= j < |nodes| && j != c ==> nodes[j].elements == old(nodes)[j].elements
      {
        assert children[..k + 1] == children[..k] + [children[k]];
        NonNullAppend(children[..k], children[k]);
        ghost var before := nodes;
        AddElement(c, children[k]);
        if children[k] >= 0 {
          AdoptedFrame(before, c, children[k], before[c].elements + [children[k]]);
        }
        k := k + 1;
      }
      assert children[..k] == children;
    }

    /** `ASTCommandContainer::setContent`: replaces the content; the parent of the new content is not set. */
    method SetContent(i: nat, content: Option<nat>)
      requires Valid() && i < |nodes| && nodes[i].kind.CommandContainer?
      requires content.Some? ==> content.value < |nodes|
      modifies this
      ensures Valid()
      ensures nodes == old(nodes)[i := old(nodes)[i].(kind := CommandContainer(content))]
    {
      nodes := nodes[i := nodes[i].(kind := CommandContainer(content))];
      assert forall j :: 0 <= j < |nodes| ==> NodeOk(nodes[j], |nodes|) by {
        forall j | 0 <= j < |nodes| ensures NodeOk(nodes[j], |nodes|) {
          if j != i { assert nodes[j] == old(nodes)[j]; }
        }
      }
    }

    /** `_ASTElement::addCommand`: merges a command into the element's own. */
    method AddCommand(i: nat, command: Command)
      requires Valid() && i < |nodes|
      modifies this
      ensures Valid()
      ensures nodes == old(nodes)[i := old(nodes)[i].(cmd := Merge(old(nodes)[i].cmd, command))]
    {
      var merged := MergeCommands(nodes[i].cmd, command);
      SetCommand(i, merged);
    }

    /** Overwrites one element's command, leaving everything else as it was. */
    method SetCommand(i: nat, c: Command)
      requires Valid() && i < |nodes|
      modifies this
      ensures Valid()
      ensures nodes == old(nodes)[i := old(nodes)[i].(cmd := c)]
    {
      nodes := nodes[i := nodes[i].(cmd := c)];
      assert forall j :: 0 <= j < |nodes| ==> NodeOk(nodes[j], |nodes|) by {
        forall j | 0 <= j < |nodes| ensures NodeOk(nodes[j], |nodes|) {
          if j != i { assert nodes[j] == old(nodes)[j]; }
        }
      }
    }

    /** `e->parent = p`, as `ASTCodeBlock::addCommand` does for the block's command line. */
    method SetParent(i: nat, p: nat)
      requires Valid() && i < |nodes| && p < |nodes|
      modifies this
      ensures Valid()
      ensures nodes == old(nodes)[i := old(nodes)[i].(parent := p)]
    {
      nodes := nodes[i := nodes[i].(parent := p)];
      assert forall j :: 0 <= j < |nodes| ==> NodeOk(nodes[j], |nodes|) by {
        forall j | 0 <= j < |nodes| ensures NodeOk(nodes[j], |nodes|) {
          if j != i { assert nodes[j] == old(nodes)[j]; }
        }
      }
    }
  }

  /** The arena after `child` is re-parented to `c` and `c`'s elements become `es`. */
  function Adopted(ns: seq<Node>, c: nat, child: nat, es: seq<nat>): seq<Node>
    requires c < |ns| && child < |ns|
  {
    var ns1 := ns[child := ns[child].(parent := c)];
    ns1[c := ns1[c].(elements := es)]
  }

  /** Adoption changes no kind and no other container's elements. */
  lemma AdoptedFrame(ns: seq<Node>, c: nat, child: nat, es: seq<nat>)
    requires c < |ns| && child < |ns|
    ensures |Adopted(ns, c, child, es)| == |ns|
    ensures forall j :: 0 <= j < |ns| ==> Adopted(ns, c, child, es)[j].kind == ns[j].kind
    ensures forall j :: 0 <= j < |ns| && j != c ==> Adopted(ns, c, child, es)[j].elements == ns[j].elements
  {
  }

  lemma AdoptedWf(ns: seq<Node>, c: nat, child: nat, es: seq<nat>)
    requires Wf(ns) && c < |ns| && child < |ns| && IsListKind(ns[c].kind)
    requires forall k :: 0 <= k < |es| ==> es[k] < |ns|
    ensures Wf(Adopted(ns, c, child, es))
  {
    var r := Adopted(ns, c, child, es);
    forall j | 0 <= j < |r| ensures NodeOk(r[j], |r|) {
      assert NodeOk(ns[j], |ns|);
      if j != c && j != child { assert r[j] == ns[j]; }
    }
  }

  /** The non-null entries of a list of child pointers, in order. */
  function NonNull(children: seq<int>): seq<nat>
  {
    if children == [] then []
    else NonNull(children[..|children| - 1]) + (if children[|children| - 1] >= 0 then [children[|children| - 1] as nat] else [])
  }

  lemma NonNullAppend(children: seq<int>, x: int)
    ensures NonNull(children + [x]) == NonNull(children) + (if x >= 0 then [x as nat] else [])
  {
    assert (children + [x])[..|children|] == children;
  }

  // ---------------------------------------------------------------------
  // Plain text to HTML
  // ---------------------------------------------------------------------

  /** What `ASTPlainText::getHtml` writes for one character. */
  function EscapeChar(c: char): string
  {
    if c == '&' then "&amp;" else if c == '<' then "&lt;" else if c == '>' then "&gt;" else [c]
  }

  function Escaped(s: string): string
  {
    if s == [] then [] else Escaped(s[..|s| - 1]) + EscapeChar(s[|s| - 1])
  }

  /** `ASTPlainText::getHtml`: the character loop of the escaper. */
  method EscapeHtml(content: string) returns (cnt: string)
    ensures cnt == Escaped(content)
    ensures forall k :: 0 <= k < |cnt| ==> cnt[k] != '<' && cnt[k] != '>'
  {
    cnt := [];
    var i := 0;
    while i < |content|
      invariant 0 <= i <= |content|
      invariant cnt == Escaped(content[..i])
    {
      assert content[..i + 1][..i] == content[..i];
      var c := content[i];
      if c == '&' {
        cnt := cnt + "&amp;";
      } else if c == '<' {
        cnt := cnt + "&lt;";
      } else if c == '>' {
        cnt := cnt + "&gt;";
      } else {
        cnt := cnt + [c];
      }
      i := i + 1;
    }
    assert content[..i] == content;
    EscapedHasNoBrackets(content);
  }

  /** The escaped text never holds `<` or `>`. */
  lemma {:induction false} EscapedHasNoBrackets(s: string)
    ensures forall k :: 0 <= k < |Escaped(s)| ==> Escaped(s)[k] != '<' && Escaped(s)[k] != '>'
    decreases |s|
  {
    if s != [] {
      var p := s[..|s| - 1];
      EscapedHasNoBrackets(p);
      var e := EscapeChar(s[|s| - 1]);
      assert Escaped(s) == Escaped(p) + e;
      forall k | 0 <= k < |Escaped(s)| ensures Escaped(s)[k] != '<' && Escaped(s)[k] != '>' {
        if k >= |Escaped(p)| { assert Escaped(s)[k] == e[k - |Escaped(p)|]; }
      }
    }
  }

  /** Decodes the three entities back and copies everything else. */
  function Unescape(h: string): string
    decreases |h|
  {
    if h == [] then []
    else if |h| >= 5 && h[..5] == "&amp;" then "&" + Unescape(h[5..])
    else if |h| >= 4 && h[..4] == "&lt;" then "<" + Unescape(h[4..])
    else if |h| >= 4 && h[..4] == "&gt;" then ">" + Unescape(h[4..])
    else [h[0]] + Unescape(h[1..])
  }

  function EscapedFwd(s: string): string
  {
    if s == [] then [] else EscapeChar(s[0]) + EscapedFwd(s[1..])
  }

  lemma {:induction false} EscapedFwdAppend(s: string, c: char)
    ensures EscapedFwd(s + [c]) == EscapedFwd(s) + EscapeChar(c)
    decreases |s|
  {
    if s == [] {
      assert [c][1..] == [];
    } else {
      assert (s + [c])[1..] == s[1..] + [c];
      EscapedFwdAppend(s[1..], c);
    }
  }

  lemma {:induction false} EscapedBothWays(s: string)
    ensures Escaped(s) == EscapedFwd(s)
    decreases |s|
  {
    if s != [] {
      var p := s[..|s| - 1];
      EscapedBothWays(p);
      EscapedFwdAppend(p, s[|s| - 1]);
      assert p + [s[|s| - 1]] == s;
    }
  }

  lemma UnescapeStep(c: char, rest: string)
    ensures Unescape(EscapeChar(c) + rest) == [c] + Unescape(rest)
  {
    var h := EscapeChar(c) + rest;
    if c == '&' {
      assert h[..5] == "&amp;" && h[5..] == rest;
    } else if c == '<' {
      assert h[..4] == "&lt;" && h[4..] == rest;
      assert |h| < 5 || h[..5][1] != "&amp;"[1];
    } else if c == '>' {
      assert h[..4] == "&gt;" && h[4..] == rest;
      assert |h| < 5 || h[..5][1] != "&amp;"[1];
      assert h[..4][1] != "&lt;"[1];
    } else {
      assert h[0] == c && h[1..] == rest;
    }
  }

  /** Escaping loses nothing: decoding the output gives the text back. */
  lemma {:induction false} EscapeRoundTrip(s: string)
    ensures Unescape(Escaped(s)) == s
  {
    EscapedBothWays(s);
    FwdRoundTrip(s);
  }

  lemma {:induction false} FwdRoundTrip(s: string)
    ensures Unescape(EscapedFwd(s)) == s
    decreases |s|
  {
    if s != [] {
      UnescapeStep(s[0], EscapedFwd(s[1..]));
      FwdRoundTrip(s[1..]);
    }
  }
}
