/**
 * The table-of-contents generator `inserttoc` and the `usenum` modifier of
 * the command-line front end. A table of contents is an unordered list of
 * items; each item links to one heading and may carry nested lists for the
 * deeper headings that follow it.
 */
module TableOfContents {
  import opened Util
  import opened Command
  import opened Ast
  import Phases

  /** One collected heading: its level, its text and its id. */
  datatype Entry = Entry(level: int, name: string, id: string)

  /** What a table-of-contents entry shows and where it links. */
  datatype Target = Target(name: string, id: string)

  /** A list element holding a heading link, followed by its nested lists. */
  datatype Toc = Item(name: string, id: string, subs: seq<Sub>)

  /** A nested unordered list. */
  datatype Sub = Sub(items: seq<Toc>)

  // ---------------------------------------------------------------------
  // Reading a table of contents back
  // ---------------------------------------------------------------------

  /** The links of a list, in document order (depth first). */
  function FlatList(ts: seq<Toc>): seq<Target>
    decreases ts
  {
    if ts == [] then [] else FlatList(ts[..|ts| - 1]) + FlatItem(ts[|ts| - 1])
  }

  function FlatItem(t: Toc): seq<Target>
    decreases t
  {
    [Target(t.name, t.id)] + FlatSubs(t.subs)
  }

  function FlatSubs(ss: seq<Sub>): seq<Target>
    decreases ss
  {
    if ss == [] then [] else FlatSubs(ss[..|ss| - 1]) + FlatSub(ss[|ss| - 1])
  }

  function FlatSub(s: Sub): seq<Target>
    decreases s
  {
    FlatList(s.items)
  }

  /** The links of the top-level items only. */
  function Tops(ts: seq<Toc>): seq<Target>
  {
    if ts == [] then [] else Tops(ts[..|ts| - 1]) + [Target(ts[|ts| - 1].name, ts[|ts| - 1].id)]
  }

  function Links(hs: seq<Entry>): seq<Target>
  {
    if hs == [] then [] else Links(hs[..|hs| - 1]) + [Target(hs[|hs| - 1].name, hs[|hs| - 1].id)]
  }

  /** The links of the headings at exactly `level`. */
  function LinksAt(hs: seq<Entry>, level: int): seq<Target>
  {
    if hs == [] then []
    else LinksAt(hs[..|hs| - 1], level) + (if hs[|hs| - 1].level == level then [Target(hs[|hs| - 1].name, hs[|hs| - 1].id)] else [])
  }

  lemma {:induction false} FlatListAppend(a: seq<Toc>, b: seq<Toc>)
    ensures FlatList(a + b) == FlatList(a) + FlatList(b)
    decreases |b|
  {
    if b == [] {
      assert a + b == a;
    } else {
      assert (a + b)[..|a + b| - 1] == a + b[..|b| - 1];
      FlatListAppend(a, b[..|b| - 1]);
    }
  }

  lemma {:induction false} LinksAppend(a: seq<Entry>, b: seq<Entry>)
    ensures Links(a + b) == Links(a) + Links(b)
    decreases |b|
  {
    if b == [] {
      assert a + b == a;
    } else {
      assert (a + b)[..|a + b| - 1] == a + b[..|b| - 1];
      LinksAppend(a, b[..|b| - 1]);
    }
  }

  lemma {:induction false} LinksAtAppend(a: seq<Entry>, b: seq<Entry>, level: int)
    ensures LinksAt(a + b, level) == LinksAt(a, level) + LinksAt(b, level)
    decreases |b|
  {
    if b == [] {
      assert a + b == a;
    } else {
      assert (a + b)[..|a + b| - 1] == a + b[..|b| - 1];
      LinksAtAppend(a, b[..|b| - 1], level);
    }
  }

  /** No heading of a run deeper than `level` shows at `level`. */
  lemma {:induction false} LinksAtNone(hs: seq<Entry>, level: int)
    requires forall k :: 0 <= k < |hs| ==> hs[k].level > level
    ensures LinksAt(hs, level) == []
    decreases |hs|
  {
    if hs != [] {
      LinksAtNone(hs[..|hs| - 1], level);
    }
  }

  /** The list after nesting `sub` under its last item. */
  function NestedUnderLast(ts: seq<Toc>, sub: seq<Toc>): seq<Toc>
    requires ts != []
  {
    var last := ts[|ts| - 1];
    ts[..|ts| - 1] + [last.(subs := last.subs + [Sub(sub)])]
  }

  /** Nesting a list under the last item adds its links after the list's own and keeps the top items. */
  lemma NestUnderLast(ts: seq<Toc>, sub: seq<Toc>)
    requires ts != []
    ensures FlatList(NestedUnderLast(ts, sub)) == FlatList(ts) + FlatList(sub)
    ensures Tops(NestedUnderLast(ts, sub)) == Tops(ts)
  {
    var last := ts[|ts| - 1];
    var last' := last.(subs := last.subs + [Sub(sub)]);
    var ts' := NestedUnderLast(ts, sub);
    assert ts'[..|ts'| - 1] == ts[..|ts| - 1];
    assert ts'[|ts'| - 1] == last';
    assert (last.subs + [Sub(sub)])[..|last.subs|] == last.subs;
    assert FlatSubs(last'.subs) == FlatSubs(last.subs) + FlatList(sub);
    assert FlatItem(last') == FlatItem(last) + FlatList(sub);
    assert FlatList(ts') == FlatList(ts[..|ts| - 1]) + FlatItem(last');
  }

  /** Appending a fresh item for heading `h` extends both readings by `h`. */
  lemma AppendItem(ts: seq<Toc>, done: seq<Entry>, h: Entry, level: int)
    requires FlatList(ts) == Links(done) && Tops(ts) == LinksAt(done, level) && h.level == level
    ensures FlatList(ts + [Item(h.name, h.id, [])]) == Links(done + [h])
    ensures Tops(ts + [Item(h.name, h.id, [])]) == LinksAt(done + [h], level)
  {
    var it := Item(h.name, h.id, []);
    assert (ts + [it])[..|ts|] == ts;
    assert (done + [h])[..|done|] == done;
    assert FlatItem(it) == [Target(h.name, h.id)];
  }

  /** Nesting the list of a deeper run extends the readings by that run. */
  lemma NestRun(ts: seq<Toc>, sub: seq<Toc>, done: seq<Entry>, run: seq<Entry>, level: int)
    requires ts != [] && FlatList(ts) == Links(done) && Tops(ts) == LinksAt(done, level)
    requires FlatList(sub) == Links(run) && forall k :: 0 <= k < |run| ==> run[k].level > level
    ensures FlatList(NestedUnderLast(ts, sub)) == Links(done + run)
    ensures Tops(NestedUnderLast(ts, sub)) == LinksAt(done + run, level)
  {
    LinksAppend(done, run);
    LinksAtAppend(done, run, level);
    LinksAtNone(run, level);
    NestUnderLast(ts, sub);
  }

  /**
   * The list `tocLevel` builds from `index`, and where it stops, as a
   * recursive definition: each heading at the starting level is an item,
   * and each run of deeper headings is the list of its own run, nested
   * under the item before it.
   */
  function TocOf(outline: seq<Entry>, index: nat): (r: (seq<Toc>, nat))
    requires index < |outline|
    ensures index < r.1 <= |outline|
    decreases |outline| - index, 1
  {
    LoopOf(outline, index, index, [])
  }

  /** The rest of `TocOf` once the headings from `index` up to `next` have made `list`. */
  function LoopOf(outline: seq<Entry>, index: nat, next: nat, list: seq<Toc>): (r: (seq<Toc>, nat))
    requires index < |outline| && index <= next <= |outline| && (next > index ==> list != [])
    ensures next <= r.1 <= |outline|
    ensures next < |outline| && outline[next].level >= outline[index].level ==> next < r.1
    decreases |outline| - index, 0, |outline| - next
  {
    if next == |outline| || outline[next].level < outline[index].level then
      (list, next)
    else if outline[next].level == outline[index].level then
      LoopOf(outline, index, next + 1, list + [Item(outline[next].name, outline[next].id, [])])
    else
      var deeper := TocOf(outline, next);
      LoopOf(outline, index, deeper.1, NestedUnderLast(list, deeper.0))
  }

  /** The lists of the outer loop of `inserttoc`, from `index` on. */
  function TocsFrom(outline: seq<Entry>, index: nat): seq<Toc>
    requires index <= |outline|
    decreases |outline| - index
  {
    if index == |outline| then [] else TocOf(outline, index).0 + TocsFrom(outline, TocOf(outline, index).1)
  }

  /** One round of the outer loop of `inserttoc` moves one list from `TocsFrom` to the front. */
  lemma TocsFromStep(outline: seq<Entry>, index: nat, done: seq<Toc>)
    requires index < |outline|
    ensures done + TocsFrom(outline, index) == (done + TocOf(outline, index).0) + TocsFrom(outline, TocOf(outline, index).1)
  {
  }

  /** A heading at each deeper level is nested under the one before it, two levels down. */
  lemma NestingExample()
    ensures TocOf([Entry(1, "a", "ia"), Entry(2, "b", "ib"), Entry(3, "c", "ic")], 0).0 ==
            [Item("a", "ia", [Sub([Item("b", "ib", [Sub([Item("c", "ic", [])])])])])]
  {
    var o := [Entry(1, "a", "ia"), Entry(2, "b", "ib"), Entry(3, "c", "ic")];
    var c := Item("c", "ic", []);
    assert LoopOf(o, 2, 3, [c]) == ([c], 3);
    assert o[2] == Entry(3, "c", "ic") && [] + [c] == [c];
    assert LoopOf(o, 2, 2, []) == LoopOf(o, 2, 3, [c]);
    assert TocOf(o, 2) == ([c], 3);
    var b := Item("b", "ib", [Sub([c])]);
    assert [Item("b", "ib", [])][..0] == [] && [] + [Sub([c])] == [Sub([c])];
    assert NestedUnderLast([Item("b", "ib", [])], [c]) == [b];
    assert LoopOf(o, 1, 3, [b]) == ([b], 3);
    assert LoopOf(o, 1, 2, [Item("b", "ib", [])]) == LoopOf(o, 1, 3, [b]);
    assert LoopOf(o, 1, 1, []) == LoopOf(o, 1, 2, [Item("b", "ib", [])]);
    assert TocOf(o, 1) == ([b], 3);
    var a := Item("a", "ia", [Sub([b])]);
    assert [Item("a", "ia", [])][..0] == [] && [] + [Sub([b])] == [Sub([b])];
    assert NestedUnderLast([Item("a", "ia", [])], [b]) == [a];
    assert LoopOf(o, 0, 3, [a]) == ([a], 3);
    assert LoopOf(o, 0, 1, [Item("a", "ia", [])]) == LoopOf(o, 0, 3, [a]);
    assert LoopOf(o, 0, 0, []) == LoopOf(o, 0, 1, [Item("a", "ia", [])]);
  }

  // ---------------------------------------------------------------------
  // tocLevel and inserttoc
  // ---------------------------------------------------------------------

  /**
   * `tocLevel`: starting at `index`, builds the list for the headings at
   * the starting level, nesting each run of deeper headings under the item
   * before it, and stops at the end or at the first shallower heading.
   * Every heading consumed appears in the list exactly once, in order, and
   * the top-level items are exactly the headings at the starting level.
   */
  method TocLevel(outline: seq<Entry>, index: nat) returns (list: seq<Toc>, next: nat)
    requires index < |outline|
    ensures index < next <= |outline|
    ensures forall k :: index <= k < next ==> outline[k].level >= outline[index].level
    ensures next < |outline| ==> outline[next].level < outline[index].level
    ensures FlatList(list) == Links(outline[index..next])
    ensures Tops(list) == LinksAt(outline[index..next], outline[index].level)
    ensures (list, next) == TocOf(outline, index)
    decreases |outline| - index, 1
  {
    var level := outline[index].level;
    list := [];
    next := index;
    while next < |outline| && outline[next].level >= level
      invariant index <= next <= |outline|
      invariant next > index ==> list != []
      invariant forall k :: index <= k < next ==> outline[k].level >= level
      invariant FlatList(list) == Links(outline[index..next])
      invariant Tops(list) == LinksAt(outline[index..next], level)
      invariant LoopOf(outline, index, next, list) == TocOf(outline, index)
      decreases |outline| - next
    {
      if outline[next].level == level {
        list := TocSibling(outline, index, next, list);
        next := next + 1;
      } else {
        list, next := TocDeeper(outline, index, next, list);
      }
    }
  }

  /** A heading at the level of `tocLevel`: a new item without sub-lists. */
  method TocSibling(outline: seq<Entry>, index: nat, next: nat, list: seq<Toc>) returns (list': seq<Toc>)
    requires index <= next < |outline| && outline[next].level == outline[index].level
    requires FlatList(list) == Links(outline[index..next])
    requires Tops(list) == LinksAt(outline[index..next], outline[index].level)
    ensures list' != [] && FlatList(list') == Links(outline[index..next + 1])
    ensures Tops(list') == LinksAt(outline[index..next + 1], outline[index].level)
    ensures list' == list + [Item(outline[next].name, outline[next].id, [])]
  {
    var h := outline[next];
    assert outline[index..next + 1] == outline[index..next] + [h];
    AppendItem(list, outline[index..next], h, outline[index].level);
    list' := list + [Item(h.name, h.id, [])];
  }

  /** A run of deeper headings inside `tocLevel`: its list goes under the last item. */
  method TocDeeper(outline: seq<Entry>, index: nat, next: nat, list: seq<Toc>) returns (list': seq<Toc>, after: nat)
    requires index < next < |outline| && outline[next].level > outline[index].level
    requires list != [] && FlatList(list) == Links(outline[index..next])
    requires Tops(list) == LinksAt(outline[index..next], outline[index].level)
    ensures next < after <= |outline|
    ensures forall k :: next <= k < after ==> outline[k].level > outline[index].level
    ensures list' != [] && FlatList(list') == Links(outline[index..after])
    ensures Tops(list') == LinksAt(outline[index..after], outline[index].level)
    ensures (list', after) == (NestedUnderLast(list, TocOf(outline, next).0), TocOf(outline, next).1)
    decreases |outline| - index, 0
  {
    var sub;
    sub, after := TocLevel(outline, next);
    var run := outline[next..after];
    assert forall k :: 0 <= k < |run| ==> run[k] == outline[next + k];
    assert outline[index..after] == outline[index..next] + run;
    NestRun(list, sub, outline[index..next], run, outline[index].level);
    list' := NestedUnderLast(list, sub);
  }

  /**
   * The outer loop of `inserttoc`: `tocLevel` is restarted at each
   * heading shallower than the previous run, and the lists are joined.
   * Every collected heading appears exactly once, in order. With no
   * heading, no table of contents is made.
   */
  method BuildToc(outline: seq<Entry>) returns (toc: Option<seq<Toc>>)
    ensures toc.None? <==> outline == []
    ensures toc.Some? ==> FlatList(toc.value) == Links(outline)
    ensures toc.Some? ==> toc.value == TocsFrom(outline, 0)
  {
    if outline == [] {
      return None;
    }
    var list := [];
    var index := 0;
    while index < |outline|
      invariant 0 <= index <= |outline|
      invariant FlatList(list) == Links(outline[..index])
      invariant list + TocsFrom(outline, index) == TocsFrom(outline, 0)
      decreases |outline| - index
    {
      var l, next := TocLevel(outline, index);
      assert outline[..next] == outline[..index] + outline[index..next];
      LinksAppend(outline[..index], outline[index..next]);
      FlatListAppend(list, l);
      TocsFromStep(outline, index, list);
      list := list + l;
      index := next;
    }
    assert outline[..index] == outline;
    assert list + [] == list;
    return Some(list);
  }

  /** The headings directly under a document that `inserttoc` lists (a heading is never empty): not marked `notoc`. */
  predicate Listed(ns: seq<Node>, e: nat)
    requires e < |ns|
  {
    ns[e].kind.Heading? && !("notoc" in ns[e].cmd.flags && ns[e].cmd.flags["notoc"] == "true")
  }

  /** The outline entry of a heading: its level, the literal text of its content and its id. */
  function EntryOf(ns: seq<Node>, e: nat): Entry
    requires Wf(ns) && e < |ns| && ns[e].kind.Heading?
  {
    assert NodeOk(ns[e], |ns|);
    Entry(ns[e].kind.level, LiteralText(ns, ns[e].kind.content, |ns|), ns[e].cmd.id)
  }

  /** The outline `inserttoc` collects from the top-level elements `es`, in order. */
  function OutlineOf(ns: seq<Node>, es: seq<nat>): seq<Entry>
    requires Wf(ns) && forall k :: 0 <= k < |es| ==> es[k] < |ns|
  {
    if es == [] then []
    else
      var e := es[|es| - 1];
      OutlineOf(ns, es[..|es| - 1]) + (if Listed(ns, e) then [EntryOf(ns, e)] else [])
  }

  /** Reading `flags["notoc"]` inserts an empty value when the key is absent. */
  function Touched(c: Command): Command
  {
    if "notoc" in c.flags then c else c.(flags := c.flags["notoc" := ""])
  }

  /** Touching the flag never changes whether a heading is listed. */
  lemma TouchedKeepsListing(c: Command)
    ensures ("notoc" in Touched(c).flags && Touched(c).flags["notoc"] == "true") <==>
            ("notoc" in c.flags && c.flags["notoc"] == "true")
    ensures "notoc" in Touched(c).flags
    ensures forall k :: k in c.flags ==> k in Touched(c).flags && Touched(c).flags[k] == c.flags[k]
  {
  }

  lemma TouchedTwice(c: Command)
    ensures Touched(Touched(c)) == Touched(c) && Touched(c).id == c.id
  {
  }

  /**
   * The collection loop of `inserttoc` over one document's elements:
   * yields its listed headings in order; every heading visited ends up
   * with a `notoc` flag (empty when it had none).
   */
  method CollectOutline(t: Tree, doc: nat) returns (outline: seq<Entry>)
    requires t.Valid() && doc < |t.nodes| && t.nodes[doc].kind.Document?
    modifies t
    ensures t.Valid() && |t.nodes| == |old(t.nodes)|
    ensures outline == OutlineOf(old(t.nodes), old(t.nodes)[doc].elements)
    ensures AfterReading(t.nodes, old(t.nodes), old(t.nodes)[doc].elements)
  {
    var ns0 := t.nodes;
    assert NodeOk(ns0[doc], |ns0|);
    var es := t.nodes[doc].elements;
    outline := [];
    var k := 0;
    while k < |es|
      invariant 0 <= k <= |es|
      invariant t.Valid() && |t.nodes| == |ns0|
      invariant outline == OutlineOf(ns0, es[..k])
      invariant AfterReading(t.nodes, ns0, es[..k])
    {
      outline := ReadElement(t, ns0, es, k, outline);
      k := k + 1;
    }
    assert es[..k] == es;
  }

  /** Element `j` after the headings among `seen` had their `notoc` flag read. */
  function TouchedNode(ns0: seq<Node>, j: nat, seen: seq<nat>): Node
    requires j < |ns0|
  {
    if j in seen && ns0[j].kind.Heading? then ns0[j].(cmd := Touched(ns0[j].cmd)) else ns0[j]
  }

  predicate AfterReading(ns: seq<Node>, ns0: seq<Node>, seen: seq<nat>)
  {
    |ns| == |ns0| && forall j :: 0 <= j < |ns| ==> ns[j] == TouchedNode(ns0, j, seen)
  }

  /** One turn of the collection loop, on the element `es[k]`. */
  method ReadElement(t: Tree, ns0: seq<Node>, es: seq<nat>, k: nat, outline: seq<Entry>) returns (outline': seq<Entry>)
    requires t.Valid() && Wf(ns0) && k < |es| && forall j :: 0 <= j < |es| ==> es[j] < |ns0|
    requires outline == OutlineOf(ns0, es[..k]) && AfterReading(t.nodes, ns0, es[..k])
    modifies t
    ensures t.Valid() && outline' == OutlineOf(ns0, es[..k + 1]) && AfterReading(t.nodes, ns0, es[..k + 1])
  {
    assert es[..k + 1][..k] == es[..k];
    assert es[..k + 1][k] == es[k];
    var e := es[k];
    outline' := outline;
    assert t.nodes[e] == TouchedNode(ns0, e, es[..k]);
    if t.nodes[e].kind.Heading? {
      var before := t.nodes[e].cmd;
      TouchedKeepsListing(ns0[e].cmd);
      TouchedTwice(ns0[e].cmd);
      assert forall j :: 0 <= j < |ns0| ==> t.nodes[j].kind == ns0[j].kind && t.nodes[j].elements == ns0[j].elements by {
        forall j | 0 <= j < |ns0| ensures t.nodes[j].kind == ns0[j].kind && t.nodes[j].elements == ns0[j].elements {
          assert t.nodes[j] == TouchedNode(ns0, j, es[..k]);
        }
      }
      var entry := HeadingEntry(t, e, ns0);
      if !("notoc" in before.flags && before.flags["notoc"] == "true") {
        outline' := outline + [entry];
      }
      ghost var ns1 := t.nodes;
      t.SetCommand(e, Touched(before));
      forall j | 0 <= j < |t.nodes| ensures t.nodes[j] == TouchedNode(ns0, j, es[..k + 1]) {
        assert ns1[j] == TouchedNode(ns0, j, es[..k]);
      }
    } else {
      forall j | 0 <= j < |t.nodes| ensures t.nodes[j] == TouchedNode(ns0, j, es[..k + 1]) {
        assert t.nodes[j] == TouchedNode(ns0, j, es[..k]);
      }
    }
  }

  /**
   * The entry of a heading, read from the current tree, which agrees with
   * the original one in everything but heading commands' `notoc` flags.
   */
  method HeadingEntry(t: Tree, e: nat, ns0: seq<Node>) returns (entry: Entry)
    requires t.Valid() && Wf(ns0) && |t.nodes| == |ns0| && e < |ns0| && ns0[e].kind.Heading?
    requires forall j :: 0 <= j < |ns0| ==> t.nodes[j].kind == ns0[j].kind && t.nodes[j].elements == ns0[j].elements
    requires t.nodes[e].cmd.id == ns0[e].cmd.id
    ensures entry == EntryOf(ns0, e)
  {
    assert NodeOk(ns0[e], |ns0|);
    LiteralIgnoresCommands(t.nodes, ns0, ns0[e].kind.content, |ns0|);
    entry := Entry(t.nodes[e].kind.level, LiteralText(t.nodes, t.nodes[e].kind.content, |t.nodes|), t.nodes[e].cmd.id);
  }

  /** The literal text of an element depends only on kinds and children, not on commands. */
  lemma {:induction false} LiteralIgnoresCommands(a: seq<Node>, b: seq<Node>, i: nat, fuel: nat)
    requires Wf(a) && Wf(b) && |a| == |b| && i < |a|
    requires forall j :: 0 <= j < |a| ==> a[j].kind == b[j].kind && a[j].elements == b[j].elements
    ensures LiteralText(a, i, fuel) == LiteralText(b, i, fuel)
    decreases fuel, 0
  {
    if fuel > 0 {
      assert NodeOk(a[i], |a|);
      match a[i].kind
      case InlineText => LiteralOfAllIgnoresCommands(a, b, a[i].elements, fuel - 1);
      case TextModification(_, c) => LiteralIgnoresCommands(a, b, c, fuel - 1);
      case Modifier(_, _, c) => LiteralIgnoresCommands(a, b, c, fuel - 1);
      case _ =>
    }
  }

  lemma {:induction false} LiteralOfAllIgnoresCommands(a: seq<Node>, b: seq<Node>, es: seq<nat>, fuel: nat)
    requires Wf(a) && Wf(b) && |a| == |b| && forall k :: 0 <= k < |es| ==> es[k] < |a|
    requires forall j :: 0 <= j < |a| ==> a[j].kind == b[j].kind && a[j].elements == b[j].elements
    ensures LiteralOfAll(a, es, fuel) == LiteralOfAll(b, es, fuel)
    decreases fuel, 1, |es|
  {
    if es != [] {
      LiteralIgnoresCommands(a, b, es[0], fuel);
      LiteralOfAllIgnoresCommands(a, b, es[1..], fuel);
    }
  }

  /** Reading the flags changes neither what is listed nor the entries. */
  lemma {:induction false} OutlineAfterReading(ns: seq<Node>, ns0: seq<Node>, seen: seq<nat>, es: seq<nat>)
    requires Wf(ns) && Wf(ns0) && AfterReading(ns, ns0, seen) && forall k :: 0 <= k < |es| ==> es[k] < |ns0|
    ensures OutlineOf(ns, es) == OutlineOf(ns0, es)
    decreases |es|
  {
    if es != [] {
      OutlineAfterReading(ns, ns0, seen, es[..|es| - 1]);
      var e := es[|es| - 1];
      assert ns[e] == TouchedNode(ns0, e, seen);
      TouchedKeepsListing(ns0[e].cmd);
      if Listed(ns, e) {
        assert forall j :: 0 <= j < |ns0| ==> ns[j].kind == ns0[j].kind && ns[j].elements == ns0[j].elements by {
          forall j | 0 <= j < |ns0| ensures ns[j].kind == ns0[j].kind && ns[j].elements == ns0[j].elements {
            assert ns[j] == TouchedNode(ns0, j, seen);
          }
        }
        assert NodeOk(ns0[e], |ns0|);
        LiteralIgnoresCommands(ns, ns0, ns0[e].kind.content, |ns0|);
      }
    }
  }

  /** Two rounds of reading are one round over both. */
  lemma ReadingComposes(ns2: seq<Node>, ns1: seq<Node>, ns0: seq<Node>, seen: seq<nat>, es: seq<nat>)
    requires AfterReading(ns1, ns0, seen) && AfterReading(ns2, ns1, es)
    ensures AfterReading(ns2, ns0, seen + es)
  {
    forall j | 0 <= j < |ns2| ensures ns2[j] == TouchedNode(ns0, j, seen + es) {
      assert ns1[j] == TouchedNode(ns0, j, seen);
      assert ns2[j] == TouchedNode(ns1, j, es);
      TouchedTwice(ns0[j].cmd);
    }
  }

  /** The outline `inserttoc` collects over all documents, in document order. */
  function DocsOutline(ns: seq<Node>, docs: seq<nat>): seq<Entry>
    requires Wf(ns) && forall k :: 0 <= k < |docs| ==> docs[k] < |ns|
  {
    if docs == [] then []
    else
      var d := docs[|docs| - 1];
      assert NodeOk(ns[d], |ns|);
      DocsOutline(ns, docs[..|docs| - 1]) + OutlineOf(ns, ns[d].elements)
  }

  /** Every element directly under one of the documents. */
  function TopElements(ns: seq<Node>, docs: seq<nat>): seq<nat>
    requires forall k :: 0 <= k < |docs| ==> docs[k] < |ns|
  {
    if docs == [] then [] else TopElements(ns, docs[..|docs| - 1]) + ns[docs[|docs| - 1]].elements
  }

  /** One turn of the loop over the documents, on `docs[i]`. */
  method ReadDocument(t: Tree, ns0: seq<Node>, docs: seq<nat>, i: nat, outline: seq<Entry>) returns (outline': seq<Entry>)
    requires t.Valid() && Wf(ns0) && i < |docs|
    requires forall k :: 0 <= k < |docs| ==> docs[k] < |ns0| && ns0[docs[k]].kind.Document?
    requires AfterReading(t.nodes, ns0, TopElements(ns0, docs[..i])) && outline == DocsOutline(ns0, docs[..i])
    modifies t
    ensures t.Valid() && AfterReading(t.nodes, ns0, TopElements(ns0, docs[..i + 1]))
    ensures outline' == DocsOutline(ns0, docs[..i + 1])
  {
    assert docs[..i + 1][..i] == docs[..i];
    var d := docs[i];
    ghost var ns1 := t.nodes;
    assert ns1[d] == TouchedNode(ns0, d, TopElements(ns0, docs[..i]));
    assert NodeOk(ns0[d], |ns0|);
    assert ns1[d].elements == ns0[d].elements;
    var more := CollectOutline(t, d);
    OutlineAfterReading(ns1, ns0, TopElements(ns0, docs[..i]), ns0[d].elements);
    assert more == OutlineOf(ns0, ns0[d].elements);
    ReadingComposes(t.nodes, ns1, ns0, TopElements(ns0, docs[..i]), ns0[d].elements);
    assert TopElements(ns0, docs[..i + 1]) == TopElements(ns0, docs[..i]) + ns0[d].elements;
    assert DocsOutline(ns0, docs[..i + 1]) == DocsOutline(ns0, docs[..i]) + more;
    outline' := outline + more;
  }

  /**
   * `inserttoc`, run by a command container in the main execute step:
   * collects the outline of all documents and builds its table of
   * contents, which lists every collected heading once, in order. In any
   * other step or on any other element nothing happens.
   */
  method InsertToc(t: Tree, e: nat, step: Phases.Step, docs: seq<nat>) returns (toc: Option<seq<Toc>>)
    requires t.Valid() && e < |t.nodes|
    requires forall k :: 0 <= k < |docs| ==> docs[k] < |t.nodes| && t.nodes[docs[k]].kind.Document?
    modifies t
    ensures t.Valid()
    ensures step != Phases.ProcExecuteMain || !old(t.nodes)[e].kind.CommandContainer? ==>
      toc.None? && t.nodes == old(t.nodes)
    ensures step == Phases.ProcExecuteMain && old(t.nodes)[e].kind.CommandContainer? ==>
      AfterReading(t.nodes, old(t.nodes), TopElements(old(t.nodes), docs)) &&
      (toc.None? <==> DocsOutline(old(t.nodes), docs) == []) &&
      (toc.Some? ==> FlatList(toc.value) == Links(DocsOutline(old(t.nodes), docs)))
  {
    if step != Phases.ProcExecuteMain || !t.nodes[e].kind.CommandContainer? {
      return None;
    }
    var ns0 := t.nodes;
    var outline := [];
    var i := 0;
    forall j | 0 <= j < |t.nodes| ensures t.nodes[j] == TouchedNode(ns0, j, []) {
    }
    while i < |docs|
      invariant 0 <= i <= |docs|
      invariant t.Valid() && AfterReading(t.nodes, ns0, TopElements(ns0, docs[..i]))
      invariant outline == DocsOutline(ns0, docs[..i])
    {
      outline := ReadDocument(t, ns0, docs, i, outline);
      i := i + 1;
    }
    assert docs[..i] == docs;
    toc := BuildToc(outline);
  }

  // ---------------------------------------------------------------------
  // usenum
  // ---------------------------------------------------------------------

  function DigitChar(d: nat): (c: char)
    requires d < 10
    ensures IsDigit(c) && DigitValue(c) == d
  {
    ('0' as int + d) as char
  }

  /** `std::to_string` of an unsigned number. */
  function ToDecimal(n: nat): (r: string)
    ensures r != [] && forall k :: 0 <= k < |r| ==> IsDigit(r[k])
    ensures |r| > 1 ==> r[0] != '0'
  {
    if n < 10 then [DigitChar(n)] else ToDecimal(n / 10) + [DigitChar(n % 10)]
  }

  /** Reading back a written number gives the number. */
  lemma {:induction false} DecimalRoundTrip(n: nat)
    ensures DecimalValue(ToDecimal(n)) == n
  {
    var r := ToDecimal(n);
    if n >= 10 {
      DecimalRoundTrip(n / 10);
      assert r[..|r| - 1] == ToDecimal(n / 10);
    } else {
      assert r[..0] == [];
    }
  }

  /** A written number is all digits, so `stoul` reads all of it. */
  lemma WrittenIsLeading(n: nat)
    ensures LeadingDigits(ToDecimal(n)) == ToDecimal(n)
  {
    LeadingAllDigits(ToDecimal(n));
  }

  lemma {:induction false} LeadingAllDigits(s: string)
    requires forall k :: 0 <= k < |s| ==> IsDigit(s[k])
    ensures LeadingDigits(s) == s
    decreases |s|
  {
    if s != [] {
      LeadingAllDigits(s[1..]);
    }
  }

  /** The largest `unsigned long`, taking it to be 64 bits wide as on the usual LP64 platforms. */
  const ULongMax: nat := 0xFFFF_FFFF_FFFF_FFFF

  /** The number `usenum` writes: the argument when it starts with a digit, else the item's index. */
  function NumberOf(index: nat, args: seq<string>): nat
  {
    if |args| > 0 && |args[0]| > 0 && IsDigit(args[0][0]) then DecimalValue(LeadingDigits(args[0])) else index
  }

  /**
   * `usenum`: in the main execute step, an element directly inside a list
   * element sets that list element's `value` attribute to the written
   * number; in any other case nothing changes. `stoul` throws on a number
   * beyond `unsigned long`, which callers must not pass.
   */
  method UseNum(t: Tree, e: nat, step: Phases.Step, args: seq<string>)
    requires t.Valid() && e < |t.nodes|
    requires |args| > 0 && |args[0]| > 0 && IsDigit(args[0][0]) ==> DecimalValue(LeadingDigits(args[0])) <= ULongMax
    modifies t
    ensures t.Valid()
    ensures var ns := old(t.nodes);
      var p := ns[e].parent;
      t.nodes == if step != Phases.ProcExecuteMain || p < 0 || !ns[p].kind.ListElement? then ns
        else ns[p := ns[p].(cmd := ns[p].cmd.(attributes := ns[p].cmd.attributes["value" := ToDecimal(NumberOf(ns[p].kind.index, args))]))]
  {
    if step != Phases.ProcExecuteMain {
      return;
    }
    var p := t.nodes[e].parent;
    if p < 0 || !t.nodes[p].kind.ListElement? {
      return;
    }
    var num := t.nodes[p].kind.index;
    if |args| > 0 && |args[0]| > 0 && IsDigit(args[0][0]) {
      num := ParseULong(args[0]);
    }
    var c := t.nodes[p].cmd;
    t.SetCommand(p, c.(attributes := c.attributes["value" := ToDecimal(num)]));
  }

  /** `stoul` on a string that starts with a digit: the value of its leading digits. */
  method ParseULong(s: string) returns (n: nat)
    requires |s| > 0 && IsDigit(s[0])
    ensures n == DecimalValue(LeadingDigits(s))
  {
    n := 0;
    var k := 0;
    var ds := LeadingDigits(s);
    while k < |s| && IsDigit(s[k])
      invariant 0 <= k <= |ds|
      invariant ds[..k] == s[..k]
      invariant n == DecimalValue(ds[..k])
    {
      LeadingPrefix(s, k);
      assert ds[..k + 1][..k] == ds[..k];
      n := n * 10 + DigitValue(s[k]);
      k := k + 1;
    }
    assert k == |ds|;
    assert ds[..k] == ds;
  }

  /** Inside the leading run, the digits are the string's own. */
  lemma LeadingPrefix(s: string, k: nat)
    requires k <= |s| && forall j :: 0 <= j < k ==> IsDigit(s[j])
    ensures k <= |LeadingDigits(s)| && LeadingDigits(s)[..k] == s[..k]
    ensures k < |s| && IsDigit(s[k]) ==> k < |LeadingDigits(s)| && LeadingDigits(s)[k] == s[k]
    decreases k
  {
    if k > 0 {
      LeadingPrefix(s[1..], k - 1);
    } else if |s| > 0 && IsDigit(s[0]) {
      assert LeadingDigits(s)[0] == s[0];
    }
  }

  /** The value `usenum` writes reads back as the number it chose. */
  lemma UseNumReadsBack(index: nat, args: seq<string>)
    ensures DecimalValue(LeadingDigits(ToDecimal(NumberOf(index, args)))) == NumberOf(index, args)
  {
    WrittenIsLeading(NumberOf(index, args));
    DecimalRoundTrip(NumberOf(index, args));
  }
}
