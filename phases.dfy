/**
 * The phase walk over the document tree: `process` visits an element's
 * walked sub-element and children before running the element's own hook
 * for the step (`_register`, `_resolve`, `_consume`, `_execute`).
 */
module Phases {
  import opened Util
  import opened Command
  import Cmd = Command
  import opened Ids
  import opened Ast

  /** `ASTProcess`, with the Identify step the hooks know about. */
  datatype Step = ProcRegister | ProcResolve | ProcIdentify | ProcConsume | ProcExecutePrep | ProcExecuteMain | ProcExecutePost

  predicate IsExecute(s: Step)
  {
    s == ProcExecutePrep || s == ProcExecuteMain || s == ProcExecutePost
  }

  // ---------------------------------------------------------------------
  // Visiting order
  // ---------------------------------------------------------------------

  /**
   * The order in which `process` runs hooks below and at `i`: first the
   * walked sub-element (a heading's text, a code block's command line, a
   * collapse block's summary), then each list child in order, then `i`.
   */
  function PostOrder(ns: seq<Node>, i: nat, fuel: nat): seq<nat>
    requires Wf(ns) && i < |ns|
    decreases fuel, 0
  {
    if fuel == 0 then []
    else
      assert NodeOk(ns[i], |ns|);
      var pre := match Walked(ns[i].kind)
        case Some(w) => PostOrder(ns, w, fuel - 1)
        case None => [];
      var kids := if IsListKind(ns[i].kind) then ChildOrder(ns, ns[i].elements, fuel - 1) else [];
      pre + kids + [i]
  }

  function ChildOrder(ns: seq<Node>, es: seq<nat>, fuel: nat): seq<nat>
    requires Wf(ns) && forall k :: 0 <= k < |es| ==> es[k] < |ns|
    decreases fuel, 1, |es|
  {
    if es == [] then []
    else ChildOrder(ns, es[..|es| - 1], fuel) + PostOrder(ns, es[|es| - 1], fuel)
  }

  /** Everything `process` visits is an arena index. */
  predicate InArena(ns: seq<Node>, order: seq<nat>)
  {
    forall k :: 0 <= k < |order| ==> order[k] < |ns|
  }

  lemma {:induction false} PostOrderInArena(ns: seq<Node>, i: nat, fuel: nat)
    requires Wf(ns) && i < |ns|
    ensures InArena(ns, PostOrder(ns, i, fuel))
    decreases fuel, 0
  {
    if fuel > 0 {
      assert NodeOk(ns[i], |ns|);
      var w := Walked(ns[i].kind);
      if w.Some? { PostOrderInArena(ns, w.value, fuel - 1); }
      if IsListKind(ns[i].kind) { ChildOrderInArena(ns, ns[i].elements, fuel - 1); }
    }
  }

  lemma {:induction false} ChildOrderInArena(ns: seq<Node>, es: seq<nat>, fuel: nat)
    requires Wf(ns) && forall k :: 0 <= k < |es| ==> es[k] < |ns|
    ensures InArena(ns, ChildOrder(ns, es, fuel))
    decreases fuel, 1, |es|
  {
    if es != [] {
      ChildOrderInArena(ns, es[..|es| - 1], fuel);
      PostOrderInArena(ns, es[|es| - 1], fuel);
    }
  }

  /**
   * Post-order: an element's hook runs last, after the hook of every one
   * of its children (given enough depth for the children to be reached).
   */
  lemma {:induction false} PostOrderSelfLast(ns: seq<Node>, i: nat, fuel: nat)
    requires Wf(ns) && i < |ns| && fuel > 0
    ensures |PostOrder(ns, i, fuel)| > 0 && PostOrder(ns, i, fuel)[|PostOrder(ns, i, fuel)| - 1] == i
    ensures fuel > 1 && IsListKind(ns[i].kind) ==>
      forall k :: 0 <= k < |ns[i].elements| ==> ns[i].elements[k] in PostOrder(ns, i, fuel)[..|PostOrder(ns, i, fuel)| - 1]
    decreases fuel, 0
  {
    if fuel > 1 && IsListKind(ns[i].kind) {
      assert NodeOk(ns[i], |ns|);
      var es := ns[i].elements;
      forall k | 0 <= k < |es| ensures es[k] in ChildOrder(ns, es, fuel - 1) {
        ChildVisited(ns, es, fuel - 1, k);
      }
      var r := PostOrder(ns, i, fuel);
      var pre := match Walked(ns[i].kind) case Some(w) => PostOrder(ns, w, fuel - 1) case None => [];
      assert r == pre + ChildOrder(ns, es, fuel - 1) + [i];
      assert r[..|r| - 1] == pre + ChildOrder(ns, es, fuel - 1);
    }
  }

  lemma {:induction false} ChildVisited(ns: seq<Node>, es: seq<nat>, fuel: nat, k: nat)
    requires Wf(ns) && (forall j :: 0 <= j < |es| ==> es[j] < |ns|) && k < |es| && fuel > 0
    ensures es[k] in ChildOrder(ns, es, fuel)
    decreases fuel, 1, |es|
  {
    var init := es[..|es| - 1];
    if k == |es| - 1 {
      PostOrderSelfLast(ns, es[k], fuel);
    } else {
      assert init[k] == es[k];
      ChildVisited(ns, init, fuel, k);
    }
  }

  /** What the walk depends on (children, walked sub-element, list-ness), and which elements are documents. */
  predicate SameShape(a: seq<Node>, b: seq<Node>)
  {
    |a| == |b| &&
    forall i :: 0 <= i < |a| ==>
      a[i].elements == b[i].elements && Walked(a[i].kind) == Walked(b[i].kind) &&
      IsListKind(a[i].kind) == IsListKind(b[i].kind) && a[i].parent == b[i].parent &&
      a[i].kind.Document? == b[i].kind.Document?
  }

  lemma SameShapeTrans(a: seq<Node>, b: seq<Node>, c: seq<Node>)
    requires SameShape(a, b) && SameShape(b, c)
    ensures SameShape(a, c)
  {
  }

  /** Hooks that keep the shape keep the visiting order. */
  lemma {:induction false} ShapeKeepsOrder(a: seq<Node>, b: seq<Node>, i: nat, fuel: nat)
    requires Wf(a) && Wf(b) && SameShape(a, b) && i < |a|
    ensures PostOrder(a, i, fuel) == PostOrder(b, i, fuel)
    decreases fuel, 0
  {
    if fuel > 0 {
      assert NodeOk(a[i], |a|);
      var w := Walked(a[i].kind);
      if w.Some? { ShapeKeepsOrder(a, b, w.value, fuel - 1); }
      if IsListKind(a[i].kind) { ShapeKeepsChildOrder(a, b, a[i].elements, fuel - 1); }
    }
  }

  lemma {:induction false} ShapeKeepsChildOrder(a: seq<Node>, b: seq<Node>, es: seq<nat>, fuel: nat)
    requires Wf(a) && Wf(b) && SameShape(a, b) && forall k :: 0 <= k < |es| ==> es[k] < |a|
    ensures ChildOrder(a, es, fuel) == ChildOrder(b, es, fuel)
    decreases fuel, 1, |es|
  {
    if es != [] {
      ShapeKeepsChildOrder(a, b, es[..|es| - 1], fuel);
      ShapeKeepsOrder(a, b, es[|es| - 1], fuel);
    }
  }

  // ---------------------------------------------------------------------
  // Register
  // ---------------------------------------------------------------------

  /** The registry key of an id definition: its type character, then its id. */
  function DefinitionKey(defType: char, defId: string): string
  {
    [defType] + defId
  }

  /**
   * `ASTCommandContainer::_register`: a container without a generator hands
   * its command to the nearest non-inline ancestor (which integrates it)
   * and is left with an empty command. A container with a generator, or
   * without a reachable ancestor, keeps its command.
   */
  method RegisterContainer(t: Tree, i: nat)
    requires t.Valid() && i < |t.nodes| && t.nodes[i].kind.CommandContainer?
    modifies t
    ensures t.Valid() && SameShape(old(t.nodes), t.nodes)
    ensures var ns := old(t.nodes);
      var c := ContainingElement(ns, i, |ns|);
      t.nodes == if ns[i].cmd.genFunction.name != "" || c.None? then ns
        else ns[c.value := ns[c.value].(cmd := Integrate(ns[c.value].cmd, ns[i].cmd))][i := ns[i].(cmd := Empty)]
  {
    if t.nodes[i].cmd.genFunction.name != "" {
      return;
    }
    var c := ContainingElement(t.nodes, i, |t.nodes|);
    if c.None? {
      return;
    }
    var merged := IntegrateCommands(t.nodes[c.value].cmd, t.nodes[i].cmd);
    t.SetCommand(c.value, merged);
    t.SetCommand(i, Empty);
  }

  /** Replaces the kind of element `i` by one with the same walk. */
  method SetKind(t: Tree, i: nat, k: Kind)
    requires t.Valid() && i < |t.nodes| && RefsBelow(k, |t.nodes|)
    requires IsListKind(k) == IsListKind(t.nodes[i].kind) && Walked(k) == Walked(t.nodes[i].kind)
    requires k.Document? == t.nodes[i].kind.Document?
    modifies t
    ensures t.Valid() && SameShape(old(t.nodes), t.nodes)
    ensures t.nodes == old(t.nodes)[i := old(t.nodes)[i].(kind := k)]
  {
    t.nodes := t.nodes[i := t.nodes[i].(kind := k)];
    assert forall j :: 0 <= j < |t.nodes| ==> NodeOk(t.nodes[j], |t.nodes|) by {
      forall j | 0 <= j < |t.nodes| ensures NodeOk(t.nodes[j], |t.nodes|) {
        assert NodeOk(old(t.nodes)[j], |t.nodes|);
      }
    }
  }

  /** Adds `key -> i` to a document's `iddef`. */
  method Enroll(t: Tree, d: nat, key: string, i: nat)
    requires t.Valid() && d < |t.nodes| && i < |t.nodes| && t.nodes[d].kind.Document?
    modifies t
    ensures t.Valid() && SameShape(old(t.nodes), t.nodes)
    ensures t.nodes == old(t.nodes)[d := old(t.nodes)[d].(kind := Document(old(t.nodes)[d].kind.iddef[key := i]))]
  {
    assert NodeOk(t.nodes[d], |t.nodes|);
    SetKind(t, d, Document(t.nodes[d].kind.iddef[key := i]));
  }

  /**
   * `ASTIdDefinition::_register`: the definition enters its document's
   * `iddef` under its type character followed by its id; a `{` definition
   * also takes its id as the command's `refName`. Without a document
   * nothing happens.
   */
  method RegisterDefinition(t: Tree, i: nat)
    requires t.Valid() && i < |t.nodes| && t.nodes[i].kind.IdDefinition?
    modifies t
    ensures t.Valid() && SameShape(old(t.nodes), t.nodes)
    ensures var ns := old(t.nodes);
      var k := ns[i].kind;
      var d := GetDocument(ns, i, |ns|);
      d.None? ==> t.nodes == ns
    ensures var ns := old(t.nodes);
      var k := ns[i].kind;
      var d := GetDocument(ns, i, |ns|);
      d.Some? ==>
        t.nodes[d.value].kind.Document? && t.nodes[d.value].kind.iddef == ns[d.value].kind.iddef[DefinitionKey(k.defType, k.defId) := i] &&
        t.nodes[i].cmd == (if k.defType == '{' then ns[i].cmd.(refName := k.defId) else ns[i].cmd) &&
        forall j :: 0 <= j < |ns| && j != i && j != d.value ==> t.nodes[j] == ns[j]
  {
    var k := t.nodes[i].kind;
    var d := GetDocument(t.nodes, i, |t.nodes|);
    if d.None? {
      return;
    }
    Enroll(t, d.value, DefinitionKey(k.defType, k.defId), i);
    if k.defType == '{' {
      t.SetCommand(i, t.nodes[i].cmd.(refName := k.defId));
    }
  }

  /** `ASTFootnoteBlock::_register`: the block enters its document's `iddef` under `"^" + id`. */
  method RegisterFootnote(t: Tree, i: nat)
    requires t.Valid() && i < |t.nodes| && t.nodes[i].kind.FootnoteBlock?
    modifies t
    ensures t.Valid() && SameShape(old(t.nodes), t.nodes)
    ensures var ns := old(t.nodes);
      var d := GetDocument(ns, i, |ns|);
      t.nodes == if d.None? then ns
        else ns[d.value := ns[d.value].(kind := Document(ns[d.value].kind.iddef["^" + ns[i].kind.footId := i]))]
  {
    var d := GetDocument(t.nodes, i, |t.nodes|);
    if d.Some? {
      Enroll(t, d.value, "^" + t.nodes[i].kind.footId, i);
    }
  }

  /** `ASTHeading::_identify`: the heading enters its document's `iddef` under `"#" + id`. */
  method IdentifyHeading(t: Tree, i: nat)
    requires t.Valid() && i < |t.nodes| && t.nodes[i].kind.Heading?
    modifies t
    ensures t.Valid() && SameShape(old(t.nodes), t.nodes)
    ensures var ns := old(t.nodes);
      var d := GetDocument(ns, i, |ns|);
      t.nodes == if d.None? then ns
        else ns[d.value := ns[d.value].(kind := Document(ns[d.value].kind.iddef["#" + ns[i].cmd.id := i]))]
  {
    var d := GetDocument(t.nodes, i, |t.nodes|);
    if d.Some? {
      Enroll(t, d.value, "#" + t.nodes[i].cmd.id, i);
    }
  }

  // ---------------------------------------------------------------------
  // Resolve
  // ---------------------------------------------------------------------

  /** The registry only names arena elements. */
  predicate RegistryOk(ns: seq<Node>, shared: map<string, nat>)
  {
    forall k :: k in shared ==> shared[k] < |ns|
  }

  /** What `request(key)` followed by a cast to `ASTIdDefinition*` sees: the id definitions of the registry. */
  function Definitions(ns: seq<Node>, shared: map<string, nat>): map<string, Command>
    requires RegistryOk(ns, shared)
  {
    map k | k in shared && ns[shared[k]].kind.IdDefinition? :: ns[shared[k]].cmd
  }

  /** The registry key a `%target` url (or, failing that, the content text) is looked up under. */
  function TargetKey(ns: seq<Node>, url: string, inner: nat): string
    requires Wf(ns) && inner < |ns| && |url| > 0
  {
    var id := MakeIdOf(url[1..]);
    var id2 := if id == [] && !IsEmpty(ns, inner, |ns|) then MakeIdOf(LiteralText(ns, inner, |ns|)) else id;
    "(" + id2
  }

  /**
   * `_resolve` of links, images and footnotes: a url starting with `%`
   * names an id definition (by `"(" + makeId(rest)`, or by the id of the
   * content text when the rest yields none). On a hit the url becomes the
   * definition's url and its command is integrated; on a miss the url stays.
   * The command's references are resolved either way.
   */
  method ResolveModifier(t: Tree, i: nat, shared: map<string, nat>)
    requires t.Valid() && i < |t.nodes| && t.nodes[i].kind.Modifier? && RegistryOk(t.nodes, shared)
    modifies t
    ensures t.Valid() && SameShape(old(t.nodes), t.nodes)
    ensures var ns := old(t.nodes);
      var n := ns[i];
      var url := n.kind.url;
      var hit := TargetHit(ns, i, shared);
      t.nodes == ns[i := n.(
        kind := Modifier(n.kind.mod, if hit.Some? then ns[hit.value].kind.url else url, n.kind.inner),
        cmd := Resolved(if hit.Some? then Integrate(n.cmd, ns[hit.value].cmd) else n.cmd, Definitions(ns, shared)).0)]
  {
    var n := t.nodes[i];
    assert NodeOk(n, |t.nodes|);
    var hit := FindTarget(t, i, shared);
    var url := n.kind.url;
    var c := n.cmd;
    if hit.Some? {
      url := t.nodes[hit.value].kind.url;
      c := IntegrateCommands(c, t.nodes[hit.value].cmd);
    }
    c := Cmd.Resolve(c, Definitions(t.nodes, shared));
    SetKind(t, i, Modifier(n.kind.mod, url, n.kind.inner));
    t.SetCommand(i, c);
  }

  /** The lookup of a `%` url, as `_resolve` performs it. */
  method FindTarget(t: Tree, i: nat, shared: map<string, nat>) returns (hit: Option<nat>)
    requires t.Valid() && i < |t.nodes| && t.nodes[i].kind.Modifier? && RegistryOk(t.nodes, shared)
    ensures hit == TargetHit(t.nodes, i, shared)
  {
    var n := t.nodes[i];
    assert NodeOk(n, |t.nodes|);
    var url := n.kind.url;
    hit := None;
    if |url| > 0 && url[0] == '%' {
      var id := MakeId(url[1..]);
      if id == [] && !IsEmpty(t.nodes, n.kind.inner, |t.nodes|) {
        id := MakeId(LiteralText(t.nodes, n.kind.inner, |t.nodes|));
      }
      var key := "(" + id;
      assert key == TargetKey(t.nodes, url, n.kind.inner);
      if key in shared && t.nodes[shared[key]].kind.IdDefinition? {
        hit := Some(shared[key]);
      }
    }
  }

  /** The id definition a `%` url resolves to, if any. */
  function TargetHit(ns: seq<Node>, i: nat, shared: map<string, nat>): (r: Option<nat>)
    requires Wf(ns) && i < |ns| && ns[i].kind.Modifier? && RegistryOk(ns, shared)
    ensures r.Some? ==> r.value < |ns| && ns[r.value].kind.IdDefinition?
  {
    var url := ns[i].kind.url;
    assert NodeOk(ns[i], |ns|);
    if |url| > 0 && url[0] == '%' && TargetKey(ns, url, ns[i].kind.inner) in shared
       && ns[shared[TargetKey(ns, url, ns[i].kind.inner)]].kind.IdDefinition?
    then Some(shared[TargetKey(ns, url, ns[i].kind.inner)])
    else None
  }

  /** A url that does not start with `%` is never replaced, and neither is one whose target is missing. */
  lemma TargetMissKeepsUrl(ns: seq<Node>, i: nat, shared: map<string, nat>)
    requires Wf(ns) && i < |ns| && ns[i].kind.Modifier? && RegistryOk(ns, shared)
    ensures (|ns[i].kind.url| == 0 || ns[i].kind.url[0] != '%') ==> TargetHit(ns, i, shared).None?
    ensures |ns[i].kind.url| > 0 && ns[i].kind.url[0] == '%' ==>
      (TargetHit(ns, i, shared).Some? <==>
        TargetKey(ns, ns[i].kind.url, ns[i].kind.inner) in shared &&
        ns[shared[TargetKey(ns, ns[i].kind.url, ns[i].kind.inner)]].kind.IdDefinition?)
  {
  }

  /** `_ASTElement::_resolve`: the command's references are resolved against the registry. */
  method ResolveCommand(t: Tree, i: nat, shared: map<string, nat>)
    requires t.Valid() && i < |t.nodes| && RegistryOk(t.nodes, shared)
    modifies t
    ensures t.Valid() && SameShape(old(t.nodes), t.nodes)
    ensures t.nodes == old(t.nodes)[i := old(t.nodes)[i].(cmd := Resolved(old(t.nodes)[i].cmd, Definitions(old(t.nodes), shared)).0)]
  {
    var r := Cmd.Resolve(t.nodes[i].cmd, Definitions(t.nodes, shared));
    t.SetCommand(i, r);
  }

  /** The first child of a list node, if it has one. */
  function FirstChild(ns: seq<Node>, i: nat): Option<nat>
    requires i < |ns|
  {
    if |ns[i].elements| > 0 then Some(ns[i].elements[0]) else None
  }

  /**
   * The structure `ASTTask::_resolve` demands: the task is the first
   * element of an inline text, which is the first element of a paragraph,
   * which is the first element of a list element inside an unordered list.
   * Yields that list element.
   */
  function TaskItem(ns: seq<Node>, i: nat): (r: Option<nat>)
    requires Wf(ns) && i < |ns|
    ensures r.Some? ==> r.value < |ns| && ns[r.value].kind.ListElement?
    ensures r.Some? ==> 0 <= ns[i].parent < |ns| && ns[ns[i].parent].kind.InlineText? && FirstChild(ns, ns[i].parent) == Some(i)
    ensures r.Some? ==> 0 <= ns[r.value].parent < |ns| && ns[ns[r.value].parent].kind.UnorderedList?
  {
    var text := ns[i].parent;
    if text < 0 || !ns[text].kind.InlineText? || FirstChild(ns, text) != Some(i) then None
    else
      var par := ns[text].parent;
      if par < 0 || !ns[par].kind.Paragraph? || FirstChild(ns, par) != Some(text as nat) then None
      else
        var elem := ns[par].parent;
        if elem < 0 || !ns[elem].kind.ListElement? || FirstChild(ns, elem) != Some(par as nat) then None
        else
          var list := ns[elem].parent;
          if list < 0 || !ns[list].kind.UnorderedList? then None
          else Some(elem as nat)
  }

  /**
   * `ASTTask::_resolve`: the task is valid exactly when it sits in the
   * structure above; then its list element gets the class
   * `nd-task-list-item`. The task's own command is not resolved.
   */
  method ResolveTask(t: Tree, i: nat)
    requires t.Valid() && i < |t.nodes| && t.nodes[i].kind.Task?
    modifies t
    ensures t.Valid() && SameShape(old(t.nodes), t.nodes)
    ensures var ns := old(t.nodes);
      var e := TaskItem(ns, i);
      var ns1 := ns[i := ns[i].(kind := Task(ns[i].kind.checked, e.Some?))];
      t.nodes == if e.None? then ns1
        else ns1[e.value := ns1[e.value].(cmd := ns1[e.value].cmd.(classes := ns1[e.value].cmd.classes + {"nd-task-list-item"}))]
  {
    var e := TaskItem(t.nodes, i);
    SetKind(t, i, Task(t.nodes[i].kind.checked, e.Some?));
    if e.Some? {
      var c := t.nodes[e.value].cmd;
      t.SetCommand(e.value, c.(classes := c.classes + {"nd-task-list-item"}));
    }
  }

  // ---------------------------------------------------------------------
  // Consume
  // ---------------------------------------------------------------------

  /** What `_ASTListElement::_consume` folds into `c`: the commands of the consumable children, in order. */
  function Consumed(c: Command, ns: seq<Node>, es: seq<nat>): Command
    requires Wf(ns) && forall k :: 0 <= k < |es| ==> es[k] < |ns|
  {
    if es == [] then c
    else
      var prev := Consumed(c, ns, es[..|es| - 1]);
      var e := es[|es| - 1];
      if CanConsume(ns, e, |ns|) then Integrate(prev, ns[e].cmd) else prev
  }

  /**
   * Consuming never overrides what the element already states: existing
   * attribute, style and flag entries keep their values, a non-empty id and
   * title stay, and classes only grow.
   */
  lemma {:induction false} ConsumedKeeps(c: Command, ns: seq<Node>, es: seq<nat>)
    requires Wf(ns) && forall k :: 0 <= k < |es| ==> es[k] < |ns|
    ensures var r := Consumed(c, ns, es);
      (forall k :: k in c.attributes ==> k in r.attributes && r.attributes[k] == c.attributes[k]) &&
      (forall k :: k in c.css ==> k in r.css && r.css[k] == c.css[k]) &&
      (forall k :: k in c.flags ==> k in r.flags && r.flags[k] == c.flags[k]) &&
      (c.id != "" ==> r.id == c.id) && (c.title != "" ==> r.title == c.title) &&
      c.classes <= r.classes
    decreases |es|
  {
    if es != [] {
      ConsumedKeeps(c, ns, es[..|es| - 1]);
    }
  }

  /** With no consumable child, consuming changes nothing. */
  lemma {:induction false} ConsumedNothing(c: Command, ns: seq<Node>, es: seq<nat>)
    requires Wf(ns) && forall k :: 0 <= k < |es| ==> es[k] < |ns|
    requires forall k :: 0 <= k < |es| ==> !CanConsume(ns, es[k], |ns|)
    ensures Consumed(c, ns, es) == c
    decreases |es|
  {
    if es != [] {
      ConsumedNothing(c, ns, es[..|es| - 1]);
    }
  }

  /** Every class of a consumable child ends up on the element. */
  lemma {:induction false} ConsumedGathersClasses(c: Command, ns: seq<Node>, es: seq<nat>, k: nat)
    requires Wf(ns) && (forall j :: 0 <= j < |es| ==> es[j] < |ns|) && k < |es|
    requires CanConsume(ns, es[k], |ns|)
    ensures ns[es[k]].cmd.classes <= Consumed(c, ns, es).classes
    decreases |es|
  {
    var init := es[..|es| - 1];
    if k < |es| - 1 {
      assert init[k] == es[k];
      ConsumedGathersClasses(c, ns, init, k);
    }
  }

  /** `_ASTListElement::_consume`: integrates each consumable child's command, in child order. */
  method ConsumeChildren(t: Tree, i: nat)
    requires t.Valid() && i < |t.nodes| && IsListKind(t.nodes[i].kind)
    modifies t
    ensures t.Valid() && SameShape(old(t.nodes), t.nodes)
    ensures t.nodes == old(t.nodes)[i := old(t.nodes)[i].(cmd := Consumed(old(t.nodes)[i].cmd, old(t.nodes), old(t.nodes)[i].elements))]
  {
    var ns := t.nodes;
    assert NodeOk(ns[i], |ns|);
    var es := ns[i].elements;
    var c := ns[i].cmd;
    var k := 0;
    while k < |es|
      invariant 0 <= k <= |es|
      invariant t.nodes == ns
      invariant c == Consumed(ns[i].cmd, ns, es[..k])
    {
      assert es[..k + 1][..k] == es[..k];
      if CanConsume(ns, es[k], |ns|) {
        c := IntegrateCommands(c, ns[es[k]].cmd);
      }
      k := k + 1;
    }
    assert es[..k] == es;
    t.SetCommand(i, c);
  }

  /** The command a heading ends up with after `_consume`. */
  function HeadingConsumed(ns: seq<Node>, i: nat): Command
    requires Wf(ns) && i < |ns| && ns[i].kind.Heading?
  {
    assert NodeOk(ns[i], |ns|) && RefsBelow(ns[i].kind, |ns|);
    var content := ns[i].kind.content;
    assert content < |ns|;
    var c := if IsEmpty(ns, content, |ns|) then Integrate(ns[i].cmd, ns[content].cmd) else ns[i].cmd;
    if c.id == "" then c.(id := MakeIdOf(LiteralText(ns, content, |ns|))) else c
  }

  /** A heading always leaves Consume with the id it had, or with the id made from its text, which is well formed. */
  lemma HeadingIdDerived(ns: seq<Node>, i: nat)
    requires Wf(ns) && i < |ns| && ns[i].kind.Heading?
    ensures ns[i].cmd.id != "" ==> HeadingConsumed(ns, i).id == ns[i].cmd.id
    ensures WellFormedId(HeadingConsumed(ns, i).id) || HeadingConsumed(ns, i).id == ns[i].cmd.id ||
      HeadingConsumed(ns, i).id == ns[ns[i].kind.content].cmd.id
    ensures HeadingConsumed(ns, i).attributes.Keys >= ns[i].cmd.attributes.Keys
  {
    assert NodeOk(ns[i], |ns|);
    var content := ns[i].kind.content;
    MakeIdWellFormed(LiteralText(ns, content, |ns|));
  }

  /**
   * `ASTHeading::_consume`: an empty heading text gives its command to the
   * heading; a heading still without an id gets `makeId` of its text.
   */
  method ConsumeHeading(t: Tree, i: nat)
    requires t.Valid() && i < |t.nodes| && t.nodes[i].kind.Heading?
    modifies t
    ensures t.Valid() && SameShape(old(t.nodes), t.nodes)
    ensures t.nodes == old(t.nodes)[i := old(t.nodes)[i].(cmd := HeadingConsumed(old(t.nodes), i))]
  {
    assert NodeOk(t.nodes[i], |t.nodes|);
    var content := t.nodes[i].kind.content;
    var c := t.nodes[i].cmd;
    if IsEmpty(t.nodes, content, |t.nodes|) {
      c := IntegrateCommands(c, t.nodes[content].cmd);
    }
    if c.id == "" {
      var id := MakeId(LiteralText(t.nodes, content, |t.nodes|));
      c := c.(id := id);
    }
    t.SetCommand(i, c);
  }

  // ---------------------------------------------------------------------
  // Execute
  // ---------------------------------------------------------------------

  /** One function call made during an Execute step: who made it and what was called. */
  datatype Call = Call(caller: nat, inv: Invocation)

  function Tag(caller: nat, invs: seq<Invocation>): seq<Call>
  {
    if invs == [] then [] else [Call(caller, invs[0])] + Tag(caller, invs[1..])
  }

  /** The calls `execute` makes at element `e`. */
  function CallsAt(ns: seq<Node>, e: nat, funcs: set<string>): seq<Call>
  {
    if e < |ns| then Tag(e, GenCall(ns[e].cmd, funcs) + ModCalls(ns[e].cmd.modFunctions, funcs)) else []
  }

  /** The calls `execute` makes at each visited element, in visiting order. */
  function CallsAlong(ns: seq<Node>, order: seq<nat>, funcs: set<string>): seq<Call>
  {
    if order == [] then [] else CallsAt(ns, order[0], funcs) + CallsAlong(ns, order[1..], funcs)
  }

  // ---------------------------------------------------------------------
  // The walk
  // ---------------------------------------------------------------------

  /** `_ASTElement::process`: the hook of one element for one step. */
  method Hook(t: Tree, i: nat, step: Step, shared: map<string, nat>, funcs: set<string>) returns (calls: seq<Call>)
    requires t.Valid() && i < |t.nodes| && RegistryOk(t.nodes, shared)
    modifies t
    ensures t.Valid() && SameShape(old(t.nodes), t.nodes)
    ensures IsExecute(step) ==> t.nodes == old(t.nodes) && calls == CallsAt(old(t.nodes), i, funcs)
    ensures !IsExecute(step) ==> calls == []
  {
    calls := [];
    var k := t.nodes[i].kind;
    match step {
      case ProcRegister =>
        if k.CommandContainer? {
          RegisterContainer(t, i);
        } else if k.IdDefinition? {
          RegisterDefinition(t, i);
        } else if k.FootnoteBlock? {
          RegisterFootnote(t, i);
        }
      case ProcResolve =>
        if k.Modifier? && (k.mod == Link || k.mod == Image || k.mod == Footnote) {
          ResolveModifier(t, i, shared);
        } else if k.Task? {
          ResolveTask(t, i);
        } else {
          ResolveCommand(t, i, shared);
        }
      case ProcIdentify =>
        if k.Heading? {
          IdentifyHeading(t, i);
        }
      case ProcConsume =>
        if k.Heading? {
          ConsumeHeading(t, i);
        } else if IsListKind(k) && !k.InlineText? {
          ConsumeChildren(t, i);
        }
      case _ =>
        var invs := Cmd.Execute(t.nodes[i].cmd, funcs);
        calls := Tag(i, invs);
    }
  }

  /**
   * `process(step)` on element `i`: the walked sub-element, then the
   * children in order, then the element's own hook; `visited` lists the
   * elements whose hook ran, in that order. The walk never changes the
   * tree's shape, and an Execute step changes nothing in the tree and makes
   * exactly the calls `execute` makes along the post-order.
   */
  method Process(t: Tree, i: nat, step: Step, shared: map<string, nat>, funcs: set<string>, fuel: nat)
    returns (visited: seq<nat>, calls: seq<Call>)
    requires t.Valid() && i < |t.nodes| && RegistryOk(t.nodes, shared)
    modifies t
    ensures t.Valid() && SameShape(old(t.nodes), t.nodes)
    ensures visited == PostOrder(old(t.nodes), i, fuel)
    ensures InArena(old(t.nodes), visited)
    ensures IsExecute(step) ==> t.nodes == old(t.nodes) && calls == CallsAlong(old(t.nodes), visited, funcs)
    ensures !IsExecute(step) ==> calls == []
    decreases fuel, 1
  {
    PostOrderInArena(t.nodes, i, fuel);
    if fuel == 0 {
      return [], [];
    }
    ghost var ns0 := t.nodes;
    PostOrderParts(ns0, i, fuel);
    visited, calls := ProcessBelow(t, i, step, shared, funcs, fuel);
    ghost var before := t.nodes;
    var cs := Hook(t, i, step, shared, funcs);
    SameShapeTrans(ns0, before, t.nodes);
    CallsAlongAppend(ns0, visited, [i], funcs);
    assert CallsAlong(ns0, [i], funcs) == CallsAt(ns0, i, funcs) by {
      assert [i][1..] == [];
    }
    visited := visited + [i];
    calls := calls + cs;
  }

  /** The visiting order of an element's walked sub-element. */
  function WalkedOrder(ns: seq<Node>, i: nat, fuel: nat): seq<nat>
    requires Wf(ns) && i < |ns|
  {
    assert NodeOk(ns[i], |ns|);
    match Walked(ns[i].kind)
    case Some(w) => PostOrder(ns, w, fuel)
    case None => []
  }

  /** The visiting order of an element's list children. */
  function KidsOrder(ns: seq<Node>, i: nat, fuel: nat): seq<nat>
    requires Wf(ns) && i < |ns|
  {
    assert NodeOk(ns[i], |ns|);
    if IsListKind(ns[i].kind) then ChildOrder(ns, ns[i].elements, fuel) else []
  }

  lemma PostOrderParts(ns: seq<Node>, i: nat, fuel: nat)
    requires Wf(ns) && i < |ns| && fuel > 0
    ensures PostOrder(ns, i, fuel) == WalkedOrder(ns, i, fuel - 1) + KidsOrder(ns, i, fuel - 1) + [i]
  {
  }

  /** The part of `process` before the element's own hook: the walked sub-element, then the children. */
  method ProcessBelow(t: Tree, i: nat, step: Step, shared: map<string, nat>, funcs: set<string>, fuel: nat)
    returns (visited: seq<nat>, calls: seq<Call>)
    requires t.Valid() && i < |t.nodes| && RegistryOk(t.nodes, shared) && fuel > 0
    modifies t
    ensures t.Valid() && SameShape(old(t.nodes), t.nodes)
    ensures visited == WalkedOrder(old(t.nodes), i, fuel - 1) + KidsOrder(old(t.nodes), i, fuel - 1)
    ensures IsExecute(step) ==> t.nodes == old(t.nodes) && calls == CallsAlong(old(t.nodes), visited, funcs)
    ensures !IsExecute(step) ==> calls == []
    decreases fuel, 0
  {
    ghost var ns0 := t.nodes;
    visited, calls := ProcessWalked(t, i, step, shared, funcs, fuel - 1);
    ghost var mid := t.nodes;
    assert |mid| == |ns0|;
    var v, cs := ProcessKidsAfter(t, i, step, shared, funcs, fuel - 1, ns0);
    if IsExecute(step) {
      assert mid == ns0 && t.nodes == ns0;
      CallsAlongAppend(ns0, visited, v, funcs);
    }
    visited := visited + v;
    calls := calls + cs;
  }

  /** `ProcessKids` after the walked sub-element, stated over the nodes before that sub-element ran. */
  method ProcessKidsAfter(t: Tree, i: nat, step: Step, shared: map<string, nat>, funcs: set<string>, fuel: nat, ghost ns0: seq<Node>)
    returns (visited: seq<nat>, calls: seq<Call>)
    requires t.Valid() && Wf(ns0) && SameShape(ns0, t.nodes) && i < |t.nodes| && RegistryOk(t.nodes, shared)
    modifies t
    ensures t.Valid() && SameShape(ns0, t.nodes)
    ensures visited == KidsOrder(ns0, i, fuel)
    ensures IsExecute(step) ==> t.nodes == old(t.nodes) && calls == CallsAlong(old(t.nodes), visited, funcs)
    ensures !IsExecute(step) ==> calls == []
    decreases fuel, 5
  {
    ghost var before := t.nodes;
    ShapeKeepsKids(ns0, before, i, fuel);
    visited, calls := ProcessKids(t, i, step, shared, funcs, fuel);
    SameShapeTrans(ns0, before, t.nodes);
  }


  lemma ShapeKeepsKids(a: seq<Node>, b: seq<Node>, i: nat, fuel: nat)
    requires Wf(a) && Wf(b) && SameShape(a, b) && i < |a|
    ensures KidsOrder(a, i, fuel) == KidsOrder(b, i, fuel)
  {
    assert NodeOk(a[i], |a|);
    if IsListKind(a[i].kind) {
      ShapeKeepsChildOrder(a, b, a[i].elements, fuel);
    }
  }

  /** `process` of the walked sub-element, when there is one. */
  method ProcessWalked(t: Tree, i: nat, step: Step, shared: map<string, nat>, funcs: set<string>, fuel: nat)
    returns (visited: seq<nat>, calls: seq<Call>)
    requires t.Valid() && i < |t.nodes| && RegistryOk(t.nodes, shared)
    modifies t
    ensures t.Valid() && SameShape(old(t.nodes), t.nodes)
    ensures visited == WalkedOrder(old(t.nodes), i, fuel)
    ensures IsExecute(step) ==> t.nodes == old(t.nodes) && calls == CallsAlong(old(t.nodes), visited, funcs)
    ensures !IsExecute(step) ==> calls == []
    decreases fuel, 2
  {
    assert NodeOk(t.nodes[i], |t.nodes|);
    var w := Walked(t.nodes[i].kind);
    if w.Some? {
      visited, calls := Process(t, w.value, step, shared, funcs, fuel);
    } else {
      visited, calls := [], [];
    }
  }

  /** `process` of the list children, when the element has them. */
  method ProcessKids(t: Tree, i: nat, step: Step, shared: map<string, nat>, funcs: set<string>, fuel: nat)
    returns (visited: seq<nat>, calls: seq<Call>)
    requires t.Valid() && i < |t.nodes| && RegistryOk(t.nodes, shared)
    modifies t
    ensures t.Valid() && SameShape(old(t.nodes), t.nodes)
    ensures visited == KidsOrder(old(t.nodes), i, fuel)
    ensures IsExecute(step) ==> t.nodes == old(t.nodes) && calls == CallsAlong(old(t.nodes), visited, funcs)
    ensures !IsExecute(step) ==> calls == []
    decreases fuel, 4
  {
    assert NodeOk(t.nodes[i], |t.nodes|);
    if IsListKind(t.nodes[i].kind) {
      visited, calls := ProcessChildren(t, t.nodes[i].elements, step, shared, funcs, fuel);
    } else {
      visited, calls := [], [];
    }
  }

  /** The loop of `_ASTListElement::process`: each child is processed in order. */
  method ProcessChildren(t: Tree, es: seq<nat>, step: Step, shared: map<string, nat>, funcs: set<string>, fuel: nat)
    returns (visited: seq<nat>, calls: seq<Call>)
    requires t.Valid() && RegistryOk(t.nodes, shared) && forall k :: 0 <= k < |es| ==> es[k] < |t.nodes|
    modifies t
    ensures t.Valid() && SameShape(old(t.nodes), t.nodes)
    ensures visited == ChildOrder(old(t.nodes), es, fuel)
    ensures InArena(old(t.nodes), visited)
    ensures IsExecute(step) ==> t.nodes == old(t.nodes) && calls == CallsAlong(old(t.nodes), visited, funcs)
    ensures !IsExecute(step) ==> calls == []
    decreases fuel, 3
  {
    ghost var ns0 := t.nodes;
    visited := [];
    calls := [];
    var k := 0;
    while k < |es|
      invariant 0 <= k <= |es|
      invariant ChildrenSoFar(t, ns0, es, k, visited, calls, step, shared, funcs, fuel)
    {
      visited, calls := ProcessChild(t, es, k, step, shared, funcs, fuel, ns0, visited, calls);
      k := k + 1;
    }
    assert es[..k] == es;
  }

  /** The invariant of the children loop after `k` children. */
  ghost predicate ChildrenSoFar(t: Tree, ns0: seq<Node>, es: seq<nat>, k: nat, visited: seq<nat>, calls: seq<Call>,
                                step: Step, shared: map<string, nat>, funcs: set<string>, fuel: nat)
    reads t
  {
    k <= |es| && Wf(ns0) && (forall j :: 0 <= j < |es| ==> es[j] < |ns0|) &&
    t.Valid() && SameShape(ns0, t.nodes) && RegistryOk(t.nodes, shared) &&
    visited == ChildOrder(ns0, es[..k], fuel) && InArena(ns0, visited) &&
    (IsExecute(step) ==> t.nodes == ns0 && calls == CallsAlong(ns0, visited, funcs)) &&
    (!IsExecute(step) ==> calls == [])
  }

  /** One turn of the children loop. */
  method ProcessChild(t: Tree, es: seq<nat>, k: nat, step: Step, shared: map<string, nat>, funcs: set<string>, fuel: nat,
                      ghost ns0: seq<Node>, visited: seq<nat>, calls: seq<Call>)
    returns (visited': seq<nat>, calls': seq<Call>)
    requires k < |es| && ChildrenSoFar(t, ns0, es, k, visited, calls, step, shared, funcs, fuel)
    modifies t
    ensures ChildrenSoFar(t, ns0, es, k + 1, visited', calls', step, shared, funcs, fuel)
    decreases fuel, 2
  {
    assert es[..k + 1][..k] == es[..k];
    ghost var before := t.nodes;
    var v, cs := Process(t, es[k], step, shared, funcs, fuel);
    ShapeKeepsOrder(ns0, before, es[k], fuel);
    SameShapeTrans(ns0, before, t.nodes);
    CallsAlongAppend(ns0, visited, v, funcs);
    PostOrderInArena(ns0, es[k], fuel);
    visited' := visited + v;
    calls' := calls + cs;
  }


  lemma InArenaAppend(ns: seq<Node>, a: seq<nat>, b: seq<nat>)
    requires InArena(ns, a) && InArena(ns, b)
    ensures InArena(ns, a + b)
  {
    forall k | 0 <= k < |a + b| ensures (a + b)[k] < |ns| {
      if k < |a| { assert (a + b)[k] == a[k]; } else { assert (a + b)[k] == b[k - |a|]; }
    }
  }

  /** The calls along a concatenated order are the calls along each part. */
  lemma {:induction false} CallsAlongAppend(ns: seq<Node>, a: seq<nat>, b: seq<nat>, funcs: set<string>)
    ensures CallsAlong(ns, a + b, funcs) == CallsAlong(ns, a, funcs) + CallsAlong(ns, b, funcs)
    decreases |a|
  {
    if a == [] {
      assert a + b == b;
    } else {
      assert (a + b)[0] == a[0];
      assert (a + b)[1..] == a[1..] + b;
      CallsAlongAppend(ns, a[1..], b, funcs);
    }
  }
}
