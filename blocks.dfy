/**
 * The block level of the parser: `parseLine` with its retry loop and the
 * `H_default` fallback, the generic continuation of `BlockHandler`
 * (`canHandleBlock`, `handleBlock`, `finishBlock`), the `handle` and
 * `finish` of every block handler, and `parseDocument`.
 *
 * A live handler is a `Handler` value from `Handlers`; the methods take
 * it and return its new state, as `parseLine(lastHandler)` updates the
 * pointer it is given. Recursion through nested blocks is bounded by
 * `fuel`.
 */
module Blocks {
  import opened Util
  import opened Lexer
  import opened Ast
  import opened Handlers
  import opened Inline
  import Ids

  // ---------------------------------------------------------------------
  // What a live handler may point to
  // ---------------------------------------------------------------------

  /** The node a handler gathers its lines into (`content`), per class. */
  predicate ContentKind(k: BlockKind, n: Kind)
  {
    match k
    case ParagraphH => n == Paragraph
    case BlockquoteH => n.Blockquote?
    case UListH => n.ListElement?
    case OListH => n.ListElement?
    case InfoBlockH => n.InfoBlock?
    case IdDefH => n.IdDefinition?
    case FootnoteH => n.FootnoteBlock?
    case CollapseH => n.CollapseBlock?
    case _ => false
  }

  /** The list node of a list handler (`list`). */
  predicate ListOf(k: BlockKind, n: Kind)
  {
    (k == UListH && n == UnorderedList) || (k == OListH && n == OrderedList)
  }

  /** The handler's own fields point into the arena, at nodes of the kinds its class creates. */
  predicate FieldsOk(h: Handler, reg: Registry, s: seq<char>, ns: seq<Node>)
  {
    0 <= h.id < |reg.blocks| && reg.blocks[h.id] == h.kind && SnapOk(s, h.snap) &&
    -1 <= h.content < |ns| && (h.content >= 0 ==> ContentKind(h.kind, ns[h.content].kind)) &&
    (h.kind == IdDefH && h.content >= 0 ==> h.defType == '<') &&
    -1 <= h.list < |ns| && (h.list >= 0 ==> ListOf(h.kind, ns[h.list].kind)) &&
    -1 <= h.firstLine < |ns| &&
    (forall k :: 0 <= k < |h.lines| ==> -1 <= h.lines[k] < |ns|)
  }

  /** `FieldsOk` for the handler and every handler nested in it. */
  predicate HandlerOk(h: Handler, reg: Registry, s: seq<char>, ns: seq<Node>)
    decreases h
  {
    FieldsOk(h, reg, s, ns) && (h.nested.Some? ==> HandlerOk(h.nested.value, reg, s, ns))
  }

  /** Growing the arena keeps every live handler's pointers valid. */
  lemma {:induction false} HandlerOkGrown(h: Handler, reg: Registry, s: seq<char>, a: seq<Node>, b: seq<Node>)
    requires HandlerOk(h, reg, s, a) && Grown(a, b)
    ensures HandlerOk(h, reg, s, b)
    decreases h
  {
    if h.nested.Some? {
      HandlerOkGrown(h.nested.value, reg, s, a, b);
    }
  }

  /** Replacing the nested handler by a valid one keeps the handler valid. */
  lemma Renest(h: Handler, n: Option<Handler>, reg: Registry, s: seq<char>, ns: seq<Node>)
    requires FieldsOk(h, reg, s, ns) && (n.Some? ==> HandlerOk(n.value, reg, s, ns))
    ensures HandlerOk(h.(nested := n), reg, s, ns)
  {
  }

  /** The identity a handler keeps through every call: class, registry index and creation snapshot. */
  predicate Same(a: Handler, b: Handler)
  {
    a.kind == b.kind && a.id == b.id && a.snap == b.snap
  }

  /** A handler that has not started a block takes a line exactly when its class opens one there. */
  lemma FreshCanHandle(k: BlockKind, id: int, snap: Snap, symbols: set<char>, st: Snap)
    ensures CanHandle(Fresh(k, id, snap), symbols, st) == Opens(k, symbols, st)
  {
  }

  // ---------------------------------------------------------------------
  // Headers read by the handlers, as functions of the parser state
  // ---------------------------------------------------------------------

  /** The state after `while (lastToken == tokSpace) gettok()`. */
  function PastBlanks(symbols: set<char>, s: seq<char>, st: Snap): (r: Snap)
    requires SnapOk(s, st)
    ensures SnapOk(s, r) && r.lastToken != TokSpace
    ensures st.lastToken != TokSpace ==> r == st
    decreases |s| - Start(s, st), if st.lastToken == TokEOF then 0 else 1
  {
    if st.lastToken == TokSpace then PastBlanks(symbols, s, Next(symbols, s, st)) else st
  }

  /** The state after one `gettok()`, and a second one when the first lands on blanks. */
  function PastMarker(symbols: set<char>, s: seq<char>, st: Snap): Snap
    requires SnapOk(s, st)
  {
    var a := Next(symbols, s, st);
    if a.lastToken == TokSpace then Next(symbols, s, a) else a
  }

  /**
   * The header of an info block opened by the `>` at `st`: `>type ` names
   * the type in text, `>:type:> ` in symbols. The result holds the type,
   * whether the symbolic form was used and the state on the closing `>`;
   * none when the header is malformed.
   */
  function InfoHead(symbols: set<char>, s: seq<char>, st: Snap): (r: Option<(string, bool, Snap)>)
    requires SnapOk(s, st)
    ensures r.Some? ==> SnapOk(s, r.value.2)
    ensures r.Some? ==> r.value.2.lastToken == TokSym && First(r.value.2.lastString) == '>' && PeekOf(symbols, r.value.2) == TokSpace
    ensures r.Some? ==> (r.value.1 <==> Next(symbols, s, st).lastToken != TokText)
  {
    var a := Next(symbols, s, st);
    if a.lastToken == TokText then
      var q := ReadFrom(symbols, s, a, SpaceOrSym, false, false, "");
      if q.ok && q.rest.lastToken == TokSym && First(q.rest.lastString) == '>' && PeekOf(symbols, q.rest) == TokSpace
      then Some((q.text, false, q.rest)) else None
    else if First(a.lastString) != ':' || a.lastInt != 1 then None
    else
      var q := ReadFrom(symbols, s, Next(symbols, s, a), SpaceOrSym, false, false, "");
      if !q.ok || q.rest.lastToken == TokSpace || First(q.rest.lastString) != ':' || q.rest.lastInt != 1 then None
      else
        var b := Next(symbols, s, q.rest);
        if b.lastToken != TokSym || First(b.lastString) != '>' || b.lastInt != 1 || PeekOf(symbols, b) != TokSpace then None
        else Some((q.text, true, b))
  }

  /**
   * The header of an id definition opened by the `%` at `st`: the bracket
   * after it, the id up to the matching lone closing bracket directly
   * followed by `:`, and the state after that `:` and the blanks after it;
   * none when the bracket is not closed, or the `:` is doubled or not
   * followed by a blank.
   */
  function IdHead(symbols: set<char>, s: seq<char>, st: Snap): (r: Option<(char, string, Snap)>)
    requires SnapOk(s, st)
    ensures r.Some? ==> SnapOk(s, r.value.2) && r.value.0 == First(Next(symbols, s, st).lastString)
  {
    var a := Next(symbols, s, st);
    var ty := First(a.lastString);
    var q := ReadFrom(symbols, s, Next(symbols, s, a), DefinitionEnd(InvType(ty)), false, false, "");
    if !q.ok then None
    else
      var c := Next(symbols, s, q.rest);
      if c.lastInt != 1 || PeekOf(symbols, c) != TokSpace then None
      else Some((ty, q.text, Next(symbols, s, Next(symbols, s, c))))
  }

  /** An id is read up to a lone closing bracket that a `:` follows directly. */
  lemma IdEndsAtClosingBracket(symbols: set<char>, s: seq<char>, st: Snap)
    requires SnapOk(s, st)
    ensures var a := Next(symbols, s, st);
      var close := InvType(First(a.lastString));
      var q := ReadFrom(symbols, s, Next(symbols, s, a), DefinitionEnd(close), false, false, "");
      IdHead(symbols, s, st).Some? ==>
        LastIs(q.rest, TokSym, close, 1) && PeekOf(symbols, q.rest) == TokSym && q.rest.lastChar == Chr(':')
  {
    var a := Next(symbols, s, st);
    var close := InvType(First(a.lastString));
    var q := ReadFrom(symbols, s, Next(symbols, s, a), DefinitionEnd(close), false, false, "");
    assert q.ok ==> Check(symbols, DefinitionEnd(close), q.quote, q.rest).0 by {
      ReadStopsOnCondition(symbols, s, Next(symbols, s, a), DefinitionEnd(close), false, false, "");
    }
  }

  /**
   * The header of a footnote opened by the `^` at `st`: the name up to a
   * lone `:` followed by a blank, and the state after the `:` and the
   * blanks; none when no such `:` ends the line.
   */
  function FootHead(symbols: set<char>, s: seq<char>, st: Snap): (r: Option<(string, Snap)>)
    requires SnapOk(s, st)
    ensures r.Some? ==> SnapOk(s, r.value.1)
  {
    var q := ReadFrom(symbols, s, Next(symbols, s, st), FootnoteEnd, false, false, "");
    if !q.ok then None else Some((q.text, Next(symbols, s, Next(symbols, s, q.rest))))
  }

  /** A footnote name is read up to a lone `:` that a blank follows. */
  lemma FootnoteEndsAtColon(symbols: set<char>, s: seq<char>, st: Snap)
    requires SnapOk(s, st)
    ensures var q := ReadFrom(symbols, s, Next(symbols, s, st), FootnoteEnd, false, false, "");
      FootHead(symbols, s, st).Some? <==> q.ok
    ensures var q := ReadFrom(symbols, s, Next(symbols, s, st), FootnoteEnd, false, false, "");
      q.ok ==> LastIs(q.rest, TokSym, ':', 1) && PeekOf(symbols, q.rest) == TokSpace
  {
    var q := ReadFrom(symbols, s, Next(symbols, s, st), FootnoteEnd, false, false, "");
    assert q.ok ==> Check(symbols, FootnoteEnd, q.quote, q.rest).0 by {
      ReadStopsOnCondition(symbols, s, Next(symbols, s, st), FootnoteEnd, false, false, "");
    }
  }

  /** The `-` run after a collapse block's `+`: one `-` when it starts open (`++-`), two when closed (`+--`). */
  predicate CollapseMarks(symbols: set<char>, st: Snap, isOpen: bool)
  {
    st.lastToken == TokSym && First(st.lastString) == '-' && st.lastInt == (if isOpen then 1 else 2) &&
    (PeekOf(symbols, st) == TokSpace || PeekOf(symbols, st) == TokNewline)
  }

  /** A code line is read up to a backtick run of exactly the fence length that ends the line or the input. */
  lemma FenceClosesExactly(symbols: set<char>, s: seq<char>, st: Snap, fence: int)
    requires SnapOk(s, st)
    ensures var q := ReadFrom(symbols, s, st, Fence(fence), false, false, "");
      q.ok ==> LastIs(q.rest, TokSym, '`', fence) && PeekOf(symbols, q.rest) in {TokNewline, TokEOF}
  {
    var q := ReadFrom(symbols, s, st, Fence(fence), false, false, "");
    assert q.ok ==> Check(symbols, Fence(fence), q.quote, q.rest).0 by {
      ReadStopsOnCondition(symbols, s, st, Fence(fence), false, false, "");
    }
  }

  // ---------------------------------------------------------------------
  // Parser steps the handlers share
  // ---------------------------------------------------------------------

  /** `while (lex->lastToken == tokSpace) lex->gettok()`. */
  method SkipBlanks(lex: Parser)
    requires lex.Valid()
    modifies lex
    ensures lex.Valid() && lex.input == old(lex.input) && lex.symbols == old(lex.symbols)
    ensures lex.State() == PastBlanks(lex.symbols, lex.input, old(lex.State()))
  {
    ghost var goal := PastBlanks(lex.symbols, lex.input, lex.State());
    while lex.lastToken == TokSpace
      invariant lex.Valid() && lex.input == old(lex.input) && lex.symbols == old(lex.symbols)
      invariant PastBlanks(lex.symbols, lex.input, lex.State()) == goal
      decreases |lex.input| - Start(lex.input, lex.State()), if lex.lastToken == TokEOF then 0 else 1
    {
      lex.GetTok();
    }
  }

  /** Consumes a marker token and the blanks right after it. */
  method SkipMarker(lex: Parser)
    requires lex.Valid()
    modifies lex
    ensures lex.Valid() && lex.input == old(lex.input) && lex.symbols == old(lex.symbols)
    ensures lex.State() == PastMarker(lex.symbols, lex.input, old(lex.State()))
  {
    lex.GetTok();
    if lex.lastToken == TokSpace {
      lex.GetTok();
    }
  }

  /** `findHandlerAfter(h)` over the block registry. */
  method FindHandlerAfter(lex: Parser, reg: Registry, after: Option<int>) returns (r: Option<nat>)
    ensures r == FindAfter(reg.blocks, lex.symbols, lex.State(), after)
  {
    ghost var m := OpenMask(reg.blocks, lex.symbols, lex.State());
    var i := AfterIndex(|reg.blocks|, after);
    while i < |reg.blocks|
      invariant AfterIndex(|reg.blocks|, after) <= i <= |reg.blocks|
      invariant FirstFrom(m, AfterIndex(|reg.blocks|, after)) == FirstFrom(m, i)
    {
      if Opens(reg.blocks[i], lex.symbols, lex.State()) {
        return Some(i);
      }
      i := i + 1;
    }
    return None;
  }

  /** A new node of `kind` holding the non-null nodes of `children`, in order. */
  method Gather(t: Tree, kind: Kind, children: seq<int>) returns (e: nat)
    requires t.Valid() && IsListKind(kind) && Owned(kind).None? && RefsBelow(kind, |t.nodes|)
    requires forall k :: 0 <= k < |children| ==> -1 <= children[k] < |t.nodes|
    modifies t
    ensures t.Valid() && Grown(old(t.nodes), t.nodes) && e == |old(t.nodes)| && |t.nodes| == e + 1
    ensures t.nodes[e].kind == kind && t.nodes[e].elements == NonNull(children)
  {
    e := Make(t, kind, 0);
    ghost var n1 := t.nodes;
    t.AddElements(e, children);
    GrownTrans(old(t.nodes), n1, t.nodes);
  }

  // ---------------------------------------------------------------------
  // parseLine
  // ---------------------------------------------------------------------

  /**
   * `parseLine(lastHandler)`. At the end of input, or when the open
   * handler cannot take the line, the handler is finished and cleared and
   * `redo` asks the caller to call again with the cleared handler; nothing
   * is read in that case. Otherwise the line goes to a handler (see
   * `Dispatch`), and a handler that reports itself finished is cleared.
   */
  method ParseLine(lex: Parser, t: Tree, reg: Registry, last: Option<Handler>, fuel: nat)
    returns (e: int, redo: bool, h: Option<Handler>, ghost finished: bool, ghost used: Option<Handler>)
    requires lex.Valid() && t.Valid() && DefaultOk(reg)
    requires last.Some? ==> HandlerOk(last.value, reg, lex.input, t.nodes)
    modifies lex, t
    ensures lex.Valid() && lex.input == old(lex.input) && lex.symbols == old(lex.symbols) && t.Valid()
    ensures Grown(old(t.nodes), t.nodes) && -1 <= e < |t.nodes|
    ensures h.Some? ==> HandlerOk(h.value, reg, lex.input, t.nodes)
    ensures redo <==> last.Some? && (old(lex.lastToken) == TokEOF || !CanHandle(last.value, lex.symbols, old(lex.State())))
    ensures redo || old(lex.lastToken) == TokEOF ==> h.None? && lex.State() == old(lex.State())
    ensures old(lex.lastToken) == TokEOF && last.None? ==> e == -1 && t.nodes == old(t.nodes)
    ensures !redo && old(lex.lastToken) != TokEOF && fuel >= 1 ==>
      Dispatched(reg, FirstTry(reg, lex.symbols, old(lex.State()), last), used, finished, h, lex.lastToken)
    decreases fuel, 13
  {
    if lex.lastToken == TokEOF || (last.Some? && !CanHandle(last.value, lex.symbols, lex.State())) {
      if last.Some? {
        var e1, _ := Finish(t, reg, lex.input, last.value);
        return e1, true, None, true, last;
      }
      return -1, false, None, false, None;
    }
    if fuel == 0 {
      return -1, false, last, false, None;
    }
    e, h, finished, used := Dispatch(lex, t, reg, last, fuel);
    redo := false;
  }

  /** How far the retry loop of `parseLine` still is from giving up: paragraphs never fail. */
  function Rank(reg: Registry, cur: Handler): nat
    requires 0 <= cur.id < |reg.blocks|
  {
    if cur.kind == ParagraphH then 0 else |reg.blocks| + 1 - cur.id
  }

  /**
   * The handler that tries the line first: the open one, else a new
   * handler of the first class in the registry that would take the line,
   * else the `H_default` paragraph, created at the current state.
   */
  function FirstTry(reg: Registry, symbols: set<char>, st: Snap, last: Option<Handler>): Handler
    requires DefaultOk(reg)
  {
    if last.Some? then last.value
    else match FindAfter(reg.blocks, symbols, st, None)
      case Some(i) => Fresh(reg.blocks[i], i, st)
      case None => Fresh(ParagraphH, reg.default, st)
  }

  /**
   * A handler the retry loop may reach from `first`: `first` itself, or a
   * new handler created at `first`'s snapshot, after it in the search.
   */
  predicate Reachable(reg: Registry, first: Handler, u: Handler)
  {
    u == first ||
    (u == Fresh(u.kind, u.id, first.snap) && 0 <= u.id < |reg.blocks| && 0 <= first.id < |reg.blocks| &&
     Rank(reg, u) < Rank(reg, first))
  }

  /**
   * The outcome of the retry loop from `first`: either some reachable
   * handler `used` took the line, and the handler kept is that one unless
   * it reported itself finished; or every handler failed at the end of
   * input, and nothing is kept.
   */
  predicate Dispatched(reg: Registry, first: Handler, used: Option<Handler>, finished: bool, h: Option<Handler>, endToken: Token)
  {
    (used.None? ==> h.None? && !finished && endToken == TokEOF) &&
    (used.Some? ==> Reachable(reg, first, used.value) && (h.None? <==> finished) &&
                    (h.Some? ==> Same(used.value, h.value)))
  }

  /**
   * The `do … while (err)` loop of `parseLine`. Without an open handler it
   * searches the registry from the start, falling back to the `H_default`
   * paragraph; a handler that fails has the parser reverted to its
   * snapshot and the search resumes strictly after its index. The loop
   * ends because the paragraph never fails.
   */
  method Dispatch(lex: Parser, t: Tree, reg: Registry, last: Option<Handler>, fuel: nat)
    returns (e: int, h: Option<Handler>, ghost finished: bool, ghost used: Option<Handler>)
    requires lex.Valid() && t.Valid() && DefaultOk(reg) && fuel >= 1 && lex.lastToken != TokEOF
    requires last.Some? ==> HandlerOk(last.value, reg, lex.input, t.nodes) && CanHandle(last.value, lex.symbols, lex.State())
    modifies lex, t
    ensures lex.Valid() && lex.input == old(lex.input) && lex.symbols == old(lex.symbols) && t.Valid()
    ensures Grown(old(t.nodes), t.nodes) && -1 <= e < |t.nodes|
    ensures h.Some? ==> HandlerOk(h.value, reg, lex.input, t.nodes)
    ensures Dispatched(reg, FirstTry(reg, lex.symbols, old(lex.State()), last), used, finished, h, lex.lastToken)
    decreases fuel, 12
  {
    ghost var first := FirstTry(reg, lex.symbols, lex.State(), last);
    var cur: Handler;
    if last.Some? {
      cur := last.value;
    } else {
      var found := FindHandlerAfter(lex, reg, None);
      var snap := lex.CreateTimesnap();
      if found.Some? {
        cur := Fresh(reg.blocks[found.value], found.value, snap);
        FreshCanHandle(reg.blocks[found.value], found.value, snap, lex.symbols, lex.State());
      } else {
        cur := Fresh(ParagraphH, reg.default, snap);
      }
    }
    ghost var n0 := t.nodes;
    while true
      invariant lex.Valid() && lex.input == old(lex.input) && lex.symbols == old(lex.symbols) && t.Valid()
      invariant Grown(n0, t.nodes) && HandlerOk(cur, reg, lex.input, t.nodes)
      invariant cur.kind == ParagraphH || CanHandle(cur, lex.symbols, lex.State())
      invariant Reachable(reg, first, cur) && cur.snap == first.snap
      decreases Rank(reg, cur)
    {
      var done, err, next;
      ghost var n1 := t.nodes;
      e, done, err, next := Handle(lex, t, reg, cur, fuel);
      GrownTrans(n0, n1, t.nodes);
      if !err {
        return e, if done then None else Some(next), done, Some(cur);
      }
      HandlerOkGrown(cur, reg, lex.input, n1, t.nodes);
      var retry := RetryAfter(lex, reg, cur);
      if retry.None? {
        return -1, None, false, None;
      }
      cur := retry.value;
    }
  }

  /**
   * The retry step of `parseLine` once handler `cur` failed: the parser
   * is reverted to its snapshot, and the next handler after it that would
   * take the line starts there, or the `H_default` paragraph; none only
   * at the end of input.
   */
  method RetryAfter(lex: Parser, reg: Registry, cur: Handler) returns (next: Option<Handler>)
    requires lex.Valid() && DefaultOk(reg) && 0 <= cur.id < |reg.blocks| && SnapOk(lex.input, cur.snap) && cur.kind != ParagraphH
    modifies lex
    ensures lex.Valid() && lex.input == old(lex.input) && lex.symbols == old(lex.symbols) && lex.State() == cur.snap
    ensures next.None? ==> lex.lastToken == TokEOF
    ensures next.Some? ==> var n := next.value;
      n == Fresh(n.kind, n.id, cur.snap) && 0 <= n.id < |reg.blocks| && reg.blocks[n.id] == n.kind &&
      Rank(reg, n) < Rank(reg, cur) && (n.kind == ParagraphH || CanHandle(n, lex.symbols, lex.State()))
  {
    lex.Revert(cur.snap);
    var found := FindHandlerAfter(lex, reg, Some(cur.id));
    RetryMovesOn(reg.blocks, lex.symbols, lex.State(), cur.id);
    var snap := lex.CreateTimesnap();
    if found.Some? {
      next := Some(Fresh(reg.blocks[found.value], found.value, snap));
      FreshCanHandle(reg.blocks[found.value], found.value, snap, lex.symbols, lex.State());
    } else if lex.lastToken == TokEOF {
      next := None;
    } else {
      next := Some(Fresh(ParagraphH, reg.default, snap));
    }
  }

  /** `lastHandler->handle(this)`: the class's `handle`, returning (element, finished, error). */
  method Handle(lex: Parser, t: Tree, reg: Registry, h: Handler, fuel: nat)
    returns (e: int, finished: bool, err: bool, h': Handler)
    requires lex.Valid() && t.Valid() && DefaultOk(reg) && fuel >= 1 && HandlerOk(h, reg, lex.input, t.nodes)
    requires h.kind != ParagraphH ==> CanHandle(h, lex.symbols, lex.State())
    modifies lex, t
    ensures lex.Valid() && lex.input == old(lex.input) && lex.symbols == old(lex.symbols) && t.Valid()
    ensures Grown(old(t.nodes), t.nodes) && -1 <= e < |t.nodes|
    ensures Same(h, h') && HandlerOk(h', reg, lex.input, t.nodes)
    ensures err ==> e == -1 && h.kind in {InfoBlockH, IdDefH, FootnoteH, CollapseH} && h.content < 0
    decreases fuel, 11
  {
    if h.kind in {ParagraphH, HeadingH, HLineH, CodeH} {
      err := false;
      e, finished, h' := HandleLeaf(lex, t, reg, h, fuel);
    } else if h.kind in {BlockquoteH, UListH, OListH} {
      e, finished, err := -1, false, false;
      h' := HandleContainer(lex, t, reg, h, fuel);
    } else {
      e, finished, err, h' := HandleHeaded(lex, t, reg, h, fuel);
    }
  }

  /** The classes whose lines go into no nested handler: paragraph, heading, rule and code block. */
  method HandleLeaf(lex: Parser, t: Tree, reg: Registry, h: Handler, fuel: nat)
    returns (e: int, finished: bool, h': Handler)
    requires lex.Valid() && t.Valid() && HandlerOk(h, reg, lex.input, t.nodes)
    requires h.kind in {ParagraphH, HeadingH, HLineH, CodeH} && (h.kind != ParagraphH ==> CanHandle(h, lex.symbols, lex.State()))
    modifies lex, t
    ensures lex.Valid() && lex.input == old(lex.input) && lex.symbols == old(lex.symbols) && t.Valid()
    ensures Grown(old(t.nodes), t.nodes) && -1 <= e < |t.nodes|
    ensures Same(h, h') && HandlerOk(h', reg, lex.input, t.nodes)
  {
    if h.kind == ParagraphH {
      e, finished, h' := HandleParagraph(lex, t, reg, h, fuel);
    } else if h.kind == CodeH {
      e, finished, h' := HandleCode(lex, t, reg, h, fuel);
    } else {
      if h.kind == HeadingH {
        e := HandleHeading(lex, t, reg, fuel);
      } else {
        e := HandleHLine(lex, t);
      }
      finished, h' := true, h;
      HandlerOkGrown(h, reg, lex.input, old(t.nodes), t.nodes);
    }
  }

  /** The classes that never fail and hold a nested handler: block quote and the two lists. */
  method HandleContainer(lex: Parser, t: Tree, reg: Registry, h: Handler, fuel: nat) returns (h': Handler)
    requires lex.Valid() && t.Valid() && DefaultOk(reg) && fuel >= 1 && HandlerOk(h, reg, lex.input, t.nodes)
    requires h.kind in {BlockquoteH, UListH, OListH} && CanHandle(h, lex.symbols, lex.State())
    modifies lex, t
    ensures lex.Valid() && lex.input == old(lex.input) && lex.symbols == old(lex.symbols) && t.Valid()
    ensures Grown(old(t.nodes), t.nodes) && Same(h, h') && HandlerOk(h', reg, lex.input, t.nodes)
    decreases fuel, 10
  {
    if h.kind == BlockquoteH {
      h' := HandleBlockquote(lex, t, reg, h, fuel);
    } else {
      h' := HandleList(lex, t, reg, h, fuel);
    }
  }

  /** The classes whose first line is a header that may be malformed: info block, id definition, footnote, collapse block. */
  method HandleHeaded(lex: Parser, t: Tree, reg: Registry, h: Handler, fuel: nat)
    returns (e: int, finished: bool, err: bool, h': Handler)
    requires lex.Valid() && t.Valid() && DefaultOk(reg) && fuel >= 1 && HandlerOk(h, reg, lex.input, t.nodes)
    requires h.kind in {InfoBlockH, IdDefH, FootnoteH, CollapseH} && CanHandle(h, lex.symbols, lex.State())
    modifies lex, t
    ensures lex.Valid() && lex.input == old(lex.input) && lex.symbols == old(lex.symbols) && t.Valid()
    ensures Grown(old(t.nodes), t.nodes) && -1 <= e < |t.nodes|
    ensures Same(h, h') && HandlerOk(h', reg, lex.input, t.nodes)
    ensures err ==> e == -1 && h.content < 0
    decreases fuel, 10
  {
    e, finished := -1, false;
    if h.kind == IdDefH {
      e, finished, err, h' := HandleIdDef(lex, t, reg, h, fuel);
    } else {
      err, h' := HandleOpener(lex, t, reg, h, fuel);
    }
  }

  /** The header classes whose header line yields no element: info block, footnote, collapse block. */
  method HandleOpener(lex: Parser, t: Tree, reg: Registry, h: Handler, fuel: nat) returns (err: bool, h': Handler)
    requires lex.Valid() && t.Valid() && DefaultOk(reg) && fuel >= 1 && HandlerOk(h, reg, lex.input, t.nodes)
    requires h.kind in {InfoBlockH, FootnoteH, CollapseH} && CanHandle(h, lex.symbols, lex.State())
    modifies lex, t
    ensures lex.Valid() && lex.input == old(lex.input) && lex.symbols == old(lex.symbols) && t.Valid()
    ensures Grown(old(t.nodes), t.nodes) && Same(h, h') && HandlerOk(h', reg, lex.input, t.nodes)
    ensures err ==> h.content < 0
    decreases fuel, 9
  {
    if h.kind == InfoBlockH {
      err, h' := HandleInfo(lex, t, reg, h, fuel);
    } else if h.kind == FootnoteH {
      err, h' := HandleFootnote(lex, t, reg, h, fuel);
    } else {
      err, h' := HandleCollapse(lex, t, reg, h, fuel);
    }
  }

  // ---------------------------------------------------------------------
  // BlockHandler
  // ---------------------------------------------------------------------

  /**
   * The indent handling of `handleBlock`: the first continued line fixes
   * the indent (from `lastInt`, stale when the token is a line end); a
   * blank run of exactly the indent is consumed, a longer one is
   * shortened by it.
   */
  method StripIndent(lex: Parser, h: Handler) returns (indent: int)
    requires lex.Valid() && CanHandleBlock(h, lex.State())
    modifies lex
    ensures lex.Valid() && lex.input == old(lex.input) && lex.symbols == old(lex.symbols)
    ensures indent == (if h.indent == 0 then old(lex.lastInt) else h.indent)
    ensures old(lex.lastToken) == TokNewline ==> lex.State() == old(lex.State())
    ensures old(lex.lastToken) == TokSpace && old(lex.lastInt) == indent ==> lex.State() == Next(lex.symbols, lex.input, old(lex.State()))
    ensures old(lex.lastToken) == TokSpace && old(lex.lastInt) != indent ==>
      lex.State() == old(lex.State()).(lastInt := old(lex.lastInt) - indent) && lex.lastInt >= 1
  {
    indent := h.indent;
    if indent == 0 {
      indent := lex.lastInt;
    }
    if lex.lastToken == TokSpace {
      if indent == lex.lastInt {
        lex.GetTok();
      } else {
        lex.Dedent(indent);
      }
    }
  }

  /** `handleBlock`: strips the indent, then hands the rest of the line to the nested handler. */
  method HandleBlock(lex: Parser, t: Tree, reg: Registry, h: Handler, fuel: nat) returns (h': Handler)
    requires lex.Valid() && t.Valid() && DefaultOk(reg) && fuel >= 1 && HandlerOk(h, reg, lex.input, t.nodes)
    requires CanHandleBlock(h, lex.State())
    modifies lex, t
    ensures lex.Valid() && lex.input == old(lex.input) && lex.symbols == old(lex.symbols) && t.Valid()
    ensures Grown(old(t.nodes), t.nodes) && HandlerOk(h', reg, lex.input, t.nodes)
    ensures h' == h.(indent := h'.indent, nested := h'.nested)
    ensures h'.indent == (if h.indent == 0 then old(lex.lastInt) else h.indent)
    decreases fuel, 5
  {
    var indent := StripIndent(lex, h);
    var n := RunLines(lex, t, reg, h.content, h.nested, fuel);
    HandlerOkGrown(h, reg, lex.input, old(t.nodes), t.nodes);
    h' := h.(indent := indent, nested := n);
  }

  /**
   * The `do { parseLine(handler); content->addElement(e); } while (redo)`
   * loop every block runs: the results go into node `c`, and a `redo`
   * (the nested handler was closed) repeats the line with no handler.
   */
  method RunLines(lex: Parser, t: Tree, reg: Registry, c: nat, nested: Option<Handler>, fuel: nat)
    returns (nested': Option<Handler>)
    requires lex.Valid() && t.Valid() && DefaultOk(reg) && fuel >= 1
    requires c < |t.nodes| && IsListKind(t.nodes[c].kind)
    requires nested.Some? ==> HandlerOk(nested.value, reg, lex.input, t.nodes)
    modifies lex, t
    ensures lex.Valid() && lex.input == old(lex.input) && lex.symbols == old(lex.symbols) && t.Valid()
    ensures Grown(old(t.nodes), t.nodes)
    ensures nested'.Some? ==> HandlerOk(nested'.value, reg, lex.input, t.nodes)
    decreases fuel, 4
  {
    var e, redo, h, _, _ := ParseLine(lex, t, reg, nested, fuel - 1);
    ghost var n1 := t.nodes;
    Append(t, c, e, 0);
    GrownTrans(old(t.nodes), n1, t.nodes);
    if h.Some? {
      HandlerOkGrown(h.value, reg, lex.input, n1, t.nodes);
    }
    while redo
      invariant lex.Valid() && lex.input == old(lex.input) && lex.symbols == old(lex.symbols) && t.Valid()
      invariant Grown(old(t.nodes), t.nodes) && IsListKind(t.nodes[c].kind)
      invariant redo ==> h.None?
      invariant h.Some? ==> HandlerOk(h.value, reg, lex.input, t.nodes)
      decreases redo
    {
      ghost var n2 := t.nodes;
      ghost var finished, used;
      e, redo, h, finished, used := ParseLine(lex, t, reg, h, fuel - 1);
      ghost var n3 := t.nodes;
      Append(t, c, e, 0);
      GrownTrans(n2, n3, t.nodes);
      GrownTrans(old(t.nodes), n2, t.nodes);
      if h.Some? {
        HandlerOkGrown(h.value, reg, lex.input, n3, t.nodes);
      }
    }
    nested' := h;
  }

  /**
   * `finish` of each class: the block built so far, moved out of the
   * handler. A list pushes its open element first, a code block that was
   * never closed becomes a paragraph of its lines, headings and rules
   * have nothing left.
   */
  method Finish(t: Tree, reg: Registry, ghost s: seq<char>, h: Handler) returns (e: int, h': Handler)
    requires t.Valid() && HandlerOk(h, reg, s, t.nodes)
    modifies t
    ensures t.Valid() && Grown(old(t.nodes), t.nodes) && -1 <= e < |t.nodes|
    ensures Same(h, h') && HandlerOk(h', reg, s, t.nodes)
    ensures h.kind in {HeadingH, HLineH} ==> e == -1 && t.nodes == old(t.nodes)
    ensures h.kind in {UListH, OListH} ==> e == h.list && h'.list == -1 && h'.content == -1
    ensures h.kind in {UListH, OListH} && h.list >= 0 && h.content >= 0 ==> h.content in t.nodes[h.list].elements
    ensures h.kind == CodeH ==> e == |old(t.nodes)| && t.nodes[e].kind == Paragraph && t.nodes[e].elements == NonNull(h.lines)
    ensures h.kind !in {HeadingH, HLineH, UListH, OListH, CodeH} ==> e == h.content && h'.content == -1
    decreases h, 1
  {
    if h.kind == HeadingH || h.kind == HLineH {
      return -1, h;
    }
    if h.kind == CodeH {
      e := Gather(t, Paragraph, h.lines);
      h' := h.(lines := seq(|h.lines|, _ => -1));
      HandlerOkGrown(h, reg, s, old(t.nodes), t.nodes);
      return;
    }
    var h1 := FinishBlock(t, reg, s, h);
    if h.kind == UListH || h.kind == OListH {
      if h1.list >= 0 {
        ghost var n1 := t.nodes;
        Append(t, h1.list, h1.content, 0);
        GrownTrans(old(t.nodes), n1, t.nodes);
        HandlerOkGrown(h1, reg, s, n1, t.nodes);
      }
      return h1.list, h1.(list := -1, content := -1);
    }
    return h1.content, h1.(content := -1);
  }

  /** `finishBlock`: finishes the nested handler into `content`; the nested handler is kept. */
  method FinishBlock(t: Tree, reg: Registry, ghost s: seq<char>, h: Handler) returns (h': Handler)
    requires t.Valid() && HandlerOk(h, reg, s, t.nodes)
    modifies t
    ensures t.Valid() && Grown(old(t.nodes), t.nodes) && HandlerOk(h', reg, s, t.nodes)
    ensures h' == h.(nested := h'.nested) && (h'.nested.Some? <==> h.nested.Some?)
    decreases h, 0
  {
    h' := h;
    if h.nested.Some? && h.content >= 0 {
      var e, n := Finish(t, reg, s, h.nested.value);
      ghost var n1 := t.nodes;
      Append(t, h.content, e, 0);
      GrownTrans(old(t.nodes), n1, t.nodes);
      HandlerOkGrown(n, reg, s, n1, t.nodes);
      HandlerOkGrown(h, reg, s, old(t.nodes), t.nodes);
      Renest(h, Some(n), reg, s, t.nodes);
      h' := h.(nested := Some(n));
    }
  }

  // ---------------------------------------------------------------------
  // The block handlers
  // ---------------------------------------------------------------------

  /**
   * `ParagraphHandler::handle`: the first line drops its leading blanks
   * and opens the paragraph; each line with text is appended and the
   * paragraph goes on; a line without text ends it, yielding the
   * paragraph, or nothing when it holds no line.
   */
  method HandleParagraph(lex: Parser, t: Tree, reg: Registry, h: Handler, fuel: nat)
    returns (e: int, finished: bool, h': Handler)
    requires lex.Valid() && t.Valid() && HandlerOk(h, reg, lex.input, t.nodes) && h.kind == ParagraphH
    modifies lex, t
    ensures lex.Valid() && lex.input == old(lex.input) && lex.symbols == old(lex.symbols) && t.Valid()
    ensures Grown(old(t.nodes), t.nodes) && HandlerOk(h', reg, lex.input, t.nodes)
    ensures h' == h.(content := h'.content) && h'.content >= 0 && (h.content >= 0 ==> h'.content == h.content)
    ensures finished ==> e == (if |t.nodes[h'.content].elements| > 0 then h'.content else -1)
    ensures !finished ==> e == -1 && |t.nodes[h'.content].elements| > 0
  {
    var c := h.content;
    if c < 0 {
      c := StartParagraph(lex, t);
    }
    ghost var n1 := t.nodes;
    var text := LineText(lex, t, reg, true, fuel);
    GrownTrans(old(t.nodes), n1, t.nodes);
    HandlerOkGrown(h, reg, lex.input, old(t.nodes), t.nodes);
    h' := h.(content := c);
    if text < 0 {
      finished := true;
      e := if |t.nodes[c].elements| > 0 then c else -1;
      return;
    }
    ghost var n2 := t.nodes;
    Append(t, c, text, 0);
    GrownTrans(old(t.nodes), n2, t.nodes);
    HandlerOkGrown(h', reg, lex.input, n2, t.nodes);
    return -1, false, h';
  }

  /** The first line of a paragraph drops its leading blanks; the paragraph node is created. */
  method StartParagraph(lex: Parser, t: Tree) returns (c: nat)
    requires lex.Valid() && t.Valid()
    modifies lex, t
    ensures lex.Valid() && lex.input == old(lex.input) && lex.symbols == old(lex.symbols) && t.Valid()
    ensures lex.State() == PastBlanks(lex.symbols, lex.input, old(lex.State()))
    ensures Grown(old(t.nodes), t.nodes) && c == |old(t.nodes)| && |t.nodes| == c + 1 && t.nodes[c].kind == Paragraph
  {
    SkipBlanks(lex);
    c := Make(t, Paragraph, 0);
  }

  /**
   * `HeadingHandler::handle`: the level is the `#` run; the heading text
   * is the rest of the line, empty when the line ends after the marker.
   */
  method HandleHeading(lex: Parser, t: Tree, reg: Registry, fuel: nat) returns (e: nat)
    requires lex.Valid() && t.Valid()
    modifies lex, t
    ensures lex.Valid() && lex.input == old(lex.input) && lex.symbols == old(lex.symbols) && t.Valid()
    ensures Grown(old(t.nodes), t.nodes) && e == |t.nodes| - 1
    ensures t.nodes[e].kind.Heading? && t.nodes[e].kind.level == old(lex.lastInt)
    ensures var c := t.nodes[e].kind.content; c < |t.nodes| && t.nodes[c].kind == InlineText
  {
    var level := lex.lastInt;
    SkipMarker(lex);
    var text := -1;
    if lex.lastToken == TokNewline {
      lex.GetTok();
    } else {
      text := LineText(lex, t, reg, false, fuel);
    }
    ghost var n1 := t.nodes;
    var c := TextOrEmpty(t, text);
    GrownTrans(old(t.nodes), n1, t.nodes);
    ghost var n2 := t.nodes;
    e := Make(t, Heading(level, c), 0);
    GrownTrans(old(t.nodes), n2, t.nodes);
  }

  /** `HLineHandler::handle`: consumes the `-` run and the line end. */
  method HandleHLine(lex: Parser, t: Tree) returns (e: nat)
    requires lex.Valid() && t.Valid()
    modifies lex, t
    ensures lex.Valid() && lex.input == old(lex.input) && lex.symbols == old(lex.symbols) && t.Valid()
    ensures Grown(old(t.nodes), t.nodes) && e == |old(t.nodes)| && |t.nodes| == e + 1 && t.nodes[e].kind == HLine
    ensures lex.State() == Next(lex.symbols, lex.input, Next(lex.symbols, lex.input, old(lex.State())))
  {
    lex.GetTok();
    lex.GetTok();
    e := Make(t, HLine, 0);
  }

  /**
   * `BlockquoteHandler::handle`: the first line creates the quote
   * (centered for `>>`); a line starting with blanks or ending at once
   * continues it as an indented block, a `>` line hands the rest of the
   * line to the nested handler.
   */
  method HandleBlockquote(lex: Parser, t: Tree, reg: Registry, h: Handler, fuel: nat) returns (h': Handler)
    requires lex.Valid() && t.Valid() && DefaultOk(reg) && fuel >= 1 && HandlerOk(h, reg, lex.input, t.nodes)
    requires h.kind == BlockquoteH && CanHandle(h, lex.symbols, lex.State())
    modifies lex, t
    ensures lex.Valid() && lex.input == old(lex.input) && lex.symbols == old(lex.symbols) && t.Valid()
    ensures Grown(old(t.nodes), t.nodes) && Same(h, h') && HandlerOk(h', reg, lex.input, t.nodes)
    ensures h'.content >= 0 && (h.content >= 0 ==> h'.content == h.content)
    ensures h.content < 0 ==> h'.content == |old(t.nodes)| && t.nodes[h'.content].kind == Blockquote(old(lex.lastInt) > 1)
    decreases fuel, 9
  {
    var h1 := h;
    if h.content < 0 {
      var c := Make(t, Blockquote(lex.lastInt > 1), 0);
      HandlerOkGrown(h, reg, lex.input, old(t.nodes), t.nodes);
      h1 := h.(content := c);
    }
    ghost var n1 := t.nodes;
    h' := QuoteLine(lex, t, reg, h1, fuel);
    GrownTrans(old(t.nodes), n1, t.nodes);
  }

  /** A line of an existing block quote: an indented or empty line goes on as a block, a `>` line drops the marker. */
  method QuoteLine(lex: Parser, t: Tree, reg: Registry, h: Handler, fuel: nat) returns (h': Handler)
    requires lex.Valid() && t.Valid() && DefaultOk(reg) && fuel >= 1 && HandlerOk(h, reg, lex.input, t.nodes)
    requires h.kind == BlockquoteH && h.content >= 0
    requires lex.lastToken in {TokSpace, TokNewline} ==> CanHandleBlock(h, lex.State())
    modifies lex, t
    ensures lex.Valid() && lex.input == old(lex.input) && lex.symbols == old(lex.symbols) && t.Valid()
    ensures Grown(old(t.nodes), t.nodes) && HandlerOk(h', reg, lex.input, t.nodes)
    ensures h' == h.(indent := h'.indent, nested := h'.nested)
    decreases fuel, 8
  {
    if lex.lastToken == TokSpace || lex.lastToken == TokNewline {
      h' := HandleBlock(lex, t, reg, h, fuel);
    } else {
      SkipMarker(lex);
      var n := RunLines(lex, t, reg, h.content, h.nested, fuel);
      HandlerOkGrown(h, reg, lex.input, old(t.nodes), t.nodes);
      h' := h.(nested := n);
    }
  }

  /**
   * `UnorderedListHandler::handle` and `OrderedListHandler::handle`: the
   * list is created on the first line; an indented or empty line
   * continues the current element, an item line starts a new one.
   */
  method HandleList(lex: Parser, t: Tree, reg: Registry, h: Handler, fuel: nat) returns (h': Handler)
    requires lex.Valid() && t.Valid() && DefaultOk(reg) && fuel >= 1 && HandlerOk(h, reg, lex.input, t.nodes)
    requires h.kind in {UListH, OListH} && CanHandle(h, lex.symbols, lex.State())
    modifies lex, t
    ensures lex.Valid() && lex.input == old(lex.input) && lex.symbols == old(lex.symbols) && t.Valid()
    ensures Grown(old(t.nodes), t.nodes) && Same(h, h') && HandlerOk(h', reg, lex.input, t.nodes)
    ensures h'.list >= 0 && (h.list >= 0 ==> h'.list == h.list) && (h.list < 0 ==> h'.list == |old(t.nodes)|)
    ensures old(lex.lastToken) in {TokSpace, TokNewline} ==> h'.content == h.content
    ensures old(lex.lastToken) !in {TokSpace, TokNewline} ==>
      h'.content >= |old(t.nodes)| && t.nodes[h'.content].kind == ListElement(if h.kind == OListH then old(lex.lastInt) as nat else 0)
    decreases fuel, 9
  {
    var h1 := h;
    if h.list < 0 {
      var l := Make(t, if h.kind == UListH then UnorderedList else OrderedList, 0);
      HandlerOkGrown(h, reg, lex.input, old(t.nodes), t.nodes);
      h1 := h.(list := l);
    }
    ghost var n1 := t.nodes;
    h' := ListLine(lex, t, reg, h1, fuel);
    GrownTrans(old(t.nodes), n1, t.nodes);
  }

  /** A line of an existing list: an indented or empty line continues the element, an item line starts one. */
  method ListLine(lex: Parser, t: Tree, reg: Registry, h: Handler, fuel: nat) returns (h': Handler)
    requires lex.Valid() && t.Valid() && DefaultOk(reg) && fuel >= 1 && HandlerOk(h, reg, lex.input, t.nodes)
    requires h.kind in {UListH, OListH} && h.list >= 0
    requires lex.lastToken in {TokSpace, TokNewline} ==> CanHandleBlock(h, lex.State())
    requires h.kind == OListH && lex.lastToken !in {TokSpace, TokNewline} ==> lex.lastToken == TokNumber
    modifies lex, t
    ensures lex.Valid() && lex.input == old(lex.input) && lex.symbols == old(lex.symbols) && t.Valid()
    ensures Grown(old(t.nodes), t.nodes) && Same(h, h') && HandlerOk(h', reg, lex.input, t.nodes) && h'.list == h.list
    ensures old(lex.lastToken) in {TokSpace, TokNewline} ==> h'.content == h.content
    ensures old(lex.lastToken) !in {TokSpace, TokNewline} ==>
      h'.content >= |old(t.nodes)| && t.nodes[h'.content].kind == ListElement(if h.kind == OListH then old(lex.lastInt) as nat else 0)
    decreases fuel, 8
  {
    if lex.lastToken == TokSpace || lex.lastToken == TokNewline {
      h' := HandleBlock(lex, t, reg, h, fuel);
    } else {
      h' := ListItem(lex, t, reg, h, fuel);
    }
  }

  /**
   * An item line of a list: the nested handler is finished into the
   * current element (and kept), the element is pushed onto the list, and
   * a fresh element (numbered for an ordered list) takes the rest of the
   * line.
   */
  method ListItem(lex: Parser, t: Tree, reg: Registry, h: Handler, fuel: nat) returns (h': Handler)
    requires lex.Valid() && t.Valid() && DefaultOk(reg) && fuel >= 1 && HandlerOk(h, reg, lex.input, t.nodes)
    requires h.kind in {UListH, OListH} && h.list >= 0 && (h.kind == OListH ==> lex.lastToken == TokNumber)
    modifies lex, t
    ensures lex.Valid() && lex.input == old(lex.input) && lex.symbols == old(lex.symbols) && t.Valid()
    ensures Grown(old(t.nodes), t.nodes) && Same(h, h') && HandlerOk(h', reg, lex.input, t.nodes)
    ensures h'.list == h.list && h'.content >= |old(t.nodes)|
    ensures t.nodes[h'.content].kind == ListElement(if h.kind == OListH then old(lex.lastInt) as nat else 0)
    ensures h.content >= 0 ==> h.content in t.nodes[h.list].elements
    decreases fuel, 7
  {
    var h1 := PushItem(t, reg, lex.input, h);
    ghost var n2 := t.nodes;
    var index: nat := if h.kind == OListH then lex.lastInt as nat else 0;
    SkipMarker(lex);
    h' := Open(lex, t, reg, h1, ListElement(index), fuel);
    GrownTrans(old(t.nodes), n2, t.nodes);
    assert h.content >= 0 ==> h.content in n2[h.list].elements;
  }

  /** Closes the current element of a list: its nested handler is finished into it, and it is pushed onto the list. */
  method PushItem(t: Tree, reg: Registry, ghost s: seq<char>, h: Handler) returns (h': Handler)
    requires t.Valid() && HandlerOk(h, reg, s, t.nodes) && h.kind in {UListH, OListH} && h.list >= 0
    modifies t
    ensures t.Valid() && Grown(old(t.nodes), t.nodes) && HandlerOk(h', reg, s, t.nodes)
    ensures h' == h.(nested := h'.nested)
    ensures h.content >= 0 ==> h.content in t.nodes[h.list].elements
  {
    h' := FinishBlock(t, reg, s, h);
    ghost var n1 := t.nodes;
    if h'.content >= 0 {
      Append(t, h'.list, h'.content, 0);
      GrownTrans(old(t.nodes), n1, t.nodes);
      HandlerOkGrown(h', reg, s, n1, t.nodes);
    }
  }

  /**
   * The step every container takes on its first line once its header is
   * read: the block's node is created as the handler's content and the
   * rest of the line goes to the nested handler.
   */
  method Open(lex: Parser, t: Tree, reg: Registry, h: Handler, kind: Kind, fuel: nat) returns (h': Handler)
    requires lex.Valid() && t.Valid() && DefaultOk(reg) && fuel >= 1 && HandlerOk(h, reg, lex.input, t.nodes)
    requires ContentKind(h.kind, kind) && IsListKind(kind) && Owned(kind).None? && RefsBelow(kind, |t.nodes|)
    requires h.kind == IdDefH ==> h.defType == '<'
    modifies lex, t
    ensures lex.Valid() && lex.input == old(lex.input) && lex.symbols == old(lex.symbols) && t.Valid()
    ensures Grown(old(t.nodes), t.nodes) && HandlerOk(h', reg, lex.input, t.nodes)
    ensures h' == h.(content := |old(t.nodes)|, nested := h'.nested) && t.nodes[h'.content].kind == kind
    decreases fuel, 6
  {
    var c := Make(t, kind, 0);
    ghost var n1 := t.nodes;
    HandlerOkGrown(h, reg, lex.input, old(t.nodes), n1);
    var n := RunLines(lex, t, reg, c, h.nested, fuel);
    GrownTrans(old(t.nodes), n1, t.nodes);
    HandlerOkGrown(h, reg, lex.input, n1, t.nodes);
    Renest(h.(content := c), n, reg, lex.input, t.nodes);
    h' := h.(content := c, nested := n);
  }

  /** `CodeHandler::handle`: the first line opens the fence, every later line is one line of code. */
  method HandleCode(lex: Parser, t: Tree, reg: Registry, h: Handler, fuel: nat)
    returns (e: int, finished: bool, h': Handler)
    requires lex.Valid() && t.Valid() && HandlerOk(h, reg, lex.input, t.nodes)
    requires h.kind == CodeH && CanHandle(h, lex.symbols, lex.State())
    modifies lex, t
    ensures lex.Valid() && lex.input == old(lex.input) && lex.symbols == old(lex.symbols) && t.Valid()
    ensures Grown(old(t.nodes), t.nodes) && Same(h, h') && HandlerOk(h', reg, lex.input, t.nodes)
    ensures -1 <= e < |t.nodes|
    ensures h.fence == 0 ==> e == -1 && !finished && h'.fence == old(lex.lastInt) >= 3
    ensures h.fence != 0 ==> h'.fence == h.fence && |h'.lines| == |h.lines| + 1
  {
    if h.fence == 0 {
      h' := OpenCode(lex, t, reg, h, fuel);
      return -1, false, h';
    }
    e, finished, h' := CodeLine(lex, t, reg, h);
  }

  /**
   * The opening line of a code block: the fence length, the language up
   * to the first blank, and the rest of the line, kept as the block's
   * command line.
   */
  method OpenCode(lex: Parser, t: Tree, reg: Registry, h: Handler, fuel: nat) returns (h': Handler)
    requires lex.Valid() && t.Valid() && HandlerOk(h, reg, lex.input, t.nodes)
    requires h.kind == CodeH && Opens(CodeH, lex.symbols, lex.State())
    modifies lex, t
    ensures lex.Valid() && lex.input == old(lex.input) && lex.symbols == old(lex.symbols) && t.Valid()
    ensures Grown(old(t.nodes), t.nodes) && HandlerOk(h', reg, lex.input, t.nodes)
    ensures h' == h.(fence := old(lex.lastInt), lang := h'.lang, firstLine := h'.firstLine)
    ensures var q := ReadFrom(lex.symbols, lex.input, Next(lex.symbols, lex.input, old(lex.State())), OnSpace, false, false, "");
      h'.lang == q.text && (!q.ok ==> h'.firstLine == h.firstLine)
  {
    SkipBlanks(lex);
    var fence := lex.lastInt;
    lex.GetTok();
    var lang, success := lex.ReadUntil(OnSpace, false);
    var first := h.firstLine;
    if success {
      lex.GetTok();
      first := LineText(lex, t, reg, false, fuel);
      HandlerOkGrown(h, reg, lex.input, old(t.nodes), t.nodes);
    }
    h' := h.(fence := fence, lang := lang, firstLine := first);
  }

  /**
   * A line inside a code block, read verbatim up to the closing fence:
   * a backtick run of exactly the fence length that ends the line. On the
   * fence the block is built, its opening line attached as its command
   * line, and the handler is finished.
   */
  method CodeLine(lex: Parser, t: Tree, reg: Registry, h: Handler) returns (e: int, finished: bool, h': Handler)
    requires lex.Valid() && t.Valid() && HandlerOk(h, reg, lex.input, t.nodes) && h.kind == CodeH
    modifies lex, t
    ensures lex.Valid() && lex.input == old(lex.input) && lex.symbols == old(lex.symbols) && t.Valid()
    ensures Grown(old(t.nodes), t.nodes) && HandlerOk(h', reg, lex.input, t.nodes)
    ensures h' == h.(lines := h'.lines) && |h'.lines| == |h.lines| + 1 && h'.lines[..|h.lines|] == h.lines
    ensures var q := ReadFrom(lex.symbols, lex.input, old(lex.State()), Fence(h.fence), false, false, "");
      var p := h'.lines[|h.lines|];
      0 <= p < |t.nodes| && t.nodes[p].kind == PlainText(q.text) && finished == q.ok
    ensures finished ==> 0 <= e < |t.nodes| && t.nodes[e].elements == NonNull(h'.lines)
    ensures finished ==> t.nodes[e].kind == CodeBlock(h.lang, if h.firstLine >= 0 then Some(h.firstLine as nat) else None)
    ensures finished && h.firstLine >= 0 ==> t.nodes[h.firstLine].parent == e
    ensures !finished ==> e == -1
  {
    var p, success := ReadCodeLine(lex, t, h.fence);
    var lines := h.lines + [p];
    HandlerOkGrown(h, reg, lex.input, old(t.nodes), t.nodes);
    h' := h.(lines := lines);
    if !success {
      return -1, false, h';
    }
    lex.GetTok();
    lex.GetTok();
    ghost var n1 := t.nodes;
    e := Gather(t, CodeBlock(h.lang, if h.firstLine >= 0 then Some(h.firstLine as nat) else None), lines);
    if h.firstLine >= 0 {
      ghost var n2 := t.nodes;
      t.SetParent(h.firstLine, e);
      GrownTrans(n1, n2, t.nodes);
    }
    GrownTrans(old(t.nodes), n1, t.nodes);
    HandlerOkGrown(h', reg, lex.input, n1, t.nodes);
    finished := true;
  }

  /** One line of code read verbatim up to the closing fence, stored as plain text. */
  method ReadCodeLine(lex: Parser, t: Tree, fence: int) returns (p: nat, closed: bool)
    requires lex.Valid() && t.Valid()
    modifies lex, t
    ensures lex.Valid() && lex.input == old(lex.input) && lex.symbols == old(lex.symbols) && t.Valid()
    ensures Grown(old(t.nodes), t.nodes) && p == |old(t.nodes)| && |t.nodes| == p + 1
    ensures var q := ReadFrom(lex.symbols, lex.input, old(lex.State()), Fence(fence), false, false, "");
      t.nodes[p].kind == PlainText(q.text) && closed == q.ok && lex.State() == q.rest
  {
    var line;
    line, closed := lex.ReadUntil(Fence(fence), false);
    p := Make(t, PlainText(line), 0);
  }

  /** `InfoBlockHandler::handle`: the header line creates the block, later lines continue it. */
  method HandleInfo(lex: Parser, t: Tree, reg: Registry, h: Handler, fuel: nat) returns (err: bool, h': Handler)
    requires lex.Valid() && t.Valid() && DefaultOk(reg) && fuel >= 1 && HandlerOk(h, reg, lex.input, t.nodes)
    requires h.kind == InfoBlockH && CanHandle(h, lex.symbols, lex.State())
    modifies lex, t
    ensures lex.Valid() && lex.input == old(lex.input) && lex.symbols == old(lex.symbols) && t.Valid()
    ensures Grown(old(t.nodes), t.nodes) && Same(h, h') && HandlerOk(h', reg, lex.input, t.nodes)
    ensures err <==> h.content < 0 && InfoHead(lex.symbols, lex.input, old(lex.State())).None?
    ensures !err && h.content < 0 ==>
      var r := InfoHead(lex.symbols, lex.input, old(lex.State())).value;
      h'.content == |old(t.nodes)| && t.nodes[h'.content].kind == InfoBlock(r.0, r.1)
    decreases fuel, 8
  {
    if h.content >= 0 {
      h' := HandleBlock(lex, t, reg, h, fuel);
      return false, h';
    }
    var infoType, sym, ok := InfoHeader(lex);
    if !ok {
      return true, h;
    }
    SkipMarker(lex);
    h' := Open(lex, t, reg, h, InfoBlock(infoType, sym), fuel);
    err := false;
  }

  /** The header of an info block, read as `InfoHead` describes. */
  method InfoHeader(lex: Parser) returns (infoType: string, sym: bool, ok: bool)
    requires lex.Valid()
    modifies lex
    ensures lex.Valid() && lex.input == old(lex.input) && lex.symbols == old(lex.symbols)
    ensures var r := InfoHead(lex.symbols, lex.input, old(lex.State()));
      ok == r.Some? && (ok ==> r.value == (infoType, sym, lex.State()))
  {
    lex.GetTok();
    if lex.lastToken == TokText {
      infoType, ok := lex.ReadUntil(SpaceOrSym, false);
      sym := false;
      ok := ok && lex.lastToken == TokSym && First(lex.lastString) == '>' && lex.PeekTok() == TokSpace;
      return;
    }
    sym := true;
    if First(lex.lastString) != ':' || lex.lastInt != 1 {
      return "", sym, false;
    }
    lex.GetTok();
    infoType, ok := lex.ReadUntil(SpaceOrSym, false);
    if !ok || lex.lastToken == TokSpace || First(lex.lastString) != ':' || lex.lastInt != 1 {
      return infoType, sym, false;
    }
    lex.GetTok();
    ok := lex.lastToken == TokSym && First(lex.lastString) == '>' && lex.lastInt == 1 && lex.PeekTok() == TokSpace;
  }

  /**
   * `IdDefinitionHandler::handle`: `%(id): url commands` and
   * `%{id}: commands` are complete definitions; `%<id>:` opens a block
   * that later lines continue; any other bracket is an error.
   */
  method HandleIdDef(lex: Parser, t: Tree, reg: Registry, h: Handler, fuel: nat)
    returns (e: int, finished: bool, err: bool, h': Handler)
    requires lex.Valid() && t.Valid() && DefaultOk(reg) && fuel >= 1 && HandlerOk(h, reg, lex.input, t.nodes)
    requires h.kind == IdDefH && CanHandle(h, lex.symbols, lex.State())
    modifies lex, t
    ensures lex.Valid() && lex.input == old(lex.input) && lex.symbols == old(lex.symbols) && t.Valid()
    ensures Grown(old(t.nodes), t.nodes) && Same(h, h') && HandlerOk(h', reg, lex.input, t.nodes) && -1 <= e < |t.nodes|
    ensures var r := IdHead(lex.symbols, lex.input, old(lex.State()));
      err <==> h.content < 0 && (r.None? || r.value.0 !in {'(', '{', '<'})
    ensures !err && h.content < 0 ==>
      var r := IdHead(lex.symbols, lex.input, old(lex.State())).value;
      (finished <==> r.0 != '<') && (finished ==> e >= 0 && t.nodes[e].kind.IdDefinition? && t.nodes[e].kind.defId == r.1 && t.nodes[e].kind.defType == r.0)
    ensures h.content >= 0 || err ==> !finished && e == -1
    decreases fuel, 8
  {
    e, finished := -1, false;
    if h.content >= 0 {
      h' := HandleBlock(lex, t, reg, h, fuel);
      return e, false, false, h';
    }
    var ty, id, ok := IdHeader(lex);
    if !ok || ty !in {'(', '{', '<'} {
      return -1, false, true, h;
    }
    e, finished, h' := Define(lex, t, reg, h, ty, id, fuel);
    err := false;
  }

  /** The body of a well-formed id definition: one line for `(` and `{`, a block for `<`. */
  method Define(lex: Parser, t: Tree, reg: Registry, h: Handler, ty: char, id: string, fuel: nat)
    returns (e: int, finished: bool, h': Handler)
    requires lex.Valid() && t.Valid() && DefaultOk(reg) && fuel >= 1 && HandlerOk(h, reg, lex.input, t.nodes)
    requires h.kind == IdDefH && h.content < 0 && ty in {'(', '{', '<'}
    modifies lex, t
    ensures lex.Valid() && lex.input == old(lex.input) && lex.symbols == old(lex.symbols) && t.Valid()
    ensures Grown(old(t.nodes), t.nodes) && Same(h, h') && HandlerOk(h', reg, lex.input, t.nodes) && -1 <= e < |t.nodes|
    ensures (finished <==> ty != '<') && (!finished ==> e == -1)
    ensures finished ==> e >= 0 && t.nodes[e].kind.IdDefinition? && t.nodes[e].kind.defId == id && t.nodes[e].kind.defType == ty
    ensures !finished ==> h'.content >= 0 && t.nodes[h'.content].kind == IdDefinition(id, "", '<')
    decreases fuel, 7
  {
    if ty == '<' {
      h' := Open(lex, t, reg, h.(defType := '<'), IdDefinition(id, "", '<'), fuel);
      return -1, false, h';
    }
    e := IdLine(lex, t, ty, id);
    HandlerOkGrown(h, reg, lex.input, old(t.nodes), t.nodes);
    return e, true, h.(defType := ty);
  }

  /** The header of an id definition, read as `IdHead` describes. */
  method IdHeader(lex: Parser) returns (ty: char, id: string, ok: bool)
    requires lex.Valid()
    modifies lex
    ensures lex.Valid() && lex.input == old(lex.input) && lex.symbols == old(lex.symbols)
    ensures var r := IdHead(lex.symbols, lex.input, old(lex.State()));
      ok == r.Some? && (ok ==> r.value == (ty, id, lex.State()))
  {
    lex.GetTok();
    ty := First(lex.lastString);
    lex.GetTok();
    id, ok := lex.ReadUntil(DefinitionEnd(InvType(ty)), false);
    if !ok {
      return;
    }
    lex.GetTok();
    if lex.lastInt != 1 || lex.PeekTok() != TokSpace {
      return ty, id, false;
    }
    lex.GetTok();
    lex.GetTok();
  }

  /** A one-line definition: `(` reads a link target and its commands, `{` only commands, up to the line end. */
  method IdLine(lex: Parser, t: Tree, ty: char, id: string) returns (e: nat)
    requires lex.Valid() && t.Valid() && ty in {'(', '{'}
    modifies lex, t
    ensures lex.Valid() && lex.input == old(lex.input) && lex.symbols == old(lex.symbols) && t.Valid()
    ensures Grown(old(t.nodes), t.nodes) && e == |old(t.nodes)| && |t.nodes| == e + 1
    ensures ty == '(' ==> var r := LinkFrom(lex.symbols, lex.input, old(lex.State()), '\0');
      t.nodes[e].kind == IdDefinition(id, r.keyword, ty) && t.nodes[e].cmd == Cmd.Merge(Cmd.Empty, Cmd.Parsed(r.command))
    ensures ty == '{' ==> var r := ReadFrom(lex.symbols, lex.input, old(lex.State()), Never, false, false, "");
      t.nodes[e].kind == IdDefinition(id, "", ty) && t.nodes[e].cmd == Cmd.Merge(Cmd.Empty, Cmd.Parsed(r.text))
  {
    var url, command := "", "";
    if ty == '(' {
      var u, c, _ := lex.ParseLink('\0');
      url, command := u, c;
    } else {
      var c, _ := lex.ReadUntil(Never, false);
      command := c;
    }
    e := Make(t, IdDefinition(id, url, ty), 0);
    ghost var n1 := t.nodes;
    Annotate(t, e, command, 0);
    GrownTrans(old(t.nodes), n1, t.nodes);
  }

  /** `FootnoteHandler::handle`: `^name: text` opens a footnote block whose id is `makeId(name)`. */
  method HandleFootnote(lex: Parser, t: Tree, reg: Registry, h: Handler, fuel: nat) returns (err: bool, h': Handler)
    requires lex.Valid() && t.Valid() && DefaultOk(reg) && fuel >= 1 && HandlerOk(h, reg, lex.input, t.nodes)
    requires h.kind == FootnoteH && CanHandle(h, lex.symbols, lex.State())
    modifies lex, t
    ensures lex.Valid() && lex.input == old(lex.input) && lex.symbols == old(lex.symbols) && t.Valid()
    ensures Grown(old(t.nodes), t.nodes) && Same(h, h') && HandlerOk(h', reg, lex.input, t.nodes)
    ensures err <==> h.content < 0 && FootHead(lex.symbols, lex.input, old(lex.State())).None?
    ensures !err && h.content < 0 ==>
      var r := FootHead(lex.symbols, lex.input, old(lex.State())).value;
      h'.content == |old(t.nodes)| && t.nodes[h'.content].kind == FootnoteBlock(Ids.MakeIdOf(r.0))
    decreases fuel, 8
  {
    if h.content >= 0 {
      h' := HandleBlock(lex, t, reg, h, fuel);
      return false, h';
    }
    var name, ok := FootHeader(lex);
    if !ok {
      return true, h;
    }
    var fid := Ids.MakeId(name);
    h' := Open(lex, t, reg, h, FootnoteBlock(fid), fuel);
    err := false;
  }

  /** The header of a footnote, read as `FootHead` describes. */
  method FootHeader(lex: Parser) returns (name: string, ok: bool)
    requires lex.Valid()
    modifies lex
    ensures lex.Valid() && lex.input == old(lex.input) && lex.symbols == old(lex.symbols)
    ensures var r := FootHead(lex.symbols, lex.input, old(lex.State()));
      ok == r.Some? && (ok ==> r.value == (name, lex.State()))
  {
    lex.GetTok();
    name, ok := lex.ReadUntil(FootnoteEnd, false);
    if ok {
      lex.GetTok();
      lex.GetTok();
    }
  }

  /**
   * `CollapseHandler::handle`: `++- summary` opens an open collapse
   * block, `+-- summary` a closed one; the summary is the rest of the
   * line (empty when there is none), later lines are the content.
   */
  method HandleCollapse(lex: Parser, t: Tree, reg: Registry, h: Handler, fuel: nat) returns (err: bool, h': Handler)
    requires lex.Valid() && t.Valid() && DefaultOk(reg) && fuel >= 1 && HandlerOk(h, reg, lex.input, t.nodes)
    requires h.kind == CollapseH && CanHandle(h, lex.symbols, lex.State())
    modifies lex, t
    ensures lex.Valid() && lex.input == old(lex.input) && lex.symbols == old(lex.symbols) && t.Valid()
    ensures Grown(old(t.nodes), t.nodes) && Same(h, h') && HandlerOk(h', reg, lex.input, t.nodes)
    ensures err <==> h.content < 0 && !CollapseMarks(lex.symbols, Next(lex.symbols, lex.input, old(lex.State())), old(lex.lastInt) == 2)
    ensures !err && h.content < 0 ==>
      0 <= h'.content < |t.nodes| && t.nodes[h'.content].kind.CollapseBlock? &&
      t.nodes[h'.content].kind.isOpen == (old(lex.lastInt) == 2)
    decreases fuel, 8
  {
    if h.content >= 0 {
      h' := HandleBlock(lex, t, reg, h, fuel);
      return false, h';
    }
    err, h' := OpenCollapse(lex, t, reg, h, fuel);
  }

  /** The header line of a collapse block. */
  method OpenCollapse(lex: Parser, t: Tree, reg: Registry, h: Handler, fuel: nat) returns (err: bool, h': Handler)
    requires lex.Valid() && t.Valid() && HandlerOk(h, reg, lex.input, t.nodes) && h.kind == CollapseH && h.content < 0
    modifies lex, t
    ensures lex.Valid() && lex.input == old(lex.input) && lex.symbols == old(lex.symbols) && t.Valid()
    ensures Grown(old(t.nodes), t.nodes) && Same(h, h') && HandlerOk(h', reg, lex.input, t.nodes)
    ensures err <==> !CollapseMarks(lex.symbols, Next(lex.symbols, lex.input, old(lex.State())), old(lex.lastInt) == 2)
    ensures !err ==>
      0 <= h'.content < |t.nodes| && t.nodes[h'.content].kind.CollapseBlock? &&
      t.nodes[h'.content].kind.isOpen == (old(lex.lastInt) == 2)
  {
    var isOpen := lex.lastInt == 2;
    lex.GetTok();
    if !(lex.lastToken == TokSym && First(lex.lastString) == '-' && lex.lastInt == (if isOpen then 1 else 2) &&
         (lex.PeekTok() == TokSpace || lex.PeekTok() == TokNewline)) {
      return true, h;
    }
    var c := MakeCollapse(lex, t, reg, isOpen, fuel);
    HandlerOkGrown(h, reg, lex.input, old(t.nodes), t.nodes);
    return false, h.(content := c);
  }

  /** The rest of a collapse block's header line: the marker, then the summary, then the block itself. */
  method MakeCollapse(lex: Parser, t: Tree, reg: Registry, isOpen: bool, fuel: nat) returns (c: nat)
    requires lex.Valid() && t.Valid()
    modifies lex, t
    ensures lex.Valid() && lex.input == old(lex.input) && lex.symbols == old(lex.symbols) && t.Valid()
    ensures Grown(old(t.nodes), t.nodes) && c < |t.nodes| && t.nodes[c].kind.CollapseBlock? && t.nodes[c].kind.isOpen == isOpen
  {
    SkipMarker(lex);
    var text := LineText(lex, t, reg, false, fuel);
    ghost var n1 := t.nodes;
    var summary := TextOrEmpty(t, text);
    GrownTrans(old(t.nodes), n1, t.nodes);
    ghost var n2 := t.nodes;
    c := Make(t, CollapseBlock(isOpen, summary), 0);
    GrownTrans(old(t.nodes), n2, t.nodes);
  }

  /**
   * `parseText(allowLb)` over the rest of the line, then the line end is
   * consumed: the line's text, or -1 when it has none.
   */
  method LineText(lex: Parser, t: Tree, reg: Registry, allowLb: bool, fuel: nat) returns (text: int)
    requires lex.Valid() && t.Valid()
    modifies lex, t
    ensures lex.Valid() && lex.input == old(lex.input) && lex.symbols == old(lex.symbols) && t.Valid()
    ensures Grown(old(t.nodes), t.nodes) && -1 <= text < |t.nodes|
    ensures text >= 0 ==> text >= |old(t.nodes)| && t.nodes[text].kind == InlineText
  {
    var r, _, _ := ParseText(lex, t, reg, allowLb, true, true, '\0', fuel);
    lex.GetTok();
    ExtendsGrown(old(t.nodes), t.nodes);
    text := r;
  }

  /** The text a heading or a collapse summary holds: the line's text, or an empty text for a line without one. */
  method TextOrEmpty(t: Tree, text: int) returns (c: nat)
    requires t.Valid() && -1 <= text < |t.nodes| && (text >= 0 ==> t.nodes[text].kind == InlineText)
    modifies t
    ensures t.Valid() && Grown(old(t.nodes), t.nodes) && c < |t.nodes| && t.nodes[c].kind == InlineText
    ensures text >= 0 ==> c == text && t.nodes == old(t.nodes)
    ensures text < 0 ==> c == |old(t.nodes)| && |t.nodes| == c + 1 && t.nodes[c].elements == []
  {
    if text >= 0 {
      return text;
    }
    c := Make(t, InlineText, 0);
  }

  // ---------------------------------------------------------------------
  // parseDocument
  // ---------------------------------------------------------------------

  /**
   * `parseDocument`: a fresh document takes the result of `parseLine`
   * for every line up to the end of input, then of one more call, which
   * finishes the block still open there. At most `fuel` lines are read;
   * `complete` says the input was read to its end within that bound.
   */
  method ParseDocument(lex: Parser, t: Tree, reg: Registry, fuel: nat) returns (doc: nat, open: Option<Handler>, ghost complete: bool)
    requires lex.Valid() && t.Valid() && DefaultOk(reg)
    modifies lex, t
    ensures lex.Valid() && lex.input == old(lex.input) && lex.symbols == old(lex.symbols) && t.Valid()
    ensures Grown(old(t.nodes), t.nodes) && doc == |old(t.nodes)| && doc < |t.nodes| && t.nodes[doc].kind == Document(map[])
    ensures complete ==> lex.lastToken == TokEOF && open.None?
  {
    doc := Make(t, Document(map[]), 0);
    lex.GetTok();
    open := None;
    var budget := fuel;
    while lex.lastToken != TokEOF && budget > 0
      invariant lex.Valid() && lex.input == old(lex.input) && lex.symbols == old(lex.symbols) && t.Valid()
      invariant Grown(old(t.nodes), t.nodes) && doc < |t.nodes| && t.nodes[doc].kind == Document(map[])
      invariant open.Some? ==> HandlerOk(open.value, reg, lex.input, t.nodes)
    {
      ghost var n1 := t.nodes;
      var e, _, h, _, _ := ParseLine(lex, t, reg, open, fuel);
      ghost var n2 := t.nodes;
      Append(t, doc, e, 0);
      GrownTrans(n1, n2, t.nodes);
      GrownTrans(old(t.nodes), n1, t.nodes);
      if h.Some? {
        HandlerOkGrown(h.value, reg, lex.input, n2, t.nodes);
      }
      open := h;
      budget := budget - 1;
    }
    complete := lex.lastToken == TokEOF;
    ghost var n3 := t.nodes;
    var e, _, h, _, _ := ParseLine(lex, t, reg, open, fuel);
    ghost var n4 := t.nodes;
    Append(t, doc, e, 0);
    GrownTrans(n3, n4, t.nodes);
    GrownTrans(old(t.nodes), n3, t.nodes);
    open := h;
  }
}
