/**
 * Inline parsing (src/lexer.cpp `parseText`, `_parseLine`; src/handlers.cpp
 * and src/handlers.hpp, the inline handlers). Every method works on one
 * `Parser` and one `Tree` and only appends to the tree: the nodes that
 * existed before a call are left exactly as they were (`Extends`).
 *
 * `parseText` and the handlers call each other; the model bounds that
 * recursion, and the number of elements one `parseText` call reads, by
 * `fuel`.
 */
module Inline {
  import opened Util
  import opened Lexer
  import opened Ast
  import opened Handlers
  import Ids
  import Cmd = Command

  // ---------------------------------------------------------------------
  // How the arena changes
  // ---------------------------------------------------------------------

  /** `b` is `a` with nodes appended and nothing else changed. */
  predicate Extends(a: seq<Node>, b: seq<Node>)
  {
    |a| <= |b| && b[..|a|] == a
  }

  /**
   * `b` is `a` with nodes appended, no kind changed and no child removed:
   * every container keeps its elements as a prefix of its new ones.
   */
  predicate Grown(a: seq<Node>, b: seq<Node>)
  {
    |a| <= |b| &&
    forall i :: 0 <= i < |a| ==> b[i].kind == a[i].kind && a[i].elements <= b[i].elements
  }

  lemma ExtendsTrans(a: seq<Node>, b: seq<Node>, c: seq<Node>)
    requires Extends(a, b) && Extends(b, c)
    ensures Extends(a, c)
  {
    assert c[..|a|] == c[..|b|][..|a|];
  }

  lemma ExtendsGrown(a: seq<Node>, b: seq<Node>)
    requires Extends(a, b)
    ensures Grown(a, b)
  {
    forall i | 0 <= i < |a| ensures b[i] == a[i] {
      assert b[..|a|][i] == b[i];
    }
  }

  lemma GrownTrans(a: seq<Node>, b: seq<Node>, c: seq<Node>)
    requires Grown(a, b) && Grown(b, c)
    ensures Grown(a, c)
  {
  }

  // ---------------------------------------------------------------------
  // Arena operations with the frame each call needs
  // ---------------------------------------------------------------------

  /**
   * Allocates one node. Only nodes at or above `floor` can be touched (an
   * owned sub-element gains its parent), so the arena below `floor` stays.
   */
  method Make(t: Tree, kind: Kind, ghost floor: nat) returns (i: nat)
    requires t.Valid() && RefsBelow(kind, |t.nodes|) && floor <= |t.nodes|
    requires Owned(kind).Some? ==> Owned(kind).value >= floor
    modifies t
    ensures t.Valid() && i == |old(t.nodes)| && |t.nodes| == i + 1
    ensures t.nodes[i].kind == kind && t.nodes[i].elements == [] && t.nodes[i].cmd == Cmd.Empty
    ensures Extends(old(t.nodes)[..floor], t.nodes)
    ensures forall j :: 0 <= j < i ==> t.nodes[j].kind == old(t.nodes)[j].kind && t.nodes[j].elements == old(t.nodes)[j].elements
    ensures Grown(old(t.nodes), t.nodes)
  {
    i := t.NewNode(kind);
    assert t.nodes[..floor] == t.nodes[..i][..floor];
  }

  /** `addElement`, from outside the tree: `c` gains `child` (none if it is `-1`) and nothing else changes. */
  method Append(t: Tree, c: nat, child: int, ghost floor: nat)
    requires t.Valid() && c < |t.nodes| && IsListKind(t.nodes[c].kind) && -1 <= child < |t.nodes|
    requires floor <= c && (child >= 0 ==> floor <= child)
    modifies t
    ensures t.Valid() && |t.nodes| == |old(t.nodes)|
    ensures t.nodes[c].elements == old(t.nodes)[c].elements + (if child >= 0 then [child as nat] else [])
    ensures forall j :: 0 <= j < |t.nodes| ==> t.nodes[j].kind == old(t.nodes)[j].kind
    ensures forall j :: 0 <= j < |t.nodes| && j != c ==> t.nodes[j].elements == old(t.nodes)[j].elements
    ensures Extends(old(t.nodes)[..floor], t.nodes)
    ensures Grown(old(t.nodes), t.nodes)
  {
    t.AddElement(c, child);
    if child >= 0 {
      AdoptedFrame(old(t.nodes), c, child, old(t.nodes)[c].elements + [child]);
      assert t.nodes[..floor] == old(t.nodes)[..floor];
    }
  }

  /** `prependElement`, from outside the tree. */
  method Prepend(t: Tree, c: nat, child: int, ghost floor: nat)
    requires t.Valid() && c < |t.nodes| && IsListKind(t.nodes[c].kind) && -1 <= child < |t.nodes|
    requires floor <= c && (child >= 0 ==> floor <= child)
    modifies t
    ensures t.Valid() && |t.nodes| == |old(t.nodes)|
    ensures t.nodes[c].elements == (if child >= 0 then [child as nat] else []) + old(t.nodes)[c].elements
    ensures forall j :: 0 <= j < |t.nodes| ==> t.nodes[j].kind == old(t.nodes)[j].kind
    ensures Extends(old(t.nodes)[..floor], t.nodes)
  {
    t.PrependElement(c, child);
    if child >= 0 {
      AdoptedFrame(old(t.nodes), c, child, [child] + old(t.nodes)[c].elements);
      assert t.nodes[..floor] == old(t.nodes)[..floor];
    }
  }

  /** `addCommand(ASTCommand(command))`: parses the command text and merges it into node `i`. */
  method Annotate(t: Tree, i: nat, command: string, ghost floor: nat)
    requires t.Valid() && floor <= i < |t.nodes|
    modifies t
    ensures t.Valid() && |t.nodes| == |old(t.nodes)|
    ensures t.nodes[i].cmd == Cmd.Merge(old(t.nodes)[i].cmd, Cmd.Parsed(command))
    ensures forall j :: 0 <= j < |t.nodes| ==> t.nodes[j].kind == old(t.nodes)[j].kind && t.nodes[j].elements == old(t.nodes)[j].elements
    ensures Extends(old(t.nodes)[..floor], t.nodes)
  {
    var cmd := Cmd.ParseCommand(command);
    t.AddCommand(i, cmd);
    assert t.nodes[..floor] == old(t.nodes)[..floor];
  }

  /** `after` is `before` with node `e` of `kind` appended, carrying the commands `command` parses to. */
  predicate Added(before: seq<Node>, after: seq<Node>, e: int, kind: Kind, command: string)
  {
    e == |before| && |after| == e + 1 &&
    after[e].kind == kind && after[e].cmd == Cmd.Merge(Cmd.Empty, Cmd.Parsed(command)) &&
    forall j :: 0 <= j < e ==> after[j].kind == before[j].kind
  }

  /** A new node of `kind` carrying the commands `command` parses to. */
  method Attach(t: Tree, kind: Kind, command: string, ghost floor: nat) returns (e: nat)
    requires t.Valid() && RefsBelow(kind, |t.nodes|) && floor <= |t.nodes|
    requires Owned(kind).Some? ==> Owned(kind).value >= floor
    modifies t
    ensures t.Valid() && Added(old(t.nodes), t.nodes, e, kind, command)
    ensures Extends(old(t.nodes)[..floor], t.nodes)
  {
    e := Make(t, kind, floor);
    ghost var n1 := t.nodes;
    Annotate(t, e, command, floor);
    assert t.nodes[..floor] == n1[..floor];
  }

  // ---------------------------------------------------------------------
  // _parseLine
  // ---------------------------------------------------------------------

  /** The plain text `_parsePlainText` returns from state `st`, and the state after it. */
  function PlainAt(symbols: set<char>, s: seq<char>, st: Snap): (string, Snap)
    requires SnapOk(s, st)
  {
    var p := PlainFrom(symbols, s, Next(symbols, s, st));
    (st.lastString + p.0, p.1)
  }

  /**
   * `_parseLine(allowLb)` from state `st`: the plain text element it
   * returns, if any, and the state after. A blank before a line end is
   * consumed; a forced line break (two blanks before the line end) is left
   * for the caller when `allowLb` is set.
   */
  function LineStart(symbols: set<char>, s: seq<char>, st: Snap, allowLb: bool): (Option<string>, Snap)
    requires SnapOk(s, st)
  {
    var peek := PeekOf(symbols, st);
    if st.lastToken == TokNumber || st.lastToken == TokText then
      var p := PlainAt(symbols, s, st); (Some(p.0), p.1)
    else if st.lastToken == TokSpace then
      if allowLb && st.lastInt >= 2 && peek == TokNewline then (None, st)
      else if peek == TokText then var p := PlainAt(symbols, s, st); (Some(p.0), p.1)
      else if peek == TokNewline then (None, Next(symbols, s, st))
      else (None, st)
    else (None, st)
  }

  /**
   * When `_parseLine` yields nothing, the parser is on a symbol, a blank, a
   * line end or the end of input; when it yields text, it stopped where
   * plain text stops.
   */
  lemma LineStartStops(symbols: set<char>, s: seq<char>, st: Snap, allowLb: bool)
    requires SnapOk(s, st)
    ensures var r := LineStart(symbols, s, st, allowLb);
      SnapOk(s, r.1) &&
      (r.0.None? ==> r.1.lastToken in {TokSym, TokSpace, TokNewline, TokEOF}) &&
      (r.0.None? && r.1.lastToken == TokSpace ==> r.1 == st) &&
      (r.0.Some? ==> !PlainGoesOn(symbols, r.1))
  {
    if st.lastToken == TokSpace && !(allowLb && st.lastInt >= 2) && PeekOf(symbols, st) == TokNewline {
      assert st.lastChar != Unloaded;
      PeekPredicts(symbols, s, st);
    }
  }

  /** `_parseLine(allowLb)`. */
  method ParseInline(lex: Parser, t: Tree, allowLb: bool) returns (e: int)
    requires lex.Valid() && t.Valid()
    modifies lex, t
    ensures lex.Valid() && lex.input == old(lex.input) && lex.symbols == old(lex.symbols) && t.Valid()
    ensures Extends(old(t.nodes), t.nodes)
    ensures var r := LineStart(lex.symbols, lex.input, old(lex.State()), allowLb);
      lex.State() == r.1 &&
      (e >= 0 <==> r.0.Some?) &&
      (e >= 0 ==> e == |old(t.nodes)| && |t.nodes| == e + 1 && t.nodes[e].kind == PlainText(r.0.value)) &&
      (e < 0 ==> e == -1 && t.nodes == old(t.nodes))
  {
    e := -1;
    var plain := false;
    if lex.lastToken == TokNumber || lex.lastToken == TokText {
      plain := true;
    } else if lex.lastToken == TokSpace {
      if allowLb && lex.lastInt >= 2 && lex.PeekTok() == TokNewline {
      } else if lex.PeekTok() == TokText {
        plain := true;
      } else if lex.PeekTok() == TokNewline {
        lex.GetTok();
      }
    }
    if plain {
      var str := lex.ParsePlainText();
      e := Make(t, PlainText(str), |t.nodes|);
    }
  }

  // ---------------------------------------------------------------------
  // parseText
  // ---------------------------------------------------------------------

  /** Whether an iteration of `parseText` goes on, or the value and end-of-line flag it returns. */
  datatype Outcome = Continue | Done(text: int, eol: bool)

  /**
   * `parseText(allowLb, unknownAsText, allowInlineStyling, symReturn)`:
   * collects the inline elements of the rest of the line into a fresh
   * `InlineText`. `eol` is set when it stopped at a line end (not
   * consumed) or the end of input, and then `text` is `-1` if nothing was
   * collected; otherwise it stopped on `symReturn` or, with
   * `unknownAsText` clear, on a symbol no handler takes. `complete` is
   * false only when `fuel` ran out first.
   */
  method ParseText(lex: Parser, t: Tree, reg: Registry, allowLb: bool, unknownAsText: bool, styling: bool, symReturn: char, fuel: nat)
    returns (text: int, eol: bool, ghost complete: bool)
    requires lex.Valid() && t.Valid()
    modifies lex, t
    ensures lex.Valid() && lex.input == old(lex.input) && lex.symbols == old(lex.symbols) && t.Valid()
    ensures Extends(old(t.nodes), t.nodes)
    ensures text == -1 || (|old(t.nodes)| <= text < |t.nodes| && t.nodes[text].kind == InlineText)
    ensures text == -1 ==> eol
    ensures complete && eol ==> lex.lastToken in {TokNewline, TokEOF}
    ensures complete && eol && text >= 0 ==> |t.nodes[text].elements| > 0
    ensures complete && !eol ==> lex.lastToken in {TokSym, TokSpace} && (First(lex.lastString) == symReturn || !unknownAsText)
    decreases fuel, 9
  {
    ghost var nodes0 := t.nodes;
    var txt := Make(t, InlineText, |t.nodes|);
    var budget := fuel;
    while budget > 0
      invariant budget <= fuel
      invariant lex.Valid() && lex.input == old(lex.input) && lex.symbols == old(lex.symbols) && t.Valid()
      invariant txt == |nodes0| && Extends(nodes0, t.nodes) && txt < |t.nodes| && t.nodes[txt].kind == InlineText
      decreases budget
    {
      budget := budget - 1;
      var r := Step(lex, t, reg, txt, allowLb, unknownAsText, styling, symReturn, fuel);
      if r.Done? {
        return r.text, r.eol, true;
      }
    }
    text, eol, complete := txt, true, false;
  }

  /**
   * One element of `parseText`: `_parseLine`, then the forced line break,
   * the line end, `symReturn`, and the inline handlers, in that order.
   */
  method Step(lex: Parser, t: Tree, reg: Registry, txt: nat, allowLb: bool, unknownAsText: bool, styling: bool, symReturn: char, fuel: nat)
    returns (r: Outcome)
    requires lex.Valid() && t.Valid() && txt < |t.nodes| && t.nodes[txt].kind == InlineText
    modifies lex, t
    requires fuel >= 1
    ensures lex.Valid() && lex.input == old(lex.input) && lex.symbols == old(lex.symbols) && t.Valid()
    ensures txt < |t.nodes| && |old(t.nodes)| <= |t.nodes| && Extends(old(t.nodes)[..txt], t.nodes) && t.nodes[txt].kind == InlineText
    ensures r.Done? ==> (r.text == -1 || r.text == txt) && (r.text == -1 ==> r.eol)
    ensures r.Done? && r.eol ==> lex.lastToken in {TokNewline, TokEOF}
    ensures r.Done? && r.eol && r.text >= 0 ==> |t.nodes[txt].elements| > 0
    ensures r.Done? && !r.eol ==> lex.lastToken in {TokSym, TokSpace} && (First(lex.lastString) == symReturn || !unknownAsText)
    decreases fuel, 8
  {
    ghost var st0 := lex.State();
    var e := ParseInline(lex, t, allowLb);
    LineStartStops(lex.symbols, lex.input, st0, allowLb);
    if e >= 0 {
      Append(t, txt, e, txt);
      return Continue;
    }
    r := AtBreak(lex, t, reg, txt, allowLb, unknownAsText, styling, symReturn, fuel);
  }

  /** The part of a `parseText` iteration after `_parseLine` yielded nothing. */
  method AtBreak(lex: Parser, t: Tree, reg: Registry, txt: nat, allowLb: bool, unknownAsText: bool, styling: bool, symReturn: char, fuel: nat)
    returns (r: Outcome)
    requires lex.Valid() && t.Valid() && txt < |t.nodes| && t.nodes[txt].kind == InlineText
    modifies lex, t
    requires fuel >= 1 && lex.lastToken in {TokSym, TokSpace, TokNewline, TokEOF}
    ensures lex.Valid() && lex.input == old(lex.input) && lex.symbols == old(lex.symbols) && t.Valid()
    ensures txt < |t.nodes| && |old(t.nodes)| <= |t.nodes| && Extends(old(t.nodes)[..txt], t.nodes) && t.nodes[txt].kind == InlineText
    ensures r.Done? ==> (r.text == -1 || r.text == txt) && (r.text == -1 ==> r.eol)
    ensures r.Done? && r.eol ==> lex.lastToken in {TokNewline, TokEOF}
    ensures r.Done? && r.eol && r.text >= 0 ==> |t.nodes[txt].elements| > 0
    ensures r.Done? && !r.eol ==> lex.lastToken in {TokSym, TokSpace} && (First(lex.lastString) == symReturn || !unknownAsText)
    decreases fuel, 7
  {
    if lex.lastToken == TokSpace && lex.lastInt >= 2 && lex.PeekTok() == TokNewline {
      r := ForcedBreak(lex, t, txt, allowLb);
      return;
    }
    if lex.lastToken == TokNewline || lex.lastToken == TokEOF {
      if |t.nodes[txt].elements| == 0 {
        return Done(-1, true);
      }
      return Done(txt, true);
    }
    if First(lex.lastString) == symReturn || (!styling && !unknownAsText) {
      return Done(txt, false);
    }
    r := Other(lex, t, reg, txt, unknownAsText, styling, symReturn, fuel);
  }

  /** A symbol or blank that is not `symReturn`: handled, taken literally, or the end of the text. */
  method Other(lex: Parser, t: Tree, reg: Registry, txt: nat, unknownAsText: bool, styling: bool, symReturn: char, fuel: nat)
    returns (r: Outcome)
    requires lex.Valid() && t.Valid() && txt < |t.nodes| && t.nodes[txt].kind == InlineText
    requires fuel >= 1 && lex.lastToken in {TokSym, TokSpace} && (styling || unknownAsText)
    modifies lex, t
    ensures lex.Valid() && lex.input == old(lex.input) && lex.symbols == old(lex.symbols) && t.Valid()
    ensures txt < |t.nodes| && |old(t.nodes)| <= |t.nodes| && Extends(old(t.nodes)[..txt], t.nodes) && t.nodes[txt].kind == InlineText
    ensures r.Done? ==> r == Done(txt, false) && lex.lastToken in {TokSym, TokSpace} && !unknownAsText
    decreases fuel, 6
  {
    var e, stop := Unknown(lex, t, reg, unknownAsText, styling, fuel);
    if stop {
      return Done(txt, false);
    }
    Append(t, txt, e, txt);
    return Continue;
  }

  /**
   * Two or more blanks before a line end: the blanks are consumed and, when
   * line breaks are allowed, become a `Linebreak` element; a line break
   * with nothing before it ends the text instead.
   */
  method ForcedBreak(lex: Parser, t: Tree, txt: nat, allowLb: bool) returns (r: Outcome)
    requires lex.Valid() && t.Valid() && txt < |t.nodes| && t.nodes[txt].kind == InlineText
    modifies lex, t
    requires lex.lastToken == TokSpace && PeekOf(lex.symbols, lex.State()) == TokNewline
    ensures lex.Valid() && lex.input == old(lex.input) && lex.symbols == old(lex.symbols) && t.Valid()
    ensures txt < |t.nodes| && |old(t.nodes)| <= |t.nodes| && Extends(old(t.nodes)[..txt], t.nodes) && t.nodes[txt].kind == InlineText
    ensures lex.lastToken == TokNewline
    ensures r.Done? <==> allowLb && |old(t.nodes)[txt].elements| == 0
    ensures r.Done? ==> r == Done(-1, true) && t.nodes == old(t.nodes)
    ensures r.Continue? && allowLb ==> |t.nodes| == |old(t.nodes)| + 1 && t.nodes[txt].elements == old(t.nodes)[txt].elements + [|old(t.nodes)|] && t.nodes[|old(t.nodes)|].kind == Linebreak
    ensures !allowLb ==> t.nodes == old(t.nodes)
  {
    assert lex.lastChar != Unloaded;
    PeekPredicts(lex.symbols, lex.input, lex.State());
    lex.GetTok();
    if allowLb {
      if |t.nodes[txt].elements| == 0 {
        return Done(-1, true);
      }
      var lb := Make(t, Linebreak, txt);
      Append(t, txt, lb, txt);
    }
    return Continue;
  }

  /**
   * A symbol or blank no plain rule took: the inline handlers when styling
   * is allowed, literal text otherwise.
   */
  method Unknown(lex: Parser, t: Tree, reg: Registry, unknownAsText: bool, styling: bool, fuel: nat) returns (e: int, stop: bool)
    requires lex.Valid() && t.Valid() && lex.lastToken in {TokSym, TokSpace} && fuel >= 1
    requires styling || unknownAsText
    modifies lex, t
    ensures lex.Valid() && lex.input == old(lex.input) && lex.symbols == old(lex.symbols) && t.Valid()
    ensures Extends(old(t.nodes), t.nodes)
    ensures e == -1 || |old(t.nodes)| <= e < |t.nodes|
    ensures stop ==> e == -1 && !unknownAsText && lex.State() == old(lex.State())
    ensures !styling ==> !stop && e == |old(t.nodes)| && t.nodes[e].kind == PlainText(Repeat(First(old(lex.lastString)), old(lex.lastInt) as nat))
    decreases fuel, 5
  {
    if styling {
      ghost var tried;
      e, stop, tried := InlineAt(lex, t, reg, unknownAsText, fuel);
    } else {
      e := Literal(lex, t);
      stop := false;
    }
  }

  /** An unhandled symbol or blank run, taken as literal text. */
  method Literal(lex: Parser, t: Tree) returns (e: nat)
    requires lex.Valid() && t.Valid() && lex.lastToken in {TokSym, TokSpace}
    modifies lex, t
    ensures lex.Valid() && lex.input == old(lex.input) && lex.symbols == old(lex.symbols) && t.Valid()
    ensures Extends(old(t.nodes), t.nodes) && e == |old(t.nodes)| && |t.nodes| == e + 1
    ensures t.nodes[e].kind == PlainText(Repeat(First(old(lex.lastString)), old(lex.lastInt) as nat))
    ensures lex.State() == Next(lex.symbols, lex.input, old(lex.State()))
  {
    e := Make(t, PlainText(Repeat(First(lex.lastString), lex.lastInt as nat)), |t.nodes|);
    lex.GetTok();
  }

  /** `findInlineHandlerAfter(h)`. */
  method FindInlineHandlerAfter(lex: Parser, reg: Registry, after: Option<int>) returns (r: Option<nat>)
    ensures r == FindInlineAfter(reg.inlines, lex.symbols, lex.State(), after)
  {
    ghost var m := InlineMask(reg.inlines, lex.symbols, lex.State());
    var i := AfterIndex(|reg.inlines|, after);
    while i < |reg.inlines|
      invariant AfterIndex(|reg.inlines|, after) <= i <= |reg.inlines|
      invariant FirstFrom(m, AfterIndex(|reg.inlines|, after)) == FirstFrom(m, i)
    {
      if InlineOpens(reg.inlines[i], lex.symbols, lex.State()) {
        return Some(i);
      }
      i := i + 1;
    }
    return None;
  }

  /** `tried` is ascending and lists only handlers whose test accepts `st`. */
  predicate TriedOk(inlines: seq<InlineKind>, symbols: set<char>, st: Snap, tried: seq<nat>)
  {
    (forall k :: 0 <= k < |tried| ==> tried[k] < |inlines| && InlineOpens(inlines[tried[k]], symbols, st)) &&
    (forall k :: 0 < k < |tried| ==> tried[k - 1] < tried[k])
  }

  /** Every handler below `upto` whose test accepts `st` is in `tried`. */
  predicate Covered(inlines: seq<InlineKind>, symbols: set<char>, st: Snap, upto: nat, tried: seq<nat>)
  {
    forall j :: 0 <= j < upto && j < |inlines| && InlineOpens(inlines[j], symbols, st) ==> j in tried
  }

  /**
   * Taking the next accepting handler after the last one tried keeps the
   * tried list ascending and covers everything up to it; when there is
   * none, every accepting handler has been tried.
   */
  lemma SearchStep(inlines: seq<InlineKind>, symbols: set<char>, st: Snap, handler: Option<int>, tried: seq<nat>)
    requires TriedOk(inlines, symbols, st, tried) && Covered(inlines, symbols, st, AfterIndex(|inlines|, handler), tried)
    requires Tracked(inlines, handler, tried)
    ensures var next := FindInlineAfter(inlines, symbols, st, handler);
      (next.Some? ==> TriedOk(inlines, symbols, st, tried + [next.value]) && Covered(inlines, symbols, st, next.value + 1, tried + [next.value])) &&
      (next.None? ==> Covered(inlines, symbols, st, |inlines|, tried))
  {
    var next := FindInlineAfter(inlines, symbols, st, handler);
    if next.Some? {
      var t2 := tried + [next.value];
      forall j | 0 <= j < next.value + 1 && j < |inlines| && InlineOpens(inlines[j], symbols, st)
        ensures j in t2
      {
        if j < AfterIndex(|inlines|, handler) {
          assert j in tried;
        } else {
          assert j == next.value;
          assert t2[|tried|] == j;
        }
      }
    }
  }

  /**
   * The state of the handler retry loop of `parseText` between rounds: the
   * parser state, the last handler tried, and the error flag.
   */
  datatype Round = Round(st: Snap, handler: Option<int>, err: bool)

  /**
   * One round of the retry loop as the source writes it, with `failed`
   * saying which handler fails from which state (a failed handler is
   * reverted). When no handler is left the token is taken as literal text
   * and consumed, but `err` keeps the value the last failure gave it.
   * After a success the loop ends; the state it leaves is not tracked here.
   */
  function RoundAsWritten(inlines: seq<InlineKind>, symbols: set<char>, s: seq<char>, failed: (nat, Snap) -> bool, r: Round): (r': Round)
    requires SnapOk(s, r.st)
    ensures SnapOk(s, r'.st)
    ensures r.err ==> r'.err || FindInlineAfter(inlines, symbols, r.st, r.handler).Some?
  {
    var next := FindInlineAfter(inlines, symbols, r.st, r.handler);
    if next.None? then Round(Next(symbols, s, r.st), None, r.err)
    else if failed(next.value, r.st) then Round(r.st, Some(next.value), true)
    else Round(r.st, Some(next.value), false)
  }

  /**
   * As written, once a handler has failed and no later one accepts the
   * token, the round consumes the token and starts the search over on the
   * next one with the error still set, dropping the literal text it made.
   */
  lemma RetryAsWrittenDrifts(inlines: seq<InlineKind>, symbols: set<char>, s: seq<char>, failed: (nat, Snap) -> bool, st: Snap, handler: Option<int>)
    requires SnapOk(s, st) && FindInlineAfter(inlines, symbols, st, handler).None?
    ensures RoundAsWritten(inlines, symbols, s, failed, Round(st, handler, true)) == Round(Next(symbols, s, st), None, true)
  {
  }

  /**
   * As written, a retry loop that reaches the end of input with the error
   * set stays in the same round for ever: no inline handler accepts the
   * end of input, and reading past it leaves the state as it was.
   */
  lemma RetryAsWrittenHangsAtEnd(inlines: seq<InlineKind>, symbols: set<char>, s: seq<char>, failed: (nat, Snap) -> bool, st: Snap)
    requires SnapOk(s, st) && st.lastToken == TokEOF
    ensures RoundAsWritten(inlines, symbols, s, failed, Round(st, None, true)) == Round(st, None, true)
  {
    var next := FindInlineAfter(inlines, symbols, st, None);
    if next.Some? {
      InlineNeedsSymbol(inlines[next.value], symbols, st);
    }
    assert Start(s, st) >= |s|;
  }

  /**
   * One round of the corrected loop: with no handler left, the literal
   * text ends the loop.
   */
  function RoundCorrected(inlines: seq<InlineKind>, symbols: set<char>, s: seq<char>, failed: (nat, Snap) -> bool, r: Round): (r': Round)
    requires SnapOk(s, r.st)
    ensures SnapOk(s, r'.st)
    ensures var next := FindInlineAfter(inlines, symbols, r.st, r.handler);
      !r'.err <==> next.None? || !failed(next.value, r.st)
  {
    var next := FindInlineAfter(inlines, symbols, r.st, r.handler);
    if next.None? then Round(Next(symbols, s, r.st), None, false)
    else if failed(next.value, r.st) then Round(r.st, Some(next.value), true)
    else Round(r.st, Some(next.value), false)
  }

  /**
   * The corrected loop always progresses: a round that leaves the error set
   * stays on the same token and moves the search strictly past the
   * handler before, so at most one round per registered handler fails.
   */
  lemma RetryCorrectedProgresses(inlines: seq<InlineKind>, symbols: set<char>, s: seq<char>, failed: (nat, Snap) -> bool, r: Round)
    requires SnapOk(s, r.st)
    ensures var r' := RoundCorrected(inlines, symbols, s, failed, r);
      r'.err ==> r'.st == r.st && r'.handler.Some? && r'.handler.value < |inlines| &&
                 AfterIndex(|inlines|, r'.handler) > AfterIndex(|inlines|, r.handler)
  {
  }

  /**
   * The handler search of `parseText` on a symbol or blank, with the retry
   * loop corrected: a failed handler is reverted and the search goes on
   * after it; when no handler is left the token becomes literal text and
   * the loop ends (`RetryAsWritten` is the loop as the source has it).
   * `tried` lists the handlers that ran, in order. With `unknownAsText`
   * clear and no handler left, `stop` is set and nothing is consumed.
   */
  method InlineAt(lex: Parser, t: Tree, reg: Registry, unknownAsText: bool, fuel: nat)
    returns (e: int, stop: bool, ghost tried: seq<nat>)
    requires lex.Valid() && t.Valid() && lex.lastToken in {TokSym, TokSpace} && fuel >= 1
    modifies lex, t
    ensures lex.Valid() && lex.input == old(lex.input) && lex.symbols == old(lex.symbols) && t.Valid()
    ensures Extends(old(t.nodes), t.nodes)
    ensures e == -1 || |old(t.nodes)| <= e < |t.nodes|
    ensures stop ==> e == -1 && !unknownAsText && lex.State() == old(lex.State())
    ensures TriedOk(reg.inlines, lex.symbols, old(lex.State()), tried)
    ensures stop ==> Covered(reg.inlines, lex.symbols, old(lex.State()), |reg.inlines|, tried)
    decreases fuel, 4
  {
    ghost var st0 := lex.State();
    ghost var nodes0 := t.nodes;
    var handler: Option<int> := None;
    var err := true;
    e, stop, tried := -1, false, [];
    while err
      invariant lex.Valid() && lex.input == old(lex.input) && lex.symbols == old(lex.symbols) && t.Valid()
      invariant Extends(nodes0, t.nodes)
      invariant e == -1 || |nodes0| <= e < |t.nodes|
      invariant err ==> lex.State() == st0 && e == -1
      invariant Tracked(reg.inlines, handler, tried)
      invariant TriedOk(reg.inlines, lex.symbols, st0, tried)
      invariant err ==> Covered(reg.inlines, lex.symbols, st0, AfterIndex(|reg.inlines|, handler), tried)
      decreases |reg.inlines| + 1 - AfterIndex(|reg.inlines|, handler), err
    {
      ghost var nodes1 := t.nodes;
      handler, e, err, stop, tried := Retry(lex, t, reg, handler, unknownAsText, fuel, st0, tried);
      ExtendsTrans(nodes0, nodes1, t.nodes);
      if stop {
        return;
      }
    }
  }

  /** `handler` is the last entry of `tried`, and there is none before the first attempt. */
  predicate Tracked(inlines: seq<InlineKind>, handler: Option<int>, tried: seq<nat>)
  {
    (handler.Some? ==> 0 <= handler.value < |inlines| && |tried| > 0 && tried[|tried| - 1] == handler.value) &&
    (handler.None? ==> tried == [])
  }

  /**
   * One round of the retry loop: the next accepting handler after `handler`
   * runs (and is reverted if it fails), or, with none left, the token
   * becomes literal text or, with `unknownAsText` clear, `stop` is set.
   */
  method Retry(lex: Parser, t: Tree, reg: Registry, handler: Option<int>, unknownAsText: bool, fuel: nat, ghost st0: Snap, ghost tried: seq<nat>)
    returns (next: Option<int>, e: int, err: bool, stop: bool, ghost tried': seq<nat>)
    requires lex.Valid() && t.Valid() && fuel >= 1 && lex.State() == st0 && st0.lastToken in {TokSym, TokSpace}
    requires Tracked(reg.inlines, handler, tried) && TriedOk(reg.inlines, lex.symbols, st0, tried)
    requires Covered(reg.inlines, lex.symbols, st0, AfterIndex(|reg.inlines|, handler), tried)
    modifies lex, t
    ensures lex.Valid() && lex.input == old(lex.input) && lex.symbols == old(lex.symbols) && t.Valid()
    ensures Extends(old(t.nodes), t.nodes)
    ensures e == -1 || |old(t.nodes)| <= e < |t.nodes|
    ensures Tracked(reg.inlines, next, tried') && TriedOk(reg.inlines, lex.symbols, st0, tried')
    ensures err ==> lex.State() == st0 && e == -1 && !stop
    ensures err ==> Covered(reg.inlines, lex.symbols, st0, AfterIndex(|reg.inlines|, next), tried')
    ensures err ==> AfterIndex(|reg.inlines|, next) > AfterIndex(|reg.inlines|, handler)
    ensures AfterIndex(|reg.inlines|, next) >= AfterIndex(|reg.inlines|, handler)
    ensures stop ==> e == -1 && !unknownAsText && lex.State() == st0 && Covered(reg.inlines, lex.symbols, st0, |reg.inlines|, tried')
    decreases fuel, 3
  {
    var found := FindInlineHandlerAfter(lex, reg, handler);
    SearchStep(reg.inlines, lex.symbols, st0, handler, tried);
    if found.None? {
      next, err, tried' := handler, false, tried;
      if !unknownAsText {
        return next, -1, false, true, tried';
      }
      e := Literal(lex, t);
      stop := false;
      return;
    }
    next, tried', stop := Some(found.value), tried + [found.value], false;
    e, err := Attempt(lex, t, reg, reg.inlines[found.value], fuel);
  }

  /** Runs one inline handler; a failed one is reverted and yields nothing. */
  method Attempt(lex: Parser, t: Tree, reg: Registry, k: InlineKind, fuel: nat) returns (e: int, err: bool)
    requires lex.Valid() && t.Valid() && fuel >= 1
    modifies lex, t
    ensures lex.Valid() && lex.input == old(lex.input) && lex.symbols == old(lex.symbols) && t.Valid()
    ensures Extends(old(t.nodes), t.nodes)
    ensures e == -1 || |old(t.nodes)| <= e < |t.nodes|
    ensures err ==> e == -1 && lex.State() == old(lex.State())
    decreases fuel, 2
  {
    var snap := lex.CreateTimesnap();
    e, err := HandleInline(lex, t, reg, k, fuel);
    if err {
      lex.Revert(snap);
      e := -1;
    }
  }

  // ---------------------------------------------------------------------
  // The inline handlers
  // ---------------------------------------------------------------------

  /** `handle()` of the inline handler `k`: the element it yields (`-1` for none) and whether it failed. */
  method HandleInline(lex: Parser, t: Tree, reg: Registry, k: InlineKind, fuel: nat) returns (e: int, err: bool)
    requires lex.Valid() && t.Valid() && fuel >= 1
    modifies lex, t
    ensures lex.Valid() && lex.input == old(lex.input) && lex.symbols == old(lex.symbols) && t.Valid()
    ensures Extends(old(t.nodes), t.nodes)
    ensures e == -1 || |old(t.nodes)| <= e < |t.nodes|
    decreases fuel, 1
  {
    match k
    case TemplateI(c) => e, err := Template(lex, t, reg, c, fuel);
    case TaskI => e, err := TaskHandler(lex, t);
    case SmileyI => e, err := Smiley(lex, t, reg, fuel);
    case CodeI => e, err := InlineCode(lex, t, reg, fuel);
    case ModifierI => var sel; e, err, sel := ModifierHandler(lex, t, reg, fuel);
    case CommandI => e, err := CommandHandler(lex, t);
  }

  /**
   * `InlineTemplateHandler<c>::handle`: text up to the closing indicator
   * becomes a `TextModification` of `c`; without one, the text read so
   * far is kept with the indicator put back in front of it. It never
   * fails. Where the source prepends to a null text (nothing after the
   * indicator before the line end), the model starts an empty one.
   */
  method Template(lex: Parser, t: Tree, reg: Registry, c: char, fuel: nat) returns (e: int, err: bool)
    requires lex.Valid() && t.Valid() && fuel >= 1
    modifies lex, t
    ensures lex.Valid() && lex.input == old(lex.input) && lex.symbols == old(lex.symbols) && t.Valid()
    ensures Extends(old(t.nodes), t.nodes)
    ensures e == -1 || |old(t.nodes)| <= e < |t.nodes|
    ensures !err && e >= 0
    ensures var k := t.nodes[e].kind;
      (k.TextModification? && k.symbol == c && t.nodes[k.inner].kind == InlineText) ||
      (k == InlineText && |t.nodes[e].elements| > 0 && t.nodes[t.nodes[e].elements[0]].kind == PlainText([c]))
    decreases fuel, 0
  {
    ghost var nodes0 := t.nodes;
    lex.GetTok();
    var content, eol, _ := ParseText(lex, t, reg, false, true, true, c, fuel - 1);
    if !eol {
      // parseText never yields null when it stops on the indicator
      lex.GetTok();
      e := Make(t, TextModification(c, content), |nodes0|);
      return e, false;
    }
    var body := content;
    if body < 0 {
      body := Make(t, InlineText, |nodes0|);
    }
    var mark := Make(t, PlainText([c]), |nodes0|);
    Prepend(t, body, mark, |nodes0|);
    return body, false;
  }

  /**
   * `InlineTaskHandler::handle`, with the ticked box corrected to record
   * the tick: a task box `[ ]`, `[]`, `[x]` or `[X]` followed by a blank.
   */
  method TaskHandler(lex: Parser, t: Tree) returns (e: int, err: bool)
    requires lex.Valid() && t.Valid()
    modifies lex, t
    ensures lex.Valid() && lex.input == old(lex.input) && lex.symbols == old(lex.symbols) && t.Valid()
    ensures Extends(old(t.nodes), t.nodes)
    ensures var r := TaskBox(lex.symbols, lex.input, old(lex.State()), false);
      (err <==> r.None?) &&
      (err ==> e == -1) &&
      (!err ==> e == |old(t.nodes)| && |t.nodes| == e + 1 && t.nodes[e].kind == Task(r.value.0, false) && lex.State() == r.value.1)
  {
    var checked := ReadBox(lex);
    if checked.None? {
      return -1, true;
    }
    e := Make(t, Task(checked.value, false), |t.nodes|);
    return e, false;
  }

  /** The token reading of `InlineTaskHandler::handle`: the recorded character when a box is there. */
  method ReadBox(lex: Parser) returns (checked: Option<char>)
    requires lex.Valid()
    modifies lex
    ensures lex.Valid() && lex.input == old(lex.input) && lex.symbols == old(lex.symbols)
    ensures var r := TaskBox(lex.symbols, lex.input, old(lex.State()), false);
      (checked.None? <==> r.None?) && (r.Some? ==> checked.value == r.value.0 && lex.State() == r.value.1)
  {
    lex.GetTok();
    if lex.lastToken == TokSpace && lex.lastInt == 1 {
      lex.GetTok();
      if ClosesBox(lex.symbols, lex.State()) {
        lex.GetTok();
        return Some(' ');
      }
    } else if ClosesBox(lex.symbols, lex.State()) {
      lex.GetTok();
      return Some(' ');
    } else if lex.lastToken == TokText && (lex.lastString == "X" || lex.lastString == "x") {
      var tick := First(lex.lastString);
      lex.GetTok();
      if ClosesBox(lex.symbols, lex.State()) {
        lex.GetTok();
        return Some(tick);
      }
    }
    return None;
  }

  /**
   * `InlineSmileyHandler::handle`: text between two colons becomes an emoji
   * whose shortcode is that text's literal content. An even run of colons
   * closes nothing: the handler yields nothing and consumes nothing.
   */
  method Smiley(lex: Parser, t: Tree, reg: Registry, fuel: nat) returns (e: int, err: bool)
    requires lex.Valid() && t.Valid() && fuel >= 1
    modifies lex, t
    ensures lex.Valid() && lex.input == old(lex.input) && lex.symbols == old(lex.symbols) && t.Valid()
    ensures Extends(old(t.nodes), t.nodes)
    ensures e == -1 || |old(t.nodes)| <= e < |t.nodes|
    ensures old(lex.lastInt) % 2 == 0 ==> !err && e == -1 && lex.State() == old(lex.State()) && t.nodes == old(t.nodes)
    ensures e >= 0 ==> t.nodes[e].kind.Emoji? && !err
    decreases fuel, 0
  {
    if lex.lastInt % 2 == 0 {
      return -1, false;
    }
    ghost var nodes0 := t.nodes;
    lex.GetTok();
    var content, eol, _ := ParseText(lex, t, reg, false, true, false, ':', fuel - 1);
    if !eol {
      e := EmojiOf(lex, t, content, |nodes0|);
      return e, false;
    }
    return -1, true;
  }

  /** The closing colon is consumed and the emoji named by the literal text of `content` is made. */
  method EmojiOf(lex: Parser, t: Tree, content: nat, ghost floor: nat) returns (e: nat)
    requires lex.Valid() && t.Valid() && floor <= content < |t.nodes|
    modifies lex, t
    ensures lex.Valid() && lex.input == old(lex.input) && lex.symbols == old(lex.symbols) && t.Valid()
    ensures Extends(old(t.nodes)[..floor], t.nodes) && e == |old(t.nodes)| && |t.nodes| == e + 1
    ensures t.nodes[e].kind == Emoji(LiteralText(old(t.nodes), content, |old(t.nodes)|))
    ensures lex.State() == Next(lex.symbols, lex.input, old(lex.State()))
  {
    lex.GetTok();
    e := Make(t, Emoji(LiteralText(t.nodes, content, |t.nodes|)), floor);
  }

  /**
   * `InlineCodeHandler::handle`: text up to the closing backtick, read
   * without inline styling, becomes a `TextModification` of '`'. A line
   * end after some text is an error; right after the backtick it is not.
   */
  method InlineCode(lex: Parser, t: Tree, reg: Registry, fuel: nat) returns (e: int, err: bool)
    requires lex.Valid() && t.Valid() && fuel >= 1
    modifies lex, t
    ensures lex.Valid() && lex.input == old(lex.input) && lex.symbols == old(lex.symbols) && t.Valid()
    ensures Extends(old(t.nodes), t.nodes)
    ensures e == -1 || |old(t.nodes)| <= e < |t.nodes|
    ensures e >= 0 ==> !err && t.nodes[e].kind.TextModification? && t.nodes[e].kind.symbol == '`'
    decreases fuel, 0
  {
    ghost var nodes0 := t.nodes;
    lex.GetTok();
    var content, eol, _ := ParseText(lex, t, reg, false, true, false, '`', fuel - 1);
    if !eol {
      lex.GetTok();
      e := Make(t, TextModification('`', content), |nodes0|);
      return e, false;
    }
    if content >= 0 {
      return -1, true;
    }
    return -1, false;
  }

  /** The modifier the character after `[text]` introduces. */
  function ModFor(c: char): Option<ModKind>
  {
    if c == '(' then Some(Link)
    else if c == '!' then Some(Image)
    else if c == '^' then Some(Footnote)
    else if c == '#' then Some(HeadingLink)
    else if c == '<' then Some(Replace)
    else if c == '{' then Some(Styled)
    else None
  }

  /** The parser is on a single symbol `c`. */
  predicate OnSingle(st: Snap, c: char)
  {
    st.lastToken == TokSym && First(st.lastString) == c && st.lastInt == 1
  }

  /**
   * `InlineModifierHandler::handle`: `[text]` followed by `(target)` (a
   * link), `!(target)` (an image), `^(target)` (a footnote), `#` or
   * `#{command}` (a heading link to the id of the text), `<%target>` (a
   * replacement) or `{command}` (a styled text). `sel` is the character
   * after the closing bracket.
   */
  method ModifierHandler(lex: Parser, t: Tree, reg: Registry, fuel: nat) returns (e: int, err: bool, sel: char)
    requires lex.Valid() && t.Valid() && fuel >= 1
    modifies lex, t
    ensures lex.Valid() && lex.input == old(lex.input) && lex.symbols == old(lex.symbols) && t.Valid()
    ensures Extends(old(t.nodes), t.nodes)
    ensures e == -1 || |old(t.nodes)| <= e < |t.nodes|
    ensures err <==> e == -1
    ensures !err ==> var k := t.nodes[e].kind;
      k.Modifier? && ModFor(sel) == Some(k.mod) && |old(t.nodes)| <= k.inner < e && t.nodes[k.inner].kind == InlineText
    decreases fuel, 0
  {
    ghost var nodes0 := t.nodes;
    sel := '\0';
    lex.GetTokAmount(1);
    var content, eol, _ := ParseText(lex, t, reg, false, true, true, ']', fuel - 1);
    if eol || lex.lastInt != 1 {
      return -1, true, sel;
    }
    lex.GetTok();
    if lex.lastToken != TokSym || lex.lastInt != 1 {
      return -1, true, sel;
    }
    sel := First(lex.lastString);
    e, err := ModTail(lex, t, sel, content, |nodes0|);
  }

  /** What follows `[text]` once the `]` is consumed and the parser is on the single symbol `sel`. */
  method ModTail(lex: Parser, t: Tree, sel: char, content: nat, ghost floor: nat) returns (e: int, err: bool)
    requires lex.Valid() && t.Valid() && floor <= content < |t.nodes| && t.nodes[content].kind == InlineText
    modifies lex, t
    ensures lex.Valid() && lex.input == old(lex.input) && lex.symbols == old(lex.symbols) && t.Valid()
    ensures Extends(old(t.nodes)[..floor], t.nodes) && |old(t.nodes)| <= |t.nodes|
    ensures err <==> e == -1
    ensures !err ==> e == |old(t.nodes)| && |t.nodes| == e + 1 && t.nodes[content].kind == InlineText
    ensures !err ==> t.nodes[e].kind.Modifier? && t.nodes[e].kind.inner == content
    ensures !err ==> ModFor(sel) == Some(t.nodes[e].kind.mod)
  {
    if sel == '(' {
      lex.GetTok();
      e, err := LinkTarget(lex, t, Link, ')', content, floor);
    } else if sel == '!' || sel == '^' {
      lex.GetTok();
      if !OnSingle(lex.State(), '(') {
        return -1, true;
      }
      lex.GetTok();
      e, err := LinkTarget(lex, t, if sel == '!' then Image else Footnote, ')', content, floor);
    } else if sel == '#' {
      e, err := HeadingTail(lex, t, content, floor);
    } else if sel == '<' {
      lex.GetTok();
      if !OnSingle(lex.State(), '%') {
        return -1, true;
      }
      lex.GetTok();
      e, err := LinkTarget(lex, t, Replace, '>', content, floor);
    } else if sel == '{' {
      lex.GetTok();
      e, err := StyledTail(lex, t, Styled, "", content, floor);
    } else {
      return -1, true;
    }
  }

  /**
   * `[text]#`: a heading link to the id made from the text's literal
   * content, with an optional `{command}`.
   */
  method HeadingTail(lex: Parser, t: Tree, content: nat, ghost floor: nat) returns (e: int, err: bool)
    requires lex.Valid() && t.Valid() && floor <= content < |t.nodes| && t.nodes[content].kind == InlineText
    modifies lex, t
    ensures lex.Valid() && lex.input == old(lex.input) && lex.symbols == old(lex.symbols) && t.Valid()
    ensures Extends(old(t.nodes)[..floor], t.nodes) && |old(t.nodes)| <= |t.nodes|
    ensures err <==> e == -1
    ensures !err ==> e == |old(t.nodes)| && |t.nodes| == e + 1 && t.nodes[content].kind == InlineText
    ensures !err ==> t.nodes[e].kind.Modifier? && t.nodes[e].kind.inner == content
    ensures !err ==> t.nodes[e].kind == Modifier(HeadingLink, Ids.MakeIdOf(LiteralText(old(t.nodes), content, |old(t.nodes)|)), content)
  {
    var keyword := Ids.MakeId(LiteralText(t.nodes, content, |t.nodes|));
    lex.GetTok();
    if !OnSingle(lex.State(), '{') {
      e := Make(t, Modifier(HeadingLink, keyword, content), floor);
      return e, false;
    }
    lex.GetTok();
    e, err := StyledTail(lex, t, HeadingLink, keyword, content, floor);
  }

  /**
   * The `parseLink(delim)` tail of a modifier: on success a `mod` modifier
   * over `content` with the target as its url and the command text parsed
   * into its commands.
   */
  method LinkTarget(lex: Parser, t: Tree, mod: ModKind, delim: char, content: nat, ghost floor: nat) returns (e: int, err: bool)
    requires lex.Valid() && t.Valid() && floor <= content < |t.nodes|
    modifies lex, t
    ensures lex.Valid() && lex.input == old(lex.input) && lex.symbols == old(lex.symbols) && t.Valid()
    ensures Extends(old(t.nodes)[..floor], t.nodes) && |old(t.nodes)| <= |t.nodes|
    ensures var r := LinkFrom(lex.symbols, lex.input, old(lex.State()), delim);
      lex.State() == r.rest && (err <==> !r.ok) && (err ==> e == -1) &&
      (!err ==> Added(old(t.nodes), t.nodes, e, Modifier(mod, r.keyword, content), r.command))
  {
    ghost var r := LinkFrom(lex.symbols, lex.input, lex.State(), delim);
    var keyword, command, success := lex.ParseLink(delim);
    ghost var st := lex.State();
    assert st == r.rest && success == r.ok;
    if !success {
      return -1, true;
    }
    e := Attach(t, Modifier(mod, keyword, content), command, floor);
    assert lex.State() == st;
    return e, false;
  }

  /**
   * `{command}` from the token after the `{`: the command text up to an
   * unquoted `}`, whether the `}` was found, and the state after it (the
   * `}` is consumed).
   */
  function CommandAt(symbols: set<char>, s: seq<char>, st: Snap): (string, bool, Snap)
    requires SnapOk(s, st)
  {
    var r := ReadFrom(symbols, s, st, Unquoted('}'), false, false, "");
    (r.text, r.ok, if r.ok then Consume(symbols, s, r.rest, 1) else r.rest)
  }

  /** Reads a `{command}` body. */
  method CommandBody(lex: Parser) returns (command: string, success: bool)
    requires lex.Valid()
    modifies lex
    ensures lex.Valid() && lex.input == old(lex.input) && lex.symbols == old(lex.symbols)
    ensures (command, success, lex.State()) == CommandAt(lex.symbols, lex.input, old(lex.State()))
  {
    command, success := lex.ReadUntil(Unquoted('}'), false);
    if success {
      lex.GetTokAmount(1);
    }
  }

  /** The `{command}` tail of a modifier. */
  method StyledTail(lex: Parser, t: Tree, mod: ModKind, url: string, content: nat, ghost floor: nat) returns (e: int, err: bool)
    requires lex.Valid() && t.Valid() && floor <= content < |t.nodes|
    modifies lex, t
    ensures lex.Valid() && lex.input == old(lex.input) && lex.symbols == old(lex.symbols) && t.Valid()
    ensures Extends(old(t.nodes)[..floor], t.nodes) && |old(t.nodes)| <= |t.nodes|
    ensures var c := CommandAt(lex.symbols, lex.input, old(lex.State()));
      lex.State() == c.2 && (err <==> !c.1) && (err ==> e == -1) &&
      (!err ==> Added(old(t.nodes), t.nodes, e, Modifier(mod, url, content), c.0))
  {
    var command, success := CommandBody(lex);
    if !success {
      return -1, true;
    }
    e := Attach(t, Modifier(mod, url, content), command, floor);
    return e, false;
  }

  /**
   * `InlineCommandHandler::handle`: `{command}` becomes an empty command
   * container carrying the parsed command. The source's quoting flag is
   * uninitialised; the model starts it unquoted.
   */
  method CommandHandler(lex: Parser, t: Tree) returns (e: int, err: bool)
    requires lex.Valid() && t.Valid()
    modifies lex, t
    ensures lex.Valid() && lex.input == old(lex.input) && lex.symbols == old(lex.symbols) && t.Valid()
    ensures Extends(old(t.nodes), t.nodes)
    ensures var c := CommandAt(lex.symbols, lex.input, Next(lex.symbols, lex.input, old(lex.State())));
      lex.State() == c.2 && (err <==> !c.1) && (err ==> e == -1) &&
      (!err ==> Added(old(t.nodes), t.nodes, e, CommandContainer(None), c.0))
  {
    lex.GetTok();
    var command, success := CommandBody(lex);
    if !success {
      return -1, true;
    }
    e := Attach(t, CommandContainer(None), command, |t.nodes|);
    return e, false;
  }
}
