/**
 * The handler registry's pure side (src/handlers.cpp, src/handlers.hpp):
 * which handlers exist, the symbols each one registers, the state a block
 * handler carries from one line to the next, and every `canHandle` test as
 * a predicate on the parser state. The search for "the next handler after
 * this one" (`Parser::findHandlerAfter`) is `FindAfter`.
 */
module Handlers {
  import opened Util
  import opened Lexer

  /** The block handlers of `addDefaultHandlers`. */
  datatype BlockKind = UListH | OListH | HeadingH | InfoBlockH | BlockquoteH | HLineH | CodeH | IdDefH | FootnoteH | CollapseH | ParagraphH

  /** The inline handlers; `TemplateI(c)` is `InlineTemplateHandler<c>`. */
  datatype InlineKind = TemplateI(indicator: char) | TaskI | SmileyI | CodeI | ModifierI | CommandI

  /** `triggerChars()` of each block handler: the characters it makes the tokenizer treat as symbols. */
  function BlockTriggers(k: BlockKind): string
  {
    match k
    case UListH => "-"
    case OListH => ""
    case HeadingH => "#"
    case InfoBlockH => ">:"
    case BlockquoteH => ">"
    case HLineH => "-"
    case CodeH => "`"
    case IdDefH => "%(){}<>:"
    case FootnoteH => "^:"
    case CollapseH => "+-"
    case ParagraphH => ""
  }

  /** `triggerChars()` of each inline handler. */
  function InlineTriggers(k: InlineKind): string
  {
    match k
    case TemplateI(c) => [c]
    case TaskI => "[]"
    case SmileyI => ":"
    case CodeI => "`"
    case ModifierI => "[](){}<>\"!^#%"
    case CommandI => "{}"
  }

  /** `std::string` indexed at `length() - 1`, read as NUL on an empty string. */
  function Last(s: string): char
  {
    if |s| > 0 then s[|s| - 1] else '\0'
  }

  predicate Blank(t: Token)
  {
    t == TokSpace || t == TokNewline
  }

  /**
   * The compiler's `handlerList`, `inlineHandlerList` and the index the
   * `H_default` alias names.
   */
  datatype Registry = Registry(blocks: seq<BlockKind>, inlines: seq<InlineKind>, default: nat)

  /** `findNextHandler("H_default")` yields a paragraph handler. */
  predicate DefaultOk(reg: Registry)
  {
    reg.default < |reg.blocks| && reg.blocks[reg.default] == ParagraphH
  }

  // ---------------------------------------------------------------------
  // Block handler state
  // ---------------------------------------------------------------------

  /**
   * One live block handler. `content`, `list`, `firstLine` and `lines`
   * hold tree indices, `-1` for a null pointer. Each field belongs to the
   * handler classes that declare it: `content`, `nested` (the inner
   * `handler`) and `indent` (`indentLevel`) to every `BlockHandler`, `list`
   * to the list handlers, `fence`, `lang`, `firstLine` and `lines` to
   * `CodeHandler`, `defType` to `IdDefinitionHandler`. `id` is the
   * registry index the handler was created from; `snap` is the state it
   * was created in, to which an error reverts.
   */
  datatype Handler = Handler(
    kind: BlockKind, id: int, snap: Snap,
    content: int, nested: Option<Handler>, indent: int,
    list: int, fence: int, lang: string, firstLine: int, lines: seq<int>, defType: char)

  /** `createNew()`: a handler with every field at its initial value. */
  function Fresh(kind: BlockKind, id: int, snap: Snap): (h: Handler)
    ensures h.kind == kind && h.id == id && h.snap == snap
    ensures h.content == -1 && h.nested.None? && h.indent == 0 && h.list == -1
    ensures h.fence == 0 && h.firstLine == -1 && h.lines == []
  {
    Handler(kind, id, snap, -1, None, 0, -1, 0, "", -1, [], '\0')
  }

  /**
   * `BlockHandler::canHandleBlock`: an open block goes on over a blank
   * line, or over a line indented at least as deep as its first indented
   * line (any depth while that is not known yet).
   */
  predicate CanHandleBlock(h: Handler, st: Snap)
  {
    h.content >= 0 &&
    (st.lastToken == TokNewline ||
     (st.lastToken == TokSpace && (h.indent == 0 || st.lastInt >= h.indent)))
  }

  /** `canHandle` of a handler that has not started a block yet: the line opening each kind of block. */
  predicate Opens(k: BlockKind, symbols: set<char>, st: Snap)
  {
    var peek := PeekOf(symbols, st);
    var sym := st.lastToken == TokSym;
    var first := First(st.lastString);
    match k
    case ParagraphH => st.lastToken == TokSpace || st.lastToken == TokText
    case HeadingH => sym && first == '#' && st.lastInt <= 6 && Blank(peek)
    case HLineH => sym && first == '-' && st.lastInt >= 3 && peek == TokNewline
    case BlockquoteH => sym && first == '>' && st.lastInt <= 2 && Blank(peek)
    case UListH => LastIs(st, TokSym, '-', 1) && Blank(peek)
    case OListH => st.lastToken == TokNumber && Last(st.lastString) == '.' && Blank(peek)
    case CodeH => sym && first == '`' && st.lastInt >= 3
    case InfoBlockH => LastIs(st, TokSym, '>', 1) && (peek == TokText || (peek == TokSym && st.lastChar == Chr(':')))
    case IdDefH => LastIs(st, TokSym, '%', 1) && peek == TokSym && st.lastChar in {Chr('('), Chr('{'), Chr('<')}
    case FootnoteH => LastIs(st, TokSym, '^', 1) && (peek == TokText || peek == TokNumber)
    case CollapseH => sym && st.lastInt <= 2 && first == '+' && peek == TokSym && st.lastChar == Chr('-')
  }

  /** `canHandle` of a live handler, per class. */
  predicate CanHandle(h: Handler, symbols: set<char>, st: Snap)
  {
    match h.kind
    case ParagraphH => Opens(h.kind, symbols, st)
    case HeadingH => Opens(h.kind, symbols, st)
    case HLineH => Opens(h.kind, symbols, st)
    case UListH => CanHandleBlock(h, st) || Opens(h.kind, symbols, st)
    case OListH => CanHandleBlock(h, st) || Opens(h.kind, symbols, st)
    case CodeH => h.fence != 0 || Opens(h.kind, symbols, st)
    case IdDefH => if h.content >= 0 && h.defType == '<' then CanHandleBlock(h, st) else Opens(h.kind, symbols, st)
    case _ => if h.content >= 0 then CanHandleBlock(h, st) else Opens(h.kind, symbols, st)
  }

  /** `canHandle` of each inline handler. */
  predicate InlineOpens(k: InlineKind, symbols: set<char>, st: Snap)
  {
    var peek := PeekOf(symbols, st);
    var sym := st.lastToken == TokSym;
    var first := First(st.lastString);
    match k
    case TemplateI(c) => sym && first == c && st.lastInt % 2 != 0 && !Blank(peek)
    case CodeI => sym && first == '`' && st.lastInt % 2 != 0 && !Blank(peek)
    case ModifierI => sym && first == '[' && !Blank(peek)
    case SmileyI => sym && first == ':' && !Blank(peek)
    case CommandI => sym && first == '{' && !Blank(peek) && peek != TokEOF
    case TaskI =>
      sym && first == '[' && st.lastInt == 1 &&
      (peek == TokSpace ||
       (peek == TokText && st.lastChar in {Chr('X'), Chr('x')}) ||
       (peek == TokSym && st.lastChar == Chr(']')))
  }

  /**
   * What every inline handler's test demands: a symbol token. So a line
   * position that is not a symbol is never claimed by an inline handler.
   */
  lemma InlineNeedsSymbol(k: InlineKind, symbols: set<char>, st: Snap)
    requires InlineOpens(k, symbols, st)
    ensures st.lastToken == TokSym
  {
  }

  // ---------------------------------------------------------------------
  // Searching the registry
  // ---------------------------------------------------------------------

  /** The first index at or after `from` whose entry is set. */
  function FirstFrom(mask: seq<bool>, from: nat): (r: Option<nat>)
    ensures r.Some? ==> from <= r.value < |mask| && mask[r.value]
    ensures r.Some? ==> forall j :: from <= j < r.value ==> !mask[j]
    ensures r.None? ==> forall j :: from <= j < |mask| ==> !mask[j]
    decreases |mask| - from
  {
    if from >= |mask| then None
    else if mask[from] then Some(from)
    else FirstFrom(mask, from + 1)
  }

  /**
   * Where `findHandlerAfter(h)` starts looking: after `h`'s own index, or
   * at the beginning when `h` is null or its index is out of range.
   */
  function AfterIndex(size: nat, after: Option<int>): (r: nat)
    ensures r <= size + 1
    ensures after.Some? && 0 <= after.value < size ==> r == after.value + 1
    ensures after.None? || after.value < 0 || after.value >= size ==> r == 0
  {
    if after.None? || after.value < 0 || after.value >= size then 0 else after.value + 1
  }

  /** Which registered block handlers would take the current line. */
  function OpenMask(blocks: seq<BlockKind>, symbols: set<char>, st: Snap): (m: seq<bool>)
    ensures |m| == |blocks|
    ensures forall i :: 0 <= i < |blocks| ==> m[i] == Opens(blocks[i], symbols, st)
  {
    seq(|blocks|, i requires 0 <= i < |blocks| => Opens(blocks[i], symbols, st))
  }

  /** Which registered inline handlers would take the current token. */
  function InlineMask(inlines: seq<InlineKind>, symbols: set<char>, st: Snap): (m: seq<bool>)
    ensures |m| == |inlines|
    ensures forall i :: 0 <= i < |inlines| ==> m[i] == InlineOpens(inlines[i], symbols, st)
  {
    seq(|inlines|, i requires 0 <= i < |inlines| => InlineOpens(inlines[i], symbols, st))
  }

  /**
   * `findHandlerAfter(h)`: the index of the first registered block handler
   * after `h` (from the start if `h` is null or out of range) whose test
   * accepts the state, or none.
   */
  function FindAfter(blocks: seq<BlockKind>, symbols: set<char>, st: Snap, after: Option<int>): (r: Option<nat>)
    ensures var from := AfterIndex(|blocks|, after);
      (r.Some? ==> from <= r.value < |blocks| && Opens(blocks[r.value], symbols, st) &&
                   forall j :: from <= j < r.value ==> !Opens(blocks[j], symbols, st)) &&
      (r.None? ==> forall j :: from <= j < |blocks| ==> !Opens(blocks[j], symbols, st))
  {
    var m := OpenMask(blocks, symbols, st);
    var r := FirstFrom(m, AfterIndex(|blocks|, after));
    r
  }

  /** `findInlineHandlerAfter(h)`, over the inline registry. */
  function FindInlineAfter(inlines: seq<InlineKind>, symbols: set<char>, st: Snap, after: Option<int>): (r: Option<nat>)
    ensures var from := AfterIndex(|inlines|, after);
      (r.Some? ==> from <= r.value < |inlines| && InlineOpens(inlines[r.value], symbols, st) &&
                   forall j :: from <= j < r.value ==> !InlineOpens(inlines[j], symbols, st)) &&
      (r.None? ==> forall j :: from <= j < |inlines| ==> !InlineOpens(inlines[j], symbols, st))
  {
    var m := InlineMask(inlines, symbols, st);
    var r := FirstFrom(m, AfterIndex(|inlines|, after));
    r
  }

  /**
   * A retry never goes back: after a handler at a valid index fails, the
   * next candidate has a strictly larger index.
   */
  lemma RetryMovesOn(blocks: seq<BlockKind>, symbols: set<char>, st: Snap, id: int)
    requires 0 <= id < |blocks|
    ensures var r := FindAfter(blocks, symbols, st, Some(id)); r.Some? ==> r.value > id
  {
  }

  // ---------------------------------------------------------------------
  // Small handler facts
  // ---------------------------------------------------------------------

  /** `IdDefinitionHandler::invType`: the bracket that closes an id definition's opening bracket. */
  function InvType(c: char): (r: char)
    ensures r in {')', '}', '>', '\0'}
    ensures r == '\0' <==> c !in {'(', '{', '<'}
    ensures r != '\0' ==> [c, r] in ["()", "{}", "<>"]
  {
    if c == '(' then ')'
    else if c == '{' then '}'
    else if c == '<' then '>'
    else '\0'
  }

  /** The `]` that closes a task box: a single `]` followed by a blank. */
  predicate ClosesBox(symbols: set<char>, st: Snap)
  {
    st.lastToken == TokSym && st.lastInt == 1 && First(st.lastString) == ']' && PeekOf(symbols, st) == TokSpace
  }

  /**
   * `InlineTaskHandler::handle` from the state on `[`: the character the
   * task records and the state after the closing `]`, or none on an error.
   * With `late` set, a ticked box records `lastString[0]` after the tick
   * has been consumed, as the source does (the `]`); without it, the tick.
   */
  function TaskBox(symbols: set<char>, s: seq<char>, st: Snap, late: bool): Option<(char, Snap)>
    requires SnapOk(s, st)
  {
    var a := Next(symbols, s, st);
    if a.lastToken == TokSpace && a.lastInt == 1 then
      var b := Next(symbols, s, a);
      if ClosesBox(symbols, b) then Some((' ', Next(symbols, s, b))) else None
    else if ClosesBox(symbols, a) then Some((' ', Next(symbols, s, a)))
    else if a.lastToken == TokText && (a.lastString == "X" || a.lastString == "x") then
      var b := Next(symbols, s, a);
      if ClosesBox(symbols, b) then Some((First(if late then b.lastString else a.lastString), Next(symbols, s, b))) else None
    else None
  }

  /**
   * As written, a ticked box `[x] ` records `]` rather than the tick, so no
   * task is ever checked.
   */
  lemma TickedBoxRecordsBracket(symbols: set<char>, s: seq<char>, st: Snap)
    requires SnapOk(s, st)
    requires TaskBox(symbols, s, st, true).Some?
    ensures TaskBox(symbols, s, st, true).value.0 in {' ', ']'}
  {
  }

  /**
   * Corrected: a box records a blank when empty and the tick (`x` or `X`)
   * when ticked, and either way it is left on the token after the `]`.
   */
  lemma TaskBoxRecordsTick(symbols: set<char>, s: seq<char>, st: Snap)
    requires SnapOk(s, st)
    requires TaskBox(symbols, s, st, false).Some?
    ensures TaskBox(symbols, s, st, false).value.0 in {' ', 'x', 'X'}
    ensures var a := Next(symbols, s, st);
      TaskBox(symbols, s, st, false).value.0 != ' ' <==> a.lastToken == TokText && a.lastString in {"x", "X"}
  {
  }

  /** The two readings differ on every ticked box. */
  lemma TickedBoxDiffers(symbols: set<char>, s: seq<char>, st: Snap)
    requires SnapOk(s, st)
    requires TaskBox(symbols, s, st, false).Some? && TaskBox(symbols, s, st, false).value.0 != ' '
    ensures TaskBox(symbols, s, st, true).Some?
    ensures TaskBox(symbols, s, st, true).value.0 == ']' != TaskBox(symbols, s, st, false).value.0
  {
  }
}
