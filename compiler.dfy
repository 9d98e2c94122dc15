/**
 * `NotedownCompiler`: the registries the parser consults (block and inline
 * handlers by name, the trigger symbols, the emoji shortcodes, the command
 * functions), the documents it has parsed, and the shared id registry
 * `prepareAST` builds while it walks them phase by phase.
 */
module Compiler {
  import opened Util
  import opened Lexer
  import opened Ast
  import opened Handlers
  import opened Phases
  import Blocks
  import Inline

  /** The characters of a string, as `insert` puts them into a set. */
  function Chars(s: string): set<char>
  {
    set c | c in s
  }

  // ---------------------------------------------------------------------
  // Emoji lookup table
  // ---------------------------------------------------------------------

  /** `find_first_of(' ', from)`, with `|s|` standing for `npos`. */
  function SpaceFrom(s: string, from: nat): (p: nat)
    requires from <= |s|
    ensures from <= p <= |s|
    ensures p < |s| ==> s[p] == ' '
    ensures forall k :: from <= k < p ==> s[k] != ' '
    decreases |s| - from
  {
    if from == |s| || s[from] == ' ' then from else SpaceFrom(s, from + 1)
  }

  /** The non-empty pieces between the spaces of `s[from..]`, in order. */
  function ShortcodesFrom(s: string, from: nat): seq<string>
    requires from <= |s|
    decreases |s| - from
  {
    var p := SpaceFrom(s, from);
    if p == |s| then CodePiece(s[from..]) else CodePiece(s[from..p]) + ShortcodesFrom(s, p + 1)
  }

  /** A piece between two spaces, dropped when empty. */
  function CodePiece(w: string): seq<string>
  {
    if w == [] then [] else [w]
  }

  /**
   * What one line of a lookup table holds: the emoji, which is the text
   * before the first space when that text is not empty, and the shortcodes
   * that follow it.
   */
  function TableLine(line: string): Option<(string, seq<string>)>
  {
    var p := SpaceFrom(line, 0);
    if p == |line| || p == 0 then None else Some((line[..p], ShortcodesFrom(line, p + 1)))
  }

  /** `emplace(k, v)` for every `k` of `keys` in order: a key already present keeps its value. */
  function EmplaceAll(m: map<string, string>, keys: seq<string>, v: string): map<string, string>
  {
    if keys == [] then m
    else
      var r := EmplaceAll(m, keys[..|keys| - 1], v);
      var k := keys[|keys| - 1];
      if k in r then r else r[k := v]
  }

  /** The table after reading `lines` in order into `m`. */
  function Table(m: map<string, string>, lines: seq<string>): map<string, string>
  {
    if lines == [] then m
    else
      var r := Table(m, lines[..|lines| - 1]);
      match TableLine(lines[|lines| - 1])
      case None => r
      case Some((emoji, codes)) => EmplaceAll(r, codes, emoji)
  }

  /** The first emplace wins: old entries stay, and each new key gets `v`. */
  lemma {:induction false} EmplaceAllFirstWins(m: map<string, string>, keys: seq<string>, v: string)
    ensures EmplaceAll(m, keys, v).Keys == m.Keys + (set k | k in keys)
    ensures forall k :: k in m ==> EmplaceAll(m, keys, v)[k] == m[k]
    ensures forall k :: k in keys && k !in m ==> EmplaceAll(m, keys, v)[k] == v
  {
    if keys != [] {
      var init := keys[..|keys| - 1];
      EmplaceAllFirstWins(m, init, v);
      assert keys == init + [keys[|keys| - 1]];
    }
  }

  /** Reading more of a table never changes an entry it already holds. */
  lemma {:induction false} TableKeeps(m: map<string, string>, lines: seq<string>)
    ensures m.Keys <= Table(m, lines).Keys
    ensures forall k :: k in m ==> Table(m, lines)[k] == m[k]
  {
    if lines != [] {
      var init := lines[..|lines| - 1];
      TableKeeps(m, init);
      match TableLine(lines[|lines| - 1])
      case None =>
      case Some((emoji, codes)) =>
        EmplaceAllFirstWins(Table(m, init), codes, emoji);
    }
  }

  /** A line with an emoji makes each of its shortcodes a key. */
  lemma TableLineAdds(m: map<string, string>, lines: seq<string>, k: nat, code: string)
    requires k < |lines| && TableLine(lines[k]).Some? && code in TableLine(lines[k]).value.1
    ensures code in Table(m, lines)
    decreases |lines|
  {
    var init := lines[..|lines| - 1];
    if k == |lines| - 1 {
      var codes := TableLine(lines[k]).value.1;
      EmplaceAllFirstWins(Table(m, init), codes, TableLine(lines[k]).value.0);
    } else {
      assert init[k] == lines[k];
      TableLineAdds(m, init, k, code);
      match TableLine(lines[|lines| - 1])
      case None =>
      case Some((emoji, codes)) =>
        EmplaceAllFirstWins(Table(m, init), codes, emoji);
    }
  }

  /** A run of non-spaces goes into the token being collected. */
  lemma {:induction false} SplitFromWord(w: string, r: string, tok: string, acc: seq<string>)
    requires forall k :: 0 <= k < |w| ==> w[k] != ' '
    ensures SplitFrom(w + r, {' '}, tok, acc) == SplitFrom(r, {' '}, tok + w, acc)
    decreases |w|
  {
    if w != [] {
      assert (w + r)[1..] == w[1..] + r;
      assert tok + w == (tok + [w[0]]) + w[1..];
      SplitFromWord(w[1..], r, tok + [w[0]], acc);
    } else {
      assert w + r == r && tok + w == tok;
    }
  }

  /** Tokens emitted before stay in front. */
  lemma {:induction false} SplitFromAcc(r: string, tok: string, acc: seq<string>)
    ensures SplitFrom(r, {' '}, tok, acc) == acc + SplitFrom(r, {' '}, tok, [])
    decreases |r|
  {
    if r == [] {
    } else if r[0] == ' ' {
      var a: seq<string> := if tok != [] then [tok] else [];
      var acc' := if tok != [] then acc + [tok] else acc;
      assert acc' == acc + a;
      assert SplitFrom(r, {' '}, tok, []) == SplitFrom(r[1..], {' '}, [], a) by {
        assert [] + [tok] == [tok];
      }
      SplitFromAcc(r[1..], [], acc');
      SplitFromAcc(r[1..], [], a);
    } else {
      SplitFromAcc(r[1..], tok + [r[0]], acc);
    }
  }

  /** One piece of `ShortcodesFrom` when a space follows it. */
  lemma ShortcodesStep(s: string, from: nat)
    requires from <= |s| && SpaceFrom(s, from) < |s|
    ensures var p := SpaceFrom(s, from);
      ShortcodesFrom(s, from) == CodePiece(s[from..p]) + ShortcodesFrom(s, p + 1)
  {
  }

  /** Moving past one piece keeps what is done and what is left together. */
  lemma ShortcodesAdvance(s: string, from: nat, p: nat, done: seq<string>, codes: seq<string>)
    requires from <= p < |s| && p == SpaceFrom(s, from) && done + ShortcodesFrom(s, from) == codes
    ensures (done + CodePiece(s[from..p])) + ShortcodesFrom(s, p + 1) == codes
  {
    ShortcodesStep(s, from);
  }

  /** One more `emplace` after the first ones. */
  lemma EmplaceStep(m: map<string, string>, done: seq<string>, c: string, v: string)
    ensures EmplaceAll(m, done + [c], v) ==
      (if c in EmplaceAll(m, done, v) then EmplaceAll(m, done, v) else EmplaceAll(m, done, v)[c := v])
  {
    assert (done + [c])[..|done|] == done;
  }

  /** The last piece of `ShortcodesFrom`, when no space follows it. */
  lemma ShortcodesLast(s: string, from: nat)
    requires from <= |s| && SpaceFrom(s, from) == |s|
    ensures ShortcodesFrom(s, from) == CodePiece(s[from..])
  {
  }

  /** Splitting from `from` reads the word up to the next space into the token first. */
  lemma SplitPastWord(s: string, from: nat)
    requires from <= |s|
    ensures var p := SpaceFrom(s, from);
      Split(s[from..], {' '}) == SplitFrom(s[p..], {' '}, s[from..p], [])
  {
    var p := SpaceFrom(s, from);
    var w := s[from..p];
    assert forall k :: 0 <= k < |w| ==> w[k] != ' ' by {
      forall k | 0 <= k < |w| ensures w[k] != ' ' {
        assert w[k] == s[from + k];
      }
    }
    assert s[from..] == w + s[p..];
    SplitFromWord(w, s[p..], [], []);
    assert [] + w == w;
  }

  /** A space ends the first word: it is a token of its own, if any, and splitting goes on after the space. */
  lemma SplitPastSpace(s: string, from: nat)
    requires from <= |s| && SpaceFrom(s, from) < |s|
    ensures var p := SpaceFrom(s, from);
      Split(s[from..], {' '}) == CodePiece(s[from..p]) + Split(s[p + 1..], {' '})
  {
    var p := SpaceFrom(s, from);
    var w := s[from..p];
    var rest := s[p + 1..];
    SplitPastWord(s, from);
    assert SplitFrom(s[p..], {' '}, w, []) == SplitFrom(rest, {' '}, [], CodePiece(w)) by {
      assert s[p..][0] == ' ' && s[p..][1..] == rest;
      assert [] + [w] == [w];
    }
    SplitFromAcc(rest, [], CodePiece(w));
  }

  lemma {:induction false} ShortcodesAreSplit(s: string, from: nat)
    requires from <= |s|
    ensures ShortcodesFrom(s, from) == Split(s[from..], {' '})
    decreases |s| - from
  {
    var p := SpaceFrom(s, from);
    if p == |s| {
      var w := s[from..p];
      SplitPastWord(s, from);
      assert s[p..] == [];
      assert SplitFrom(s[p..], {' '}, w, []) == CodePiece(w);
      ShortcodesLast(s, from);
      assert s[from..] == w;
    } else {
      SplitPastSpace(s, from);
      ShortcodesAreSplit(s, p + 1);
      ShortcodesStep(s, from);
    }
  }

  /** Shortcodes are never empty and never hold a space. */
  lemma ShortcodesWellFormed(s: string, from: nat)
    requires from <= |s|
    ensures GoodTokens(ShortcodesFrom(s, from), {' '})
  {
    ShortcodesAreSplit(s, from);
    SplitProperties(s[from..], {' '});
  }

  // ---------------------------------------------------------------------
  // Handler registry
  // ---------------------------------------------------------------------

  /** Every trigger character of every registered handler is a symbol. */
  predicate Covers(symbols: set<char>, blocks: seq<BlockKind>, inlines: seq<InlineKind>)
  {
    (forall i, c :: 0 <= i < |blocks| && c in BlockTriggers(blocks[i]) ==> c in symbols) &&
    (forall i, c :: 0 <= i < |inlines| && c in InlineTriggers(inlines[i]) ==> c in symbols)
  }

  /** Handler names map to handler indices. */
  predicate NamesBelow(names: map<string, nat>, size: nat)
  {
    forall k :: k in names ==> names[k] < size
  }

  /** The handler lists, their names and the symbols, as the compiler holds them. */
  datatype Regs = Regs(blocks: seq<BlockKind>, blockAlias: map<string, nat>, inlines: seq<InlineKind>,
    inlineAlias: map<string, nat>, symbols: set<char>)

  /** Names map to registered handlers, and every trigger character is a symbol. */
  predicate RegsOk(r: Regs)
  {
    NamesBelow(r.blockAlias, |r.blocks|) && NamesBelow(r.inlineAlias, |r.inlines|) && Covers(r.symbols, r.blocks, r.inlines)
  }

  /** `addHandler(name, kind)` on the registrations, with whether it succeeded. */
  function EnterBlock(r: Regs, name: string, kind: BlockKind): (Regs, bool)
  {
    if name in r.blockAlias then (r, false)
    else (r.(blocks := r.blocks + [kind], blockAlias := r.blockAlias[name := |r.blocks|],
             symbols := r.symbols + Chars(BlockTriggers(kind))), true)
  }

  /** `addHandlerAlias(alias, name)` on the registrations, with whether it succeeded. */
  function EnterBlockAlias(r: Regs, alias: string, name: string): (Regs, bool)
  {
    if alias in r.blockAlias || name !in r.blockAlias then (r, false)
    else (r.(blockAlias := r.blockAlias[alias := r.blockAlias[name]]), true)
  }

  /** `addInlineHandler(name, kind)` on the registrations, with whether it succeeded. */
  function EnterInline(r: Regs, name: string, kind: InlineKind): (Regs, bool)
  {
    if name in r.inlineAlias then (r, false)
    else (r.(inlines := r.inlines + [kind], inlineAlias := r.inlineAlias[name := |r.inlines|],
             symbols := r.symbols + Chars(InlineTriggers(kind))), true)
  }

  /** `addInlineHandlerAlias(alias, name)` on the registrations, with whether it succeeded. */
  function EnterInlineAlias(r: Regs, alias: string, name: string): (Regs, bool)
  {
    if alias in r.inlineAlias || name !in r.inlineAlias then (r, false)
    else (r.(inlineAlias := r.inlineAlias[alias := r.inlineAlias[name]]), true)
  }

  /**
   * A taken name fails and changes nothing; a free one appends the handler,
   * names it by its index, keeps every other name, and makes its triggers
   * symbols. Either way the registrations stay consistent.
   */
  lemma EnterBlockMeaning(r: Regs, name: string, kind: BlockKind)
    ensures EnterBlock(r, name, kind).1 <==> name !in r.blockAlias
    ensures name in r.blockAlias ==> EnterBlock(r, name, kind).0 == r
    ensures var r' := EnterBlock(r, name, kind).0;
      name !in r.blockAlias ==>
        r'.blocks == r.blocks + [kind] && r'.blockAlias.Keys == r.blockAlias.Keys + {name} &&
        r'.blockAlias[name] == |r'.blocks| - 1 && r'.blocks[r'.blockAlias[name]] == kind &&
        (forall k :: k in r.blockAlias ==> r'.blockAlias[k] == r.blockAlias[k]) &&
        Chars(BlockTriggers(kind)) <= r'.symbols && r'.inlines == r.inlines && r'.inlineAlias == r.inlineAlias
    ensures RegsOk(r) ==> RegsOk(EnterBlock(r, name, kind).0)
  {
    var r' := EnterBlock(r, name, kind).0;
    if RegsOk(r) && name !in r.blockAlias {
      forall i, c | 0 <= i < |r'.blocks| && c in BlockTriggers(r'.blocks[i]) ensures c in r'.symbols {
        if i < |r.blocks| {
          assert r'.blocks[i] == r.blocks[i];
        }
      }
    }
  }

  /** The inline counterpart of `EnterBlockMeaning`. */
  lemma EnterInlineMeaning(r: Regs, name: string, kind: InlineKind)
    ensures EnterInline(r, name, kind).1 <==> name !in r.inlineAlias
    ensures name in r.inlineAlias ==> EnterInline(r, name, kind).0 == r
    ensures var r' := EnterInline(r, name, kind).0;
      name !in r.inlineAlias ==>
        r'.inlines == r.inlines + [kind] && r'.inlineAlias.Keys == r.inlineAlias.Keys + {name} &&
        r'.inlineAlias[name] == |r'.inlines| - 1 && r'.inlines[r'.inlineAlias[name]] == kind &&
        (forall k :: k in r.inlineAlias ==> r'.inlineAlias[k] == r.inlineAlias[k]) &&
        Chars(InlineTriggers(kind)) <= r'.symbols && r'.blocks == r.blocks && r'.blockAlias == r.blockAlias
    ensures RegsOk(r) ==> RegsOk(EnterInline(r, name, kind).0)
  {
    var r' := EnterInline(r, name, kind).0;
    if RegsOk(r) && name !in r.inlineAlias {
      forall i, c | 0 <= i < |r'.inlines| && c in InlineTriggers(r'.inlines[i]) ensures c in r'.symbols {
        if i < |r.inlines| {
          assert r'.inlines[i] == r.inlines[i];
        }
      }
    }
  }

  /** An alias succeeds exactly for a free alias of a known name, and then names the same handler. */
  lemma EnterBlockAliasMeaning(r: Regs, alias: string, name: string)
    ensures EnterBlockAlias(r, alias, name).1 <==> alias !in r.blockAlias && name in r.blockAlias
    ensures var (r', ok) := EnterBlockAlias(r, alias, name);
      (!ok ==> r' == r) &&
      (ok ==> r'.blockAlias.Keys == r.blockAlias.Keys + {alias} && r'.blockAlias[alias] == r.blockAlias[name] &&
               r'.blocks == r.blocks && r'.symbols == r.symbols && r'.inlineAlias == r.inlineAlias)
    ensures RegsOk(r) ==> RegsOk(EnterBlockAlias(r, alias, name).0)
  {
  }

  /** The inline counterpart of `EnterBlockAliasMeaning`. */
  lemma EnterInlineAliasMeaning(r: Regs, alias: string, name: string)
    ensures EnterInlineAlias(r, alias, name).1 <==> alias !in r.inlineAlias && name in r.inlineAlias
    ensures var (r', ok) := EnterInlineAlias(r, alias, name);
      (!ok ==> r' == r) &&
      (ok ==> r'.inlineAlias.Keys == r.inlineAlias.Keys + {alias} && r'.inlineAlias[alias] == r.inlineAlias[name] &&
               r'.inlines == r.inlines && r'.symbols == r.symbols && r'.blockAlias == r.blockAlias)
    ensures RegsOk(r) ==> RegsOk(EnterInlineAlias(r, alias, name).0)
  {
  }

  /** The block handlers `addDefaultHandlers` registers before the inline ones, in order. */
  const LeadingBlocks: seq<BlockKind> := [UListH, OListH, HeadingH, InfoBlockH, BlockquoteH, HLineH, CodeH,
    IdDefH, FootnoteH, CollapseH]
  /** The inline handlers `addDefaultHandlers` registers, in order. */
  const DefaultInlines: seq<InlineKind> := [TemplateI('*'), TemplateI('/'), TemplateI('_'), TemplateI('~'),
    TemplateI('='), TaskI, SmileyI, CodeI, ModifierI, CommandI]

  /** The registrations after the first five block handler calls of `addDefaultHandlers`. */
  function ListBlocksAfter(r: Regs): Regs
  {
    var r1 := EnterBlock(r, "H_ulist", UListH).0;
    var r2 := EnterBlock(r1, "H_olist", OListH).0;
    var r3 := EnterBlock(r2, "H_heading", HeadingH).0;
    var r4 := EnterBlock(r3, "H_infoblock", InfoBlockH).0;
    EnterBlock(r4, "H_blockquote", BlockquoteH).0
  }

  /** The registrations after the next five block handler calls of `addDefaultHandlers`. */
  function OtherBlocksAfter(r: Regs): Regs
  {
    var r1 := EnterBlock(r, "H_hline", HLineH).0;
    var r2 := EnterBlock(r1, "H_code", CodeH).0;
    var r3 := EnterBlock(r2, "H_iddef", IdDefH).0;
    var r4 := EnterBlock(r3, "H_footnote", FootnoteH).0;
    EnterBlock(r4, "H_collapse", CollapseH).0
  }

  /** The registrations after the ten block handler calls of `addDefaultHandlers`. */
  function DefaultBlocksAfter(r: Regs): Regs
  {
    OtherBlocksAfter(ListBlocksAfter(r))
  }

  /** The registrations after the first five inline handler calls of `addDefaultHandlers`. */
  function TemplateInlinesAfter(r: Regs): Regs
  {
    var r1 := EnterInline(r, "I_bold", TemplateI('*')).0;
    var r2 := EnterInline(r1, "I_italic", TemplateI('/')).0;
    var r3 := EnterInline(r2, "I_underlined", TemplateI('_')).0;
    var r4 := EnterInline(r3, "I_strikethrough", TemplateI('~')).0;
    EnterInline(r4, "I_highlight", TemplateI('=')).0
  }

  /** The registrations after the last five inline handler calls of `addDefaultHandlers`. */
  function OtherInlinesAfter(r: Regs): Regs
  {
    var r1 := EnterInline(r, "I_task", TaskI).0;
    var r2 := EnterInline(r1, "I_emoji", SmileyI).0;
    var r3 := EnterInline(r2, "I_code", CodeI).0;
    var r4 := EnterInline(r3, "I_link", ModifierI).0;
    EnterInline(r4, "I_command", CommandI).0
  }

  /** The registrations after the ten inline handler calls of `addDefaultHandlers`. */
  function DefaultInlinesAfter(r: Regs): Regs
  {
    OtherInlinesAfter(TemplateInlinesAfter(r))
  }

  /** The registrations after `addDefaultHandlers`. */
  function DefaultsAfter(r: Regs): Regs
  {
    var r1 := DefaultInlinesAfter(DefaultBlocksAfter(r));
    EnterBlockAlias(EnterBlock(r1, "H_paragraph", ParagraphH).0, "H_default", "H_paragraph").0
  }

  /** None of the block handler names `addDefaultHandlers` registers is taken. */
  predicate BlockNamesFree(m: map<string, nat>)
  {
    "H_ulist" !in m && "H_olist" !in m && "H_heading" !in m && "H_infoblock" !in m && "H_blockquote" !in m &&
    "H_hline" !in m && "H_code" !in m && "H_iddef" !in m && "H_footnote" !in m && "H_collapse" !in m &&
    "H_paragraph" !in m && "H_default" !in m
  }

  /** None of the inline handler names `addDefaultHandlers` registers is taken. */
  predicate InlineNamesFree(m: map<string, nat>)
  {
    "I_bold" !in m && "I_italic" !in m && "I_underlined" !in m && "I_strikethrough" !in m && "I_highlight" !in m &&
    "I_task" !in m && "I_emoji" !in m && "I_code" !in m && "I_link" !in m && "I_command" !in m
  }

  /** A free name appends: the step the default registrations are made of. */
  lemma EnterFreeBlock(r: Regs, name: string, kind: BlockKind)
    requires name !in r.blockAlias
    ensures EnterBlock(r, name, kind).0.blocks == r.blocks + [kind]
    ensures EnterBlock(r, name, kind).0.blockAlias == r.blockAlias[name := |r.blocks|]
    ensures EnterBlock(r, name, kind).0.inlines == r.inlines && EnterBlock(r, name, kind).0.inlineAlias == r.inlineAlias
  {
  }

  /** The block names still to come after the first five default ones. */
  predicate OtherNamesFree(m: map<string, nat>)
  {
    "H_hline" !in m && "H_code" !in m && "H_iddef" !in m && "H_footnote" !in m && "H_collapse" !in m &&
    "H_paragraph" !in m && "H_default" !in m
  }

  lemma ListBlocksAppend(r: Regs)
    requires BlockNamesFree(r.blockAlias)
    ensures ListBlocksAfter(r).blocks == r.blocks + LeadingBlocks[..5]
    ensures OtherNamesFree(ListBlocksAfter(r).blockAlias)
    ensures ListBlocksAfter(r).inlines == r.inlines && ListBlocksAfter(r).inlineAlias == r.inlineAlias
  {
    var r1 := EnterBlock(r, "H_ulist", UListH).0;
    EnterFreeBlock(r, "H_ulist", UListH);
    var r2 := EnterBlock(r1, "H_olist", OListH).0;
    EnterFreeBlock(r1, "H_olist", OListH);
    var r3 := EnterBlock(r2, "H_heading", HeadingH).0;
    EnterFreeBlock(r2, "H_heading", HeadingH);
    var r4 := EnterBlock(r3, "H_infoblock", InfoBlockH).0;
    EnterFreeBlock(r3, "H_infoblock", InfoBlockH);
    var r5 := EnterBlock(r4, "H_blockquote", BlockquoteH).0;
    EnterFreeBlock(r4, "H_blockquote", BlockquoteH);
  }

  lemma OtherBlocksAppend(r: Regs)
    requires OtherNamesFree(r.blockAlias)
    ensures OtherBlocksAfter(r).blocks == r.blocks + LeadingBlocks[5..]
    ensures "H_paragraph" !in OtherBlocksAfter(r).blockAlias && "H_default" !in OtherBlocksAfter(r).blockAlias
    ensures OtherBlocksAfter(r).inlines == r.inlines && OtherBlocksAfter(r).inlineAlias == r.inlineAlias
  {
    var r1 := EnterBlock(r, "H_hline", HLineH).0;
    EnterFreeBlock(r, "H_hline", HLineH);
    var r2 := EnterBlock(r1, "H_code", CodeH).0;
    EnterFreeBlock(r1, "H_code", CodeH);
    var r3 := EnterBlock(r2, "H_iddef", IdDefH).0;
    EnterFreeBlock(r2, "H_iddef", IdDefH);
    var r4 := EnterBlock(r3, "H_footnote", FootnoteH).0;
    EnterFreeBlock(r3, "H_footnote", FootnoteH);
    var r5 := EnterBlock(r4, "H_collapse", CollapseH).0;
    EnterFreeBlock(r4, "H_collapse", CollapseH);
  }

  /** With none of their names taken, the ten default block handlers are all appended, in order. */
  lemma DefaultBlocksAppend(r: Regs)
    requires BlockNamesFree(r.blockAlias)
    ensures DefaultBlocksAfter(r).blocks == r.blocks + LeadingBlocks
    ensures "H_paragraph" !in DefaultBlocksAfter(r).blockAlias && "H_default" !in DefaultBlocksAfter(r).blockAlias
    ensures DefaultBlocksAfter(r).inlines == r.inlines && DefaultBlocksAfter(r).inlineAlias == r.inlineAlias
  {
    ListBlocksAppend(r);
    OtherBlocksAppend(ListBlocksAfter(r));
    assert LeadingBlocks == LeadingBlocks[..5] + LeadingBlocks[5..];
  }

  /** The inline counterpart of `EnterFreeBlock`. */
  lemma EnterFreeInline(r: Regs, name: string, kind: InlineKind)
    requires name !in r.inlineAlias
    ensures EnterInline(r, name, kind).0.inlines == r.inlines + [kind]
    ensures EnterInline(r, name, kind).0.inlineAlias == r.inlineAlias[name := |r.inlines|]
    ensures EnterInline(r, name, kind).0.blocks == r.blocks && EnterInline(r, name, kind).0.blockAlias == r.blockAlias
  {
  }

  /** The inline names still to come after the first five default ones. */
  predicate OtherInlineNamesFree(m: map<string, nat>)
  {
    "I_task" !in m && "I_emoji" !in m && "I_code" !in m && "I_link" !in m && "I_command" !in m
  }

  lemma TemplateInlinesAppend(r: Regs)
    requires InlineNamesFree(r.inlineAlias)
    ensures TemplateInlinesAfter(r).inlines == r.inlines + DefaultInlines[..5]
    ensures OtherInlineNamesFree(TemplateInlinesAfter(r).inlineAlias)
    ensures TemplateInlinesAfter(r).blocks == r.blocks && TemplateInlinesAfter(r).blockAlias == r.blockAlias
  {
    var r1 := EnterInline(r, "I_bold", TemplateI('*')).0;
    EnterFreeInline(r, "I_bold", TemplateI('*'));
    var r2 := EnterInline(r1, "I_italic", TemplateI('/')).0;
    EnterFreeInline(r1, "I_italic", TemplateI('/'));
    var r3 := EnterInline(r2, "I_underlined", TemplateI('_')).0;
    EnterFreeInline(r2, "I_underlined", TemplateI('_'));
    var r4 := EnterInline(r3, "I_strikethrough", TemplateI('~')).0;
    EnterFreeInline(r3, "I_strikethrough", TemplateI('~'));
    var r5 := EnterInline(r4, "I_highlight", TemplateI('=')).0;
    EnterFreeInline(r4, "I_highlight", TemplateI('='));
  }

  lemma OtherInlinesAppend(r: Regs)
    requires OtherInlineNamesFree(r.inlineAlias)
    ensures OtherInlinesAfter(r).inlines == r.inlines + DefaultInlines[5..]
    ensures OtherInlinesAfter(r).blocks == r.blocks && OtherInlinesAfter(r).blockAlias == r.blockAlias
  {
    var r1 := EnterInline(r, "I_task", TaskI).0;
    EnterFreeInline(r, "I_task", TaskI);
    var r2 := EnterInline(r1, "I_emoji", SmileyI).0;
    EnterFreeInline(r1, "I_emoji", SmileyI);
    var r3 := EnterInline(r2, "I_code", CodeI).0;
    EnterFreeInline(r2, "I_code", CodeI);
    var r4 := EnterInline(r3, "I_link", ModifierI).0;
    EnterFreeInline(r3, "I_link", ModifierI);
    var r5 := EnterInline(r4, "I_command", CommandI).0;
    EnterFreeInline(r4, "I_command", CommandI);
  }

  /** With none of their names taken, the ten default inline handlers are all appended, in order. */
  lemma DefaultInlinesAppend(r: Regs)
    requires InlineNamesFree(r.inlineAlias)
    ensures DefaultInlinesAfter(r).inlines == r.inlines + DefaultInlines
    ensures DefaultInlinesAfter(r).blocks == r.blocks && DefaultInlinesAfter(r).blockAlias == r.blockAlias
  {
    TemplateInlinesAppend(r);
    OtherInlinesAppend(TemplateInlinesAfter(r));
    assert DefaultInlines == DefaultInlines[..5] + DefaultInlines[5..];
  }

  /**
   * `addDefaultHandlers` on registrations holding none of its names: the
   * ten block handlers, then the paragraph handler, which `H_default` names;
   * the ten inline handlers after any already there. A parser of the
   * result has a paragraph handler to fall back on.
   */
  lemma DefaultsRegistered(r: Regs)
    requires BlockNamesFree(r.blockAlias) && InlineNamesFree(r.inlineAlias)
    ensures var d := DefaultsAfter(r);
      d.blocks == r.blocks + LeadingBlocks + [ParagraphH] && d.inlines == r.inlines + DefaultInlines &&
      "H_default" in d.blockAlias && d.blockAlias["H_default"] == |d.blocks| - 1 &&
      DefaultOk(Registry(d.blocks, d.inlines, d.blockAlias["H_default"]))
  {
    DefaultBlocksAppend(r);
    var r1 := DefaultBlocksAfter(r);
    DefaultInlinesAppend(r1);
    var r2 := DefaultInlinesAfter(r1);
    EnterFreeBlock(r2, "H_paragraph", ParagraphH);
    var r3 := EnterBlock(r2, "H_paragraph", ParagraphH).0;
    EnterBlockAliasMeaning(r3, "H_default", "H_paragraph");
  }

  // ---------------------------------------------------------------------
  // prepareAST
  // ---------------------------------------------------------------------

  /** One pass of a step over the documents: the `(step, document)` walks in document order. */
  function Sweep(step: Step, docs: seq<nat>): (r: seq<(Step, nat)>)
    ensures |r| == |docs|
  {
    if docs == [] then [] else Sweep(step, docs[..|docs| - 1]) + [(step, docs[|docs| - 1])]
  }

  /** The walks of `prepareAST`: one sweep per step, each over every document, the steps in order. */
  function Schedule(steps: seq<Step>, docs: seq<nat>): seq<(Step, nat)>
  {
    if steps == [] then [] else Schedule(steps[..|steps| - 1], docs) + Sweep(steps[|steps| - 1], docs)
  }

  const Passes: seq<Step> := [ProcRegister, ProcResolve, ProcConsume, ProcExecutePrep, ProcExecuteMain, ProcExecutePost]

  /** A step's place in the order in which `Step` lists them. */
  function Rank(s: Step): nat
  {
    match s
    case ProcRegister => 0
    case ProcResolve => 1
    case ProcIdentify => 2
    case ProcConsume => 3
    case ProcExecutePrep => 4
    case ProcExecuteMain => 5
    case ProcExecutePost => 6
  }

  predicate InOrder(s: seq<(Step, nat)>)
  {
    forall i, j :: 0 <= i < j < |s| ==> Rank(s[i].0) <= Rank(s[j].0)
  }

  /** A sweep visits each document once, in order. */
  lemma {:induction false} SweepVisits(step: Step, docs: seq<nat>)
    ensures forall k :: 0 <= k < |docs| ==> Sweep(step, docs)[k] == (step, docs[k])
  {
    if docs != [] {
      var init := docs[..|docs| - 1];
      SweepVisits(step, init);
      assert forall k :: 0 <= k < |init| ==> init[k] == docs[k];
    }
  }

  /** Every walk of a schedule runs one of its steps. */
  lemma {:induction false} ScheduleSteps(steps: seq<Step>, docs: seq<nat>)
    ensures forall i :: 0 <= i < |Schedule(steps, docs)| ==> Schedule(steps, docs)[i].0 in steps
  {
    if steps != [] {
      var init := steps[..|steps| - 1];
      var last := steps[|steps| - 1];
      ScheduleSteps(init, docs);
      SweepVisits(last, docs);
      var a := Schedule(init, docs);
      var s := Schedule(steps, docs);
      forall i | 0 <= i < |s| ensures s[i].0 in steps {
        if i < |a| {
          assert s[i] == a[i];
          assert a[i].0 in init;
        } else {
          assert s[i] == Sweep(last, docs)[i - |a|];
        }
      }
    }
  }

  /** Steps listed in order give walks in order: no step starts on a document before the previous step is done with all of them. */
  lemma {:induction false} ScheduleInOrder(steps: seq<Step>, docs: seq<nat>)
    requires forall i, j :: 0 <= i < j < |steps| ==> Rank(steps[i]) < Rank(steps[j])
    ensures InOrder(Schedule(steps, docs))
  {
    if steps != [] {
      var init := steps[..|steps| - 1];
      var last := steps[|steps| - 1];
      ScheduleInOrder(init, docs);
      ScheduleSteps(init, docs);
      SweepVisits(last, docs);
      var a := Schedule(init, docs);
      var s := Schedule(steps, docs);
      forall i, j | 0 <= i < j < |s| ensures Rank(s[i].0) <= Rank(s[j].0) {
        if j < |a| {
          assert s[i] == a[i] && s[j] == a[j];
        } else if i < |a| {
          assert s[i] == a[i];
          assert s[j] == Sweep(last, docs)[j - |a|];
          var k :| 0 <= k < |init| && init[k] == a[i].0;
          assert Rank(steps[k]) < Rank(steps[|steps| - 1]);
        } else {
          assert s[i] == Sweep(last, docs)[i - |a|];
          assert s[j] == Sweep(last, docs)[j - |a|];
        }
      }
    }
  }

  /**
   * `prepareAST` finishes each step on every document before the next step
   * starts, and never runs the Identify step, so no heading enters a
   * registry under `"#" + id` on its way.
   */
  lemma PrepareOrder(docs: seq<nat>)
    ensures InOrder(Schedule(Passes, docs))
    ensures forall i :: 0 <= i < |Schedule(Passes, docs)| ==> Schedule(Passes, docs)[i].0 != ProcIdentify
  {
    ScheduleInOrder(Passes, docs);
    ScheduleSteps(Passes, docs);
  }

  /** The calls an Execute step makes over the documents, document by document. */
  function DocCalls(ns: seq<Node>, docs: seq<nat>, funcs: set<string>): seq<Call>
    requires Wf(ns) && forall k :: 0 <= k < |docs| ==> docs[k] < |ns|
  {
    if docs == [] then []
    else DocCalls(ns, docs[..|docs| - 1], funcs) + CallsAlong(ns, PostOrder(ns, docs[|docs| - 1], |ns|), funcs)
  }

  /** One more document makes its calls after the others. */
  lemma DocCallsSnoc(ns: seq<Node>, docs: seq<nat>, k: nat, funcs: set<string>)
    requires Wf(ns) && k < |docs| && forall j :: 0 <= j < |docs| ==> docs[j] < |ns|
    ensures DocCalls(ns, docs[..k + 1], funcs) == DocCalls(ns, docs[..k], funcs) + CallsAlong(ns, PostOrder(ns, docs[k], |ns|), funcs)
  {
    assert docs[..k + 1][..k] == docs[..k];
  }

  /** What `handleRequest` hands back: `temp_emoji`, or a registered element. */
  datatype Target = TempEmoji | Element(index: nat)

  /** A request for an emoji: a `:` and the shortcode. An empty request reads NUL at index 0. */
  predicate EmojiRequest(request: string)
  {
    |request| > 0 && request[0] == ':'
  }

  class NotedownCompiler {
    var blocks: seq<BlockKind>
    var blockAlias: map<string, nat>
    var inlines: seq<InlineKind>
    var inlineAlias: map<string, nat>
    var symbols: set<char>
    var emojis: map<string, string>
    /** The content of `temp_emoji`. */
    var tempEmoji: string
    /** `modFuncs`, with each function given by a handle. */
    var modFuncs: map<string, nat>
    var iddef: map<string, nat>
    /** The arena holding every document's elements. */
    var tree: Tree
    /** The root of each document, in the order they were added. */
    var documents: seq<nat>

    ghost predicate Valid()
      reads this, tree
    {
      RegsOk(Registrations()) && tree.Valid() && RegistryOk(tree.nodes, iddef) &&
      forall k :: 0 <= k < |documents| ==> documents[k] < |tree.nodes| && tree.nodes[documents[k]].kind.Document?
    }

    /** The handler lists, their names and the symbols. */
    function Registrations(): Regs
      reads this
    {
      Regs(blocks, blockAlias, inlines, inlineAlias, symbols)
    }

    /** The emoji table, `temp_emoji` and the command functions. */
    function Lookups(): (map<string, string>, string, map<string, nat>)
      reads this
    {
      (emojis, tempEmoji, modFuncs)
    }

    /** The documents and the shared registry. */
    function Documents(): (Tree, seq<nat>, map<string, nat>)
      reads this
    {
      (tree, documents, iddef)
    }

    /** What a parser of this compiler sees: the handler lists and the handler `H_default` names. */
    function Reg(): Registry
      reads this
      requires "H_default" in blockAlias
    {
      Registry(blocks, inlines, blockAlias["H_default"])
    }

    constructor ()
      ensures Valid() && fresh(tree) && tree.nodes == []
      ensures blocks == [] && blockAlias == map[] && inlines == [] && inlineAlias == map[] && symbols == {}
      ensures emojis == map[] && tempEmoji == "" && modFuncs == map[] && iddef == map[] && documents == []
    {
      blocks := [];
      blockAlias := map[];
      inlines := [];
      inlineAlias := map[];
      symbols := {};
      emojis := map[];
      tempEmoji := "";
      modFuncs := map[];
      iddef := map[];
      tree := new Tree();
      documents := [];
    }

    /** `addSymbols`: each character of `str` becomes a symbol. */
    method AddSymbols(str: string)
      modifies this
      ensures symbols == old(symbols) + Chars(str)
      ensures blocks == old(blocks) && blockAlias == old(blockAlias) && inlines == old(inlines) && inlineAlias == old(inlineAlias)
      ensures Lookups() == old(Lookups()) && Documents() == old(Documents())
    {
      var i := 0;
      while i < |str|
        invariant 0 <= i <= |str|
        invariant symbols == old(symbols) + Chars(str[..i])
        invariant blocks == old(blocks) && blockAlias == old(blockAlias) && inlines == old(inlines) && inlineAlias == old(inlineAlias)
        invariant Lookups() == old(Lookups()) && Documents() == old(Documents())
      {
        assert Chars(str[..i + 1]) == Chars(str[..i]) + {str[i]} by {
          assert str[..i + 1] == str[..i] + [str[i]];
        }
        symbols := symbols + {str[i]};
        i := i + 1;
      }
      assert str[..i] == str;
    }

    /** `addHandler`, as `EnterBlock` states it. */
    method AddHandler(name: string, kind: BlockKind) returns (ok: bool)
      requires Valid()
      modifies this
      ensures Valid()
      ensures (Registrations(), ok) == EnterBlock(old(Registrations()), name, kind)
      ensures Lookups() == old(Lookups()) && Documents() == old(Documents())
    {
      EnterBlockMeaning(Registrations(), name, kind);
      if name in blockAlias {
        return false;
      }
      AddSymbols(BlockTriggers(kind));
      blocks := blocks + [kind];
      blockAlias := blockAlias[name := |blocks| - 1];
      ok := true;
    }

    /** `addHandlerAlias`, as `EnterBlockAlias` states it. */
    method AddHandlerAlias(alias: string, name: string) returns (ok: bool)
      requires Valid()
      modifies this
      ensures Valid()
      ensures (Registrations(), ok) == EnterBlockAlias(old(Registrations()), alias, name)
      ensures Lookups() == old(Lookups()) && Documents() == old(Documents())
    {
      EnterBlockAliasMeaning(Registrations(), alias, name);
      if alias in blockAlias || name !in blockAlias {
        return false;
      }
      blockAlias := blockAlias[alias := blockAlias[name]];
      ok := true;
    }

    /** `addInlineHandler`, as `EnterInline` states it. */
    method AddInlineHandler(name: string, kind: InlineKind) returns (ok: bool)
      requires Valid()
      modifies this
      ensures Valid()
      ensures (Registrations(), ok) == EnterInline(old(Registrations()), name, kind)
      ensures Lookups() == old(Lookups()) && Documents() == old(Documents())
    {
      EnterInlineMeaning(Registrations(), name, kind);
      if name in inlineAlias {
        return false;
      }
      AddSymbols(InlineTriggers(kind));
      inlines := inlines + [kind];
      inlineAlias := inlineAlias[name := |inlines| - 1];
      ok := true;
    }

    /** `addInlineHandlerAlias`, as `EnterInlineAlias` states it. */
    method AddInlineHandlerAlias(alias: string, name: string) returns (ok: bool)
      requires Valid()
      modifies this
      ensures Valid()
      ensures (Registrations(), ok) == EnterInlineAlias(old(Registrations()), alias, name)
      ensures Lookups() == old(Lookups()) && Documents() == old(Documents())
    {
      EnterInlineAliasMeaning(Registrations(), alias, name);
      if alias in inlineAlias || name !in inlineAlias {
        return false;
      }
      inlineAlias := inlineAlias[alias := inlineAlias[name]];
      ok := true;
    }

    /**
     * `addDefaultHandlers`, as `DefaultsAfter` states it; on a compiler that
     * has none of the default names yet, the paragraph handler comes last
     * and `H_default` names it.
     */
    method AddDefaultHandlers()
      requires Valid()
      modifies this
      ensures Valid()
      ensures Registrations() == DefaultsAfter(old(Registrations()))
      ensures Lookups() == old(Lookups()) && Documents() == old(Documents())
      ensures BlockNamesFree(old(blockAlias)) && InlineNamesFree(old(inlineAlias)) ==>
        blocks == old(blocks) + LeadingBlocks + [ParagraphH] && inlines == old(inlines) + DefaultInlines
      ensures BlockNamesFree(old(blockAlias)) && InlineNamesFree(old(inlineAlias)) ==>
        "H_default" in blockAlias && blockAlias["H_default"] == |blocks| - 1 && DefaultOk(Reg())
    {
      if BlockNamesFree(blockAlias) && InlineNamesFree(inlineAlias) {
        DefaultsRegistered(Registrations());
      }
      AddDefaultBlocks();
      AddDefaultInlines();
      var _ := AddHandler("H_paragraph", ParagraphH);
      var _ := AddHandlerAlias("H_default", "H_paragraph");
    }

    /** The first ten calls of `addDefaultHandlers`. */
    method AddDefaultBlocks()
      requires Valid()
      modifies this
      ensures Valid()
      ensures Registrations() == DefaultBlocksAfter(old(Registrations()))
      ensures Lookups() == old(Lookups()) && Documents() == old(Documents())
    {
      var _ := AddHandler("H_ulist", UListH);
      var _ := AddHandler("H_olist", OListH);
      var _ := AddHandler("H_heading", HeadingH);
      var _ := AddHandler("H_infoblock", InfoBlockH);
      var _ := AddHandler("H_blockquote", BlockquoteH);
      var _ := AddHandler("H_hline", HLineH);
      var _ := AddHandler("H_code", CodeH);
      var _ := AddHandler("H_iddef", IdDefH);
      var _ := AddHandler("H_footnote", FootnoteH);
      var _ := AddHandler("H_collapse", CollapseH);
    }

    /** The ten inline handler calls of `addDefaultHandlers`. */
    method AddDefaultInlines()
      requires Valid()
      modifies this
      ensures Valid()
      ensures Registrations() == DefaultInlinesAfter(old(Registrations()))
      ensures Lookups() == old(Lookups()) && Documents() == old(Documents())
    {
      var _ := AddInlineHandler("I_bold", TemplateI('*'));
      var _ := AddInlineHandler("I_italic", TemplateI('/'));
      var _ := AddInlineHandler("I_underlined", TemplateI('_'));
      var _ := AddInlineHandler("I_strikethrough", TemplateI('~'));
      var _ := AddInlineHandler("I_highlight", TemplateI('='));
      var _ := AddInlineHandler("I_task", TaskI);
      var _ := AddInlineHandler("I_emoji", SmileyI);
      var _ := AddInlineHandler("I_code", CodeI);
      var _ := AddInlineHandler("I_link", ModifierI);
      var _ := AddInlineHandler("I_command", CommandI);
    }

    /**
     * One line of `addEmojiLUT`: a line with an emoji before its first
     * space emplaces each shortcode after it; any other line changes
     * nothing.
     */
    method AddEmojiLine(line: string)
      modifies this
      ensures emojis == match TableLine(line)
        case None => old(emojis)
        case Some((emoji, codes)) => EmplaceAll(old(emojis), codes, emoji)
      ensures Registrations() == old(Registrations()) && Documents() == old(Documents())
      ensures tempEmoji == old(tempEmoji) && modFuncs == old(modFuncs)
    {
      var pos := SpaceFrom(line, 0);
      if pos == |line| || pos == 0 {
        return;
      }
      var emoji := line[..pos];
      ghost var codes := ShortcodesFrom(line, pos + 1);
      ghost var done: seq<string> := [];
      var oldPos := pos;
      pos := SpaceFrom(line, oldPos + 1);
      while pos != |line|
        invariant oldPos < |line| && pos == SpaceFrom(line, oldPos + 1)
        invariant done + ShortcodesFrom(line, oldPos + 1) == codes
        invariant emojis == EmplaceAll(old(emojis), done, emoji)
        invariant Registrations() == old(Registrations()) && Documents() == old(Documents())
        invariant tempEmoji == old(tempEmoji) && modFuncs == old(modFuncs)
        decreases |line| - oldPos
      {
        var shortcode := line[oldPos + 1..pos];
        ShortcodesAdvance(line, oldPos + 1, pos, done, codes);
        EmplacePiece(old(emojis), done, shortcode, emoji);
        done := done + CodePiece(shortcode);
        oldPos := pos;
        pos := SpaceFrom(line, oldPos + 1);
      }
      ShortcodesLast(line, oldPos + 1);
      EmplacePiece(old(emojis), done, line[oldPos + 1..], emoji);
    }

    /** `emplace(code, emoji)` for a non-empty piece of a line; an empty one is skipped. */
    method EmplacePiece(ghost m: map<string, string>, ghost done: seq<string>, code: string, emoji: string)
      requires emojis == EmplaceAll(m, done, emoji)
      modifies this
      ensures emojis == EmplaceAll(m, done + CodePiece(code), emoji)
      ensures Registrations() == old(Registrations()) && Documents() == old(Documents())
      ensures tempEmoji == old(tempEmoji) && modFuncs == old(modFuncs)
    {
      if code == [] {
        assert done + [] == done;
      } else {
        EmplaceStep(m, done, code, emoji);
        if code !in emojis {
          emojis := emojis[code := emoji];
        }
      }
    }

    /** `addEmojiLUT` on a file whose lines are `lines`. */
    method AddEmojiTable(lines: seq<string>)
      modifies this
      ensures emojis == Table(old(emojis), lines)
      ensures Registrations() == old(Registrations()) && Documents() == old(Documents())
      ensures tempEmoji == old(tempEmoji) && modFuncs == old(modFuncs)
    {
      var i := 0;
      while i < |lines|
        invariant 0 <= i <= |lines|
        invariant emojis == Table(old(emojis), lines[..i])
        invariant Registrations() == old(Registrations()) && Documents() == old(Documents())
        invariant tempEmoji == old(tempEmoji) && modFuncs == old(modFuncs)
      {
        assert lines[..i + 1][..i] == lines[..i];
        AddEmojiLine(lines[i]);
        i := i + 1;
      }
      assert lines[..i] == lines;
    }

    /**
     * `handleRequest`: a request starting with `:` looks its shortcode up in
     * the emoji table only, and a hit sets `temp_emoji` to the emoji; any
     * other request looks only in the shared registry. A miss gives null.
     */
    method HandleRequest(request: string) returns (r: Option<Target>)
      requires Valid()
      modifies this
      ensures Valid()
      ensures EmojiRequest(request) ==> (r.Some? <==> request[1..] in emojis) && (r.Some? ==> r.value == TempEmoji)
      ensures EmojiRequest(request) && r.Some? ==> tempEmoji == emojis[request[1..]]
      ensures !EmojiRequest(request) ==> (r.Some? <==> request in iddef) && (r.Some? ==> r.value == Element(iddef[request]))
      ensures r.Some? && r.value.Element? ==> r.value.index < |tree.nodes|
      ensures r.None? || r.value.Element? ==> tempEmoji == old(tempEmoji)
      ensures Registrations() == old(Registrations()) && Documents() == old(Documents())
      ensures emojis == old(emojis) && modFuncs == old(modFuncs)
    {
      if |request| > 0 && request[0] == ':' {
        var code := request[1..];
        if code !in emojis {
          return None;
        }
        tempEmoji := emojis[code];
        return Some(TempEmoji);
      }
      if request !in iddef {
        return None;
      }
      return Some(Element(iddef[request]));
    }

    /** `handleModRequest`: the function registered under the key, if any. */
    function ModRequest(request: string): (r: Option<nat>)
      reads this
      ensures r.Some? <==> request in modFuncs
      ensures r.Some? ==> r.value == modFuncs[request]
    {
      if request in modFuncs then Some(modFuncs[request]) else None
    }

    /** `addModifierFunc`: registers `f` under `"&" + name` unless that key is taken. */
    method AddModifierFunc(name: string, f: nat)
      modifies this
      ensures ModRequest("&" + name) == Some(if "&" + name in old(modFuncs) then old(modFuncs)["&" + name] else f)
      ensures modFuncs.Keys == old(modFuncs.Keys) + {"&" + name}
      ensures forall k :: k in old(modFuncs) ==> modFuncs[k] == old(modFuncs)[k]
      ensures Registrations() == old(Registrations()) && Documents() == old(Documents())
      ensures emojis == old(emojis) && tempEmoji == old(tempEmoji)
    {
      var key := "&" + name;
      if key !in modFuncs {
        modFuncs := modFuncs[key := f];
      }
    }

    /** `addGeneratorFunc`: registers `f` under `"$" + name` unless that key is taken. */
    method AddGeneratorFunc(name: string, f: nat)
      modifies this
      ensures ModRequest("$" + name) == Some(if "$" + name in old(modFuncs) then old(modFuncs)["$" + name] else f)
      ensures modFuncs.Keys == old(modFuncs.Keys) + {"$" + name}
      ensures forall k :: k in old(modFuncs) ==> modFuncs[k] == old(modFuncs)[k]
      ensures Registrations() == old(Registrations()) && Documents() == old(Documents())
      ensures emojis == old(emojis) && tempEmoji == old(tempEmoji)
    {
      var key := "$" + name;
      if key !in modFuncs {
        modFuncs := modFuncs[key := f];
      }
    }

    /**
     * `addFromFile` on a file holding `input`: the document is parsed into
     * the arena with this compiler's symbols and handlers, gets
     * `_filename` as a flag, and is added after the others.
     */
    method AddDocument(input: string, filename: string, fuel: nat)
      requires Valid() && "H_default" in blockAlias && DefaultOk(Reg())
      modifies this, tree
      ensures Valid() && tree == old(tree)
      ensures Registrations() == old(Registrations()) && Lookups() == old(Lookups()) && iddef == old(iddef)
      ensures documents == old(documents) + [|old(tree.nodes)|]
      ensures Inline.Grown(old(tree.nodes), tree.nodes) && |old(tree.nodes)| < |tree.nodes|
      ensures "_filename" in tree.nodes[|old(tree.nodes)|].cmd.flags && tree.nodes[|old(tree.nodes)|].cmd.flags["_filename"] == filename
    {
      var lex := new Parser(input, symbols);
      var doc, _, _ := Blocks.ParseDocument(lex, tree, Reg(), fuel);
      var c := tree.nodes[doc].cmd;
      tree.SetCommand(doc, c.(flags := c.flags["_filename" := filename]));
      documents := documents + [doc];
    }

    /** Copies a document's `iddef` into the shared registry, its entries replacing any there. */
    method CopyDefinitions(d: nat)
      requires Valid() && d < |tree.nodes| && tree.nodes[d].kind.Document?
      modifies this
      ensures Valid() && tree == old(tree) && documents == old(documents)
      ensures iddef == old(iddef) + old(tree.nodes[d].kind.iddef)
      ensures Registrations() == old(Registrations()) && Lookups() == old(Lookups())
    {
      var defs := tree.nodes[d].kind.iddef;
      assert NodeOk(tree.nodes[d], |tree.nodes|);
      var keys := defs.Keys;
      while keys != {}
        invariant keys <= defs.Keys
        invariant iddef == old(iddef) + (map k | k in defs.Keys - keys :: defs[k])
        invariant Registrations() == old(Registrations()) && Lookups() == old(Lookups())
        invariant tree == old(tree) && documents == old(documents)
        decreases keys
      {
        var k :| k in keys;
        iddef := iddef[k := defs[k]];
        keys := keys - {k};
      }
      assert (map k | k in defs.Keys - keys :: defs[k]) == defs;
    }

    /** One document of the first three loops: the walk of `step` from `d`, then the copy of its `iddef`. */
    method Walk(step: Step, d: nat)
      requires Valid() && d < |tree.nodes| && tree.nodes[d].kind.Document?
      modifies this, tree
      ensures Valid() && tree == old(tree) && documents == old(documents)
      ensures Registrations() == old(Registrations()) && Lookups() == old(Lookups())
      ensures SameShape(old(tree.nodes), tree.nodes)
    {
      var _, _ := Process(tree, d, step, iddef, modFuncs.Keys, |tree.nodes|);
      KeepsDocuments(old(tree.nodes), tree.nodes);
      CopyDefinitions(d);
    }

    /**
     * One document of the Execute loops, the `k`-th: its walk leaves the
     * arena alone, and its calls follow those of the documents before it.
     */
    method Run(step: Step, k: nat, calls: seq<Call>) returns (calls': seq<Call>)
      requires Valid() && IsExecute(step) && k < |documents|
      requires calls == DocCalls(tree.nodes, documents[..k], modFuncs.Keys)
      modifies tree
      ensures Valid() && tree.nodes == old(tree.nodes)
      ensures calls' == DocCalls(tree.nodes, documents[..k + 1], modFuncs.Keys)
    {
      DocCallsSnoc(tree.nodes, documents, k, modFuncs.Keys);
      var _, cs := Process(tree, documents[k], step, iddef, modFuncs.Keys, |tree.nodes|);
      calls' := calls + cs;
    }

    /**
     * One of the first three loops of `prepareAST`: `step` over every
     * document in order, each document's `iddef` copied into the shared
     * registry after its walk.
     */
    method SharedPass(step: Step) returns (ghost trace: seq<(Step, nat)>)
      requires Valid() && !IsExecute(step)
      modifies this, tree
      ensures Valid() && tree == old(tree) && documents == old(documents)
      ensures Registrations() == old(Registrations()) && Lookups() == old(Lookups())
      ensures SameShape(old(tree.nodes), tree.nodes)
      ensures trace == Sweep(step, documents)
    {
      trace := [];
      var k := 0;
      while k < |documents|
        invariant 0 <= k <= |documents|
        invariant Valid() && tree == old(tree) && documents == old(documents)
        invariant Registrations() == old(Registrations()) && Lookups() == old(Lookups())
        invariant SameShape(old(tree.nodes), tree.nodes)
        invariant trace == Sweep(step, documents[..k])
      {
        var d := documents[k];
        assert documents[..k + 1][..k] == documents[..k];
        ghost var before := tree.nodes;
        Walk(step, d);
        SameShapeTrans(old(tree.nodes), before, tree.nodes);
        trace := trace + [(step, d)];
        k := k + 1;
      }
      assert documents[..k] == documents;
    }

    /**
     * One of the last three loops of `prepareAST`: an Execute step over every
     * document in order. It leaves the arena and the registry alone and
     * makes the calls of every document in turn.
     */
    method ExecutePass(step: Step) returns (calls: seq<Call>, ghost trace: seq<(Step, nat)>)
      requires Valid() && IsExecute(step)
      modifies tree
      ensures Valid() && tree.nodes == old(tree.nodes)
      ensures calls == DocCalls(tree.nodes, documents, modFuncs.Keys)
      ensures trace == Sweep(step, documents)
    {
      calls := [];
      trace := [];
      ghost var ns, docs, funcs := tree.nodes, documents, modFuncs.Keys;
      var k := 0;
      while k < |documents|
        invariant 0 <= k <= |docs| && docs == documents && funcs == modFuncs.Keys
        invariant Valid() && tree.nodes == ns
        invariant calls == DocCalls(ns, docs[..k], funcs)
        invariant trace == Sweep(step, docs[..k])
      {
        var d := documents[k];
        assert docs[..k + 1][..k] == docs[..k];
        calls := Run(step, k, calls);
        trace := trace + [(step, d)];
        k := k + 1;
      }
      assert docs[..k] == docs;
    }

    /**
     * `prepareAST`: Register, Resolve and Consume, each over all documents
     * with the shared registry updated after every document, then the three
     * Execute steps over all documents. Each Execute step sees the arena as
     * Consume left it and makes the calls of every document in order.
     */
    method PrepareAST() returns (prep: seq<Call>, main: seq<Call>, post: seq<Call>, ghost trace: seq<(Step, nat)>)
      requires Valid()
      modifies this, tree
      ensures Valid() && tree == old(tree) && documents == old(documents)
      ensures Registrations() == old(Registrations()) && Lookups() == old(Lookups())
      ensures SameShape(old(tree.nodes), tree.nodes)
      ensures trace == Schedule(Passes, documents)
      ensures prep == DocCalls(tree.nodes, documents, modFuncs.Keys) && main == prep && post == prep
    {
      ghost var ns0 := tree.nodes;
      ghost var t1 := SharedPass(ProcRegister);
      ghost var ns1 := tree.nodes;
      ghost var t2 := SharedPass(ProcResolve);
      SameShapeTrans(ns0, ns1, tree.nodes);
      ghost var ns2 := tree.nodes;
      ghost var t3 := SharedPass(ProcConsume);
      SameShapeTrans(ns0, ns2, tree.nodes);
      ghost var t4, t5, t6;
      prep, t4 := ExecutePass(ProcExecutePrep);
      main, t5 := ExecutePass(ProcExecuteMain);
      post, t6 := ExecutePass(ProcExecutePost);
      trace := t1 + t2 + t3 + t4 + t5 + t6;
      ScheduleUnfolds(documents);
    }
  }

  /** A walk that keeps the shape keeps every document a document. */
  lemma KeepsDocuments(a: seq<Node>, b: seq<Node>)
    requires SameShape(a, b)
    ensures forall i :: 0 <= i < |a| && a[i].kind.Document? ==> b[i].kind.Document?
  {
  }

  /** One more step after the others sweeps after them. */
  lemma ScheduleSnoc(steps: seq<Step>, s: Step, docs: seq<nat>)
    ensures Schedule(steps + [s], docs) == Schedule(steps, docs) + Sweep(s, docs)
  {
    assert (steps + [s])[..|steps|] == steps;
  }

  /** The schedule of `prepareAST`, sweep by sweep. */
  lemma ScheduleUnfolds(docs: seq<nat>)
    ensures Schedule(Passes, docs) == Sweep(ProcRegister, docs) + Sweep(ProcResolve, docs) + Sweep(ProcConsume, docs) +
      Sweep(ProcExecutePrep, docs) + Sweep(ProcExecuteMain, docs) + Sweep(ProcExecutePost, docs)
  {
    ScheduleSnoc([], ProcRegister, docs);
    assert [] + [ProcRegister] == [ProcRegister];
    assert [] + Sweep(ProcRegister, docs) == Sweep(ProcRegister, docs);
    ScheduleSnoc([ProcRegister], ProcResolve, docs);
    assert [ProcRegister] + [ProcResolve] == [ProcRegister, ProcResolve];
    ScheduleSnoc([ProcRegister, ProcResolve], ProcConsume, docs);
    assert [ProcRegister, ProcResolve] + [ProcConsume] == [ProcRegister, ProcResolve, ProcConsume];
    ScheduleSnoc([ProcRegister, ProcResolve, ProcConsume], ProcExecutePrep, docs);
    assert [ProcRegister, ProcResolve, ProcConsume] + [ProcExecutePrep] == [ProcRegister, ProcResolve, ProcConsume, ProcExecutePrep];
    ScheduleSnoc([ProcRegister, ProcResolve, ProcConsume, ProcExecutePrep], ProcExecuteMain, docs);
    assert [ProcRegister, ProcResolve, ProcConsume, ProcExecutePrep] + [ProcExecuteMain] == [ProcRegister, ProcResolve, ProcConsume, ProcExecutePrep, ProcExecuteMain];
    ScheduleSnoc([ProcRegister, ProcResolve, ProcConsume, ProcExecutePrep, ProcExecuteMain], ProcExecutePost, docs);
    assert [ProcRegister, ProcResolve, ProcConsume, ProcExecutePrep, ProcExecuteMain] + [ProcExecutePost] == [ProcRegister, ProcResolve, ProcConsume, ProcExecutePrep, ProcExecuteMain, ProcExecutePost];
  }
}
