/**
 * The tokenizer of `Parser` (src/lexer.cpp). The input stream is a
 * sequence of characters with a read position and an end-of-file flag;
 * `lastChar` is the look-ahead character `_lastChar`, which is read from
 * the stream while the previous token is being completed.
 *
 * Every token-level operation is a method on the class, specified by a
 * function of the old state: `GetTok` by `Next`, which in turn is
 * defined by `ScanAt`, the token that starts at one input index.
 */
module Lexer {
  import opened Util

  datatype Token = TokEOF | TokText | TokNumber | TokSpace | TokNewline | TokEscape | TokSym

  /** The value of `_lastChar`: a character, or `EOF` once the stream is exhausted. */
  datatype Ch = End | Chr(c: char)

  /** `_lastChar == 0` means "nothing loaded yet", so a NUL character counts as unloaded too. */
  const Unloaded: Ch := Chr('\0')

  /** `std::string::operator[](0)`, which yields `'\0'` on an empty string. */
  function First(s: string): char
  {
    if |s| > 0 then s[0] else '\0'
  }

  /** `peektok(chr)` on a stream that has not reached its end. */
  function Classify(symbols: set<char>, c: char): Token
  {
    if c in symbols then TokSym
    else if IsDigit(c) then TokNumber
    else if c == ' ' || c == '\t' then TokSpace
    else if c == '\n' || c == '\r' then TokNewline
    else if c == '\\' then TokEscape
    else TokText
  }

  /** `peektok(chr)`: the end-of-file flag of the stream is tested first. */
  function PeekTokOf(symbols: set<char>, eof: bool, ch: Ch): Token
  {
    if eof then TokEOF
    else match ch
      case End => TokText
      case Chr(c) => Classify(symbols, c)
  }

  /** `peektok()` in state `st`. */
  function PeekOf(symbols: set<char>, st: Snap): Token
  {
    PeekTokOf(symbols, st.eof, st.lastChar)
  }

  /** `isLast(tok, sym, amount)` in state `st`; a negative amount matches any run length. */
  predicate LastIs(st: Snap, tok: Token, sym: char, amount: int)
  {
    st.lastToken == tok && First(st.lastString) == sym && (amount > -1 ==> st.lastInt == amount)
  }

  // ---------------------------------------------------------------------
  // Scanning one token from an input index
  // ---------------------------------------------------------------------

  /** The characters from `i` on that continue a text token. */
  function TextRun(symbols: set<char>, s: seq<char>, i: nat): (r: string)
    requires i <= |s|
    ensures i + |r| <= |s| && r == s[i..i + |r|]
    ensures forall k :: 0 <= k < |r| ==> Classify(symbols, r[k]) == TokText
    ensures i + |r| < |s| ==> Classify(symbols, s[i + |r|]) != TokText
    decreases |s| - i
  {
    if i < |s| && Classify(symbols, s[i]) == TokText then [s[i]] + TextRun(symbols, s, i + 1) else []
  }

  /** The length of the run of `c` that starts at `i`. */
  function CountRun(s: seq<char>, i: nat, c: char): (n: nat)
    requires i <= |s|
    ensures i + n <= |s|
    ensures forall k :: i <= k < i + n ==> s[k] == c
    ensures i + n < |s| ==> s[i + n] != c
    decreases |s| - i
  {
    if i < |s| && s[i] == c then 1 + CountRun(s, i + 1, c) else 0
  }

  /** The length of the run of decimal digits that starts at `i`. */
  function DigitRun(s: seq<char>, i: nat): (n: nat)
    requires i <= |s|
    ensures i + n <= |s|
    ensures forall k :: i <= k < i + n ==> IsDigit(s[k])
    ensures i + n < |s| ==> !IsDigit(s[i + n])
    decreases |s| - i
  {
    if i < |s| && IsDigit(s[i]) then 1 + DigitRun(s, i + 1) else 0
  }

  /** A scanned token: its kind, `lastString`, `lastInt` and the index of the character after it. */
  datatype Lexeme = Lexeme(kind: Token, text: string, count: int, stop: nat)

  /** The character an escape yields and the index where the text goes on. */
  function EscapeHead(symbols: set<char>, s: seq<char>, i: nat): (r: (char, nat))
    requires i < |s|
    ensures i + 1 <= r.1 <= i + 2 && r.1 <= |s|
  {
    if i + 1 < |s| && s[i + 1] in symbols then (s[i + 1], i + 2)
    else if i + 1 < |s| && s[i + 1] == 'n' then ('\n', i + 2)
    else if i + 1 < |s| && (s[i + 1] == '.' || s[i + 1] == '\\') then (s[i + 1], i + 2)
    else ('\\', i + 1)
  }

  /** The token `gettok` reads when its first character is `s[i]`. */
  function ScanAt(symbols: set<char>, s: seq<char>, i: nat): (l: Lexeme)
    requires i < |s|
    ensures i < l.stop <= |s|
    ensures l.kind in {TokText, TokNumber, TokSpace, TokSym, TokNewline}
    ensures l.kind in {TokSpace, TokSym} ==> l.count >= 1 && |l.text| == 1
    ensures l.kind == TokNumber ==> l.count >= 0
  {
    var c := s[i];
    match Classify(symbols, c)
    case TokEscape =>
      var (h, from) := EscapeHead(symbols, s, i);
      var run := TextRun(symbols, s, from);
      Lexeme(TokText, [h] + run, 0, from + |run|)
    case TokText =>
      var run := TextRun(symbols, s, i + 1);
      Lexeme(TokText, [c] + run, 0, i + 1 + |run|)
    case TokNumber =>
      var d := DigitRun(s, i);
      var dot := i + d < |s| && s[i + d] == '.';
      Lexeme(TokNumber, s[i..i + d] + (if dot then "." else ""), DecimalValue(s[i..i + d]), i + d + (if dot then 1 else 0))
    case TokNewline =>
      Lexeme(TokNewline, "", 0, if c == '\r' && i + 1 < |s| && s[i + 1] == '\n' then i + 2 else i + 1)
    case _ =>
      Lexeme(Classify(symbols, c), [c], CountRun(s, i, c), i + CountRun(s, i, c))
  }

  // ---------------------------------------------------------------------
  // Parser states
  // ---------------------------------------------------------------------

  /**
   * The observable state of a parser: a `TimeSnap` (stream position,
   * `_lastChar`, `lastString`, `lastInt`, `lastToken`) together with the
   * stream's end-of-file flag.
   */
  datatype Snap = Snap(pos: nat, eof: bool, lastChar: Ch, lastString: string, lastInt: int, lastToken: Token)

  /** The states a parser over `s` can be in between two operations. */
  predicate SnapOk(s: seq<char>, st: Snap)
  {
    st.pos <= |s| &&
    (st.eof <==> st.lastChar.End?) &&
    (st.lastChar.End? ==> st.pos == |s|) &&
    (st.lastChar.Chr? && st.pos > 0 ==> s[st.pos - 1] == st.lastChar.c) &&
    (st.pos == 0 && st.lastChar.Chr? ==> st.lastChar == Unloaded) &&
    st.lastToken != TokEscape &&
    (st.lastToken in {TokSym, TokSpace} ==> st.lastInt >= 1 && |st.lastString| == 1) &&
    (st.lastToken == TokNumber ==> st.lastInt >= 0) &&
    (st.lastToken == TokEOF ==> st.lastChar.End?)
  }

  /** Index of the first character the next `gettok` reads. */
  function Start(s: seq<char>, st: Snap): nat
    requires SnapOk(s, st)
  {
    if st.lastChar.End? || st.lastChar == Unloaded then st.pos else st.pos - 1
  }

  /** The state of a stream whose look-ahead character is `s[j]` (or the end). */
  function PosAt(s: seq<char>, j: nat): nat
  {
    if j < |s| then j + 1 else |s|
  }

  function CharAt(s: seq<char>, j: nat): Ch
  {
    if j < |s| then Chr(s[j]) else End
  }

  /** The state after the lexeme `l` has been read over an older `lastString` and `lastInt`. */
  function After(s: seq<char>, l: Lexeme, oldString: string, oldInt: int): Snap
  {
    Snap(PosAt(s, l.stop), l.stop >= |s|, CharAt(s, l.stop),
         if l.kind == TokNewline then oldString else l.text,
         if l.kind == TokText || l.kind == TokNewline then oldInt else l.count,
         l.kind)
  }

  /** The parser state after one `gettok()`. */
  function Next(symbols: set<char>, s: seq<char>, st: Snap): (r: Snap)
    requires SnapOk(s, st)
    ensures SnapOk(s, r)
    ensures Start(s, st) < |s| ==> Start(s, r) > Start(s, st)
    ensures Start(s, st) >= |s| ==> r.lastToken == TokEOF && Start(s, r) == |s|
  {
    var i := Start(s, st);
    if i >= |s| then Snap(|s|, true, End, st.lastString, st.lastInt, TokEOF)
    else
      var l := ScanAt(symbols, s, i);
      AfterOk(s, l, st.lastString, st.lastInt);
      After(s, l, st.lastString, st.lastInt)
  }

  lemma AfterOk(s: seq<char>, l: Lexeme, oldString: string, oldInt: int)
    requires 0 < l.stop <= |s| && l.kind in {TokText, TokNumber, TokSpace, TokSym, TokNewline}
    requires l.kind in {TokSpace, TokSym} ==> l.count >= 1 && |l.text| == 1
    requires l.kind == TokNumber ==> l.count >= 0
    ensures SnapOk(s, After(s, l, oldString, oldInt)) && Start(s, After(s, l, oldString, oldInt)) >= l.stop
  {
    if l.stop < |s| {
      assert PosAt(s, l.stop) - 1 == l.stop;
    }
  }


  /** `gettok(amount)`: a symbol or space run longer than `amount` only shrinks. */
  function Consume(symbols: set<char>, s: seq<char>, st: Snap, amount: int): (r: Snap)
    requires SnapOk(s, st)
    ensures SnapOk(s, r) && Start(s, r) >= Start(s, st)
  {
    if (st.lastToken == TokSym || st.lastToken == TokSpace) && st.lastInt > amount
    then st.(lastInt := st.lastInt - amount)
    else Next(symbols, s, st)
  }

  // ---------------------------------------------------------------------
  // Token properties
  // ---------------------------------------------------------------------

  /**
   * A symbol or space token is the maximal run of one character: `lastInt`
   * copies of `lastString[0]` starting where the token starts, and the
   * character after the run (if any) is a different one.
   */
  lemma RunIsMaximal(symbols: set<char>, s: seq<char>, i: nat)
    requires i < |s| && ScanAt(symbols, s, i).kind in {TokSym, TokSpace}
    ensures var l := ScanAt(symbols, s, i);
      |l.text| == 1 && l.text[0] == s[i] && l.count >= 1 && l.stop == i + l.count &&
      (forall k :: i <= k < l.stop ==> s[k] == s[i]) &&
      (l.stop < |s| ==> s[l.stop] != s[i])
  {
  }

  /**
   * Away from escapes, a text, number, symbol or space token spells out
   * exactly the input it covers (runs re-expanded to `lastInt` copies).
   */
  lemma ScanIsLiteral(symbols: set<char>, s: seq<char>, i: nat)
    requires i < |s| && Classify(symbols, s[i]) !in {TokEscape, TokNewline}
    ensures var l := ScanAt(symbols, s, i);
      (if l.kind in {TokSym, TokSpace} then Repeat(l.text[0], l.count) else l.text) == s[i..l.stop]
  {
    var l := ScanAt(symbols, s, i);
    if l.kind in {TokSym, TokSpace} {
      assert Repeat(l.text[0], l.count) == s[i..l.stop];
    } else if l.kind == TokText {
      var run := TextRun(symbols, s, i + 1);
      assert l.text == [s[i]] + s[i + 1..i + 1 + |run|];
      assert l.text == s[i..l.stop];
    } else {
      assert l.kind == TokNumber;
    }
  }

  /** A text token never holds a symbol, a digit, a blank, a line break or a backslash after its first character. */
  lemma TextTokenIsPlain(symbols: set<char>, s: seq<char>, i: nat, k: nat)
    requires i < |s| && ScanAt(symbols, s, i).kind == TokText
    requires 1 <= k < |ScanAt(symbols, s, i).text|
    ensures var c := ScanAt(symbols, s, i).text[k];
      c !in symbols && !IsDigit(c) && c != ' ' && c != '\t' && c != '\n' && c != '\r' && c != '\\'
  {
    var l := ScanAt(symbols, s, i);
    var from := if Classify(symbols, s[i]) == TokEscape then EscapeHead(symbols, s, i).1 else i + 1;
    var run := TextRun(symbols, s, from);
    assert l.text[k] == run[k - 1];
  }

  /**
   * Escapes: a backslash before a symbol yields that symbol as text, `\n`
   * yields a line break, `\.` and `\\` yield the second character, and any
   * other backslash is kept as text.
   */
  lemma EscapeMeaning(symbols: set<char>, s: seq<char>, i: nat)
    requires i < |s| && s[i] == '\\' && '\\' !in symbols
    ensures var l := ScanAt(symbols, s, i);
      l.kind == TokText &&
      (i + 1 < |s| && s[i + 1] in symbols ==> l.text[0] == s[i + 1] && l.stop >= i + 2) &&
      (i + 1 < |s| && s[i + 1] !in symbols && s[i + 1] == 'n' ==> l.text[0] == '\n' && l.stop >= i + 2) &&
      (i + 1 < |s| && s[i + 1] !in symbols && s[i + 1] in {'.', '\\'} ==> l.text[0] == s[i + 1] && l.stop >= i + 2) &&
      (i + 1 < |s| && s[i + 1] !in symbols && s[i + 1] !in {'n', '.', '\\'} ==> l.text[0] == '\\' && l.stop >= i + 1) &&
      (i + 1 == |s| ==> l.text == "\\" && l.stop == |s|)
  {
  }

  // ---------------------------------------------------------------------
  // readUntil and parseLink
  // ---------------------------------------------------------------------

  /** The stop conditions the handlers pass to `readUntil`. */
  datatype Stop =
    | SpaceOrSym                 // info block type: a blank or any symbol
    | DefinitionEnd(close: char) // id definition: a lone closing bracket followed by ':'
    | FootnoteEnd                // footnote: a lone ':' followed by a blank
    | SpaceOrDelim(delim: char)  // link target: a blank or the delimiter
    | Unquoted(delim: char)      // a delimiter outside double quotes; each '"' run toggles quoting
    | Never                      // the rest of the line
    | OnSpace                    // code block language: a blank
    | Fence(count: int)          // code block end: exactly `count` backticks before a line end

  /** Evaluates the condition once: whether to stop, and the new quoting state. */
  function Check(symbols: set<char>, stop: Stop, inQuote: bool, st: Snap): (bool, bool)
  {
    var sym := st.lastToken == TokSym;
    var first := First(st.lastString);
    var peek := PeekTokOf(symbols, st.eof, st.lastChar);
    match stop
    case SpaceOrSym => (st.lastToken == TokSpace || sym, inQuote)
    case DefinitionEnd(close) => (sym && first == close && st.lastInt == 1 && peek == TokSym && st.lastChar == Chr(':'), inQuote)
    case FootnoteEnd => (sym && st.lastInt == 1 && first == ':' && peek == TokSpace, inQuote)
    case SpaceOrDelim(d) => (st.lastToken == TokSpace || (sym && first == d), inQuote)
    case Unquoted(d) =>
      var q := if sym && first == '"' then !inQuote else inQuote;
      (!q && sym && first == d, q)
    case Never => (false, inQuote)
    case OnSpace => (st.lastToken == TokSpace, inQuote)
    case Fence(n) => (sym && first == '`' && st.lastInt == n && (peek == TokNewline || peek == TokEOF), inQuote)
  }

  /** The literal text of the current token: runs re-expanded to `lastInt` copies. */
  function Piece(st: Snap): string
    requires st.lastToken in {TokText, TokNumber, TokSym, TokSpace}
    requires st.lastToken in {TokSym, TokSpace} ==> st.lastInt >= 0
  {
    if st.lastToken == TokText || st.lastToken == TokNumber then st.lastString
    else Repeat(First(st.lastString), st.lastInt as nat)
  }

  /** The outcome of `readUntil`: the text read, whether the condition ended it, the state after, the quoting state. */
  datatype Read = Read(text: string, ok: bool, rest: Snap, quote: bool)

  /**
   * `readUntil` from state `st`: reads tokens literally until the condition
   * holds (that token stays current) or the line ends (a newline is
   * consumed). Unless `escape` is set, a backslash that the tokenizer
   * swallowed in front of the next token is put back into the text.
   */
  function ReadFrom(symbols: set<char>, s: seq<char>, st: Snap, stop: Stop, inQuote: bool, escape: bool, peek: string): (r: Read)
    requires SnapOk(s, st)
    ensures SnapOk(s, r.rest)
    decreases |s| - Start(s, st), if st.lastToken == TokEOF then 0 else 1
  {
    if st.lastToken == TokNewline then Read("", false, Next(symbols, s, st), inQuote)
    else if st.lastToken == TokEOF then Read("", false, st, inQuote)
    else
      var c := Check(symbols, stop, inQuote, st);
      if c.0 then Read("", true, st, c.1)
      else
        var peek' := if !escape && PeekTokOf(symbols, st.eof, st.lastChar) == TokEscape then "\\" else "";
        var r := ReadFrom(symbols, s, Next(symbols, s, st), stop, c.1, escape, peek');
        Read(peek + Piece(st) + r.text, r.ok, r.rest, r.quote)
  }

  /** `readUntil` reports success exactly when it stopped on the condition, and the stopping token is still current. */
  lemma {:induction false} ReadStopsOnCondition(symbols: set<char>, s: seq<char>, st: Snap, stop: Stop, inQuote: bool, escape: bool, peek: string)
    requires SnapOk(s, st)
    ensures var r := ReadFrom(symbols, s, st, stop, inQuote, escape, peek);
      r.ok ==> r.rest.lastToken !in {TokNewline, TokEOF} &&
               Check(symbols, stop, Requoted(stop, r.quote, r.rest), r.rest) == (true, r.quote)
    decreases |s| - Start(s, st), if st.lastToken == TokEOF then 0 else 1
  {
    if st.lastToken in {TokNewline, TokEOF} || Check(symbols, stop, inQuote, st).0 {
      ReadHalts(symbols, s, st, stop, inQuote, escape, peek);
    } else {
      ReadGoesOn(symbols, s, st, stop, inQuote, escape, peek);
      var peek' := if !escape && PeekTokOf(symbols, st.eof, st.lastChar) == TokEscape then "\\" else "";
      ReadStopsOnCondition(symbols, s, Next(symbols, s, st), stop, Check(symbols, stop, inQuote, st).1, escape, peek');
    }
  }


  /** The quoting state before the last check, recovered from the state after it. */
  function Requoted(stop: Stop, q: bool, st: Snap): bool
  {
    if stop.Unquoted? && st.lastToken == TokSym && First(st.lastString) == '"' then !q else q
  }

  /** With no condition to meet, `readUntil` always runs to the end of the line and reports failure. */
  lemma {:induction false} ReadNeverSucceeds(symbols: set<char>, s: seq<char>, st: Snap, inQuote: bool, escape: bool, peek: string)
    requires SnapOk(s, st)
    ensures !ReadFrom(symbols, s, st, Never, inQuote, escape, peek).ok
    decreases |s| - Start(s, st), if st.lastToken == TokEOF then 0 else 1
  {
    if st.lastToken in {TokNewline, TokEOF} {
      ReadHalts(symbols, s, st, Never, inQuote, escape, peek);
    } else {
      ReadGoesOn(symbols, s, st, Never, inQuote, escape, peek);
      var peek' := if !escape && PeekTokOf(symbols, st.eof, st.lastChar) == TokEscape then "\\" else "";
      ReadNeverSucceeds(symbols, s, Next(symbols, s, st), inQuote, escape, peek');
    }
  }


  /** The outcome of `parseLink`: the target, the command text, success, and the state after. */
  datatype LinkRead = LinkRead(keyword: string, command: string, ok: bool, rest: Snap)

  /**
   * `parseLink(delim)`: a target up to a blank or the delimiter, then,
   * after one blank run, a command up to an unquoted delimiter, which is
   * consumed on success.
   */
  function LinkFrom(symbols: set<char>, s: seq<char>, st: Snap, delim: char): (r: LinkRead)
    requires SnapOk(s, st)
    ensures SnapOk(s, r.rest)
  {
    var r1 := ReadFrom(symbols, s, st, SpaceOrDelim(delim), false, false, "");
    if !r1.ok then LinkRead(r1.text, "", false, r1.rest)
    else
      var st2 := if r1.rest.lastToken == TokSpace then Next(symbols, s, r1.rest) else r1.rest;
      var r2 := ReadFrom(symbols, s, st2, Unquoted(delim), false, false, "");
      if !r2.ok then LinkRead(r1.text, r2.text, false, r2.rest)
      else
        LinkRead(r1.text, r2.text, true, Consume(symbols, s, r2.rest, 1))
  }

  /**
   * No blank can be part of a link target: the target's text is made of
   * text, number and symbol pieces only, and a blank is never a symbol.
   */
  lemma {:induction false} TargetHasNoBlank(symbols: set<char>, s: seq<char>, st: Snap, delim: char, peek: string)
    requires SnapOk(s, st) && ' ' !in symbols && '\t' !in symbols
    requires ' ' !in peek && '\t' !in peek
    requires st.lastToken in {TokText, TokNumber} ==> ' ' !in st.lastString && '\t' !in st.lastString
    requires st.lastToken == TokSym ==> st.lastString[0] in symbols
    ensures var r := ReadFrom(symbols, s, st, SpaceOrDelim(delim), false, false, peek);
      ' ' !in r.text && '\t' !in r.text
    decreases |s| - Start(s, st), if st.lastToken == TokEOF then 0 else 1
  {
    SpaceEndsLink(symbols, delim, st);
    if st.lastToken in {TokNewline, TokEOF} || Check(symbols, SpaceOrDelim(delim), false, st).0 {
      ReadHalts(symbols, s, st, SpaceOrDelim(delim), false, false, peek);
    } else {
      ReadGoesOn(symbols, s, st, SpaceOrDelim(delim), false, false, peek);
      var peek' := if PeekTokOf(symbols, st.eof, st.lastChar) == TokEscape then "\\" else "";
      var nx := Next(symbols, s, st);
      NextTokenShape(symbols, s, st);
      TargetHasNoBlank(symbols, s, nx, delim, peek');
      var r' := ReadFrom(symbols, s, nx, SpaceOrDelim(delim), false, false, peek');
      var p := Piece(st);
      assert ' ' !in p && '\t' !in p by {
        if st.lastToken == TokSym {
          assert forall k :: 0 <= k < |p| ==> p[k] == st.lastString[0];
        }
      }
      assert ReadFrom(symbols, s, st, SpaceOrDelim(delim), false, false, peek).text == peek + p + r'.text;
      assert ' ' !in peek + p && '\t' !in peek + p;
    }
  }

  lemma SpaceEndsLink(symbols: set<char>, delim: char, st: Snap)
    ensures Check(symbols, SpaceOrDelim(delim), false, st) ==
      (st.lastToken == TokSpace || (st.lastToken == TokSym && First(st.lastString) == delim), false)
  {
  }

  lemma EscapeScan(symbols: set<char>, s: seq<char>, i: nat)
    requires i < |s| && s[i] !in symbols && s[i] == '\\'
    ensures var h := EscapeHead(symbols, s, i);
      var run := TextRun(symbols, s, h.1);
      ScanAt(symbols, s, i) == Lexeme(TokText, [h.0] + run, 0, h.1 + |run|)
  {
    assert Classify(symbols, s[i]) == TokEscape;
  }

  lemma TextScan(symbols: set<char>, s: seq<char>, i: nat)
    requires i < |s| && Classify(symbols, s[i]) == TokText
    ensures var run := TextRun(symbols, s, i + 1);
      ScanAt(symbols, s, i) == Lexeme(TokText, [s[i]] + run, 0, i + 1 + |run|)
  {
  }

  lemma NumberScan(symbols: set<char>, s: seq<char>, i: nat)
    requires i < |s| && Classify(symbols, s[i]) == TokNumber
    ensures var d := DigitRun(s, i);
      var dot := i + d < |s| && s[i + d] == '.';
      ScanAt(symbols, s, i) == Lexeme(TokNumber, s[i..i + d] + (if dot then "." else ""), DecimalValue(s[i..i + d]), i + d + (if dot then 1 else 0))
  {
  }

  lemma RunScan(symbols: set<char>, s: seq<char>, i: nat)
    requires i < |s| && Classify(symbols, s[i]) in {TokSpace, TokSym}
    ensures var n := CountRun(s, i, s[i]);
      ScanAt(symbols, s, i) == Lexeme(Classify(symbols, s[i]), [s[i]], n, i + n)
  {
  }

  lemma NewlineScan(symbols: set<char>, s: seq<char>, i: nat)
    requires i < |s| && Classify(symbols, s[i]) == TokNewline
    ensures ScanAt(symbols, s, i) == Lexeme(TokNewline, "", 0, if s[i] == '\r' && i + 1 < |s| && s[i + 1] == '\n' then i + 2 else i + 1)
  {
  }

  /** What a scanned token holds, as far as blanks are concerned. */
  lemma ScanShape(symbols: set<char>, s: seq<char>, i: nat)
    requires i < |s| && ' ' !in symbols && '\t' !in symbols
    ensures var l := ScanAt(symbols, s, i);
      (l.kind in {TokText, TokNumber} ==> ' ' !in l.text && '\t' !in l.text) &&
      (l.kind == TokSym ==> l.text[0] in symbols)
  {
    var l := ScanAt(symbols, s, i);
    match Classify(symbols, s[i])
    case TokEscape =>
      var (h, from) := EscapeHead(symbols, s, i);
      var run := TextRun(symbols, s, from);
      assert l.text == [h] + run;
      assert forall k :: 0 <= k < |run| ==> Classify(symbols, run[k]) == TokText;
    case TokText =>
      var run := TextRun(symbols, s, i + 1);
      assert l.text == [s[i]] + run;
      assert forall k :: 0 <= k < |run| ==> Classify(symbols, run[k]) == TokText;
    case TokNumber =>
      var d := DigitRun(s, i);
      assert forall k :: 0 <= k < |l.text| ==> k < d || l.text[k] == '.';
      assert forall k :: 0 <= k < d ==> IsDigit(l.text[k]);
    case _ =>
  }

  /** What the next token holds, as far as blanks are concerned. */
  lemma NextTokenShape(symbols: set<char>, s: seq<char>, st: Snap)
    requires SnapOk(s, st) && ' ' !in symbols && '\t' !in symbols
    ensures var nx := Next(symbols, s, st);
      (nx.lastToken in {TokText, TokNumber} ==> ' ' !in nx.lastString && '\t' !in nx.lastString) &&
      (nx.lastToken == TokSym ==> nx.lastString[0] in symbols)
  {
    var i := Start(s, st);
    if i < |s| {
      ScanShape(symbols, s, i);
    }
  }

  /**
   * Once a character has been loaded, `peektok()` names the kind of the
   * token the next `gettok()` reads (an escape starts a text token).
   */
  lemma PeekPredicts(symbols: set<char>, s: seq<char>, st: Snap)
    requires SnapOk(s, st) && st.lastChar != Unloaded
    ensures var p := PeekOf(symbols, st);
      Next(symbols, s, st).lastToken == (if p == TokEscape then TokText else p)
  {
    if !st.eof {
      var i := Start(s, st);
      assert i < |s| && s[i] == st.lastChar.c;
    }
  }

  /** `ReadFrom` at a line end, at the end of input, or where the condition holds. */
  lemma ReadHalts(symbols: set<char>, s: seq<char>, st: Snap, stop: Stop, inQuote: bool, escape: bool, peek: string)
    requires SnapOk(s, st)
    requires st.lastToken in {TokNewline, TokEOF} || Check(symbols, stop, inQuote, st).0
    ensures ReadFrom(symbols, s, st, stop, inQuote, escape, peek) ==
      if st.lastToken == TokNewline then Read("", false, Next(symbols, s, st), inQuote)
      else if st.lastToken == TokEOF then Read("", false, st, inQuote)
      else Read("", true, st, Check(symbols, stop, inQuote, st).1)
  {
  }

  /** One step of `ReadFrom` past a token that does not end the read. */
  lemma ReadGoesOn(symbols: set<char>, s: seq<char>, st: Snap, stop: Stop, inQuote: bool, escape: bool, peek: string)
    requires SnapOk(s, st)
    requires st.lastToken !in {TokNewline, TokEOF} && !Check(symbols, stop, inQuote, st).0
    ensures var peek' := if !escape && PeekTokOf(symbols, st.eof, st.lastChar) == TokEscape then "\\" else "";
      var r' := ReadFrom(symbols, s, Next(symbols, s, st), stop, Check(symbols, stop, inQuote, st).1, escape, peek');
      ReadFrom(symbols, s, st, stop, inQuote, escape, peek) == Read(peek + Piece(st) + r'.text, r'.ok, r'.rest, r'.quote)
  {
  }

  lemma Reassociate(a: string, b: string, c: string)
    ensures a + (b + c) == (a + b) + c
  {
  }

  // ---------------------------------------------------------------------
  // The parser
  // ---------------------------------------------------------------------

  class Parser {
    var input: seq<char>
    var pos: nat
    var eof: bool
    var lastChar: Ch
    var lastString: string
    var lastInt: int
    var lastToken: Token
    /** The compiler's symbol set, fixed while a document is parsed. */
    var symbols: set<char>

    function State(): Snap
      reads this
    {
      Snap(pos, eof, lastChar, lastString, lastInt, lastToken)
    }

    ghost predicate Valid()
      reads this
    {
      SnapOk(input, State())
    }

    /** An unread stream over `input`. The source leaves `lastToken` and `lastInt` uninitialised; here they start as text and 0. */
    constructor (input: seq<char>, symbols: set<char>)
      ensures Valid() && this.input == input && this.symbols == symbols
      ensures State() == Snap(0, false, Unloaded, "", 0, TokText)
    {
      this.input := input;
      this.symbols := symbols;
      pos := 0;
      eof := false;
      lastChar := Unloaded;
      lastString := "";
      lastInt := 0;
      lastToken := TokText;
    }

    /** `peektok()`: the kind of the look-ahead character. */
    function PeekTok(): Token
      reads this
    {
      PeekOf(symbols, State())
    }

    /** `peekchar()`. */
    function PeekChar(): Ch
      reads this
    {
      lastChar
    }

    /** `isLast(tok, sym, amount)`; a negative amount matches any run length. */
    function IsLast(tok: Token, sym: char, amount: int): bool
      reads this
    {
      LastIs(State(), tok, sym, amount)
    }

    /** `input->get()`. */
    method Get() returns (ch: Ch)
      requires pos <= |input|
      modifies this
      ensures ch == CharAt(input, old(pos)) && pos == PosAt(input, old(pos)) && (eof <==> old(eof) || old(pos) >= |input|)
      ensures input == old(input) && symbols == old(symbols) && lastChar == old(lastChar)
      ensures lastString == old(lastString) && lastInt == old(lastInt) && lastToken == old(lastToken)
    {
      if pos < |input| {
        ch := Chr(input[pos]);
        pos := pos + 1;
      } else {
        ch := End;
        eof := true;
      }
    }

    /** `input->peek()`: reading at the end sets the end-of-file flag. */
    method Peek() returns (ch: Ch)
      requires pos <= |input|
      modifies this
      ensures ch == CharAt(input, pos) && (eof <==> old(eof) || pos >= |input|)
      ensures pos == old(pos) && input == old(input) && symbols == old(symbols) && lastChar == old(lastChar)
      ensures lastString == old(lastString) && lastInt == old(lastInt) && lastToken == old(lastToken)
    {
      if pos < |input| {
        ch := Chr(input[pos]);
      } else {
        ch := End;
        eof := true;
      }
    }

    /** The text loop of `gettok`: `head` is the first character and the stream stands at `from`. */
    method ReadText(ghost from: nat, head: char)
      requires from <= |input| && pos == from && (eof ==> from == |input|)
      modifies this
      ensures input == old(input) && symbols == old(symbols) && lastInt == old(lastInt) && lastToken == old(lastToken)
      ensures var run := TextRun(symbols, input, from);
        lastString == [head] + run && pos == PosAt(input, from + |run|) &&
        lastChar == CharAt(input, from + |run|) && eof == (from + |run| >= |input|)
    {
      ghost var run := TextRun(symbols, input, from);
      lastString := [head];
      ghost var k := from;
      lastChar := Get();
      while PeekTok() == TokText
        invariant from <= k <= from + |run| <= |input|
        invariant lastChar == CharAt(input, k) && pos == PosAt(input, k) && eof == (k >= |input|)
        invariant lastString == [head] + run[..k - from]
        invariant input == old(input) && symbols == old(symbols) && lastInt == old(lastInt) && lastToken == old(lastToken)
        decreases |input| - k
      {
        assert k < from + |run|;
        assert run[..k + 1 - from] == run[..k - from] + [input[k]];
        lastString := lastString + [lastChar.c];
        lastChar := Get();
        k := k + 1;
      }
      assert k == from + |run|;
      assert run[..k - from] == run;
    }

    /** The number loop of `gettok`: digits, then one optional '.'; `stoi` gives the value. */
    method ReadNumber(ghost i: nat)
      requires i < |input| && IsDigit(input[i]) && pos == i + 1 && lastChar == Chr(input[i]) && !eof
      modifies this
      ensures input == old(input) && symbols == old(symbols) && lastToken == old(lastToken)
      ensures var d := DigitRun(input, i);
        var dot := i + d < |input| && input[i + d] == '.';
        var stop := i + d + (if dot then 1 else 0);
        lastString == input[i..i + d] + (if dot then "." else "") && lastInt == DecimalValue(input[i..i + d]) &&
        pos == PosAt(input, stop) && lastChar == CharAt(input, stop) && eof == (stop >= |input|)
    {
      ReadDigits(i);
      var digits := lastString;
      if lastChar == Chr('.') {
        lastString := lastString + ".";
        lastChar := Get();
      }
      lastInt := DecimalValue(digits);
    }

    /** The digit loop of `gettok`. */
    method ReadDigits(ghost i: nat)
      requires i < |input| && IsDigit(input[i]) && pos == i + 1 && lastChar == Chr(input[i]) && !eof
      modifies this
      ensures input == old(input) && symbols == old(symbols) && lastToken == old(lastToken) && lastInt == old(lastInt)
      ensures var d := DigitRun(input, i);
        lastString == input[i..i + d] && pos == PosAt(input, i + d) && lastChar == CharAt(input, i + d) && eof == (i + d >= |input|)
    {
      ghost var n := DigitRun(input, i);
      lastString := [lastChar.c];
      ghost var k := i + 1;
      lastChar := Get();
      while lastChar.Chr? && IsDigit(lastChar.c)
        invariant i < k <= i + n <= |input|
        invariant lastChar == CharAt(input, k) && pos == PosAt(input, k) && eof == (k >= |input|)
        invariant lastString == input[i..k]
        invariant input == old(input) && symbols == old(symbols) && lastToken == old(lastToken) && lastInt == old(lastInt)
        decreases |input| - k
      {
        assert k < i + n;
        assert input[i..k + 1] == input[i..k] + [input[k]];
        lastString := lastString + [lastChar.c];
        lastChar := Get();
        k := k + 1;
      }
      assert k == i + n;
    }

    /** The run loop of `gettok`: counts the copies of the current character. */
    method ReadRun(ghost i: nat)
      requires i < |input| && pos == i + 1 && lastChar == Chr(input[i]) && !eof
      modifies this
      ensures input == old(input) && symbols == old(symbols) && lastToken == old(lastToken)
      ensures var n := CountRun(input, i, input[i]);
        lastString == [input[i]] && lastInt == n &&
        pos == PosAt(input, i + n) && lastChar == CharAt(input, i + n) && eof == (i + n >= |input|)
    {
      var c := lastChar.c;
      ghost var n := CountRun(input, i, c);
      lastInt := 1;
      lastString := [c];
      ghost var k := i + 1;
      lastChar := Get();
      while lastChar == Chr(c)
        invariant i < k <= i + n <= |input|
        invariant lastChar == CharAt(input, k) && pos == PosAt(input, k) && eof == (k >= |input|)
        invariant lastInt == k - i
        invariant input == old(input) && symbols == old(symbols) && lastToken == old(lastToken) && lastString == [c]
        decreases |input| - k
      {
        assert k < i + n;
        lastInt := lastInt + 1;
        lastChar := Get();
        k := k + 1;
      }
      assert k == i + n;
    }

    /** The effect of scanning `ScanAt(symbols, input, i)` from a loaded `lastChar`. */
    ghost predicate Scanned(i: nat, oldString: string, oldInt: int)
      requires i < |input|
      reads this
    {
      var l := ScanAt(symbols, input, i);
      lastToken == l.kind && pos == PosAt(input, l.stop) && lastChar == CharAt(input, l.stop) && eof == (l.stop >= |input|) &&
      lastString == (if l.kind == TokNewline then oldString else l.text) &&
      lastInt == (if l.kind == TokText || l.kind == TokNewline then oldInt else l.count)
    }

    /** The escape branch of `gettok`, up to the character the escape yields. */
    method LoadEscape(ghost i: nat)
      requires i < |input| && input[i] == '\\' && pos == i + 1 && lastChar == Chr(input[i]) && !eof
      modifies this
      ensures input == old(input) && symbols == old(symbols)
      ensures lastString == old(lastString) && lastInt == old(lastInt) && lastToken == old(lastToken)
      ensures var h := EscapeHead(symbols, input, i);
        lastChar == Chr(h.0) && pos == h.1 && (eof ==> h.1 == |input|)
    {
      var p := Peek();
      if p.Chr? && p.c in symbols {
        lastChar := Get();
      } else if p == Chr('n') {
        lastChar := Get();
        lastChar := Chr('\n');
      } else if p == Chr('.') || p == Chr('\\') {
        lastChar := Get();
      }
    }

    /** The escape branch of `gettok`. */
    method ScanEscape(ghost i: nat)
      requires i < |input| && input[i] !in symbols && input[i] == '\\'
      requires pos == i + 1 && lastChar == Chr(input[i]) && !eof
      modifies this
      ensures input == old(input) && symbols == old(symbols)
      ensures Scanned(i, old(lastString), old(lastInt))
    {
      LoadEscape(i);
      lastToken := TokText;
      ghost var h := EscapeHead(symbols, input, i);
      EscapeScan(symbols, input, i);
      ReadText(h.1, lastChar.c);
    }

    /** One token of `gettok`, starting from the loaded character `input[i]`. */
    method Scan(ghost i: nat)
      requires i < |input| && pos == i + 1 && lastChar == Chr(input[i]) && !eof
      modifies this
      ensures input == old(input) && symbols == old(symbols)
      ensures Scanned(i, old(lastString), old(lastInt))
    {
      lastToken := PeekTok();
      match lastToken {
        case TokEscape =>
          ScanEscape(i);
        case TokText =>
          ScanText(i);
        case TokNumber =>
          ScanNumber(i);
        case TokSpace =>
          ScanRun(i);
        case TokSym =>
          ScanRun(i);
        case TokNewline =>
          ScanNewline(i);
        case TokEOF =>
      }
    }

    /** The text branch of `gettok`. */
    method ScanText(ghost i: nat)
      requires i < |input| && pos == i + 1 && lastChar == Chr(input[i]) && !eof
      requires Classify(symbols, input[i]) == TokText && lastToken == TokText
      modifies this
      ensures input == old(input) && symbols == old(symbols)
      ensures Scanned(i, old(lastString), old(lastInt))
    {
      TextScan(symbols, input, i);
      ReadText(i + 1, lastChar.c);
    }

    /** The number branch of `gettok`. */
    method ScanNumber(ghost i: nat)
      requires i < |input| && pos == i + 1 && lastChar == Chr(input[i]) && !eof
      requires Classify(symbols, input[i]) == TokNumber && lastToken == TokNumber
      modifies this
      ensures input == old(input) && symbols == old(symbols)
      ensures Scanned(i, old(lastString), old(lastInt))
    {
      NumberScan(symbols, input, i);
      ReadNumber(i);
    }

    /** The blank and symbol branch of `gettok`. */
    method ScanRun(ghost i: nat)
      requires i < |input| && pos == i + 1 && lastChar == Chr(input[i]) && !eof
      requires Classify(symbols, input[i]) in {TokSpace, TokSym} && lastToken == Classify(symbols, input[i])
      modifies this
      ensures input == old(input) && symbols == old(symbols)
      ensures Scanned(i, old(lastString), old(lastInt))
    {
      RunScan(symbols, input, i);
      ReadRun(i);
    }

    /** The line-end branch of `gettok`: `\r\n` counts as one line end. */
    method ScanNewline(ghost i: nat)
      requires i < |input| && pos == i + 1 && lastChar == Chr(input[i]) && !eof
      requires Classify(symbols, input[i]) == TokNewline && lastToken == TokNewline
      modifies this
      ensures input == old(input) && symbols == old(symbols)
      ensures Scanned(i, old(lastString), old(lastInt))
    {
      NewlineScan(symbols, input, i);
      if lastChar == Chr('\r') {
        lastChar := Get();
      }
      if lastChar == Chr('\n') {
        lastChar := Get();
      }
    }

    /** `gettok()`: consumes the current token and loads the next one. */
    method GetTok()
      requires Valid()
      modifies this
      ensures Valid() && input == old(input) && symbols == old(symbols)
      ensures State() == Next(symbols, input, old(State()))
    {
      ghost var st := State();
      if lastChar == Unloaded {
        lastChar := Get();
      }
      if eof {
        lastToken := TokEOF;
        lastChar := Get();
      } else {
        ScanFrom(st);
      }
    }

    /** `gettok()` once the first character of the token is loaded. */
    method ScanFrom(ghost st: Snap)
      requires SnapOk(input, st) && Start(input, st) < |input|
      requires pos == Start(input, st) + 1 && lastChar == Chr(input[Start(input, st)]) && !eof
      requires lastString == st.lastString && lastInt == st.lastInt
      modifies this
      ensures input == old(input) && symbols == old(symbols)
      ensures State() == Next(symbols, input, st)
    {
      ghost var i := Start(input, st);
      ghost var l := ScanAt(symbols, input, i);
      Scan(i);
      assert State() == After(input, l, st.lastString, st.lastInt);
    }

    /** `gettok(amount)`. */
    method GetTokAmount(amount: int)
      requires Valid()
      modifies this
      ensures Valid() && input == old(input) && symbols == old(symbols)
      ensures State() == Consume(symbols, input, old(State()), amount)
      ensures (old(lastToken) == TokSym || old(lastToken) == TokSpace) && old(lastInt) > amount ==>
        pos == old(pos) && lastChar == old(lastChar) && lastToken == old(lastToken) && lastInt == old(lastInt) - amount
    {
      if lastToken == TokSym || lastToken == TokSpace {
        if lastInt > amount {
          lastInt := lastInt - amount;
        } else {
          GetTok();
        }
      } else {
        GetTok();
      }
    }

    /** `lastInt -= amount` on a blank run: the part of an indent a block strips without loading a token. */
    method Dedent(amount: int)
      requires Valid() && lastToken == TokSpace && lastInt - amount >= 1
      modifies this
      ensures Valid() && input == old(input) && symbols == old(symbols)
      ensures State() == old(State()).(lastInt := old(lastInt) - amount)
    {
      lastInt := lastInt - amount;
    }

    /** `createTimesnap()`. */
    method CreateTimesnap() returns (snap: Snap)
      ensures snap == State()
    {
      snap := Snap(pos, eof, lastChar, lastString, lastInt, lastToken);
    }

    /** `revert(snap)`: every field the snapshot recorded is restored. */
    method Revert(snap: Snap)
      requires SnapOk(input, snap)
      modifies this
      ensures Valid() && State() == snap && input == old(input) && symbols == old(symbols)
    {
      pos := snap.pos;
      eof := snap.eof;
      lastChar := snap.lastChar;
      lastString := snap.lastString;
      lastInt := snap.lastInt;
      lastToken := snap.lastToken;
    }

    /** `readUntil(condition, escape)`; every condition of the source starts unquoted. */
    method ReadUntil(stop: Stop, escape: bool) returns (res: string, success: bool)
      requires Valid()
      modifies this
      ensures Valid() && input == old(input) && symbols == old(symbols)
      ensures var r := ReadFrom(symbols, input, old(State()), stop, false, escape, "");
        res == r.text && success == r.ok && State() == r.rest
    {
      ghost var goal := ReadFrom(symbols, input, State(), stop, false, escape, "");
      res := "";
      var peek := "";
      var inQuote := false;
      while lastToken != TokNewline && lastToken != TokEOF
        invariant Valid() && input == old(input) && symbols == old(symbols)
        invariant var r := ReadFrom(symbols, input, State(), stop, inQuote, escape, peek);
          res + r.text == goal.text && r.ok == goal.ok && r.rest == goal.rest
        decreases |input| - Start(input, State()), if lastToken == TokEOF then 0 else 1
      {
        var piece, halt;
        ghost var next: Read;
        piece, halt, inQuote, peek, next := ReadOne(stop, escape, inQuote, peek);
        if halt {
          return res, true;
        }
        Reassociate(res, piece, next.text);
        res := res + piece;
      }
      ReadHalts(symbols, input, State(), stop, inQuote, escape, peek);
      if lastToken == TokNewline {
        GetTok();
      }
      success := false;
    }

    /** One turn of the `readUntil` loop: either the condition holds, or the current token is added and consumed. */
    method ReadOne(stop: Stop, escape: bool, inQuote: bool, peek: string) returns (piece: string, halt: bool, q: bool, peek': string, ghost next: Read)
      requires Valid() && lastToken != TokNewline && lastToken != TokEOF
      modifies this
      ensures Valid() && input == old(input) && symbols == old(symbols)
      ensures var r := ReadFrom(symbols, input, old(State()), stop, inQuote, escape, peek);
        if halt then State() == old(State()) && r == Read("", true, State(), q)
        else next == ReadFrom(symbols, input, State(), stop, q, escape, peek') &&
             r == Read(piece + next.text, next.ok, next.rest, next.quote) &&
             (Start(input, State()) > Start(input, old(State())) ||
              (Start(input, State()) == Start(input, old(State())) && lastToken == TokEOF))
    {
      var st := State();
      var c := Check(symbols, stop, inQuote, st);
      halt, q := c.0, c.1;
      if halt {
        ReadHalts(symbols, input, st, stop, inQuote, escape, peek);
        return "", true, q, peek, Read("", true, st, q);
      }
      ReadGoesOn(symbols, input, st, stop, inQuote, escape, peek);
      peek' := if !escape && PeekTok() == TokEscape then "\\" else "";
      piece := peek + Piece(st);
      next := ReadFrom(symbols, input, Next(symbols, input, st), stop, q, escape, peek');
      GetTok();
    }

    /** `parseLink(delim)`. */
    method ParseLink(delim: char) returns (keyword: string, command: string, success: bool)
      requires Valid()
      modifies this
      ensures Valid() && input == old(input) && symbols == old(symbols)
      ensures var r := LinkFrom(symbols, input, old(State()), delim);
        keyword == r.keyword && command == r.command && success == r.ok && State() == r.rest
    {
      ghost var st := State();
      keyword, success := ReadUntil(SpaceOrDelim(delim), false);
      if !success {
        return keyword, "", false;
      }
      if lastToken == TokSpace {
        GetTok();
      }
      command, success := ReadUntil(Unquoted(delim), false);
      if !success {
        return keyword, command, false;
      }
      GetTokAmount(1);
    }

    /**
     * `_parsePlainText`: joins the current text with the text, number and
     * blank tokens that follow, each blank run becoming one space, up to a
     * symbol, a line end or a run of two or more blanks before a line end.
     */
    method ParsePlainText() returns (str: string)
      requires Valid()
      modifies this
      ensures Valid() && input == old(input) && symbols == old(symbols)
      ensures var r := PlainFrom(symbols, input, Next(symbols, input, old(State())));
        str == old(lastString) + r.0 && State() == r.1
    {
      str := lastString;
      GetTok();
      ghost var goal := str + PlainFrom(symbols, input, State()).0;
      ghost var stop := PlainFrom(symbols, input, State()).1;
      while PlainGoesOn(symbols, State())
        invariant Valid() && input == old(input) && symbols == old(symbols)
        invariant str + PlainFrom(symbols, input, State()).0 == goal && PlainFrom(symbols, input, State()).1 == stop
        decreases |input| - Start(input, State()), if lastToken == TokEOF then 0 else 1
      {
        ghost var rest: string;
        var piece;
        piece, rest := PlainOne();
        Reassociate(str, piece, rest);
        str := str + piece;
      }
      PlainStep(symbols, input, State());
    }

    /** One turn of the `_parsePlainText` loop. */
    method PlainOne() returns (piece: string, ghost rest: string)
      requires Valid() && PlainGoesOn(symbols, State())
      modifies this
      ensures Valid() && input == old(input) && symbols == old(symbols)
      ensures rest == PlainFrom(symbols, input, State()).0
      ensures PlainFrom(symbols, input, old(State())) == (piece + rest, PlainFrom(symbols, input, State()).1)
      ensures Start(input, State()) > Start(input, old(State())) ||
              (Start(input, State()) == Start(input, old(State())) && lastToken == TokEOF && old(lastToken) != TokEOF)
    {
      var st := State();
      PlainStep(symbols, input, st);
      piece := if lastToken == TokText || lastToken == TokNumber then lastString else " ";
      rest := PlainFrom(symbols, input, Next(symbols, input, st)).0;
      GetTok();
    }
  }

  /** Whether `_parsePlainText` takes the current token. */
  predicate PlainGoesOn(symbols: set<char>, st: Snap)
  {
    st.lastToken == TokText || st.lastToken == TokNumber ||
    (st.lastToken == TokSpace && (st.lastInt < 2 || PeekTokOf(symbols, st.eof, st.lastChar) != TokNewline))
  }

  /** The text `_parsePlainText` adds from state `st` on, and the state where it stops. */
  function PlainFrom(symbols: set<char>, s: seq<char>, st: Snap): (r: (string, Snap))
    requires SnapOk(s, st)
    ensures SnapOk(s, r.1) && !PlainGoesOn(symbols, r.1)
    decreases |s| - Start(s, st), if st.lastToken == TokEOF then 0 else 1
  {
    if PlainGoesOn(symbols, st) then
      var piece := if st.lastToken == TokText || st.lastToken == TokNumber then st.lastString else " ";
      var r := PlainFrom(symbols, s, Next(symbols, s, st));
      (piece + r.0, r.1)
    else ("", st)
  }

  /** One unfolding of `PlainFrom`. */
  lemma PlainStep(symbols: set<char>, s: seq<char>, st: Snap)
    requires SnapOk(s, st)
    ensures var r := PlainFrom(symbols, s, st);
      (!PlainGoesOn(symbols, st) ==> r == ("", st)) &&
      (PlainGoesOn(symbols, st) ==>
        var piece := if st.lastToken == TokText || st.lastToken == TokNumber then st.lastString else " ";
        var r' := PlainFrom(symbols, s, Next(symbols, s, st));
        r == (piece + r'.0, r'.1))
  {
  }

  /** Plain text stops only at a symbol, a line end, the end of input, or a forced line break (two blanks before a line end). */
  lemma PlainStops(symbols: set<char>, s: seq<char>, st: Snap)
    requires SnapOk(s, st)
    ensures var r := PlainFrom(symbols, s, st).1;
      r.lastToken in {TokSym, TokNewline, TokEOF} ||
      (r.lastToken == TokSpace && r.lastInt >= 2 && PeekTokOf(symbols, r.eof, r.lastChar) == TokNewline)
  {
  }

  /** Blanks reach the joined text only as spaces: no tab survives. */
  lemma {:induction false} PlainBlanksBecomeSpaces(symbols: set<char>, s: seq<char>, st: Snap)
    requires SnapOk(s, st) && ' ' !in symbols && '\t' !in symbols
    requires st.lastToken in {TokText, TokNumber} ==> '\t' !in st.lastString
    ensures '\t' !in PlainFrom(symbols, s, st).0
    decreases |s| - Start(s, st), if st.lastToken == TokEOF then 0 else 1
  {
    if PlainGoesOn(symbols, st) {
      NextTokenShape(symbols, s, st);
      PlainBlanksBecomeSpaces(symbols, s, Next(symbols, s, st));
    }
  }
}
