/**
 * The command micro-language carried by every node (`ASTCommand`):
 * the tokens `#id .cls :title +key=value $gen:args &mod:args >prop:value
 * %ref`, their splitter and parser, the two ways of combining commands
 * (`merge` and `integrate`), the splicing of referenced commands
 * (`resolve`), the attribute header and the dispatch of generator and
 * modifier functions (`execute`).
 *
 * A command is a value here; the source's member functions that update a
 * command in place become methods that return the updated value.
 */
module Command {
  import opened Util

  /** A function name and its arguments (`std::pair<name, args>`). */
  datatype FuncCall = FuncCall(name: string, args: seq<string>)

  datatype Command = Command(
    refName: string,
    id: string,
    classes: set<string>,
    title: string,
    attributes: map<string, string>,
    css: map<string, string>,
    genFunction: FuncCall,
    modFunctions: seq<FuncCall>,
    refCommands: seq<string>,
    flags: map<string, string>)

  /** A default-constructed command. */
  const Empty: Command := Command("", "", {}, "", map[], map[], FuncCall("", []), [], [], map[])

  // ---------------------------------------------------------------------
  // Splitting
  // ---------------------------------------------------------------------

  /**
   * The quote-aware splitter, one character at a time. Outside a quoted
   * section the separator `c` closes a non-empty piece; a `"` toggles the
   * quoted section and is itself dropped.
   */
  function SnippetsFrom(rest: string, c: char, block: bool, s: string, acc: seq<string>): seq<string>
    decreases |rest|
  {
    if rest == [] then
      (if s != [] then acc + [s] else acc)
    else if !block && rest[0] == c then
      SnippetsFrom(rest[1..], c, block, [], if s != [] then acc + [s] else acc)
    else if rest[0] == '"' then
      SnippetsFrom(rest[1..], c, !block, s, acc)
    else
      SnippetsFrom(rest[1..], c, block, s + [rest[0]], acc)
  }

  function Snippets(str: string, c: char): seq<string>
  {
    SnippetsFrom(str, c, false, [], [])
  }

  /** Every piece is non-empty and holds no quote character. */
  predicate QuoteFree(pieces: seq<string>)
  {
    forall i :: 0 <= i < |pieces| ==> pieces[i] != [] && '"' !in pieces[i]
  }

  lemma QuoteFreeAppend(pieces: seq<string>, s: string)
    requires QuoteFree(pieces) && s != [] && '"' !in s
    ensures QuoteFree(pieces + [s])
  {
    forall i | 0 <= i < |pieces + [s]|
      ensures (pieces + [s])[i] != [] && '"' !in (pieces + [s])[i]
    {
      if i < |pieces| { assert (pieces + [s])[i] == pieces[i]; }
    }
  }

  lemma {:induction false} SnippetsFromQuoteFree(rest: string, c: char, block: bool, s: string, acc: seq<string>)
    requires QuoteFree(acc) && '"' !in s
    ensures QuoteFree(SnippetsFrom(rest, c, block, s, acc))
    decreases |rest|
  {
    if s != [] {
      QuoteFreeAppend(acc, s);
    }
    if rest == [] {
    } else if !block && rest[0] == c {
      SnippetsFromQuoteFree(rest[1..], c, block, [], if s != [] then acc + [s] else acc);
    } else if rest[0] == '"' {
      SnippetsFromQuoteFree(rest[1..], c, !block, s, acc);
    } else {
      assert '"' !in s + [rest[0]];
      SnippetsFromQuoteFree(rest[1..], c, block, s + [rest[0]], acc);
    }
  }

  /**
   * `splitSnippets` never yields an empty piece and no piece holds a quote:
   * quotes only switch the separator off and are dropped.
   */
  lemma SnippetsQuoteFree(str: string, c: char)
    ensures QuoteFree(Snippets(str, c))
  {
    SnippetsFromQuoteFree(str, c, false, [], []);
  }

  /** `ASTCommand::splitSnippets`. */
  method SplitSnippets(str: string, c: char) returns (result: seq<string>)
    ensures result == Snippets(str, c)
    ensures QuoteFree(result)
  {
    result := [];
    var s: string := [];
    var block := false;
    var i := 0;
    while i < |str|
      invariant 0 <= i <= |str|
      invariant SnippetsFrom(str[i..], c, block, s, result) == Snippets(str, c)
    {
      assert str[i..][1..] == str[i + 1..];
      var e := str[i];
      if !block && e == c {
        if s != [] {
          result := result + [s];
        }
        s := [];
      } else if e == '"' {
        block := !block;
      } else {
        s := s + [e];
      }
      i := i + 1;
    }
    if s != [] {
      result := result + [s];
    }
    SnippetsQuoteFree(str, c);
  }

  /** `ASTCommand::splitAt`: the plain splitter with the single separator `c`. */
  method SplitAt(str: string, c: char) returns (result: seq<string>)
    ensures result == Split(str, {c})
    ensures forall i :: 0 <= i < |result| ==> result[i] != [] && c !in result[i]
    ensures Concat(result) == Without(str, {c})
  {
    result := SplitLoop(str, {c});
    forall i | 0 <= i < |result| ensures result[i] != [] && c !in result[i] {
      assert forall k :: 0 <= k < |result[i]| ==> result[i][k] != c;
    }
  }

  /**
   * `ASTCommand::apartAt`: the text before and after the first `c`, or the
   * whole string and an empty rest when `c` does not occur.
   */
  function ApartAt(s: string, c: char): (r: (string, string))
    ensures c !in r.0
    ensures c in s ==> s == r.0 + [c] + r.1
    ensures c !in s ==> r == (s, [])
  {
    if s == [] then ([], [])
    else if s[0] == c then ([], s[1..])
    else
      var rest := ApartAt(s[1..], c);
      assert s == [s[0]] + s[1..];
      ([s[0]] + rest.0, rest.1)
  }

  /** `ASTCommand::strisiden`: letters, digits, `-` and `_` only (the empty string passes). */
  predicate IsIden(s: string)
  {
    forall k :: 0 <= k < |s| ==> IsAlnum(s[k]) || s[k] == '-' || s[k] == '_'
  }

  // ---------------------------------------------------------------------
  // Parsing
  // ---------------------------------------------------------------------

  /**
   * `s.substr(1, s.length() - 2)` for a non-empty `s`. For a
   * one-character string the length wraps around to `npos`, giving "".
   * (Every caller passes a non-empty string.)
   */
  function StripQuotes(s: string): string
  {
    if |s| >= 2 then s[1..|s| - 1] else []
  }

  /** One function argument, with a surrounding quote pair removed. */
  function ArgOf(arg: string): string
  {
    if |arg| > 0 && arg[0] == '"' then StripQuotes(arg) else arg
  }

  function ArgsOf(pieces: seq<string>): seq<string>
  {
    if pieces == [] then [] else ArgsOf(pieces[..|pieces| - 1]) + [ArgOf(pieces[|pieces| - 1])]
  }

  /** The argument list after `name:`; no text means no arguments. */
  function ParseArgs(s: string): seq<string>
  {
    if s == [] then [] else ArgsOf(Snippets(s, ','))
  }

  /** The class names among the pieces that pass `strisiden`. */
  function IdenSet(pieces: seq<string>): set<string>
  {
    set k | 0 <= k < |pieces| && IsIden(pieces[k]) :: pieces[k]
  }

  /** What one whitespace-separated token does to the command being built. */
  function ApplySnippet(cmd: Command, e: string): Command
  {
    if |e| <= 1 then cmd
    else if e[0] == '#' then
      (if IsIden(e[1..]) then cmd.(id := e[1..]) else cmd)
    else if e[0] == '.' then
      cmd.(classes := cmd.classes + IdenSet(Split(e, {'.'})))
    else if e[0] == ':' then
      cmd.(title := if e[1] == '"' then StripQuotes(e[1..]) else e[1..])
    else if e[0] == '+' then
      (match AttrToken(e)
       case Some((key, value)) => if key in cmd.attributes then cmd else cmd.(attributes := cmd.attributes[key := value])
       case None => cmd)
    else if e[0] == '$' then
      var f := ApartAt(e[1..], ':');
      if IsIden(f.0) then cmd.(genFunction := FuncCall(f.0, ParseArgs(f.1))) else cmd
    else if e[0] == '&' then
      var f := ApartAt(e[1..], ':');
      if IsIden(f.0) then cmd.(modFunctions := cmd.modFunctions + [FuncCall(f.0, ParseArgs(f.1))]) else cmd
    else if e[0] == '>' then
      (match CssToken(e)
       case Some((key, value)) => if key in cmd.css then cmd else cmd.(css := cmd.css[key := value])
       case None => cmd)
    else if e[0] == '%' then
      (if IsIden(e[1..]) then cmd.(refCommands := cmd.refCommands + [e[1..]]) else cmd)
    else cmd
  }

  /** The tokens applied left to right, starting from `c0`. */
  function Fold(c0: Command, es: seq<string>): Command
  {
    if es == [] then c0 else ApplySnippet(Fold(c0, es[..|es| - 1]), es[|es| - 1])
  }

  /** The command a token string denotes (`ASTCommand(std::string)`). */
  function Parsed(command: string): Command
  {
    Fold(Empty, Snippets(command, ' '))
  }

  /** The argument loop shared by the `$` and `&` tokens. */
  method ParseArgsLoop(s: string) returns (args: seq<string>)
    ensures args == ParseArgs(s)
  {
    args := [];
    if s != [] {
      var pieces := SplitSnippets(s, ',');
      var i := 0;
      while i < |pieces|
        invariant 0 <= i <= |pieces|
        invariant args == ArgsOf(pieces[..i])
      {
        assert pieces[..i + 1][..i] == pieces[..i];
        var arg := pieces[i];
        if arg[0] == '"' {
          args := args + [StripQuotes(arg)];
        } else {
          args := args + [arg];
        }
        i := i + 1;
      }
      assert pieces[..|pieces|] == pieces;
    }
  }

  /** One turn of the token loop of the `ASTCommand(std::string)` constructor. */
  method ApplyOne(cmd0: Command, e: string) returns (cmd: Command)
    ensures cmd == ApplySnippet(cmd0, e)
  {
    cmd := cmd0;
    if |e| > 1 && e[0] == '#' {
      if IsIden(e[1..]) {
        cmd := cmd.(id := e[1..]);
      }
    } else if |e| > 1 && e[0] == '.' {
      var cls := SplitAt(e, '.');
      var j := 0;
      var classes := cmd.classes;
      while j < |cls|
        invariant 0 <= j <= |cls|
        invariant classes == cmd.classes + IdenSet(cls[..j])
      {
        assert forall k :: 0 <= k < j ==> cls[..j + 1][k] == cls[..j][k];
        if IsIden(cls[j]) {
          classes := classes + {cls[j]};
        }
        assert IdenSet(cls[..j + 1]) == IdenSet(cls[..j]) + (if IsIden(cls[j]) then {cls[j]} else {});
        j := j + 1;
      }
      assert cls[..|cls|] == cls;
      cmd := cmd.(classes := classes);
    } else if |e| > 1 && e[0] == ':' {
      var desc := e[1..];
      if desc[0] == '"' {
        cmd := cmd.(title := StripQuotes(desc));
      } else {
        cmd := cmd.(title := desc);
      }
    } else if |e| > 1 && e[0] == '+' {
      var fields := ApartAt(e[1..], '=');
      if IsIden(fields.0) && fields.0 !in cmd.attributes {
        cmd := cmd.(attributes := cmd.attributes[fields.0 := fields.1]);
      }
    } else if |e| > 1 && (e[0] == '$' || e[0] == '&') {
      var funcarg := ApartAt(e[1..], ':');
      if IsIden(funcarg.0) {
        var args := ParseArgsLoop(funcarg.1);
        if e[0] == '$' {
          cmd := cmd.(genFunction := FuncCall(funcarg.0, args));
        } else {
          cmd := cmd.(modFunctions := cmd.modFunctions + [FuncCall(funcarg.0, args)]);
        }
      }
    } else if |e| > 4 && e[0] == '>' {
      var funcarg := ApartAt(e[1..], ':');
      if funcarg.1 != [] && IsIden(funcarg.0) {
        var value := funcarg.1;
        if value[0] == '"' {
          value := StripQuotes(value);
        }
        if funcarg.0 !in cmd.css {
          cmd := cmd.(css := cmd.css[funcarg.0 := value]);
        }
      }
    } else if |e| > 1 && e[0] == '%' {
      if IsIden(e[1..]) {
        cmd := cmd.(refCommands := cmd.refCommands + [e[1..]]);
      }
    }
  }

  /** The parsing constructor `ASTCommand(std::string)`. */
  method ParseCommand(command: string) returns (cmd: Command)
    ensures cmd == Parsed(command)
  {
    var snippets := SplitSnippets(command, ' ');
    cmd := Empty;
    var i := 0;
    while i < |snippets|
      invariant 0 <= i <= |snippets|
      invariant cmd == Fold(Empty, snippets[..i])
    {
      assert snippets[..i + 1][..i] == snippets[..i];
      cmd := ApplyOne(cmd, snippets[i]);
      i := i + 1;
    }
    assert snippets[..|snippets|] == snippets;
  }

  // ----- what a parsed command holds -----

  lemma FoldAppend(c0: Command, es: seq<string>, e: string)
    ensures Fold(c0, es + [e]) == ApplySnippet(Fold(c0, es), e)
  {
    assert (es + [e])[..|es|] == es;
  }

  predicate IdToken(e: string) { |e| > 1 && e[0] == '#' && IsIden(e[1..]) }
  predicate TitleToken(e: string) { |e| > 1 && e[0] == ':' }
  predicate GenToken(e: string) { |e| > 1 && e[0] == '$' && IsIden(ApartAt(e[1..], ':').0) }

  /** Tokens other than a valid `#name` leave the id alone. */
  lemma {:induction false} IdKept(c0: Command, es: seq<string>)
    requires forall k :: 0 <= k < |es| ==> !IdToken(es[k])
    ensures Fold(c0, es).id == c0.id
  {
    if es != [] {
      IdKept(c0, es[..|es| - 1]);
    }
  }

  /** The last valid `#name` token decides the id. */
  lemma {:induction false} LastIdWins(c0: Command, es: seq<string>, k: nat)
    requires k < |es| && IdToken(es[k])
    requires forall j :: k < j < |es| ==> !IdToken(es[j])
    ensures Fold(c0, es).id == es[k][1..]
  {
    if k < |es| - 1 {
      LastIdWins(c0, es[..|es| - 1], k);
    }
  }

  /** The last `:title` token decides the title; without one it stays. */
  lemma {:induction false} LastTitleWins(c0: Command, es: seq<string>, k: nat)
    requires k < |es| && TitleToken(es[k]) && '"' !in es[k]
    requires forall j :: k < j < |es| ==> !TitleToken(es[j])
    ensures Fold(c0, es).title == es[k][1..]
  {
    if k < |es| - 1 {
      LastTitleWins(c0, es[..|es| - 1], k);
    } else {
      assert es[k][1] in es[k];
    }
  }

  /** The last `$name:args` token with a valid name decides the generator. */
  lemma {:induction false} LastGeneratorWins(c0: Command, es: seq<string>, k: nat)
    requires k < |es| && GenToken(es[k])
    requires forall j :: k < j < |es| ==> !GenToken(es[j])
    ensures Fold(c0, es).genFunction.name == ApartAt(es[k][1..], ':').0
  {
    GeneratorStep(Fold(c0, es[..|es| - 1]), es[|es| - 1]);
    if k < |es| - 1 {
      LastGeneratorWins(c0, es[..|es| - 1], k);
    }
  }

  /** The `+key=value` pair a token contributes, if its key is valid. */
  function AttrToken(e: string): Option<(string, string)>
  {
    if |e| > 1 && e[0] == '+' && IsIden(ApartAt(e[1..], '=').0) then Some(ApartAt(e[1..], '=')) else None
  }

  /** The `>prop:value` pair a token contributes, if it is long enough and valid. */
  function CssToken(e: string): Option<(string, string)>
  {
    if |e| > 4 && e[0] == '>' then
      var f := ApartAt(e[1..], ':');
      if f.1 != [] && IsIden(f.0) then Some((f.0, if f.1[0] == '"' then StripQuotes(f.1) else f.1)) else None
    else None
  }

  /** One token's effect on the style map. */
  lemma CssStep(cmd: Command, e: string)
    ensures ApplySnippet(cmd, e).css ==
      match CssToken(e)
      case Some(p) => if p.0 in cmd.css then cmd.css else cmd.css[p.0 := p.1]
      case None => cmd.css
  {
  }

  /** One token's effect on the attribute map. */
  lemma AttributeStep(cmd: Command, e: string)
    ensures ApplySnippet(cmd, e).attributes ==
      match AttrToken(e)
      case Some(p) => if p.0 in cmd.attributes then cmd.attributes else cmd.attributes[p.0 := p.1]
      case None => cmd.attributes
  {
  }

  /** One token's effect on the generator. */
  lemma GeneratorStep(cmd: Command, e: string)
    ensures ApplySnippet(cmd, e).genFunction.name ==
      if GenToken(e) then ApartAt(e[1..], ':').0 else cmd.genFunction.name
  {
    if |e| > 1 && e[0] == '$' {
      var f := ApartAt(e[1..], ':');
      assert ApplySnippet(cmd, e) == if IsIden(f.0) then cmd.(genFunction := FuncCall(f.0, ParseArgs(f.1))) else cmd;
    } else {
      assert ApplySnippet(cmd, e).genFunction == cmd.genFunction;
    }
  }

  /** One token's effect on the class set. */
  lemma ClassStep(cmd: Command, e: string)
    ensures ApplySnippet(cmd, e).classes ==
      if |e| > 1 && e[0] == '.' then cmd.classes + IdenSet(Split(e, {'.'})) else cmd.classes
  {
  }

  /** `+key` and `>prop` never overwrite a key that is already present. */
  lemma {:induction false} MapsKept(c0: Command, es: seq<string>)
    ensures forall key :: key in c0.attributes ==> key in Fold(c0, es).attributes && Fold(c0, es).attributes[key] == c0.attributes[key]
    ensures forall key :: key in c0.css ==> key in Fold(c0, es).css && Fold(c0, es).css[key] == c0.css[key]
  {
    if es != [] {
      MapsKept(c0, es[..|es| - 1]);
      CssStep(Fold(c0, es[..|es| - 1]), es[|es| - 1]);
      AttributeStep(Fold(c0, es[..|es| - 1]), es[|es| - 1]);
    }
  }

  lemma FoldSplit(c0: Command, es: seq<string>, k: nat)
    requires k <= |es|
    ensures Fold(c0, es) == Fold(Fold(c0, es[..k]), es[k..])
    decreases |es| - k
  {
    if k < |es| {
      FoldSplit(c0, es, k + 1);
      FoldAppend(Fold(c0, es[..k]), es[k..k + 1][..0], es[k]);
      assert es[..k + 1] == es[..k] + [es[k]];
      FoldAppend(c0, es[..k], es[k]);
      assert es[k..] == [es[k]] + es[k + 1..];
      FoldPrepend(Fold(c0, es[..k]), es[k], es[k + 1..]);
    } else {
      assert es[k..] == [];
      assert es[..k] == es;
    }
  }

  lemma {:induction false} FoldPrepend(c0: Command, e: string, es: seq<string>)
    ensures Fold(c0, [e] + es) == Fold(ApplySnippet(c0, e), es)
    decreases |es|
  {
    if es == [] {
      assert ([e] + es)[..0] == [];
    } else {
      var init := es[..|es| - 1];
      assert ([e] + es)[..|[e] + es| - 1] == [e] + init;
      FoldPrepend(c0, e, init);
    }
  }

  /** The first valid `+key=value` for a new key decides its value; later ones are ignored. */
  lemma FirstAttributeWins(c0: Command, es: seq<string>, k: nat, key: string, value: string)
    requires k < |es| && AttrToken(es[k]) == Some((key, value)) && key !in c0.attributes
    requires forall j :: 0 <= j < k && AttrToken(es[j]).Some? ==> AttrToken(es[j]).value.0 != key
    ensures key in Fold(c0, es).attributes && Fold(c0, es).attributes[key] == value
  {
    var pre := es[..k];
    AttributeAbsent(c0, pre, key);
    AttributeStep(Fold(c0, pre), es[k]);
    assert es[..k + 1] == pre + [es[k]];
    FoldAppend(c0, pre, es[k]);
    var after := Fold(c0, es[..k + 1]);
    assert key in after.attributes && after.attributes[key] == value;
    FoldSplit(c0, es, k + 1);
    MapsKept(after, es[k + 1..]);
  }

  lemma {:induction false} AttributeAbsent(c0: Command, es: seq<string>, key: string)
    requires key !in c0.attributes
    requires forall j :: 0 <= j < |es| && AttrToken(es[j]).Some? ==> AttrToken(es[j]).value.0 != key
    ensures key !in Fold(c0, es).attributes
  {
    if es != [] {
      AttributeAbsent(c0, es[..|es| - 1], key);
      AttributeStep(Fold(c0, es[..|es| - 1]), es[|es| - 1]);
    }
  }

  /** The first valid `>prop:value` for a new property decides its value. */
  lemma FirstCssWins(c0: Command, es: seq<string>, k: nat, key: string, value: string)
    requires k < |es| && CssToken(es[k]) == Some((key, value)) && key !in c0.css
    requires forall j :: 0 <= j < k && CssToken(es[j]).Some? ==> CssToken(es[j]).value.0 != key
    ensures key in Fold(c0, es).css && Fold(c0, es).css[key] == value
  {
    var pre := es[..k];
    CssAbsent(c0, pre, key);
    CssStep(Fold(c0, pre), es[k]);
    assert es[..k + 1] == pre + [es[k]];
    FoldAppend(c0, pre, es[k]);
    var after := Fold(c0, es[..k + 1]);
    assert key in after.css && after.css[key] == value;
    FoldSplit(c0, es, k + 1);
    MapsKept(after, es[k + 1..]);
  }

  lemma {:induction false} CssAbsent(c0: Command, es: seq<string>, key: string)
    requires key !in c0.css
    requires forall j :: 0 <= j < |es| && CssToken(es[j]).Some? ==> CssToken(es[j]).value.0 != key
    ensures key !in Fold(c0, es).css
  {
    if es != [] {
      CssAbsent(c0, es[..|es| - 1], key);
      CssStep(Fold(c0, es[..|es| - 1]), es[|es| - 1]);
    }
  }

  /** A class is present iff it was there before or is a valid piece of some `.a.b` token. */
  lemma {:induction false} ClassesCollected(c0: Command, es: seq<string>, name: string)
    ensures name in Fold(c0, es).classes <==>
      name in c0.classes ||
      exists k :: 0 <= k < |es| && |es[k]| > 1 && es[k][0] == '.' && name in IdenSet(Split(es[k], {'.'}))
  {
    if es != [] {
      var init := es[..|es| - 1];
      ClassesCollected(c0, init, name);
      ClassStep(Fold(c0, init), es[|es| - 1]);
      if exists k :: 0 <= k < |init| && |init[k]| > 1 && init[k][0] == '.' && name in IdenSet(Split(init[k], {'.'})) {
        var k :| 0 <= k < |init| && |init[k]| > 1 && init[k][0] == '.' && name in IdenSet(Split(init[k], {'.'}));
        assert es[k] == init[k];
      }
      if exists k :: 0 <= k < |es| && |es[k]| > 1 && es[k][0] == '.' && name in IdenSet(Split(es[k], {'.'})) {
        var k :| 0 <= k < |es| && |es[k]| > 1 && es[k][0] == '.' && name in IdenSet(Split(es[k], {'.'}));
        if k < |init| { assert init[k] == es[k]; }
      }
    }
  }

  /** Every reference a command picks up names a valid, non-empty identifier. */
  lemma {:induction false} RefsAreIdentifiers(c0: Command, es: seq<string>)
    ensures |Fold(c0, es).refCommands| >= |c0.refCommands|
    ensures Fold(c0, es).refCommands[..|c0.refCommands|] == c0.refCommands
    ensures forall i :: |c0.refCommands| <= i < |Fold(c0, es).refCommands| ==>
      Fold(c0, es).refCommands[i] != [] && IsIden(Fold(c0, es).refCommands[i])
  {
    if es != [] {
      RefsAreIdentifiers(c0, es[..|es| - 1]);
    }
  }

  /**
   * The quote-removing branches of the parser cannot be taken on a piece the
   * splitter produced: after `:`, in a `>` value, or in a `$`/`&` argument.
   */
  predicate NoQuoteBranch(e: string)
  {
    (|e| > 1 && e[0] == ':' ==> e[1] != '"') &&
    (|e| > 4 && e[0] == '>' ==> var f := ApartAt(e[1..], ':'); f.1 == [] || f.1[0] != '"') &&
    (|e| > 1 && (e[0] == '$' || e[0] == '&') ==>
       var f := ApartAt(e[1..], ':');
       forall a :: a in Snippets(f.1, ',') ==> a != [] && a[0] != '"')
  }

  lemma QuoteBranchesUnreachable(command: string)
    ensures forall i :: 0 <= i < |Snippets(command, ' ')| ==> NoQuoteBranch(Snippets(command, ' ')[i])
  {
    var es := Snippets(command, ' ');
    SnippetsQuoteFree(command, ' ');
    forall i | 0 <= i < |es| ensures NoQuoteBranch(es[i]) {
      var e := es[i];
      assert '"' !in e;
      if |e| > 1 {
        assert e[1] in e;
        var f := ApartAt(e[1..], ':');
        if ':' in e[1..] {
          assert '"' !in e[1..];
          assert forall x :: x in f.1 ==> x in e[1..];
        }
        assert '"' !in f.1;
        SnippetsQuoteFree(f.1, ',');
        var pieces := Snippets(f.1, ',');
        forall a | a in pieces ensures a != [] && a[0] != '"' {
          var j :| 0 <= j < |pieces| && pieces[j] == a;
          assert a[0] in a;
        }
        if f.1 != [] { assert f.1[0] in f.1; }
      }
    }
  }

  // ---------------------------------------------------------------------
  // Combining commands
  // ---------------------------------------------------------------------

  /**
   * `ASTCommand::merge`: the other command's values win. Its id, title and
   * generator are taken even when empty; its map entries overwrite; the
   * lists are appended.
   */
  function Merge(a: Command, b: Command): Command
  {
    a.(id := b.id,
       classes := a.classes + b.classes,
       title := b.title,
       attributes := a.attributes + b.attributes,
       css := a.css + b.css,
       genFunction := b.genFunction,
       modFunctions := a.modFunctions + b.modFunctions,
       flags := a.flags + b.flags,
       refCommands := a.refCommands + b.refCommands)
  }

  /**
   * `ASTCommand::integrate`: the receiver's values win. Empty id, title and
   * generator are filled in; existing map keys are kept; the lists are
   * appended.
   */
  function Integrate(a: Command, b: Command): Command
  {
    a.(id := if a.id == "" then b.id else a.id,
       classes := a.classes + b.classes,
       title := if a.title == "" then b.title else a.title,
       attributes := b.attributes + a.attributes,
       css := b.css + a.css,
       genFunction := if a.genFunction.name == "" then b.genFunction else a.genFunction,
       modFunctions := a.modFunctions + b.modFunctions,
       flags := b.flags + a.flags,
       refCommands := a.refCommands + b.refCommands)
  }

  /** `m[k] = v` for every entry of `other` (or `m.insert(p)` when `!overwrite`), one entry at a time. */
  method InsertAll(m: map<string, string>, other: map<string, string>, overwrite: bool) returns (r: map<string, string>)
    ensures r == if overwrite then m + other else other + m
  {
    r := m;
    var todo := other.Keys;
    ghost var done: map<string, string> := map[];
    while todo != {}
      invariant todo <= other.Keys
      invariant done.Keys == other.Keys - todo
      invariant forall k :: k in done ==> done[k] == other[k]
      invariant r == if overwrite then m + done else done + m
      decreases |todo|
    {
      var k :| k in todo;
      InsertStep(m, done, k, other[k], overwrite);
      if overwrite || k !in r {
        r := r[k := other[k]];
      }
      done := done[k := other[k]];
      todo := todo - {k};
    }
    assert done == other;
  }

  /** One entry inserted into the merged map; with `overwrite` unset, an entry already present stays. */
  lemma InsertStep(m: map<string, string>, done: map<string, string>, k: string, v: string, overwrite: bool)
    requires k !in done
    ensures var r := if overwrite then m + done else done + m;
      (if overwrite || k !in r then r[k := v] else r) == (if overwrite then m + done[k := v] else done[k := v] + m)
  {
    if overwrite {
      assert m + done[k := v] == (m + done)[k := v];
    } else if k in m {
      assert done[k := v] + m == done + m;
    } else {
      assert done[k := v] + m == (done + m)[k := v];
    }
  }

  /** `push_back` of every element of `ys`, in order. */
  method AppendAll<T>(xs: seq<T>, ys: seq<T>) returns (r: seq<T>)
    ensures r == xs + ys
  {
    r := xs;
    var i := 0;
    while i < |ys|
      invariant 0 <= i <= |ys|
      invariant r == xs + ys[..i]
    {
      assert ys[..i + 1] == ys[..i] + [ys[i]];
      r := r + [ys[i]];
      i := i + 1;
    }
    assert ys[..i] == ys;
  }

  /** `merge`, field by field as the source writes it. */
  method MergeCommands(a: Command, b: Command) returns (r: Command)
    ensures r == Merge(a, b)
  {
    var attributes := InsertAll(a.attributes, b.attributes, true);
    var css := InsertAll(a.css, b.css, true);
    var mods := AppendAll(a.modFunctions, b.modFunctions);
    var flags := InsertAll(a.flags, b.flags, true);
    var refs := AppendAll(a.refCommands, b.refCommands);
    r := a.(id := b.id, classes := a.classes + b.classes, title := b.title,
            attributes := attributes, css := css, genFunction := b.genFunction,
            modFunctions := mods, flags := flags, refCommands := refs);
  }

  /** `integrate`, field by field as the source writes it. */
  method IntegrateCommands(a: Command, b: Command) returns (r: Command)
    ensures r == Integrate(a, b)
  {
    var id := a.id;
    if id == "" {
      id := b.id;
    }
    var classes := a.classes + b.classes;
    var title := a.title;
    if title == "" {
      title := b.title;
    }
    var attributes := InsertAll(a.attributes, b.attributes, false);
    var css := InsertAll(a.css, b.css, false);
    var gen := a.genFunction;
    if gen.name == "" {
      gen := b.genFunction;
    }
    var mods := AppendAll(a.modFunctions, b.modFunctions);
    var flags := InsertAll(a.flags, b.flags, false);
    var refs := AppendAll(a.refCommands, b.refCommands);
    r := a.(id := id, classes := classes, title := title, attributes := attributes, css := css,
            genFunction := gen, modFunctions := mods, flags := flags, refCommands := refs);
  }

  /** In a merge the other command's scalar fields and map entries take precedence. */
  lemma MergePrecedence(a: Command, b: Command)
    ensures Merge(a, b).id == b.id && Merge(a, b).title == b.title && Merge(a, b).genFunction == b.genFunction
    ensures forall k :: k in b.attributes ==> Merge(a, b).attributes[k] == b.attributes[k]
    ensures forall k :: k in a.attributes && k !in b.attributes ==> Merge(a, b).attributes[k] == a.attributes[k]
    ensures forall k :: k in b.css ==> Merge(a, b).css[k] == b.css[k]
    ensures forall k :: k in b.flags ==> Merge(a, b).flags[k] == b.flags[k]
    ensures Merge(a, b).classes == a.classes + b.classes
  {
  }

  /** Merging the same command a second time only appends its two lists again. */
  lemma MergeTwice(a: Command, b: Command)
    ensures Merge(Merge(a, b), b) ==
      Merge(a, b).(modFunctions := Merge(a, b).modFunctions + b.modFunctions,
                   refCommands := Merge(a, b).refCommands + b.refCommands)
  {
    var m := Merge(a, b);
    assert m.attributes + b.attributes == m.attributes;
    assert m.css + b.css == m.css;
    assert m.flags + b.flags == m.flags;
  }

  /** Integration never changes an existing id, title, generator or map entry. */
  lemma IntegrateKeeps(a: Command, b: Command)
    ensures a.id != "" ==> Integrate(a, b).id == a.id
    ensures a.id == "" ==> Integrate(a, b).id == b.id
    ensures a.title != "" ==> Integrate(a, b).title == a.title
    ensures a.genFunction.name != "" ==> Integrate(a, b).genFunction == a.genFunction
    ensures forall k :: k in a.attributes ==> Integrate(a, b).attributes[k] == a.attributes[k]
    ensures forall k :: k in a.css ==> Integrate(a, b).css[k] == a.css[k]
    ensures forall k :: k in a.flags ==> Integrate(a, b).flags[k] == a.flags[k]
    ensures forall k :: k in b.attributes && k !in a.attributes ==> Integrate(a, b).attributes[k] == b.attributes[k]
    ensures Integrate(a, b).classes == a.classes + b.classes
    ensures Integrate(a, b).modFunctions == a.modFunctions + b.modFunctions
    ensures Integrate(a, b).refCommands == a.refCommands + b.refCommands
  {
  }

  /** Integrating the same command a second time only appends its two lists again. */
  lemma IntegrateTwice(a: Command, b: Command)
    ensures Integrate(Integrate(a, b), b) ==
      Integrate(a, b).(modFunctions := Integrate(a, b).modFunctions + b.modFunctions,
                       refCommands := Integrate(a, b).refCommands + b.refCommands)
  {
    var m := Integrate(a, b);
    assert b.attributes + m.attributes == m.attributes;
    assert b.css + m.css == m.css;
    assert b.flags + m.flags == m.flags;
  }

  /**
   * Integration is merging with the roles swapped once the receiver's id,
   * title and generator are set: only the order of the appended lists and
   * the kept `refName` differ.
   */
  lemma IntegrateIsSwappedMerge(a: Command, b: Command)
    requires a.id != "" && a.title != "" && a.genFunction.name != ""
    ensures Integrate(a, b) ==
      Merge(b, a).(refName := a.refName,
                   modFunctions := a.modFunctions + b.modFunctions,
                   refCommands := a.refCommands + b.refCommands)
  {
  }

  // ---------------------------------------------------------------------
  // Resolving references
  // ---------------------------------------------------------------------

  /** The registry keys that correspond to names already seen. */
  function Braced(history: set<string>): set<string>
  {
    set s | s in history :: "{" + s
  }

  lemma BraceInjective(s: string, t: string)
    ensures ("{" + s == "{" + t) == (s == t)
  {
    assert ("{" + s)[1..] == s;
    assert ("{" + t)[1..] == t;
  }

  lemma BracedGrows(history: set<string>, s: string, keys: set<string>)
    requires "{" + s in keys && s !in history
    ensures |keys - Braced(history + {s})| < |keys - Braced(history)|
  {
    assert Braced(history + {s}) == Braced(history) + {"{" + s};
    forall t | t in history ensures "{" + t != "{" + s {
      BraceInjective(s, t);
    }
    assert "{" + s !in Braced(history);
    assert keys - Braced(history + {s}) == (keys - Braced(history)) - {"{" + s};
  }

  lemma BracedMiss(history: set<string>, s: string, keys: set<string>)
    requires "{" + s !in keys
    ensures keys - Braced(history + {s}) == keys - Braced(history)
  {
    assert Braced(history + {s}) == Braced(history) + {"{" + s};
  }

  /**
   * The loop of `ASTCommand::resolve` from position `i` on, with the names
   * seen so far: the resolved command and the names whose definitions were
   * integrated, in order. `defs` gives the command of the id definition that
   * each registry key names at the time of the call.
   */
  function ResolveFrom(c: Command, i: nat, history: set<string>, defs: map<string, Command>): (Command, seq<string>)
    decreases |defs.Keys - Braced(history)|, |c.refCommands| - i
  {
    if i >= |c.refCommands| then (c, [])
    else
      var s := c.refCommands[i];
      if s in history then ResolveFrom(c, i + 1, history, defs)
      else if "{" + s in defs then
        BracedGrows(history, s, defs.Keys);
        var rest := ResolveFrom(Integrate(c, defs["{" + s]), i + 1, history + {s}, defs);
        (rest.0, [s] + rest.1)
      else
        BracedMiss(history, s, defs.Keys);
        ResolveFrom(c, i + 1, history + {s}, defs)
  }

  /** The commands integrated one after another. */
  function IntegrateAll(c: Command, names: seq<string>, defs: map<string, Command>): Command
    requires forall t :: t in names ==> "{" + t in defs
    decreases |names|
  {
    if names == [] then c else IntegrateAll(Integrate(c, defs["{" + names[0]]), names[1..], defs)
  }

  /**
   * What resolving promises: each integrated name was referenced, is new
   * (never the command's own refName, never twice), has a definition, and
   * the result is exactly the receiver with those definitions integrated
   * in order.
   */
  lemma {:induction false} ResolveFromProperties(c: Command, i: nat, history: set<string>, defs: map<string, Command>)
    ensures var (r, names) := ResolveFrom(c, i, history, defs);
      (forall t :: t in names ==> "{" + t in defs && t !in history) &&
      (forall j, k :: 0 <= j < k < |names| ==> names[j] != names[k]) &&
      r == IntegrateAll(c, names, defs)
    decreases |defs.Keys - Braced(history)|, |c.refCommands| - i
  {
    if i >= |c.refCommands| {
    } else {
      var s := c.refCommands[i];
      if s in history {
        ResolveFromProperties(c, i + 1, history, defs);
      } else if "{" + s in defs {
        BracedGrows(history, s, defs.Keys);
        var c' := Integrate(c, defs["{" + s]);
        ResolveFromProperties(c', i + 1, history + {s}, defs);
        var rest := ResolveFrom(c', i + 1, history + {s}, defs);
        assert ([s] + rest.1)[1..] == rest.1;
      } else {
        BracedMiss(history, s, defs.Keys);
        ResolveFromProperties(c, i + 1, history + {s}, defs);
      }
    }
  }

  /** Distinct names with definitions are no more numerous than the definitions. */
  lemma DistinctBounded(names: seq<string>, defs: map<string, Command>)
    requires forall t :: t in names ==> "{" + t in defs
    requires forall j, k :: 0 <= j < k < |names| ==> names[j] != names[k]
    ensures |names| <= |defs|
  {
    var keys := set t | t in names :: "{" + t;
    assert keys <= defs.Keys;
    var named := set t | t in names;
    DistinctCard(names);
    BracedCard(named);
    assert keys == Braced(named);
    assert |names| == |named| == |keys|;
    assert |keys| <= |defs.Keys| by {
      SubsetCard(keys, defs.Keys);
    }
  }

  lemma SubsetCard<T>(a: set<T>, b: set<T>)
    requires a <= b
    ensures |a| <= |b|
  {
    assert b == a + (b - a);
  }

  lemma {:induction false} DistinctCard(names: seq<string>)
    requires forall j, k :: 0 <= j < k < |names| ==> names[j] != names[k]
    ensures |set t | t in names| == |names|
  {
    if names != [] {
      var tail := names[1..];
      DistinctCard(tail);
      assert (set t | t in names) == (set t | t in tail) + {names[0]};
      forall k | 0 <= k < |tail| ensures tail[k] != names[0] {
        assert tail[k] == names[k + 1];
      }
      assert names[0] !in tail;
    }
  }

  lemma {:induction false} BracedCard(named: set<string>)
    ensures |Braced(named)| == |named|
    decreases |named|
  {
    if named != {} {
      var t :| t in named;
      BracedCard(named - {t});
      assert Braced(named) == Braced(named - {t}) + {"{" + t};
      forall u | u in named - {t} ensures "{" + u != "{" + t {
        BraceInjective(u, t);
      }
      assert "{" + t !in Braced(named - {t});
    }
  }

  /** One turn of the resolve loop. */
  lemma ResolveStep(c: Command, i: nat, history: set<string>, defs: map<string, Command>)
    requires i < |c.refCommands|
    ensures var s := c.refCommands[i];
      ResolveFrom(c, i, history, defs).0 ==
        if s in history then ResolveFrom(c, i + 1, history, defs).0
        else if "{" + s in defs then ResolveFrom(Integrate(c, defs["{" + s]), i + 1, history + {s}, defs).0
        else ResolveFrom(c, i + 1, history + {s}, defs).0
  {
  }

  /** The result of `resolve` on a command with the definitions visible to it. */
  function Resolved(c: Command, defs: map<string, Command>): (Command, seq<string>)
  {
    ResolveFrom(c, 0, {c.refName}, defs)
  }

  /**
   * Resolution terminates with at most one integration per definition; no
   * name is integrated twice and the command's own `refName` never is.
   */
  lemma ResolveBounded(c: Command, defs: map<string, Command>)
    ensures var (r, names) := Resolved(c, defs);
      |names| <= |defs| &&
      c.refName !in names &&
      (forall j, k :: 0 <= j < k < |names| ==> names[j] != names[k]) &&
      (forall t :: t in names ==> "{" + t in defs) &&
      r == IntegrateAll(c, names, defs)
  {
    ResolveFromProperties(c, 0, {c.refName}, defs);
    var (r, names) := Resolved(c, defs);
    DistinctBounded(names, defs);
  }

  /**
   * `ASTCommand::resolve`: walks `refCommands`, which grows as definitions
   * are integrated, skipping names already seen and integrating the command
   * of each id definition found under `"{" + name`.
   */
  method Resolve(c: Command, defs: map<string, Command>) returns (r: Command)
    ensures r == Resolved(c, defs).0
    ensures |r.refCommands| >= |c.refCommands|
  {
    var history := {c.refName};
    r := c;
    var i := 0;
    while i < |r.refCommands|
      invariant ResolveFrom(r, i, history, defs).0 == ResolveFrom(c, 0, {c.refName}, defs).0
      invariant |r.refCommands| >= |c.refCommands|
      decreases |defs.Keys - Braced(history)|, |r.refCommands| - i
    {
      ResolveStep(r, i, history, defs);
      var s := r.refCommands[i];
      if s !in history {
        if "{" + s in defs {
          BracedGrows(history, s, defs.Keys);
          history := history + {s};
          r := IntegrateCommands(r, defs["{" + s]);
        } else {
          BracedMiss(history, s, defs.Keys);
          history := history + {s};
        }
      }
      i := i + 1;
    }
  }

  // ---------------------------------------------------------------------
  // Header and function dispatch
  // ---------------------------------------------------------------------

  predicate HasHeader(c: Command)
  {
    c.id != "" || c.classes != {} || c.title != "" || c.css != map[] || c.attributes != map[]
  }

  /**
   * `ASTCommand::constructHeader`: ` id="…"`, ` class="a b"`, ` title="…"`,
   * ` style="p: v;"` and one ` key="value"` per attribute. The source
   * iterates unordered containers, so the order of classes, style entries
   * and attributes is left open.
   */
  method ConstructHeader(c: Command) returns (header: string)
    ensures header == "" <==> !HasHeader(c)
    ensures c.id != "" ==> |header| >= |" id=\"" + c.id + "\""| && header[..|" id=\"" + c.id + "\""|] == " id=\"" + c.id + "\""
  {
    header := "";
    if c.id != "" {
      header := header + " id=\"" + c.id + "\"";
    }
    ghost var idPart := header;
    if c.classes != {} {
      var clsAtr := JoinClasses(c.classes);
      header := header + (" class=\"" + clsAtr + "\"");
    }
    if c.title != "" {
      header := header + (" title=\"" + c.title + "\"");
    }
    if c.css != map[] {
      var cssAtr := JoinStyle(c.css);
      header := header + (" style=\"" + cssAtr + "\"");
    }
    var attrs := AttributePairs(c.attributes);
    header := header + attrs;
    assert header[..|idPart|] == idPart;
  }

  /** The `class` value: the names separated by single spaces, in the set's iteration order. */
  method JoinClasses(classes: set<string>) returns (clsAtr: string)
  {
    clsAtr := "";
    var todo := classes;
    while todo != {}
      decreases |todo|
    {
      var e :| e in todo;
      clsAtr := clsAtr + (if clsAtr == "" then "" else " ") + e;
      todo := todo - {e};
    }
  }

  /** The `style` value: `prop: value;` entries separated by spaces. */
  method JoinStyle(css: map<string, string>) returns (cssAtr: string)
  {
    cssAtr := "";
    var todo := css.Keys;
    while todo != {}
      invariant todo <= css.Keys
      decreases |todo|
    {
      var p :| p in todo;
      cssAtr := cssAtr + (if cssAtr == "" then "" else " ") + p + ": " + css[p] + ";";
      todo := todo - {p};
    }
  }

  /** One ` key="value"` per attribute; empty exactly when there are none. */
  method AttributePairs(attributes: map<string, string>) returns (part: string)
    ensures part == "" <==> attributes == map[]
  {
    part := "";
    var todo := attributes.Keys;
    while todo != {}
      invariant todo <= attributes.Keys
      invariant part == "" <==> todo == attributes.Keys
      decreases |todo|
    {
      var p :| p in todo;
      part := part + (" " + p + "=\"" + attributes[p] + "\"");
      todo := todo - {p};
    }
    assert attributes == map[] <==> attributes.Keys == {};
  }

  /** One call made by `execute`: the registry key looked up and the arguments passed. */
  datatype Invocation = Invocation(key: string, args: seq<string>)

  /** The modifier calls `execute` makes, in list order. */
  function ModCalls(mods: seq<FuncCall>, funcs: set<string>): seq<Invocation>
  {
    if mods == [] then []
    else
      var m := mods[|mods| - 1];
      ModCalls(mods[..|mods| - 1], funcs) +
        (if m.name != "" && "&" + m.name in funcs then [Invocation("&" + m.name, m.args)] else [])
  }

  /** The generator call, if the command names a registered generator. */
  function GenCall(c: Command, funcs: set<string>): seq<Invocation>
  {
    if c.genFunction.name != "" && "$" + c.genFunction.name in funcs
    then [Invocation("$" + c.genFunction.name, c.genFunction.args)] else []
  }

  lemma {:induction false} ModCallsShape(mods: seq<FuncCall>, funcs: set<string>)
    ensures |ModCalls(mods, funcs)| <= |mods|
    ensures forall j :: 0 <= j < |ModCalls(mods, funcs)| ==>
      ModCalls(mods, funcs)[j].key in funcs && ModCalls(mods, funcs)[j].key != [] && ModCalls(mods, funcs)[j].key[0] == '&'
    ensures forall m :: m in mods && m.name != "" && "&" + m.name in funcs ==>
      Invocation("&" + m.name, m.args) in ModCalls(mods, funcs)
  {
    if mods != [] {
      var init := mods[..|mods| - 1];
      ModCallsShape(init, funcs);
      assert mods == init + [mods[|mods| - 1]];
    }
  }

  /**
   * `ASTCommand::execute` for one step: the generator `"$" + name` is looked
   * up and called first, then `"&" + name` for every modifier with a
   * non-empty name, each call only when the registry knows the key.
   */
  method Execute(c: Command, funcs: set<string>) returns (calls: seq<Invocation>)
    ensures calls == GenCall(c, funcs) + ModCalls(c.modFunctions, funcs)
    ensures forall j :: 0 <= j < |calls| ==> calls[j].key in funcs
    ensures forall j :: 0 < j < |calls| ==> calls[j].key != [] && calls[j].key[0] == '&'
    ensures |calls| <= |c.modFunctions| + 1
  {
    calls := [];
    if c.genFunction.name != "" {
      if "$" + c.genFunction.name in funcs {
        calls := calls + [Invocation("$" + c.genFunction.name, c.genFunction.args)];
      }
    }
    var i := 0;
    while i < |c.modFunctions|
      invariant 0 <= i <= |c.modFunctions|
      invariant calls == GenCall(c, funcs) + ModCalls(c.modFunctions[..i], funcs)
    {
      assert c.modFunctions[..i + 1][..i] == c.modFunctions[..i];
      var e := c.modFunctions[i];
      if e.name != "" {
        if "&" + e.name in funcs {
          calls := calls + [Invocation("&" + e.name, e.args)];
        }
      }
      i := i + 1;
    }
    assert c.modFunctions[..i] == c.modFunctions;
    ModCallsShape(c.modFunctions, funcs);
  }
}
