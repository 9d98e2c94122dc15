/**
 * Shared vocabulary: an option type, the C-locale character classes the
 * compiler relies on, and the delimiter splitter that both
 * `ASTCommand::splitAt` and the highlighter's `splitStr` implement.
 */
module Util {

  datatype Option<T> = None | Some(value: T)

  predicate IsDigit(c: char) { '0' <= c <= '9' }
  predicate IsUpper(c: char) { 'A' <= c <= 'Z' }
  predicate IsLower(c: char) { 'a' <= c <= 'z' }
  predicate IsAlnum(c: char) { IsDigit(c) || IsUpper(c) || IsLower(c) }

  /** `std::isspace` in the "C" locale. */
  predicate IsSpace(c: char)
  {
    c == ' ' || c == '\t' || c == '\n' || c == '\U{B}' || c == '\U{C}' || c == '\r'
  }

  function DigitValue(c: char): nat
    requires IsDigit(c)
  {
    (c as int - '0' as int) as nat
  }

  /** The leading run of decimal digits, which `stoul` and `stoi` read. */
  function LeadingDigits(s: string): (r: string)
    ensures r <= s && forall k :: 0 <= k < |r| ==> IsDigit(r[k])
    ensures |r| < |s| ==> !IsDigit(s[|r|])
  {
    if s == [] || !IsDigit(s[0]) then [] else [s[0]] + LeadingDigits(s[1..])
  }

  function DecimalValue(ds: string): nat
    requires forall k :: 0 <= k < |ds| ==> IsDigit(ds[k])
  {
    if ds == [] then 0 else DecimalValue(ds[..|ds| - 1]) * 10 + DigitValue(ds[|ds| - 1])
  }

  /** `std::string(n, c)`. */
  function Repeat(c: char, n: nat): (r: string)
    ensures |r| == n
    ensures forall i :: 0 <= i < n ==> r[i] == c
  {
    if n == 0 then [] else [c] + Repeat(c, n - 1)
  }

  /** The characters of `s` that are not delimiters, in order. */
  function Without(s: string, delims: set<char>): string
  {
    if s == [] then [] else (if s[0] in delims then [] else [s[0]]) + Without(s[1..], delims)
  }

  function Concat(pieces: seq<string>): string
  {
    if pieces == [] then [] else pieces[0] + Concat(pieces[1..])
  }

  lemma ConcatAppend(pieces: seq<string>, p: string)
    ensures Concat(pieces + [p]) == Concat(pieces) + p
  {
    if pieces == [] {
      assert [p][1..] == [];
    } else {
      assert (pieces + [p])[1..] == pieces[1..] + [p];
      ConcatAppend(pieces[1..], p);
    }
  }

  /**
   * One step-by-step reading of the splitter: `tok` is the token being
   * collected, `acc` the tokens already emitted, `rest` the unread input.
   * A delimiter closes a non-empty token; delimiters themselves are dropped.
   */
  function SplitFrom(rest: string, delims: set<char>, tok: string, acc: seq<string>): seq<string>
    decreases |rest|
  {
    if rest == [] then
      (if tok != [] then acc + [tok] else acc)
    else if rest[0] in delims then
      SplitFrom(rest[1..], delims, [], if tok != [] then acc + [tok] else acc)
    else
      SplitFrom(rest[1..], delims, tok + [rest[0]], acc)
  }

  function Split(s: string, delims: set<char>): seq<string>
  {
    SplitFrom(s, delims, [], [])
  }

  predicate GoodTokens(ts: seq<string>, delims: set<char>)
  {
    forall i :: 0 <= i < |ts| ==> ts[i] != [] && forall k :: 0 <= k < |ts[i]| ==> ts[i][k] !in delims
  }

  lemma GoodTokensAppend(ts: seq<string>, t: string, delims: set<char>)
    requires GoodTokens(ts, delims)
    requires t != [] && forall k :: 0 <= k < |t| ==> t[k] !in delims
    ensures GoodTokens(ts + [t], delims)
  {
    forall i | 0 <= i < |ts + [t]|
      ensures (ts + [t])[i] != [] && forall k :: 0 <= k < |(ts + [t])[i]| ==> (ts + [t])[i][k] !in delims
    {
      if i < |ts| { assert (ts + [t])[i] == ts[i]; } else { assert (ts + [t])[i] == t; }
    }
  }

  lemma {:induction false} SplitFromGood(rest: string, delims: set<char>, tok: string, acc: seq<string>)
    requires GoodTokens(acc, delims)
    requires forall k :: 0 <= k < |tok| ==> tok[k] !in delims
    ensures GoodTokens(SplitFrom(rest, delims, tok, acc), delims)
    decreases |rest|
  {
    var acc' := if tok != [] then acc + [tok] else acc;
    if tok != [] {
      GoodTokensAppend(acc, tok, delims);
    }
    if rest == [] {
    } else if rest[0] in delims {
      SplitFromGood(rest[1..], delims, [], acc');
    } else {
      var tok' := tok + [rest[0]];
      assert forall k :: 0 <= k < |tok'| ==> tok'[k] !in delims by {
        forall k | 0 <= k < |tok'| ensures tok'[k] !in delims {
          if k < |tok| { assert tok'[k] == tok[k]; }
        }
      }
      SplitFromGood(rest[1..], delims, tok', acc);
    }
  }

  lemma {:induction false} SplitFromConcat(rest: string, delims: set<char>, tok: string, acc: seq<string>)
    ensures Concat(SplitFrom(rest, delims, tok, acc)) == Concat(acc) + tok + Without(rest, delims)
    decreases |rest|, 1
  {
    if rest == [] {
      if tok != [] {
        ConcatAppend(acc, tok);
      }
    } else if rest[0] in delims {
      SplitConcatAtDelimiter(rest, delims, tok, acc);
    } else {
      var tok' := tok + [rest[0]];
      SplitFromConcat(rest[1..], delims, tok', acc);
      assert Without(rest, delims) == [rest[0]] + Without(rest[1..], delims);
      Regroup(Concat(acc), tok, rest[0], Without(rest[1..], delims));
    }
  }

  lemma {:induction false} SplitConcatAtDelimiter(rest: string, delims: set<char>, tok: string, acc: seq<string>)
    requires rest != [] && rest[0] in delims
    ensures Concat(SplitFrom(rest, delims, tok, acc)) == Concat(acc) + tok + Without(rest, delims)
    decreases |rest|, 0
  {
    var acc' := if tok != [] then acc + [tok] else acc;
    if tok != [] {
      ConcatAppend(acc, tok);
    }
    assert Concat(acc') == Concat(acc) + tok;
    assert SplitFrom(rest, delims, tok, acc) == SplitFrom(rest[1..], delims, [], acc');
    var w := Without(rest[1..], delims);
    assert Without(rest, delims) == w;
    SplitFromConcat(rest[1..], delims, [], acc');
    assert Concat(acc') + [] == Concat(acc');
  }

  lemma Regroup<T>(a: seq<T>, b: seq<T>, c: T, w: seq<T>)
    ensures a + (b + [c]) + w == a + b + ([c] + w)
  {
  }


  /**
   * Splitting never yields an empty token, no token holds a delimiter, and
   * the tokens glued back together are the input with its delimiters removed.
   */
  lemma SplitProperties(s: string, delims: set<char>)
    ensures GoodTokens(Split(s, delims), delims)
    ensures Concat(Split(s, delims)) == Without(s, delims)
  {
    SplitFromGood(s, delims, [], []);
    SplitFromConcat(s, delims, [], []);
  }

  /**
   * The splitting loop shared by `ASTCommand::splitAt` and `splitStr`:
   * it walks the input once, collecting characters into a token that each
   * delimiter closes.
   */
  method SplitLoop(s: string, delims: set<char>) returns (result: seq<string>)
    ensures result == Split(s, delims)
    ensures GoodTokens(result, delims)
    ensures Concat(result) == Without(s, delims)
  {
    result := [];
    var tok: string := [];
    var i := 0;
    while i < |s|
      invariant 0 <= i <= |s|
      invariant SplitFrom(s[i..], delims, tok, result) == Split(s, delims)
    {
      assert s[i..][1..] == s[i + 1..];
      if s[i] in delims {
        if tok != [] {
          result := result + [tok];
        }
        tok := [];
      } else {
        tok := tok + [s[i]];
      }
      i := i + 1;
    }
    if tok != [] {
      result := result + [tok];
    }
    SplitProperties(s, delims);
  }
}
