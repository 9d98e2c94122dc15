/**
 * Identifier helpers of the compiler namespace: `trim`, `makeId`, which
 * turns heading text or a link target into an HTML id, and `isId`.
 */
module Ids {
  import opened Util

  // ---------------------------------------------------------------------
  // trim
  // ---------------------------------------------------------------------

  predicate AllSpace(s: string)
  {
    forall k :: 0 <= k < |s| ==> IsSpace(s[k])
  }

  /** `s` with its leading and trailing `isspace` characters removed. */
  function Trim(s: string): string
  {
    RTrim(LTrim(s))
  }

  function LTrim(s: string): string
  {
    if s != [] && IsSpace(s[0]) then LTrim(s[1..]) else s
  }

  function RTrim(s: string): string
  {
    if s != [] && IsSpace(s[|s| - 1]) then RTrim(s[..|s| - 1]) else s
  }

  /** The trimmed text is a middle slice framed by whitespace only, and starts and ends on non-space. */
  lemma TrimShape(s: string)
    ensures exists a, b :: 0 <= a <= b <= |s| && Trim(s) == s[a..b] && AllSpace(s[..a]) && AllSpace(s[b..])
    ensures Trim(s) != [] ==> !IsSpace(Trim(s)[0]) && !IsSpace(Trim(s)[|Trim(s)| - 1])
  {
    var a := LTrimShape(s);
    var t := s[a..];
    var b := RTrimShape(t);
    assert s[a..][..b] == s[a..a + b];
    assert s[a..][b..] == s[a + b..];
    assert Trim(s) == s[a..a + b];
    if Trim(s) != [] {
      assert Trim(s)[0] == t[0];
    }
  }

  lemma {:induction false} LTrimShape(s: string) returns (a: nat)
    ensures a <= |s| && LTrim(s) == s[a..] && AllSpace(s[..a])
    ensures LTrim(s) != [] ==> !IsSpace(LTrim(s)[0])
  {
    if s != [] && IsSpace(s[0]) {
      var a' := LTrimShape(s[1..]);
      a := a' + 1;
      assert s[1..][a'..] == s[a..];
      assert forall k :: 0 <= k < a ==> s[..a][k] == (if k == 0 then s[0] else s[1..][..a'][k - 1]);
    } else {
      a := 0;
    }
  }

  lemma {:induction false} RTrimShape(s: string) returns (b: nat)
    ensures b <= |s| && RTrim(s) == s[..b] && AllSpace(s[b..])
    ensures b > 0 ==> !IsSpace(s[b - 1])
    ensures s != [] && !IsSpace(s[0]) ==> b > 0
  {
    if s != [] && IsSpace(s[|s| - 1]) {
      var s' := s[..|s| - 1];
      b := RTrimShape(s');
      assert s'[..b] == s[..b];
      forall k | 0 <= k < |s[b..]| ensures IsSpace(s[b..][k]) {
        if b + k < |s| - 1 {
          assert s[b..][k] == s'[b..][k];
        }
      }
      if b > 0 { assert s[b - 1] == s'[b - 1]; }
      if s' != [] { assert s'[0] == s[0]; }
    } else {
      b := |s|;
      assert s[..b] == s;
    }
  }

  /** `ltrim`: erase the leading run of whitespace. */
  method LTrimInPlace(s: string) returns (t: string)
    ensures t == LTrim(s)
  {
    var a := 0;
    while a < |s| && IsSpace(s[a])
      invariant 0 <= a <= |s|
      invariant LTrim(s) == LTrim(s[a..])
    {
      assert s[a..][1..] == s[a + 1..];
      a := a + 1;
    }
    t := s[a..];
  }

  /** `rtrim`: erase the trailing run of whitespace. */
  method RTrimInPlace(s: string) returns (t: string)
    ensures t == RTrim(s)
  {
    var b := |s|;
    assert s[..b] == s;
    while b > 0 && IsSpace(s[b - 1])
      invariant 0 <= b <= |s|
      invariant RTrim(s) == RTrim(s[..b])
    {
      assert s[..b][..b - 1] == s[..b - 1];
      b := b - 1;
    }
    t := s[..b];
  }

  /** `trim`: `ltrim` then `rtrim`. */
  method TrimInPlace(s: string) returns (t: string)
    ensures t == Trim(s)
  {
    t := LTrimInPlace(s);
    t := RTrimInPlace(t);
  }

  // ---------------------------------------------------------------------
  // makeId
  // ---------------------------------------------------------------------

  /** The characters `makeId` can emit: `a-z 0-9 _ -`. */
  predicate IdChar(c: char)
  {
    IsLower(c) || IsDigit(c) || c == '_' || c == '-'
  }

  /** The letter part of one step: a letter is appended in lower case. */
  function LetterStep(id: string, e: char): string
  {
    if IsUpper(e) then id + [(e as int + 32) as char] else if IsLower(e) then id + [e] else id
  }

  /** What one input character adds to the id built so far. */
  function IdStep(id: string, e: char): string
  {
    var id1 := LetterStep(id, e);
    if id1 == [] then id1
    else if IsDigit(e) then id1 + [e]
    else if (e == '_' || e == '-') && id1[|id1| - 1] != e then id1 + [e]
    else if e == ' ' && id1[|id1| - 1] != '-' then id1 + ['-']
    else id1
  }

  function IdFrom(id: string, rest: string): string
    decreases |rest|
  {
    if rest == [] then id else IdFrom(IdStep(id, rest[0]), rest[1..])
  }

  /** The id `makeId` derives from a string. */
  function MakeIdOf(str: string): string
  {
    IdFrom([], Trim(str))
  }

  /** `Notedown::makeId`. */
  method MakeId(str: string) returns (id: string)
    ensures id == MakeIdOf(str)
  {
    var s := TrimInPlace(str);
    id := [];
    var i := 0;
    while i < |s|
      invariant 0 <= i <= |s|
      invariant IdFrom(id, s[i..]) == MakeIdOf(str)
    {
      assert s[i..][1..] == s[i + 1..];
      var e := s[i];
      if IsUpper(e) {
        id := id + [(e as int + 32) as char];
      }
      if IsLower(e) {
        id := id + [e];
      }
      if id != [] {
        if IsDigit(e) {
          id := id + [e];
        }
        if (e == '_' || e == '-') && id[|id| - 1] != e {
          id := id + [e];
        }
        if e == ' ' && id[|id| - 1] != '-' {
          id := id + ['-'];
        }
      }
      i := i + 1;
    }
  }

  /**
   * The shape every id `makeId` emits: only `a-z 0-9 _ -`, starting with a
   * lowercase letter, and never `--` or `__`.
   */
  predicate WellFormedId(id: string)
  {
    (forall k :: 0 <= k < |id| ==> IdChar(id[k])) &&
    (id != [] ==> IsLower(id[0])) &&
    (forall k :: 0 < k < |id| && (id[k] == '-' || id[k] == '_') ==> id[k - 1] != id[k])
  }

  lemma LetterStepWellFormed(id: string, e: char)
    requires WellFormedId(id)
    ensures WellFormedId(LetterStep(id, e))
    ensures |LetterStep(id, e)| >= |id| && LetterStep(id, e)[..|id|] == id
  {
    var id1 := LetterStep(id, e);
    forall k | 0 < k < |id1| && (id1[k] == '-' || id1[k] == '_') ensures id1[k - 1] != id1[k] {
      assert k < |id|;
      assert id1[k] == id[k] && id1[k - 1] == id[k - 1];
    }
    assert id1[..|id|] == id;
  }

  lemma IdStepWellFormed(id: string, e: char)
    requires WellFormedId(id)
    ensures WellFormedId(IdStep(id, e))
    ensures |IdStep(id, e)| >= |id| && IdStep(id, e)[..|id|] == id
  {
    var id1 := LetterStep(id, e);
    LetterStepWellFormed(id, e);
    var r := IdStep(id, e);
    forall k | 0 < k < |r| && (r[k] == '-' || r[k] == '_') ensures r[k - 1] != r[k] {
      if k < |id1| { assert r[k] == id1[k] && r[k - 1] == id1[k - 1]; }
    }
    assert r[..|id1|] == id1;
    assert r[..|id|] == id1[..|id|];
  }

  lemma {:induction false} IdFromWellFormed(id: string, rest: string)
    requires WellFormedId(id)
    ensures WellFormedId(IdFrom(id, rest))
    decreases |rest|
  {
    if rest != [] {
      IdStepWellFormed(id, rest[0]);
      IdFromWellFormed(IdStep(id, rest[0]), rest[1..]);
    }
  }

  /**
   * `makeId` emits only `a-z 0-9 _ -`; its output is empty or starts with a
   * lowercase letter and never contains `--` or `__`.
   */
  lemma MakeIdWellFormed(str: string)
    ensures WellFormedId(MakeIdOf(str))
  {
    IdFromWellFormed([], Trim(str));
  }

  /** Uppercase letters come out lowered: an upper-case letter becomes its lower-case twin. */
  lemma MakeIdLowersLetters(c: char)
    requires IsUpper(c)
    ensures MakeIdOf([c]) == [(c as int + 32) as char]
    ensures IsLower(MakeIdOf([c])[0])
  {
    assert !IsSpace(c);
    assert LTrim([c]) == [c];
    assert RTrim([c]) == [c];
    assert [c][1..] == [];
    assert IdFrom([], [c]) == IdStep([], c);
  }

  /** Reading a well-formed id back in copies it character by character. */
  lemma {:induction false} IdFromCopies(r: string, i: nat)
    requires WellFormedId(r) && i <= |r|
    ensures IdFrom(r[..i], r[i..]) == r
    decreases |r| - i
  {
    if i < |r| {
      var e := r[i];
      assert r[..i + 1] == r[..i] + [e];
      assert IdStep(r[..i], e) == r[..i + 1] by {
        if i > 0 {
          assert r[..i][i - 1] == r[i - 1];
          if e == '-' || e == '_' { assert r[i - 1] != e; }
        } else {
          assert IsLower(e);
        }
      }
      assert r[i..][1..] == r[i + 1..];
      IdFromCopies(r, i + 1);
    } else {
      assert r[..i] == r;
    }
  }

  lemma WellFormedTrimmed(r: string)
    requires WellFormedId(r)
    ensures Trim(r) == r
  {
    if r != [] {
      assert !IsSpace(r[0]);
      assert LTrim(r) == r;
      assert !IsSpace(r[|r| - 1]) by { assert IdChar(r[|r| - 1]); }
    }
  }

  /** `makeId(makeId(s)) == makeId(s)`. */
  lemma MakeIdIdempotent(str: string)
    ensures MakeIdOf(MakeIdOf(str)) == MakeIdOf(str)
  {
    var r := MakeIdOf(str);
    MakeIdWellFormed(str);
    WellFormedTrimmed(r);
    IdFromCopies(r, 0);
    assert r[..0] == [] && r[0..] == r;
  }

  // ---------------------------------------------------------------------
  // isId
  // ---------------------------------------------------------------------

  /**
   * `Notedown::isId` as written: the `find_first_not_of(...) == npos` test
   * is true when every character is valid, yet it is stored as
   * `invalidChars` and negated, so the function holds iff the first
   * character is lowercase AND some character is outside `a-z 0-9 _ -`.
   * For the empty string `id[0]` is the terminator, which is not lowercase.
   */
  predicate IsIdAsWritten(id: string)
  {
    var allValid := forall k :: 0 <= k < |id| ==> IdChar(id[k]);
    var startValid := |id| > 0 && IsLower(id[0]);
    startValid && !allValid
  }

  /** What the doc comment describes: lowercase start, only `a-z 0-9 _ -`. */
  predicate IsId(id: string)
  {
    |id| > 0 && IsLower(id[0]) && forall k :: 0 <= k < |id| ==> IdChar(id[k])
  }

  /** As written, `isId` rejects every id `makeId` produces. */
  lemma IsIdAsWrittenRejectsMadeIds(str: string)
    ensures !IsIdAsWritten(MakeIdOf(str))
  {
    MakeIdWellFormed(str);
  }

  /** A concrete witness: the heading text `"A"` becomes the id `"a"`, which `isId` as written rejects. */
  lemma IsIdAsWrittenCounterexample()
    ensures MakeIdOf("A") == "a"
    ensures !IsIdAsWritten("a") && IsId("a")
  {
    MakeIdLowersLetters('A');
  }

  /** The corrected check accepts exactly the non-empty ids `makeId` can produce. */
  lemma IsIdAcceptsMadeIds(str: string)
    ensures MakeIdOf(str) != [] <==> IsId(MakeIdOf(str))
  {
    MakeIdWellFormed(str);
  }

  /** The corrected check is the well-formedness of a non-empty id, minus the repeated-separator rule. */
  lemma IsIdOfWellFormed(id: string)
    ensures WellFormedId(id) && id != [] ==> IsId(id)
    ensures IsId(id) ==> !IsIdAsWritten(id)
  {
  }
}
