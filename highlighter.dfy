/**
 * The syntax highlighter's plain algorithms: `splitStr`, the group list of
 * a `SyntaxGroup`, and the stitching loop of `highlight_callback`, which
 * walks the regex matches of an input in position order and hands every
 * piece of the input to a writer. Regex matching itself is not modelled:
 * the matches arrive as a list, in the order the source emplaces them.
 */
module Highlighter {
  import opened Util

  /** `splitStr(str, delimiters)`: any character of `delimiters` separates tokens. */
  method SplitStr(str: string, delimiters: string) returns (result: seq<string>)
    ensures result == Split(str, set c | c in delimiters)
    ensures GoodTokens(result, set c | c in delimiters)
    ensures Concat(result) == Without(str, set c | c in delimiters)
  {
    result := SplitLoop(str, set c | c in delimiters);
  }

  // ---------------------------------------------------------------------
  // SyntaxGroup
  // ---------------------------------------------------------------------

  predicate Distinct(gs: seq<string>)
  {
    forall i, j :: 0 <= i < j < |gs| ==> gs[i] != gs[j]
  }

  /** The group list after `addGroup(name)`. */
  function Added(gs: seq<string>, name: string): seq<string>
  {
    if name in gs then gs else gs + [name]
  }

  /**
   * `addGroup` keeps the list duplicate-free, always ends with `name`
   * present, keeps every earlier group at its index, and grows by one
   * exactly when `name` was absent.
   */
  lemma AddedProperties(gs: seq<string>, name: string)
    ensures Distinct(gs) ==> Distinct(Added(gs, name))
    ensures name in Added(gs, name)
    ensures |Added(gs, name)| == |gs| + (if name in gs then 0 else 1)
    ensures Added(gs, name)[..|gs|] == gs
    ensures forall g :: g in Added(gs, name) <==> g in gs || g == name
  {
  }

  class SyntaxGroup {
    var groups: seq<string>
    var matches: map<string, seq<string>>

    ghost predicate Valid()
      reads this
    {
      Distinct(groups)
    }

    constructor ()
      ensures groups == [] && matches == map[]
      ensures Valid()
    {
      groups := [];
      matches := map[];
    }

    /** `SyntaxGroup::addGroup`: a linear scan that returns early on a hit. */
    method AddGroup(name: string)
      modifies this
      ensures groups == Added(old(groups), name)
      ensures matches == old(matches)
      ensures old(Valid()) ==> Valid()
    {
      var i := 0;
      while i < |groups|
        invariant 0 <= i <= |groups|
        invariant name !in groups[..i]
      {
        if groups[i] == name {
          return;
        }
        assert groups[..i + 1] == groups[..i] + [groups[i]];
        i := i + 1;
      }
      assert groups[..i] == groups;
      groups := groups + [name];
      AddedProperties(old(groups), name);
    }

    /** `SyntaxGroup::addMatch` for a list of patterns: registers the group and appends the patterns. */
    method AddMatch(name: string, patterns: seq<string>)
      modifies this
      ensures groups == Added(old(groups), name)
      ensures matches == old(matches)[name := (if name in old(matches) then old(matches)[name] else []) + patterns]
      ensures old(Valid()) ==> Valid()
    {
      AddGroup(name);
      var list := if name in matches then matches[name] else [];
      matches := matches[name := list + patterns];
    }
  }

  // ---------------------------------------------------------------------
  // highlight_callback
  // ---------------------------------------------------------------------

  /** One regex match: the group whose pattern matched, its position and length. */
  datatype Match = Match(group: string, pos: nat, len: nat)

  /** One call of the writer: a piece of the input and the group it belongs to (`""` for no group). */
  datatype Piece = Piece(text: string, group: string)

  /**
   * The ordered match set of `highlight_callback` compares by position only,
   * so `emplace` keeps the first match at each position. The set is given
   * as a map from position to the match kept there.
   */
  method OrderedMatches(found: seq<Match>) returns (m: map<nat, Match>)
    ensures m == FirstMatches(found)
    ensures forall j :: 0 <= j < |found| ==> found[j].pos in m
    ensures forall p :: p in m ==> m[p].pos == p
    ensures forall p :: p in m ==> exists j :: 0 <= j < |found| && m[p] == found[j] && FirstAt(found, j)
  {
    m := map[];
    var i := 0;
    while i < |found|
      invariant 0 <= i <= |found|
      invariant forall j :: 0 <= j < i ==> found[j].pos in m
      invariant forall p :: p in m ==> m[p].pos == p
      invariant forall p :: p in m ==> exists j :: 0 <= j < i && m[p] == found[j] && FirstAt(found, j)
      invariant m == FirstMatches(found[..i])
    {
      assert found[..i + 1][..i] == found[..i];
      var f := found[i];
      if f.pos !in m {
        assert FirstAt(found, i);
        m := m[f.pos := f];
      }
      i := i + 1;
    }
    assert found[..i] == found;
  }

  /** The ordered match set as a function of the matches: `emplace` of each in turn, ignoring a taken position. */
  function FirstMatches(found: seq<Match>): map<nat, Match>
  {
    if found == [] then map[]
    else
      var m := FirstMatches(found[..|found| - 1]);
      var f := found[|found| - 1];
      if f.pos in m then m else m[f.pos := f]
  }

  /** `found[j]` is the first match at its position. */
  predicate FirstAt(found: seq<Match>, j: nat)
    requires j < |found|
  {
    forall j' :: 0 <= j' < j ==> found[j'].pos != found[j].pos
  }

  /** Every kept match lies inside the input. */
  predicate Inside(input: string, m: map<nat, Match>)
  {
    forall p :: p in m ==> m[p].pos == p && p + m[p].len <= |input|
  }

  /**
   * The writer calls made while walking positions `p, p+1, ..., |input|`
   * with the input consumed up to `cursor`: a match that starts at or after
   * the cursor writes the gap before it with group `""` and then itself; a
   * match starting before the cursor is skipped; the rest of the input is
   * written last with group `""`.
   */
  function StitchFrom(input: string, m: map<nat, Match>, p: nat, cursor: nat): seq<Piece>
    requires Inside(input, m) && cursor <= |input|
    decreases |input| + 1 - p
  {
    if p > |input| then [Piece(input[cursor..], "")]
    else if p in m && cursor <= p then
      [Piece(input[cursor..p], ""), Piece(input[p..p + m[p].len], m[p].group)]
        + StitchFrom(input, m, p + 1, p + m[p].len)
    else StitchFrom(input, m, p + 1, cursor)
  }

  function Stitch(input: string, m: map<nat, Match>): seq<Piece>
    requires Inside(input, m)
  {
    StitchFrom(input, m, 0, 0)
  }

  function Texts(ps: seq<Piece>): seq<string>
  {
    if ps == [] then [] else [ps[0].text] + Texts(ps[1..])
  }

  /**
   * Shape of the writer calls: an odd number of pieces; the even-numbered
   * ones are gaps with group `""`, the odd-numbered ones are the text of a
   * kept match with that match's group.
   */
  predicate WellStitched(input: string, m: map<nat, Match>, ps: seq<Piece>)
    requires Inside(input, m)
  {
    |ps| % 2 == 1 &&
    (forall i :: 0 <= i < |ps| && i % 2 == 0 ==> ps[i].group == "") &&
    (forall i :: 0 <= i < |ps| && i % 2 == 1 ==>
      exists p :: p in m && ps[i] == Piece(input[p..p + m[p].len], m[p].group))
  }

  lemma ConcatTwoPieces(gap: string, text: string, group: string, tail: seq<Piece>)
    ensures Concat(Texts([Piece(gap, ""), Piece(text, group)] + tail)) == gap + text + Concat(Texts(tail))
  {
    var ps := [Piece(gap, ""), Piece(text, group)] + tail;
    assert ps[1..] == [Piece(text, group)] + tail;
    assert ps[1..][1..] == tail;
    assert Texts(ps) == [gap] + ([text] + Texts(tail));
    assert Concat(Texts(ps)) == gap + Concat([text] + Texts(tail));
    assert ([text] + Texts(tail))[1..] == Texts(tail);
  }

  /** The pieces glued together are the input from the cursor on. */
  lemma {:induction false} StitchFromConcat(input: string, m: map<nat, Match>, p: nat, cursor: nat)
    requires Inside(input, m) && cursor <= |input|
    ensures Concat(Texts(StitchFrom(input, m, p, cursor))) == input[cursor..]
    decreases |input| + 1 - p
  {
    if p > |input| {
      assert Texts([Piece(input[cursor..], "")]) == [input[cursor..]];
      assert Concat([input[cursor..]]) == input[cursor..] + Concat([]);
    } else if p in m && cursor <= p {
      var e := p + m[p].len;
      StitchFromConcat(input, m, p + 1, e);
      ConcatTwoPieces(input[cursor..p], input[p..e], m[p].group, StitchFrom(input, m, p + 1, e));
      assert input[cursor..] == input[cursor..p] + input[p..e] + input[e..];
    } else {
      StitchFromConcat(input, m, p + 1, cursor);
    }
  }

  /** The pieces are well stitched. */
  lemma {:induction false} StitchFromShape(input: string, m: map<nat, Match>, p: nat, cursor: nat)
    requires Inside(input, m) && cursor <= |input|
    ensures WellStitched(input, m, StitchFrom(input, m, p, cursor))
    decreases |input| + 1 - p
  {
    var r := StitchFrom(input, m, p, cursor);
    if p > |input| {
    } else if p in m && cursor <= p {
      var e := p + m[p].len;
      var tail := StitchFrom(input, m, p + 1, e);
      StitchFromShape(input, m, p + 1, e);
      assert r == [Piece(input[cursor..p], ""), Piece(input[p..e], m[p].group)] + tail;
      forall i | 0 <= i < |r| && i % 2 == 1
        ensures exists q :: q in m && r[i] == Piece(input[q..q + m[q].len], m[q].group)
      {
        if i == 1 {
          assert r[i] == Piece(input[p..p + m[p].len], m[p].group);
        } else {
          assert r[i] == tail[i - 2];
        }
      }
      forall i | 0 <= i < |r| && i % 2 == 0 ensures r[i].group == "" {
        if i >= 2 { assert r[i] == tail[i - 2]; }
      }
    } else {
      StitchFromShape(input, m, p + 1, cursor);
    }
  }

  /**
   * For matches inside the input, the writer receives the whole input
   * exactly once, in order: gaps with group `""`, matches with their group.
   */
  lemma StitchCoversInput(input: string, m: map<nat, Match>)
    requires Inside(input, m)
    ensures Concat(Texts(Stitch(input, m))) == input
    ensures WellStitched(input, m, Stitch(input, m))
  {
    StitchFromConcat(input, m, 0, 0);
    StitchFromShape(input, m, 0, 0);
  }

  /** The match at the smallest position is always the second writer call. */
  lemma FirstMatchWritten(input: string, m: map<nat, Match>, k: nat)
    requires Inside(input, m) && k in m
    requires forall q :: q in m ==> k <= q
    ensures |Stitch(input, m)| >= 2
    ensures Stitch(input, m)[0] == Piece(input[..k], "")
    ensures Stitch(input, m)[1] == Piece(input[k..k + m[k].len], m[k].group)
  {
    SkipToFirst(input, m, 0, k);
  }

  lemma {:induction false} SkipToFirst(input: string, m: map<nat, Match>, p: nat, k: nat)
    requires Inside(input, m) && k in m && p <= k
    requires forall q :: q in m ==> k <= q
    ensures StitchFrom(input, m, p, 0) == StitchFrom(input, m, k, 0)
    decreases k - p
  {
    if p < k {
      assert p !in m;
      SkipToFirst(input, m, p + 1, k);
    }
  }

  /**
   * A match that starts inside the text of the previously written match is
   * dropped: walking from a cursor past `p` never writes `p`'s match first.
   */
  lemma OverlapSkipped(input: string, m: map<nat, Match>, p: nat, cursor: nat)
    requires Inside(input, m) && cursor <= |input| && p < cursor && p in m
    ensures StitchFrom(input, m, p, cursor) == StitchFrom(input, m, p + 1, cursor)
  {
  }

  /**
   * The stitching loop of `highlight_callback`. The ordered set is walked
   * in ascending position, which for matches inside the input is the walk
   * over the positions `0..|input|`; `cursor` plays `input_begin`.
   */
  method HighlightCallback(input: string, found: seq<Match>) returns (pieces: seq<Piece>)
    requires forall j :: 0 <= j < |found| ==> found[j].pos + found[j].len <= |input|
    ensures Inside(input, FirstMatches(found))
    ensures pieces == Stitch(input, FirstMatches(found))
    ensures Concat(Texts(pieces)) == input
    ensures |pieces| % 2 == 1
    ensures forall i :: 0 <= i < |pieces| && i % 2 == 0 ==> pieces[i].group == ""
  {
    var m := OrderedMatches(found);
    assert Inside(input, m) by {
      forall p | p in m ensures m[p].pos == p && p + m[p].len <= |input| {
        var j :| 0 <= j < |found| && m[p] == found[j] && FirstAt(found, j);
      }
    }
    pieces := [];
    var cursor := 0;
    var p := 0;
    while p <= |input|
      invariant 0 <= p <= |input| + 1
      invariant cursor <= |input|
      invariant pieces + StitchFrom(input, m, p, cursor) == Stitch(input, m)
      decreases |input| + 1 - p
    {
      if p in m {
        var e := p + m[p].len;
        if cursor <= p {
          pieces := pieces + [Piece(input[cursor..p], "")];
          pieces := pieces + [Piece(input[p..e], m[p].group)];
          cursor := e;
        }
      }
      p := p + 1;
    }
    pieces := pieces + [Piece(input[cursor..], "")];
    StitchCoversInput(input, m);
  }
}
