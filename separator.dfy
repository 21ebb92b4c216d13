/** The split of a title line by the regular expression `\t|    `: a match is
    a single tab or exactly four spaces, matches are found left to right and do
    not overlap, and the text between them (empty pieces included) is kept. */
module Separator {
  import opened Text

  /** Length of the match of `\t|    ` starting at `i`, or 0 when none starts
      there. The tab alternative is tried first. */
  function MatchLen(s: string, i: nat): (n: nat)
    requires i <= |s|
    ensures n == 0 || n == 1 || n == 4
    ensures n > 0 ==> i + n <= |s|
  {
    if i < |s| && s[i] == '\t' then 1
    else if i + 4 <= |s| && s[i..i + 4] == "    " then 4
    else 0
  }

  /** No match starts anywhere in `t`: it holds no tab and no four spaces in
      a row. */
  predicate SeparatorFree(t: string)
  {
    forall j :: 0 <= j < |t| ==> MatchLen(t, j) == 0
  }

  /** The leftmost match in `s` starts at `i`: none starts before it, and
      one starts there unless `i` is the end of `s`. */
  predicate FirstMatchAt(s: string, i: nat)
  {
    && i <= |s|
    && (forall j :: 0 <= j < i ==> MatchLen(s, j) == 0)
    && (i < |s| ==> MatchLen(s, i) > 0)
  }

  /** The leftmost match at or after `from`, or `|s|` when there is none. */
  function NextMatch(s: string, from: nat): (i: nat)
    requires from <= |s|
    ensures from <= i <= |s|
    ensures forall j :: from <= j < i ==> MatchLen(s, j) == 0
    ensures i < |s| ==> MatchLen(s, i) > 0
    decreases |s| - from
  {
    if from == |s| || MatchLen(s, from) > 0 then from else NextMatch(s, from + 1)
  }

  /** A match inside a prefix is a match in the whole string. */
  lemma MatchInPrefix(s: string, i: nat, j: nat)
    requires j < i <= |s|
    ensures MatchLen(s[..i], j) > 0 ==> MatchLen(s, j) > 0
  {
    if j + 4 <= i {
      assert s[..i][j..j + 4] == s[j..j + 4];
    }
  }

  /** `Regex::new(r"\t|    ").split(s)`: never empty; no piece holds a
      separator; the first piece is the text of `s` before the leftmost
      match (all of `s` when there is none): no match starts inside it and
      one starts right after it. */
  function SplitSeparators(s: string): (r: seq<string>)
    ensures |r| >= 1
    ensures forall k :: 0 <= k < |r| ==> SeparatorFree(r[k])
    ensures |r[0]| <= |s| && r[0] == s[..|r[0]|]
    ensures |r| == 1 ==> r[0] == s
    ensures |r| > 1 ==> MatchLen(s, |r[0]|) > 0
    ensures forall j :: 0 <= j < |r[0]| ==> MatchLen(s, j) == 0
    decreases |s|
  {
    var i := NextMatch(s, 0);
    if i == |s| then
      assert SeparatorFree(s);
      [s]
    else
      assert SeparatorFree(s[..i]) by {
        forall j | 0 <= j < i ensures MatchLen(s[..i], j) == 0 {
          MatchInPrefix(s, i, j);
        }
      }
      [s[..i]] + SplitSeparators(s[i + MatchLen(s, i)..])
  }

  /** A trimmed, non-empty line yields a non-empty first piece that is free
      of tabs. */
  lemma FirstPieceOfTrimmed(s: string)
    requires IsTrimmed(s) && s != []
    ensures SplitSeparators(s)[0] != []
    ensures '\t' !in SplitSeparators(s)[0]
  {
    var r := SplitSeparators(s);
    assert MatchLen(s, 0) == 0 by {
      assert !IsWhitespace(s[0]);
    }
    if |r| > 1 {
      assert |r[0]| != 0;
    }
    forall j | 0 <= j < |r[0]| ensures r[0][j] != '\t' {
      assert MatchLen(r[0], j) == 0;
    }
  }

  /** `iter().skip(1).filter(|s| *s != "").take(1)` collected into a string:
      the first non-empty chunk, or the empty string when there is none. */
  function FirstNonEmpty(chunks: seq<string>): (r: string)
    ensures r == [] <==> forall k :: 0 <= k < |chunks| ==> chunks[k] == []
    ensures r != [] ==> exists k :: 0 <= k < |chunks| && chunks[k] == r
                                    && forall j :: 0 <= j < k ==> chunks[j] == []
    decreases |chunks|
  {
    if chunks == [] then []
    else if chunks[0] != [] then chunks[0]
    else
      var r := FirstNonEmpty(chunks[1..]);
      assert forall k :: 1 <= k < |chunks| ==> chunks[k] == chunks[1..][k - 1];
      r
  }

  /** A tab right after a separator-free piece ends the first piece there. */
  lemma SplitAtTab(a: string, b: string)
    requires SeparatorFree(a)
    ensures SplitSeparators(a + ['\t'] + b) == [a] + SplitSeparators(b)
  {
    var s := a + ['\t'] + b;
    forall j | 0 <= j < |a|
      ensures MatchLen(s, j) == 0
    {
      assert MatchLen(a, j) == 0;
      assert s[j] == a[j];
      if j + 4 <= |s| && j + 4 > |a| {
        assert s[j..j + 4][|a| - j] == '\t';
      } else if j + 4 <= |a| {
        assert s[j..j + 4] == a[j..j + 4];
      }
    }
    NextMatchAt(s, 0, |a|);
    assert s[..|a|] == a;
    assert s[|a| + 1..] == b;
  }

  /** Four spaces right after a separator-free piece that does not end in a
      space end the first piece there. */
  lemma SplitAtSpaces(a: string, b: string)
    requires SeparatorFree(a) && (a == [] || a[|a| - 1] != ' ')
    ensures SplitSeparators(a + "    " + b) == [a] + SplitSeparators(b)
  {
    var s := a + "    " + b;
    forall j | 0 <= j < |a| ensures MatchLen(s, j) == 0 {
      NoMatchBeforeSpaces(a, b, j);
    }
    assert MatchLen(s, |a|) == 4 by {
      assert s[|a|] == ' ' && s[|a|..|a| + 4] == "    ";
    }
    NextMatchAt(s, 0, |a|);
    assert s[..|a|] == a;
    assert s[|a| + 4..] == b;
  }

  /** No match starts inside such a piece once the spaces follow it: a
      group of four would have to take the piece's last character. */
  lemma NoMatchBeforeSpaces(a: string, b: string, j: nat)
    requires SeparatorFree(a) && (a == [] || a[|a| - 1] != ' ') && j < |a|
    ensures MatchLen(a + "    " + b, j) == 0
  {
    var s := a + "    " + b;
    assert MatchLen(a, j) == 0;
    assert s[j] == a[j];
    if j + 4 > |a| {
      assert s[j..j + 4][|a| - 1 - j] == a[|a| - 1];
    } else {
      assert s[j..j + 4] == a[j..j + 4];
    }
  }

  /** The leftmost match is at `i` when none starts in `from..i` and one
      starts at `i`. */
  lemma {:induction false} NextMatchAt(s: string, from: nat, i: nat)
    requires from <= i < |s|
    requires forall j :: from <= j < i ==> MatchLen(s, j) == 0
    requires MatchLen(s, i) > 0
    ensures NextMatch(s, from) == i
    decreases i - from
  {
    if from < i {
      NextMatchAt(s, from + 1, i);
    }
  }

  /** Round trip: joining separator-free pieces with tabs and splitting the
      result gives the pieces back. */
  lemma {:induction false} SplitJoinTabs(parts: seq<string>)
    requires |parts| >= 1
    requires forall k :: 0 <= k < |parts| ==> SeparatorFree(parts[k])
    ensures SplitSeparators(Join(parts, '\t')) == parts
    decreases |parts|
  {
    if |parts| > 1 {
      SplitAtTab(parts[0], Join(parts[1..], '\t'));
      SplitJoinTabs(parts[1..]);
    }
  }
}
