/** The string primitives of Rust's `str` that the parser relies on:
    `trim`, `split(char)`, `contains`, and the prefix test on `to_lowercase()`. */
module Text {

  /** Rust's `char::is_whitespace`: the characters with the Unicode
      White_Space property. */
  predicate IsWhitespace(c: char)
  {
    var n := c as int;
    (9 <= n <= 13) || n == 32 || n == 0x85 || n == 0xA0 || n == 0x1680
    || (0x2000 <= n <= 0x200A) || n == 0x2028 || n == 0x2029 || n == 0x202F
    || n == 0x205F || n == 0x3000
  }

  /** Nothing but whitespace. */
  predicate AllWhitespace(s: string)
  {
    forall i :: 0 <= i < |s| ==> IsWhitespace(s[i])
  }

  /** No whitespace at either end. */
  predicate IsTrimmed(s: string)
  {
    s == [] || (!IsWhitespace(s[0]) && !IsWhitespace(s[|s| - 1]))
  }

  /** `str::trim_start`: drops the leading whitespace. */
  function TrimStart(s: string): string
    decreases |s|
  {
    if |s| > 0 && IsWhitespace(s[0]) then TrimStart(s[1..]) else s
  }

  /** `str::trim_end`: drops the trailing whitespace. */
  function TrimEnd(s: string): string
    decreases |s|
  {
    if |s| > 0 && IsWhitespace(s[|s| - 1]) then TrimEnd(s[..|s| - 1]) else s
  }

  /** `TrimStart` drops the leading whitespace and nothing else. */
  lemma {:induction false} TrimStartDrops(s: string)
    ensures |TrimStart(s)| <= |s| && TrimStart(s) == s[|s| - |TrimStart(s)|..]
    ensures forall i :: 0 <= i < |s| - |TrimStart(s)| ==> IsWhitespace(s[i])
    ensures TrimStart(s) == [] || !IsWhitespace(TrimStart(s)[0])
    decreases |s|
  {
    if |s| > 0 && IsWhitespace(s[0]) {
      TrimStartDrops(s[1..]);
      var r := TrimStart(s[1..]);
      assert s[1..][|s| - 1 - |r|..] == s[|s| - |r|..];
      forall i | 0 <= i < |s| - |r| ensures IsWhitespace(s[i]) {
        if i > 0 {
          assert s[i] == s[1..][i - 1];
        }
      }
    }
  }

  /** `TrimEnd` drops the trailing whitespace and nothing else. */
  lemma {:induction false} TrimEndDrops(s: string)
    ensures |TrimEnd(s)| <= |s| && TrimEnd(s) == s[..|TrimEnd(s)|]
    ensures forall i :: |TrimEnd(s)| <= i < |s| ==> IsWhitespace(s[i])
    ensures TrimEnd(s) == [] || !IsWhitespace(TrimEnd(s)[|TrimEnd(s)| - 1])
    decreases |s|
  {
    if |s| > 0 && IsWhitespace(s[|s| - 1]) {
      TrimEndDrops(s[..|s| - 1]);
      var r := TrimEnd(s[..|s| - 1]);
      assert s[..|s| - 1][..|r|] == s[..|r|];
      forall i | |r| <= i < |s| ensures IsWhitespace(s[i]) {
        if i < |s| - 1 {
          assert s[i] == s[..|s| - 1][i];
        }
      }
    }
  }

  /** `str::trim`: drops the whitespace at both ends. */
  function Trim(s: string): (r: string)
    ensures IsTrimmed(r)
  {
    TrimInfix(s);
    TrimEnd(TrimStart(s))
  }

  /** What `Trim` leaves is an infix of `s` with only whitespace before and
      after it. */
  lemma TrimInfix(s: string)
    ensures IsTrimmed(TrimEnd(TrimStart(s)))
    ensures exists i, j {:trigger s[i..j]} :: 0 <= i <= j <= |s| && TrimEnd(TrimStart(s)) == s[i..j]
                        && AllWhitespace(s[..i]) && AllWhitespace(s[j..])
  {
    TrimStartDrops(s);
    TrimEndAfterStart(s, TrimStart(s));
  }

  /** `TrimEnd` applied to what `TrimStart` left of `s`. */
  lemma TrimEndAfterStart(s: string, t: string)
    requires |t| <= |s| && t == s[|s| - |t|..]
    requires forall m :: 0 <= m < |s| - |t| ==> IsWhitespace(s[m])
    requires t == [] || !IsWhitespace(t[0])
    ensures IsTrimmed(TrimEnd(t))
    ensures exists i, j {:trigger s[i..j]} :: 0 <= i <= j <= |s| && TrimEnd(t) == s[i..j]
                        && AllWhitespace(s[..i]) && AllWhitespace(s[j..])
  {
    TrimEndDrops(t);
    TrimBoth(s, t, TrimEnd(t));
  }

  /** The infix that `Trim` leaves, as a property of `Trim`. */
  lemma TrimIsInfix(s: string)
    ensures exists i, j {:trigger s[i..j]} :: 0 <= i <= j <= |s| && Trim(s) == s[i..j]
                        && AllWhitespace(s[..i]) && AllWhitespace(s[j..])
  {
    TrimInfix(s);
  }

  /** What `TrimStart` then `TrimEnd` leave, by their contracts: a trimmed
      infix with whitespace on both sides. */
  lemma TrimBoth(s: string, t: string, r: string)
    requires |t| <= |s| && t == s[|s| - |t|..]
    requires forall m :: 0 <= m < |s| - |t| ==> IsWhitespace(s[m])
    requires t == [] || !IsWhitespace(t[0])
    requires |r| <= |t| && r == t[..|r|]
    requires forall m :: |r| <= m < |t| ==> IsWhitespace(t[m])
    requires r == [] || !IsWhitespace(r[|r| - 1])
    ensures IsTrimmed(r)
    ensures exists i, j {:trigger s[i..j]} :: 0 <= i <= j <= |s| && r == s[i..j]
                        && AllWhitespace(s[..i]) && AllWhitespace(s[j..])
  {
    var i := |s| - |t|;
    assert r != [] ==> r[0] == t[0];
    WhitespaceAfter(s, i, t, |r|);
    PrefixOfSuffix(s, i, t, r);
    InfixWitness(s, r, i, i + |r|);
  }

  /** Whitespace at the end of the suffix `t` of `s` is whitespace at the
      end of `s`. */
  lemma WhitespaceAfter(s: string, i: int, t: string, n: int)
    requires 0 <= i <= |s| && t == s[i..] && 0 <= n <= |t|
    requires forall m :: n <= m < |t| ==> IsWhitespace(t[m])
    ensures forall m :: i + n <= m < |s| ==> IsWhitespace(s[m])
  {
    forall m | i + n <= m < |s| ensures IsWhitespace(s[m]) {
      assert s[m] == t[m - i];
    }
  }

  /** A prefix of the suffix `t` of `s` from `i` is the infix of `s` from
      `i`. */
  lemma PrefixOfSuffix(s: string, i: int, t: string, r: string)
    requires 0 <= i <= |s| && t == s[i..] && |r| <= |t| && r == t[..|r|]
    ensures r == s[i..i + |r|]
  {
  }

  /** An infix with only whitespace before and after it, given by its
      bounds. */
  lemma InfixWitness(s: string, r: string, i: int, j: int)
    requires 0 <= i <= j <= |s| && r == s[i..j]
    requires forall m :: 0 <= m < i ==> IsWhitespace(s[m])
    requires forall m :: j <= m < |s| ==> IsWhitespace(s[m])
    ensures exists i, j {:trigger s[i..j]} :: 0 <= i <= j <= |s| && r == s[i..j]
                        && AllWhitespace(s[..i]) && AllWhitespace(s[j..])
  {
    forall k | 0 <= k < i ensures IsWhitespace(s[..i][k]) {
      assert s[..i][k] == s[k];
    }
    forall k | 0 <= k < |s| - j ensures IsWhitespace(s[j..][k]) {
      assert s[j..][k] == s[j + k];
    }
    assert AllWhitespace(s[..i]) && AllWhitespace(s[j..]);
  }

  /** Trimming a string that is already trimmed changes nothing. */
  lemma TrimOfTrimmed(s: string)
    requires IsTrimmed(s)
    ensures Trim(s) == s
  {
  }

  /** Trimming adds no character: a character absent from `s` is absent
      from `Trim(s)`. */
  lemma TrimKeepsOut(s: string, c: char)
    requires c !in s
    ensures c !in Trim(s)
  {
    TrimIsInfix(s);
    var i, j :| 0 <= i <= j <= |s| && Trim(s) == s[i..j]
                && AllWhitespace(s[..i]) && AllWhitespace(s[j..]);
    forall k | 0 <= k < |Trim(s)| ensures Trim(s)[k] != c {
      assert Trim(s)[k] == s[i + k];
    }
  }

  /** Trimming leaves nothing exactly when the string is all whitespace. */
  lemma TrimEmpty(s: string)
    ensures Trim(s) == [] <==> AllWhitespace(s)
  {
    TrimIsInfix(s);
    var i, j :| 0 <= i <= j <= |s| && Trim(s) == s[i..j]
                && AllWhitespace(s[..i]) && AllWhitespace(s[j..]);
    EmptyInfix(s, Trim(s), i, j);
  }

  /** A trimmed infix with whitespace on both sides is empty exactly when
      the whole string is whitespace. */
  lemma EmptyInfix(s: string, r: string, i: int, j: int)
    requires 0 <= i <= j <= |s| && r == s[i..j] && IsTrimmed(r)
    requires AllWhitespace(s[..i]) && AllWhitespace(s[j..])
    ensures r == [] <==> AllWhitespace(s)
  {
    if r != [] {
      assert s[i] == r[0];
    } else {
      assert s == s[..i] + s[j..];
    }
  }

  /** ASCII lower-casing, which is what `to_lowercase` does to the letters of
      the parser's keys. */
  function LowerAscii(c: char): char
  {
    if 'A' <= c <= 'Z' then (c as int + 32) as char else c
  }

  /** `s.to_lowercase().starts_with(key)` for a lower-case ASCII `key`. */
  predicate StartsWithFolded(s: string, key: string)
  {
    |key| <= |s| && forall i :: 0 <= i < |key| ==> LowerAscii(s[i]) == key[i]
  }

  /** Position of the first `c` in `s`. */
  function IndexOf(s: string, c: char): (i: nat)
    requires c in s
    ensures i < |s| && s[i] == c && c !in s[..i]
  {
    if s[0] == c then 0 else 1 + IndexOf(s[1..], c)
  }

  /** Glues `parts` back together with `c` between neighbours: the inverse of
      `Split`. */
  function Join(parts: seq<string>, c: char): string
    requires |parts| >= 1
    decreases |parts|
  {
    if |parts| == 1 then parts[0] else parts[0] + [c] + Join(parts[1..], c)
  }

  /** `str::split(c)`: the pieces between occurrences of `c`, empty pieces
      included, so that there is always at least one. */
  function Split(s: string, c: char): (r: seq<string>)
    ensures |r| >= 1
    ensures forall k :: 0 <= k < |r| ==> c !in r[k]
    ensures Join(r, c) == s
    ensures c in s ==> |r| >= 2
    decreases |s|
  {
    if c in s then
      var i := IndexOf(s, c);
      var rest := Split(s[i + 1..], c);
      assert ([s[..i]] + rest)[1..] == rest;
      assert s == s[..i] + [c] + s[i + 1..];
      [s[..i]] + rest
    else
      [s]
  }

  /** Joining two or more pieces puts the separator after the first. */
  lemma JoinHasSeparator(parts: seq<string>, c: char)
    requires |parts| >= 2
    ensures |parts[0]| < |Join(parts, c)| && Join(parts, c)[|parts[0]|] == c
    ensures c in Join(parts, c)
  {
    assert Join(parts, c) == parts[0] + [c] + Join(parts[1..], c);
  }

  /** Splitting what `Join` produced gives the parts back. */
  lemma {:induction false} SplitJoin(parts: seq<string>, c: char)
    requires |parts| >= 1
    requires forall k :: 0 <= k < |parts| ==> c !in parts[k]
    ensures Split(Join(parts, c), c) == parts
    decreases |parts|
  {
    if |parts| > 1 {
      SplitJoin(parts[1..], c);
      SplitJoinStep(parts, c);
    } else {
      assert c !in parts[0];
    }
  }

  /** One more part in front: if the join of the later parts splits back into
      them, the join of all of them does too. */
  lemma SplitJoinStep(parts: seq<string>, c: char)
    requires |parts| > 1 && c !in parts[0]
    requires Split(Join(parts[1..], c), c) == parts[1..]
    ensures Split(Join(parts, c), c) == parts
  {
    var rest := Join(parts[1..], c);
    assert Join(parts, c) == parts[0] + [c] + rest;
    ConcatAround(parts[0], c, rest);
    SplitAt(parts[0] + [c] + rest, c, |parts[0]|);
    assert [parts[0]] + parts[1..] == parts;
  }

  /** The pieces of `p + [c] + r` around its `c` at `|p|`. */
  lemma ConcatAround(p: string, c: char, r: string)
    ensures |p| < |p + [c] + r| && (p + [c] + r)[|p|] == c
    ensures (p + [c] + r)[..|p|] == p && (p + [c] + r)[|p| + 1..] == r
  {
  }

  /** Splitting at the first `c`, found at `i`. */
  lemma SplitAt(s: string, c: char, i: int)
    requires 0 <= i < |s| && s[i] == c && c !in s[..i]
    ensures Split(s, c) == [s[..i]] + Split(s[i + 1..], c)
  {
  }

  /** Splitting two or more separator-free pieces joined by `c` gives the
      first two back as its first two pieces. */
  lemma SplitJoinFirstTwo(p0: string, p1: string, more: seq<string>, c: char)
    requires c !in p0 && c !in p1
    requires forall k :: 0 <= k < |more| ==> c !in more[k]
    ensures c in Join([p0, p1] + more, c)
    ensures |Split(Join([p0, p1] + more, c), c)| >= 2
    ensures Split(Join([p0, p1] + more, c), c)[0] == p0
    ensures Split(Join([p0, p1] + more, c), c)[1] == p1
  {
    var parts := [p0, p1] + more;
    PiecesFree(p0, p1, more, c);
    JoinHasSeparator(parts, c);
    SplitJoin(parts, c);
  }

  lemma PiecesFree(p0: string, p1: string, more: seq<string>, c: char)
    requires c !in p0 && c !in p1
    requires forall k :: 0 <= k < |more| ==> c !in more[k]
    ensures forall k :: 0 <= k < |[p0, p1] + more| ==> c !in ([p0, p1] + more)[k]
  {
    var parts := [p0, p1] + more;
    forall k | 0 <= k < |parts| ensures c !in parts[k] {
      if k >= 2 {
        assert parts[k] == more[k - 2];
      }
    }
  }

  /** Leading whitespace in front of a string that does not start with
      whitespace is exactly what `TrimStart` removes. */
  lemma {:induction false} TrimStartPadded(w: string, t: string)
    requires AllWhitespace(w)
    requires t == [] || !IsWhitespace(t[0])
    ensures TrimStart(w + t) == t
    decreases |w|
  {
    if w == [] {
      assert w + t == t;
    } else {
      assert (w + t)[1..] == w[1..] + t;
      TrimStartPadded(w[1..], t);
    }
  }

  /** Trailing whitespace behind a string that does not end with whitespace
      is exactly what `TrimEnd` removes. */
  lemma {:induction false} TrimEndPadded(t: string, w: string)
    requires AllWhitespace(w)
    requires t == [] || !IsWhitespace(t[|t| - 1])
    ensures TrimEnd(t + w) == t
    decreases |w|
  {
    if w == [] {
      assert t + w == t;
    } else {
      assert (t + w)[..|t + w| - 1] == t + w[..|w| - 1];
      TrimEndPadded(t, w[..|w| - 1]);
    }
  }

  /** `trim` undoes any whitespace padding of a trimmed string. */
  lemma TrimPadded(w1: string, x: string, w2: string)
    requires AllWhitespace(w1) && AllWhitespace(w2) && IsTrimmed(x)
    ensures Trim(w1 + x + w2) == x
  {
    if x == [] {
      assert AllWhitespace(w1 + x + w2) by {
        assert forall i :: 0 <= i < |w1 + x + w2| ==>
          (w1 + x + w2)[i] == if i < |w1| then w1[i] else w2[i - |w1|];
      }
      TrimEmpty(w1 + x + w2);
    } else {
      assert w1 + x + w2 == w1 + (x + w2);
      TrimStartPadded(w1, x + w2);
      TrimEndPadded(x, w2);
    }
  }
}
