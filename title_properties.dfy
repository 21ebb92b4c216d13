/** What a title line turns into: the name before the first separator and
    the year text after it, parsed as one `u16` year or a `-` range. */
module TitleProperties {
  import opened Wrappers
  import opened Text
  import opened Numbers
  import opened Separator
  import opened BookParse

  /** What a year text means: without a `-`, the trimmed text is one year,
      both start and end; with one, the trimmed pieces before the first `-`
      and between the first and second `-` are the start and the end. The
      time exists exactly when each of those is a `u16` numeral. */
  lemma ParseTimeMeaning(ys: string)
    ensures '-' !in ys ==>
              ParseTime(ys) ==
                if IsNumeral(Trim(ys), U16_MAX)
                then Some(Time(NumeralValue(Trim(ys)), NumeralValue(Trim(ys))))
                else None
    ensures '-' in ys ==>
              var v := Split(ys, '-');
              ParseTime(ys) ==
                if IsNumeral(Trim(v[0]), U16_MAX) && IsNumeral(Trim(v[1]), U16_MAX)
                then Some(Time(NumeralValue(Trim(v[0])), NumeralValue(Trim(v[1]))))
                else None
  {
  }

  /** What the year text of a title is, in terms of its chunks: it holds no
      separator; it is empty exactly when every chunk after the name is;
      otherwise it is the first non-empty chunk after the name. */
  lemma YearTextMeaning(title: string)
    ensures SeparatorFree(YearText(title))
    ensures var chunks := SplitSeparators(title);
            YearText(title) == [] <==> forall k :: 1 <= k < |chunks| ==> chunks[k] == []
    ensures var chunks := SplitSeparators(title);
            YearText(title) != [] ==>
              exists k :: 1 <= k < |chunks| && chunks[k] == YearText(title)
                          && forall j :: 1 <= j < k ==> chunks[j] == []
  {
    FirstNonEmptyAfterHead(SplitSeparators(title));
  }

  /** The first non-empty chunk after the head, indexed in the whole list. */
  lemma FirstNonEmptyAfterHead(chunks: seq<string>)
    requires |chunks| >= 1
    ensures FirstNonEmpty(chunks[1..]) == [] <==> forall k :: 1 <= k < |chunks| ==> chunks[k] == []
    ensures FirstNonEmpty(chunks[1..]) != [] ==>
              exists k :: 1 <= k < |chunks| && chunks[k] == FirstNonEmpty(chunks[1..])
                          && forall j :: 1 <= j < k ==> chunks[j] == []
  {
    var rest := chunks[1..];
    var ys := FirstNonEmpty(rest);
    if ys != [] {
      var k :| 0 <= k < |rest| && rest[k] == ys
               && forall j :: 0 <= j < k ==> rest[j] == [];
      assert chunks[k + 1] == ys;
      forall j | 1 <= j < k + 1 ensures chunks[j] == [] {
        assert rest[j - 1] == [];
      }
    } else {
      forall j | 1 <= j < |chunks| ensures chunks[j] == [] {
        assert rest[j - 1] == [];
      }
    }
  }

  /** A decimal rendering holds neither whitespace nor `-`. */
  lemma DecimalIsPlain(n: nat)
    ensures IsTrimmed(ToDecimal(n))
    ensures '-' !in ToDecimal(n)
    ensures SeparatorFree(ToDecimal(n))
  {
    var d := ToDecimal(n);
    assert IsDigit(d[0]) && IsDigit(d[|d| - 1]);
    forall j | 0 <= j < |d| ensures d[j] != '-' && MatchLen(d, j) == 0 {
      assert IsDigit(d[j]);
    }
  }

  /** Whitespace holds no `-`. */
  lemma WhitespaceHasNoDash(w: string)
    requires AllWhitespace(w)
    ensures '-' !in w
  {
    forall j | 0 <= j < |w| ensures w[j] != '-' {
      assert IsWhitespace(w[j]);
    }
  }

  /** A padded year piece is parsed back: trimming drops the padding and the
      `u16` parse reads the digits. */
  lemma YearPiece(w1: string, y: U16, w2: string)
    requires AllWhitespace(w1) && AllWhitespace(w2)
    ensures '-' !in w1 + ToDecimal(y) + w2
    ensures ParseYear(Trim(w1 + ToDecimal(y) + w2)) == Some(y)
  {
    DecimalIsPlain(y);
    WhitespaceHasNoDash(w1);
    WhitespaceHasNoDash(w2);
    TrimPadded(w1, ToDecimal(y), w2);
    ParseToDecimal(y, U16_MAX);
  }

  /** A single year, padded with whitespace, is a time that starts and ends
      in that year. */
  lemma YearSingle(w1: string, y: U16, w2: string)
    requires AllWhitespace(w1) && AllWhitespace(w2)
    ensures ParseTime(w1 + ToDecimal(y) + w2) == Some(Time(y, y))
  {
    YearPiece(w1, y, w2);
  }

  /** A year beyond the `u16` range is refused. */
  lemma YearOutOfRange(n: nat)
    requires n > U16_MAX
    ensures ParseTime(ToDecimal(n)) == None
  {
    DecimalIsPlain(n);
    TrimOfTrimmed(ToDecimal(n));
    ParseToDecimal(n, U16_MAX);
  }

  /** A missing year is refused. */
  lemma YearMissing()
    ensures ParseTime("") == None
  {
    assert Trim("") == "";
  }

  /** A range `start-end`, each side padded with whitespace, is the time from
      `start` to `end`; any further `-` pieces are ignored. */
  lemma YearRange(
    w1: string, y1: U16, w2: string, w3: string, y2: U16, w4: string, more: seq<string>)
    requires AllWhitespace(w1) && AllWhitespace(w2) && AllWhitespace(w3) && AllWhitespace(w4)
    requires forall k :: 0 <= k < |more| ==> '-' !in more[k]
    ensures ParseTime(Join([w1 + ToDecimal(y1) + w2, w3 + ToDecimal(y2) + w4] + more, '-'))
              == Some(Time(y1, y2))
  {
    var p0 := w1 + ToDecimal(y1) + w2;
    var p1 := w3 + ToDecimal(y2) + w4;
    YearPiece(w1, y1, w2);
    YearPiece(w3, y2, w4);
    SplitJoinFirstTwo(p0, p1, more, '-');
  }

  /** The year text of a title whose name is followed by tabs (possibly
      leaving empty chunks) and then the year is that year text. */
  lemma {:induction false} FirstNonEmptyAfterBlanks(blanks: seq<string>, ys: string)
    requires forall k :: 0 <= k < |blanks| ==> blanks[k] == []
    requires ys != []
    ensures FirstNonEmpty(blanks + [ys]) == ys
    decreases |blanks|
  {
    if blanks != [] {
      assert (blanks + [ys])[1..] == blanks[1..] + [ys];
      FirstNonEmptyAfterBlanks(blanks[1..], ys);
    }
  }

  /** Splitting a title laid out as the name, one or more tabs and the year
      text gives the name first and the year text as the year. */
  lemma TabbedChunks(name: string, blanks: seq<string>, ys: string)
    requires SeparatorFree(name) && SeparatorFree(ys) && ys != []
    requires forall k :: 0 <= k < |blanks| ==> blanks[k] == []
    ensures SplitSeparators(Join([name] + blanks + [ys], '\t'))[0] == name
    ensures YearText(Join([name] + blanks + [ys], '\t')) == ys
  {
    var parts := [name] + blanks + [ys];
    TabbedPartsFree(name, blanks, ys);
    SplitJoinTabs(parts);
    NameAndYear(parts, name, blanks, ys);
  }

  /** The chunks of such a title: the name first, then the year text as
      the first non-empty chunk after it. */
  lemma NameAndYear(chunks: seq<string>, name: string, blanks: seq<string>, ys: string)
    requires chunks == [name] + blanks + [ys] && ys != []
    requires forall k :: 0 <= k < |blanks| ==> blanks[k] == []
    ensures chunks[0] == name && FirstNonEmpty(chunks[1..]) == ys
  {
    assert chunks[1..] == blanks + [ys];
    FirstNonEmptyAfterBlanks(blanks, ys);
  }

  lemma TabbedPartsFree(name: string, blanks: seq<string>, ys: string)
    requires SeparatorFree(name) && SeparatorFree(ys)
    requires forall k :: 0 <= k < |blanks| ==> blanks[k] == []
    ensures forall k :: 0 <= k < |[name] + blanks + [ys]| ==>
              SeparatorFree(([name] + blanks + [ys])[k])
  {
    var parts := [name] + blanks + [ys];
    forall k | 0 <= k < |parts| ensures SeparatorFree(parts[k]) {
      if 0 < k < |parts| - 1 {
        assert parts[k] == blanks[k - 1];
      }
    }
  }

  /** A title laid out as the name, one or more tabs and the year text makes
      the book with that name and that time, or none when the year does not
      parse. */
  lemma TabbedTitle(name: string, blanks: seq<string>, ys: string)
    requires SeparatorFree(name) && SeparatorFree(ys) && ys != []
    requires forall k :: 0 <= k < |blanks| ==> blanks[k] == []
    ensures NewBook(Join([name] + blanks + [ys], '\t')) ==
              match ParseTime(ys)
              case None => None
              case Some(t) => Some(Book(name, t, None, None, None, None))
  {
    TabbedChunks(name, blanks, ys);
  }

  /** A title laid out as the name, four spaces and the year text makes the
      book with that name and that time, or none when the year does not
      parse; the name must not end in a space, since the leftmost group of
      four spaces would then start inside it. */
  lemma SpacedTitle(name: string, ys: string)
    requires SeparatorFree(name) && (name == [] || name[|name| - 1] != ' ')
    requires SeparatorFree(ys) && ys != []
    ensures NewBook(name + "    " + ys) ==
              match ParseTime(ys)
              case None => None
              case Some(t) => Some(Book(name, t, None, None, None, None))
  {
    var title := name + "    " + ys;
    SplitAtSpaces(name, ys);
    var rest := SplitSeparators(ys);
    assert rest == [ys];
    assert SplitSeparators(title) == [name, ys];
    assert YearText(title) == FirstNonEmpty([ys]);
  }

  /** With five spaces between the name and the year, the leftmost group of
      four starts right after the name: the name keeps no trailing space and
      the fifth space goes to the year text, which trimming drops. */
  lemma FiveSpacedTitle(name: string, y: U16)
    requires SeparatorFree(name) && (name == [] || name[|name| - 1] != ' ')
    ensures NewBook(name + "     " + ToDecimal(y)) ==
              Some(Book(name, Time(y, y), None, None, None, None))
  {
    var d := ToDecimal(y);
    var ys := " " + d;
    FifthSpace(name, d);
    DecimalIsPlain(y);
    SpaceBeforeFree(d);
    YearSingle(" ", y, "");
    assert ParseTime(ys) == Some(Time(y, y)) by {
      assert ys == " " + d + "";
    }
    SpacedTitle(name, ys);
  }

  lemma FifthSpace(name: string, d: string)
    ensures name + "     " + d == name + "    " + (" " + d)
  {
  }

  /** One space before a separator-free piece that does not start with a
      space adds no separator. */
  lemma SpaceBeforeFree(d: string)
    requires SeparatorFree(d) && (d == [] || d[0] != ' ')
    ensures SeparatorFree(" " + d)
  {
    forall j | 0 <= j < |" " + d| ensures MatchLen(" " + d, j) == 0 {
      NoMatchAfterSpace(d, j);
    }
  }

  lemma NoMatchAfterSpace(d: string, j: nat)
    requires SeparatorFree(d) && (d == [] || d[0] != ' ')
    requires j < |d| + 1
    ensures MatchLen(" " + d, j) == 0
  {
    var t := " " + d;
    if j == 0 {
      if 4 <= |t| {
        assert t[0..4][1] == d[0];
      }
    } else {
      assert MatchLen(d, j - 1) == 0;
      assert t[j] == d[j - 1];
      if j + 4 <= |t| {
        assert t[j..j + 4] == d[j - 1..j + 3];
      }
    }
  }

  /** A title with no tab and no four spaces has no year, so it makes no
      book. */
  lemma TitleWithoutYear(title: string)
    requires SeparatorFree(title)
    ensures NewBook(title) == None
  {
    YearMissing();
  }
}
