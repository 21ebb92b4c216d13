/** What `Books::parse` promises for every input, stated over the line-by-line
    specification `Step`/`Run` that `Parse` is proved to follow. */
module CatalogProperties {
  import opened Wrappers
  import opened Text
  import opened Numbers
  import opened Separator
  import opened LineFold
  import opened BookParse

  /** A failed parse names the line it failed on: every line before it
      parses, and that line's own step fails with the reported error. */
  lemma CatalogFailsAtFirstBadLine(input: string)
    requires Catalog(input).Err?
    ensures var lines := Lines(input);
            var e := Catalog(input).error;
            && e.line < |lines|
            && Run([], lines[..e.line], 0).Ok?
            && Step(Run([], lines[..e.line], 0).value, lines[e.line], e.line) == Err(e)
  {
    var lines := Lines(input);
    FoldFailsAtFirstBadLine(Step, [], lines, 0);
  }

  /** Why a line fails, exactly: a metadata line before any title line, a
      `pages` value that is not a `usize`, or a title whose year text does
      not parse. Every failure carries the line's own number. */
  lemma StepFailure(books: seq<Book>, raw: string, n: nat)
    ensures Classify(Trim(raw)).Metadata? ==> ':' in Trim(raw)
    ensures Step(books, raw, n) == Err(ParseError(n, NoCurrentBook)) <==>
              Classify(Trim(raw)).Metadata? && books == []
    ensures Step(books, raw, n) == Err(ParseError(n, MalformedPages)) <==>
              && Classify(Trim(raw)) == Metadata(Pages) && books != []
              && ParseUnsigned(MetadataValue(Trim(raw)), USIZE_MAX).None?
    ensures Step(books, raw, n) == Err(ParseError(n, MalformedYear)) <==>
              Classify(Trim(raw)) == Title && ParseTime(YearText(Trim(raw))).None?
    ensures Step(books, raw, n).Err? ==> Step(books, raw, n).error.line == n
  {
    var s := Trim(raw);
    if Classify(s).Metadata? {
      StepMetadata(books, raw, n);
    } else if Classify(s) == Title {
      StepTitle(books, raw, n);
    } else {
      StepSkips(books, raw, n);
    }
  }

  /** The value of a metadata line is the trimmed text between its first and
      second `:`; anything after a second `:` is dropped. */
  lemma MetadataValueIsSecondChunk(head: string, v: string, more: seq<string>)
    requires ':' !in head && ':' !in v
    requires forall k :: 0 <= k < |more| ==> ':' !in more[k]
    ensures ':' in Join([head, v] + more, ':')
    ensures MetadataValue(Join([head, v] + more, ':')) == Trim(v)
  {
    SplitJoinFirstTwo(head, v, more, ':');
  }

  /** A line that is blank or holds an unknown key. */
  predicate Skipped(raw: string)
  {
    Classify(Trim(raw)) == UnknownKey || Classify(Trim(raw)) == Blank
  }

  /** Blank lines and unknown keys, however many, change nothing. */
  lemma SkippedLinesChangeNothing(books: seq<Book>, lines: seq<string>, at: nat)
    requires forall k :: 0 <= k < |lines| ==> Skipped(lines[k])
    ensures Run(books, lines, at) == Ok(books)
  {
    forall k | 0 <= k < |lines|
      ensures Step(books, lines[k], at + k) == Ok(books)
    {
      StepSkips(books, lines[k], at + k);
    }
    FoldNoOps(Step, books, lines, at);
  }

  /** The trimmed title lines among `lines`, in order. */
  function TitleLines(lines: seq<string>): (t: seq<string>)
    ensures forall k :: 0 <= k < |t| ==> IsTrimmed(t[k]) && Classify(t[k]) == Title
    decreases |lines|
  {
    if lines == [] then []
    else
      var s := Trim(lines[0]);
      (if Classify(s) == Title then [s] else []) + TitleLines(lines[1..])
  }

  /** The books that the title lines `titles` create, in order; a title whose
      year does not parse creates none. */
  function Made(titles: seq<string>): (r: seq<Book>)
    ensures |r| <= |titles|
    decreases |titles|
  {
    if titles == [] then []
    else
      (match NewBook(titles[0])
       case None => []
       case Some(b) => [b])
      + Made(titles[1..])
  }

  /** Every book a title line makes has no metadata yet. */
  lemma {:induction false} MadeAreBare(titles: seq<string>)
    ensures forall k :: 0 <= k < |Made(titles)| ==> IsBare(Made(titles)[k])
    decreases |titles|
  {
    if titles != [] {
      MadeAreBare(titles[1..]);
      MadeFirst(titles);
      FirstMadeBare(titles[0]);
      BareConcat(Made([titles[0]]), Made(titles[1..]));
    }
  }

  /** The books made from titles are those of the first title, then those of
      the rest. */
  lemma MadeFirst(titles: seq<string>)
    requires titles != []
    ensures Made(titles) == Made([titles[0]]) + Made(titles[1..])
  {
    assert [titles[0]][1..] == [];
  }

  lemma FirstMadeBare(t: string)
    ensures forall k :: 0 <= k < |Made([t])| ==> IsBare(Made([t])[k])
  {
    assert [t][1..] == [];
  }

  lemma BareConcat(a: seq<Book>, b: seq<Book>)
    requires forall k :: 0 <= k < |a| ==> IsBare(a[k])
    requires forall k :: 0 <= k < |b| ==> IsBare(b[k])
    ensures forall k :: 0 <= k < |a + b| ==> IsBare((a + b)[k])
  {
  }

  /** When every title creates its book, the first title creates the
      first book. */
  lemma MadeHead(titles: seq<string>)
    requires titles != [] && |Made(titles)| == |titles|
    ensures NewBook(titles[0]).Some?
    ensures Made(titles) == [NewBook(titles[0]).value] + Made(titles[1..])
    ensures |Made(titles[1..])| == |titles| - 1
  {
  }

  /** When every title creates its book, the `k`-th book is the one the
      `k`-th title creates. */
  lemma {:induction false} MadeInOrder(titles: seq<string>, k: nat)
    requires |Made(titles)| == |titles|
    requires k < |titles|
    ensures NewBook(titles[k]) == Some(Made(titles)[k])
    decreases k
  {
    MadeHead(titles);
    var rest := titles[1..];
    if k > 0 {
      MadeInOrder(rest, k - 1);
      assert titles[k] == rest[k - 1];
      assert Made(titles)[k] == Made(rest)[k - 1];
    }
  }

  /** A book as its title line created it: its metadata unset. */
  function Bare(b: Book): (r: Book)
    ensures IsBare(r)
    ensures r.name == b.name && r.time == b.time
    ensures IsBare(b) ==> r == b
  {
    b.(isbn := None, pages := None, genre := None, author := None)
  }

  /** Every book of `bs` as its title line created it. */
  function Bares(bs: seq<Book>): (r: seq<Book>)
    ensures |r| == |bs|
    decreases |bs|
  {
    if bs == [] then [] else [Bare(bs[0])] + Bares(bs[1..])
  }

  lemma {:induction false} BaresIndex(bs: seq<Book>, k: nat)
    requires k < |bs|
    ensures Bares(bs)[k] == Bare(bs[k])
    decreases k
  {
    if k > 0 {
      BaresIndex(bs[1..], k - 1);
    }
  }

  lemma {:induction false} BaresAppend(a: seq<Book>, b: seq<Book>)
    ensures Bares(a + b) == Bares(a) + Bares(b)
    decreases |a|
  {
    if a != [] {
      assert (a + b)[1..] == a[1..] + b;
      BaresAppend(a[1..], b);
    } else {
      assert a + b == b;
    }
  }

  /** Books that differ at most in one metadata field were created alike. */
  lemma EraseKeepsBare(x: Book, y: Book, key: Key)
    requires Erase(x, key) == Erase(y, key)
    ensures Bare(x) == Bare(y)
  {
    match key
    case Isbn =>
    case Genre =>
    case Pages =>
    case Author =>
  }

  /** Replacing the last book by one that differs from it in one metadata
      field keeps each book as its title line created it. */
  lemma BaresReplaceLast(books: seq<Book>, b: Book, key: Key)
    requires books != []
    requires Erase(b, key) == Erase(books[|books| - 1], key)
    ensures Bares(books[..|books| - 1] + [b]) == Bares(books)
  {
    var last := books[|books| - 1];
    EraseKeepsBare(b, last, key);
    var front := books[..|books| - 1];
    assert books == front + [last];
    BaresSwapLast(front, b, last);
  }

  /** Two lists that end in books with the same bare form have the same
      bare forms. */
  lemma BaresSwapLast(front: seq<Book>, x: Book, y: Book)
    requires Bare(x) == Bare(y)
    ensures Bares(front + [x]) == Bares(front + [y])
  {
    BaresAppend(front, [x]);
    BaresAppend(front, [y]);
    assert Bares([x]) == [Bare(x)] && Bares([y]) == [Bare(y)];
  }

  /** A metadata line keeps each book as its title line created it. */
  lemma MetadataKeepsBares(books: seq<Book>, raw: string, n: nat)
    requires Classify(Trim(raw)).Metadata?
    requires Step(books, raw, n).Ok?
    ensures Bares(Step(books, raw, n).value) == Bares(books)
  {
    var s := Trim(raw);
    StepMetadata(books, raw, n);
    BaresReplaceLast(books, Assign(books[|books| - 1], Classify(s).key, s).value, Classify(s).key);
  }

  /** What one line does to the books, by kind: a title line appends the
      book it creates; any other line keeps each book as its title line
      created it, and a line that is not metadata changes nothing. */
  lemma StepShape(books: seq<Book>, raw: string, n: nat)
    requires Step(books, raw, n).Ok?
    ensures var next := Step(books, raw, n).value;
            var s := Trim(raw);
            && (Classify(s) == Title ==> NewBook(s).Some? && next == books + [NewBook(s).value])
            && (Classify(s) != Title ==> Bares(next) == Bares(books))
            && (!Classify(s).Metadata? && Classify(s) != Title ==> next == books)
  {
    var s := Trim(raw);
    if Classify(s).Metadata? {
      MetadataKeepsBares(books, raw, n);
    } else if Classify(s) == Title {
      StepTitle(books, raw, n);
    } else {
      StepSkips(books, raw, n);
    }
  }

  /** The title lines of `lines`: those of its first line, then those of
      the rest. */
  lemma TitleLinesCons(lines: seq<string>)
    requires lines != []
    ensures Classify(Trim(lines[0])) == Title ==>
              TitleLines(lines) == [Trim(lines[0])] + TitleLines(lines[1..])
    ensures Classify(Trim(lines[0])) != Title ==> TitleLines(lines) == TitleLines(lines[1..])
  {
  }

  /** A title that creates its book puts it in front of the others. */
  lemma MadeCons(s: string, rest: seq<string>)
    requires NewBook(s).Some?
    ensures Made([s] + rest) == [NewBook(s).value] + Made(rest)
  {
    assert ([s] + rest)[0] == s;
    assert ([s] + rest)[1..] == rest;
  }

  /** Appending a bare book `b` and then the books `made` is appending `[b] +
      made`, with or without metadata. */
  lemma AppendBare(books: seq<Book>, b: Book, made: seq<Book>)
    requires IsBare(b)
    ensures books + [b] + made == books + ([b] + made)
    ensures Bares(books + [b]) + made == Bares(books) + ([b] + made)
  {
    BaresAppend(books, [b]);
    assert Bares([b]) == [b];
  }

  /** Order preservation, from any starting books: the run keeps every book
      it started with but the last exactly, keeps the name and time of the
      last, and appends, in order, one book per title line whose name and
      time are those of the book that line creates. */
  lemma {:induction false} RunAppendsMadeBooks(
    books: seq<Book>, lines: seq<string>, at: nat, result: seq<Book>)
    requires Run(books, lines, at) == Ok(result)
    ensures |result| == |books| + |TitleLines(lines)|
    ensures Bares(result) == Bares(books) + Made(TitleLines(lines))
    ensures forall k :: 0 <= k < |books| - 1 ==> result[k] == books[k]
    decreases |lines|
  {
    EarlierBooksFrozen(books, lines, at, result);
    if lines != [] {
      var s := Trim(lines[0]);
      StepShape(books, lines[0], at);
      RunAppendsMadeBooks(Step(books, lines[0], at).value, lines[1..], at + 1, result);
      TitleLinesCons(lines);
      if Classify(s) == Title {
        MadeCons(s, TitleLines(lines[1..]));
        AppendBare(books, NewBook(s).value, Made(TitleLines(lines[1..])));
      }
    }
  }

  /** Order preservation for a whole parse: the `k`-th title line of the
      input gives the `k`-th book, which is the book that line creates plus
      the metadata that followed it; every name is non-empty and free of
      tabs. */
  lemma TitlesInOrder(input: string)
    requires Catalog(input).Ok?
    ensures var books := Catalog(input).value.inner;
            var titles := TitleLines(Lines(input));
            && |books| == |titles|
            && forall k :: 0 <= k < |books| ==>
                 && NewBook(titles[k]) == Some(Bare(books[k]))
                 && books[k].name != [] && '\t' !in books[k].name
  {
    var books := Catalog(input).value.inner;
    var titles := TitleLines(Lines(input));
    RunAppendsMadeBooks([], Lines(input), 0, books);
    assert Bares(books) == Made(titles);
    forall k | 0 <= k < |books|
      ensures NewBook(titles[k]) == Some(Bare(books[k]))
      ensures books[k].name != [] && '\t' !in books[k].name
    {
      MadeInOrder(titles, k);
      BaresIndex(books, k);
      ClassifyMeaning(titles[k]);
      FirstPieceOfTrimmed(titles[k]);
    }
  }

  /** Books other than the last are never touched again: a run only changes
      the last book it starts with and appends new ones. */
  lemma {:induction false} EarlierBooksFrozen(
    books: seq<Book>, lines: seq<string>, at: nat, result: seq<Book>)
    requires Run(books, lines, at) == Ok(result)
    ensures |result| >= |books|
    ensures forall k :: 0 <= k < |books| - 1 ==> result[k] == books[k]
    decreases |lines|
  {
    if lines != [] {
      StepKeepsEarlierBooks(books, lines[0], at);
      EarlierBooksFrozen(Step(books, lines[0], at).value, lines[1..], at + 1, result);
    }
  }

  /** One line keeps every book but the last and never drops a book. */
  lemma StepKeepsEarlierBooks(books: seq<Book>, raw: string, n: nat)
    requires Step(books, raw, n).Ok?
    ensures var next := Step(books, raw, n).value;
            && |next| >= |books|
            && forall k :: 0 <= k < |books| - 1 ==> next[k] == books[k]
  {
    var s := Trim(raw);
    match Classify(s)
    case Metadata(key) =>
      StepMetadata(books, raw, n);
    case UnknownKey =>
      StepSkips(books, raw, n);
    case Blank =>
      StepSkips(books, raw, n);
    case Title =>
      StepTitle(books, raw, n);
  }

  /** Without metadata lines a run appends exactly the books its title lines
      create, bare, and leaves the books it started with as they were. */
  lemma {:induction false} NoMetadataAppendsBareBooks(
    books: seq<Book>, lines: seq<string>, at: nat, result: seq<Book>)
    requires Run(books, lines, at) == Ok(result)
    requires forall k :: 0 <= k < |lines| ==> !Classify(Trim(lines[k])).Metadata?
    ensures result == books + Made(TitleLines(lines))
    decreases |lines|
  {
    if lines != [] {
      var s := Trim(lines[0]);
      assert !Classify(s).Metadata?;
      StepShape(books, lines[0], at);
      assert forall k :: 0 <= k < |lines| - 1 ==> lines[1..][k] == lines[k + 1];
      NoMetadataAppendsBareBooks(Step(books, lines[0], at).value, lines[1..], at + 1, result);
      TitleLinesCons(lines);
      if Classify(s) == Title {
        MadeCons(s, TitleLines(lines[1..]));
        AppendBare(books, NewBook(s).value, Made(TitleLines(lines[1..])));
      }
    }
  }

  /** A metadata line changes only its own field of the last book: the other
      books, the name, the time and the other fields stay; the field holds
      the line's value. */
  lemma MetadataChangesOneField(books: seq<Book>, raw: string, n: nat)
    requires Classify(Trim(raw)).Metadata?
    requires Step(books, raw, n).Ok?
    ensures ':' in Trim(raw)
    ensures var key := Classify(Trim(raw)).key;
            var result := Step(books, raw, n).value;
            && books != [] && |result| == |books|
            && result[..|books| - 1] == books[..|books| - 1]
            && Erase(result[|books| - 1], key) == Erase(books[|books| - 1], key)
            && Holds(result[|books| - 1], key, MetadataValue(Trim(raw)))
  {
    StepMetadata(books, raw, n);
  }

  /** Two books that may differ only in field `key` of their last element. */
  predicate SameExceptLast(a: seq<Book>, b: seq<Book>, key: Key)
  {
    && |a| == |b| && a != []
    && a[..|a| - 1] == b[..|b| - 1]
    && Erase(a[|a| - 1], key) == Erase(b[|b| - 1], key)
  }

  /** Erasing one field after setting another is setting after erasing. */
  lemma AssignUnderErase(x: Book, y: Book, key: Key, other: Key, s: string)
    requires ':' in s
    requires Erase(x, key) == Erase(y, key)
    ensures Assign(x, other, s).Some? == Assign(y, other, s).Some?
    ensures Assign(x, other, s).Some? ==>
              if other == key then Assign(x, other, s) == Assign(y, other, s)
              else Erase(Assign(x, other, s).value, key) == Erase(Assign(y, other, s).value, key)
  {
    match key
    case Isbn =>
    case Genre =>
    case Pages =>
    case Author =>
  }

  /** A non-title line treats two such book lists alike: both fail the same
      way or both still differ only in field `key` of the last book. */
  lemma StepKeepsSameExceptLast(a: seq<Book>, b: seq<Book>, key: Key, raw: string, n: nat)
    requires SameExceptLast(a, b, key)
    requires Classify(Trim(raw)) != Title
    ensures Step(a, raw, n).Err? <==> Step(b, raw, n).Err?
    ensures Step(a, raw, n).Err? ==> Step(a, raw, n) == Step(b, raw, n)
    ensures Step(a, raw, n).Ok? ==>
              SameExceptLast(Step(a, raw, n).value, Step(b, raw, n).value, key)
  {
    var s := Trim(raw);
    match Classify(s)
    case Metadata(other) =>
      StepMetadata(a, raw, n);
      StepMetadata(b, raw, n);
      AssignUnderErase(a[|a| - 1], b[|b| - 1], key, other, s);
    case UnknownKey =>
      StepSkips(a, raw, n);
      StepSkips(b, raw, n);
    case Blank =>
      StepSkips(a, raw, n);
      StepSkips(b, raw, n);
  }

  /** A run of non-title lines treats two such book lists alike. */
  lemma {:induction false} RunKeepsSameExceptLast(
    a: seq<Book>, b: seq<Book>, key: Key, lines: seq<string>, at: nat)
    requires SameExceptLast(a, b, key)
    requires forall k :: 0 <= k < |lines| ==> Classify(Trim(lines[k])) != Title
    ensures Run(a, lines, at).Err? <==> Run(b, lines, at).Err?
    ensures Run(a, lines, at).Err? ==> Run(a, lines, at) == Run(b, lines, at)
    ensures Run(a, lines, at).Ok? ==>
              SameExceptLast(Run(a, lines, at).value, Run(b, lines, at).value, key)
    decreases |lines|
  {
    if lines != [] {
      StepKeepsSameExceptLast(a, b, key, lines[0], at);
      if Step(a, lines[0], at).Ok? {
        assert forall k :: 0 <= k < |lines| - 1 ==> lines[1..][k] == lines[k + 1];
        RunKeepsSameExceptLast(
          Step(a, lines[0], at).value, Step(b, lines[0], at).value, key, lines[1..], at + 1);
      }
    }
  }

  /** Replacing the last book by one that differs from it only in field
      `key` gives a list that differs from the old one only there. */
  lemma ReplaceLastSameExcept(books: seq<Book>, b: Book, key: Key)
    requires books != []
    requires Erase(b, key) == Erase(books[|books| - 1], key)
    ensures SameExceptLast(books[..|books| - 1] + [b], books, key)
  {
    var next := books[..|books| - 1] + [b];
    assert next[..|next| - 1] == books[..|books| - 1];
  }

  /** A metadata line changes its book list only in its own field of the
      last book. */
  lemma MetadataSameExceptLast(books: seq<Book>, raw: string, n: nat)
    requires Classify(Trim(raw)).Metadata?
    requires Step(books, raw, n).Ok?
    ensures SameExceptLast(Step(books, raw, n).value, books, Classify(Trim(raw)).key)
  {
    var s := Trim(raw);
    StepMetadata(books, raw, n);
    ReplaceLastSameExcept(books, Assign(books[|books| - 1], Classify(s).key, s).value, Classify(s).key);
  }

  /** A metadata line for `key` makes two lists that differ only in field
      `key` of their last book equal again (or fails on both alike). */
  lemma SameKeyOverwrites(x: seq<Book>, y: seq<Book>, key: Key, raw: string, n: nat)
    requires SameExceptLast(x, y, key)
    requires Classify(Trim(raw)) == Metadata(key)
    ensures Step(x, raw, n) == Step(y, raw, n)
  {
    var s := Trim(raw);
    StepMetadata(x, raw, n);
    StepMetadata(y, raw, n);
    AssignUnderErase(x[|x| - 1], y[|y| - 1], key, key, s);
  }

  /** Two lists that differ only in field `key` of their last book run
      alike through non-title lines ending in a metadata line for `key`. */
  lemma {:induction false} OverwrittenAlike(
    x: seq<Book>, y: seq<Book>, key: Key, between: seq<string>, last: string, at: nat)
    requires SameExceptLast(x, y, key)
    requires forall k :: 0 <= k < |between| ==> Classify(Trim(between[k])) != Title
    requires Classify(Trim(last)) == Metadata(key)
    ensures Run(x, between + [last], at) == Run(y, between + [last], at)
  {
    FoldAppend(Step, x, between, [last], at);
    FoldAppend(Step, y, between, [last], at);
    RunKeepsSameExceptLast(x, y, key, between, at);
    if Run(x, between, at).Ok? {
      var x' := Run(x, between, at).value;
      var y' := Run(y, between, at).value;
      SameKeyOverwrites(x', y', key, last, at + |between|);
      FoldOne(Step, x', last, at + |between|);
      FoldOne(Step, y', last, at + |between|);
    }
  }

  /** Last write wins: when a metadata line for `key` that itself succeeds is
      followed, without a title line in between, by another one for the same
      key, the earlier line leaves no trace; parsing is as if it had been
      absent (line numbers of the lines after it unchanged). An earlier line
      that fails (no book yet, or a bad pages value) is itself the failure. */
  lemma LastWriteWins(
    books: seq<Book>, first: string, between: seq<string>, last: string, at: nat, key: Key)
    requires Classify(Trim(first)) == Metadata(key) && Classify(Trim(last)) == Metadata(key)
    requires forall k :: 0 <= k < |between| ==> Classify(Trim(between[k])) != Title
    requires Step(books, first, at).Ok?
    ensures Run(books, [first] + between + [last], at) == Run(books, between + [last], at + 1)
  {
    assert [first] + between + [last] == [first] + (between + [last]);
    FoldAppend(Step, books, [first], between + [last], at);
    FoldOne(Step, books, first, at);
    MetadataSameExceptLast(books, first, at);
    OverwrittenAlike(Step(books, first, at).value, books, key, between, last, at + 1);
  }
}
