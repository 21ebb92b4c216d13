/** The catalog of the parser's own unit test: two books, each a title line
    followed by indented `Genre`, `Pages` and `Author` lines, with a blank
    line before each book and after the last one. The lines are written out
    piece by piece (name, tabs, year; indentation, key, value) so that each
    line's part in the parse can be stated on its own. */
module ManualTest {
  import opened Wrappers
  import opened Text
  import opened Numbers
  import opened Separator
  import opened LineFold
  import opened BookParse
  import opened CatalogProperties
  import opened TitleProperties

  /** An indented metadata line: four spaces, the key, `: ` and the value. */
  function Entry(key: string, value: string): string
  {
    "    " + key + ": " + value
  }

  const Title1: string := "The Player of Games" + "\t\t\t\t" + "2017"
  const Title2: string := "Accelerando" + "\t\t\t\t\t" + "2017-2018"

  /** The lines of the test's input, split at its newlines: it opens with a
      newline and ends with one, and a blank line separates the books. */
  const TestLines: seq<string> := [
    "",
    Title1,
    Entry("Genre", "Science Fiction"),
    Entry("Pages", "466"),
    Entry("Author", "Iain Banks"),
    "",
    Title2,
    Entry("Genre", "Science Fiction"),
    Entry("Pages", "621"),
    Entry("Author", "Charles Stross"),
    ""]

  const Book1: Book :=
    Book("The Player of Games", Time(2017, 2017), None, Some(466), Some("Science Fiction"), Some("Iain Banks"))
  const Book2: Book :=
    Book("Accelerando", Time(2017, 2018), None, Some(621), Some("Science Fiction"), Some("Charles Stross"))

  /** The indentation of a metadata line is trimmed away. */
  lemma EntryTrim(key: string, value: string)
    requires key != [] && !IsWhitespace(key[0])
    requires value != [] && IsTrimmed(value)
    ensures IsTrimmed(key + ": " + value)
    ensures Trim(Entry(key, value)) == key + ": " + value
  {
    var s := key + ": " + value;
    assert s[0] == key[0] && s[|s| - 1] == value[|value| - 1];
    assert Entry(key, value) == "    " + s + "";
    TrimPadded("    ", s, "");
  }

  lemma EntryJoin(key: string, value: string)
    ensures key + ": " + value == Join([key, " " + value], ':')
  {
    assert [key, " " + value][1..] == [" " + value];
  }

  lemma EntryRawValue(key: string, value: string)
    requires ':' !in key && ':' !in value
    ensures ':' in key + ": " + value
    ensures MetadataValue(key + ": " + value) == Trim(" " + value)
  {
    EntryJoin(key, value);
    assert ':' !in " " + value;
    MetadataValueIsSecondChunk(key, " " + value, []);
    assert [key, " " + value] + [] == [key, " " + value];
  }

  lemma SpaceTrim(value: string)
    requires IsTrimmed(value)
    ensures Trim(" " + value) == value
  {
    assert " " + value == " " + value + "";
    TrimPadded(" ", value, "");
  }

  /** The value of `key: value` is `value`. */
  lemma EntryValue(key: string, value: string)
    requires ':' !in key
    requires IsTrimmed(value) && ':' !in value
    ensures ':' in key + ": " + value
    ensures MetadataValue(key + ": " + value) == value
  {
    EntryRawValue(key, value);
    SpaceTrim(value);
  }

  /** The three capitalised keys of the test are recognised regardless of
      case. */
  lemma ClassifyGenre(value: string)
    requires value != [] && IsTrimmed(value)
    ensures IsTrimmed("Genre" + ": " + value)
    ensures Classify("Genre" + ": " + value) == Metadata(Genre)
  {
    var s := "Genre" + ": " + value;
    assert s[0] == 'G' && s[|s| - 1] == value[|value| - 1];
    assert LowerAscii('G') == 'g';
  }

  lemma ClassifyPages(value: string)
    requires value != [] && IsTrimmed(value)
    ensures IsTrimmed("Pages" + ": " + value)
    ensures Classify("Pages" + ": " + value) == Metadata(Pages)
  {
    var s := "Pages" + ": " + value;
    assert s[0] == 'P' && s[|s| - 1] == value[|value| - 1];
    assert LowerAscii('P') == 'p';
  }

  lemma ClassifyAuthor(value: string)
    requires value != [] && IsTrimmed(value)
    ensures IsTrimmed("Author" + ": " + value)
    ensures Classify("Author" + ": " + value) == Metadata(Author)
  {
    var s := "Author" + ": " + value;
    assert s[0] == 'A' && s[|s| - 1] == value[|value| - 1];
    assert LowerAscii('A') == 'a';
  }

  /** A line that trims to the metadata line `s` for `key` sets that field of
      the last book to the value of `s`. */
  lemma TextEntry(books: seq<Book>, raw: string, s: string, key: Key, n: nat)
    requires key != Pages && books != []
    requires Trim(raw) == s && IsTrimmed(s) && Classify(s) == Metadata(key) && ':' in s
    ensures Assign(books[|books| - 1], key, s).Some?
    ensures Step(books, raw, n) == Ok(books[..|books| - 1] + [Assign(books[|books| - 1], key, s).value])
  {
    StepMetadata(books, raw, n);
  }

  /** `Genre: value` is a genre line whose value is `value`. */
  lemma GenreLine(value: string)
    requires PlainValue(value)
    ensures IsTrimmed("Genre" + ": " + value) && Classify("Genre" + ": " + value) == Metadata(Genre)
    ensures ':' in "Genre" + ": " + value && MetadataValue("Genre" + ": " + value) == value
  {
    ClassifyGenre(value);
    EntryValue("Genre", value);
  }

  /** `Author: value` is an author line whose value is `value`. */
  lemma AuthorLine(value: string)
    requires PlainValue(value)
    ensures IsTrimmed("Author" + ": " + value) && Classify("Author" + ": " + value) == Metadata(Author)
    ensures ':' in "Author" + ": " + value && MetadataValue("Author" + ": " + value) == value
  {
    ClassifyAuthor(value);
    EntryValue("Author", value);
  }

  /** The decimal rendering of a number is a trimmed metadata value. */
  lemma DecimalValue(p: nat)
    ensures PlainValue(ToDecimal(p))
  {
    var d := ToDecimal(p);
    DecimalIsPlain(p);
    assert IsDigit(d[0]) && IsDigit(d[|d| - 1]);
    forall j | 0 <= j < |d| ensures d[j] != ':' {
      assert IsDigit(d[j]);
    }
  }

  /** `Pages: ` and the decimal rendering of a `usize` is a pages line that
      reads back as that number. */
  lemma PagesLine(p: Usize)
    ensures IsTrimmed("Pages" + ": " + ToDecimal(p))
    ensures Classify("Pages" + ": " + ToDecimal(p)) == Metadata(Pages)
    ensures ':' in "Pages" + ": " + ToDecimal(p)
    ensures ParseUnsigned(MetadataValue("Pages" + ": " + ToDecimal(p)), USIZE_MAX) == Some(p)
  {
    DecimalValue(p);
    ClassifyPages(ToDecimal(p));
    EntryValue("Pages", ToDecimal(p));
    ParseToDecimal(p, USIZE_MAX);
  }

  /** A pages line whose value reads as `p` sets the page count to `p`. */
  lemma AssignPages(b: Book, s: string, p: Usize)
    requires ':' in s && ParseUnsigned(MetadataValue(s), USIZE_MAX) == Some(p)
    ensures Assign(b, Pages, s) == Some(b.(pages := Some(p)))
  {
  }

  /** A line that trims to a pages line whose value reads as `p` sets the page
      count of the last book to `p`. */
  lemma PagesEntry(books: seq<Book>, raw: string, s: string, p: Usize, n: nat)
    requires books != []
    requires Trim(raw) == s && IsTrimmed(s) && Classify(s) == Metadata(Pages) && ':' in s
    requires Assign(books[|books| - 1], Pages, s) == Some(books[|books| - 1].(pages := Some(p)))
    ensures Step(books, raw, n) == Ok(books[..|books| - 1] + [books[|books| - 1].(pages := Some(p))])
  {
    StepMetadata(books, raw, n);
  }

  /** A name with no tab and no two spaces in a row holds no separator. */
  lemma SingleSpaced(t: string)
    requires '\t' !in t
    requires forall j :: 0 <= j < |t| - 1 ==> t[j] != ' ' || t[j + 1] != ' '
    ensures SeparatorFree(t)
  {
    forall j | 0 <= j < |t| ensures MatchLen(t, j) == 0 {
      if j + 4 <= |t| {
        assert t[j..j + 4][0] == t[j] && t[j..j + 4][1] == t[j + 1];
      }
    }
  }

  lemma Decimal466()
    ensures ToDecimal(466) == "466"
  {
  }

  lemma Decimal621()
    ensures ToDecimal(621) == "621"
  {
  }

  lemma Decimal2017()
    ensures ToDecimal(2017) == "2017"
  {
  }

  lemma Decimal2018()
    ensures ToDecimal(2018) == "2018"
  {
  }

  /** A non-empty trimmed line with no `:` is a title: with no `:` it cannot
      start with any key, since every key ends in one. */
  lemma TitleKind(s: string)
    requires s != [] && IsTrimmed(s) && ':' !in s
    ensures Classify(s) == Title
  {
    KeyPrefixColon(s, Isbn);
    KeyPrefixColon(s, Genre);
    KeyPrefixColon(s, Pages);
    KeyPrefixColon(s, Author);
  }

  lemma Title1Chars()
    ensures ':' !in Title1 && '\n' !in Title1
    ensures Title1[0] == 'T' && Title1[|Title1| - 1] == '7'
  {
  }

  lemma Title1Kind()
    ensures IsTrimmed(Title1) && Classify(Title1) == Title
  {
    Title1Chars();
    assert LowerAscii('T') == 't';
    TitleKind(Title1);
  }

  lemma Title1Join()
    ensures Title1 == Join(["The Player of Games", "", "", "", "2017"], '\t')
  {
  }

  lemma Year2017()
    ensures ParseTime("2017") == Some(Time(2017, 2017))
  {
    Decimal2017();
    assert "2017" == "" + ToDecimal(2017) + "";
    YearSingle("", 2017, "");
  }

  /** The first title line names "The Player of Games", in the single year
      2017. */
  lemma Title1Book()
    ensures NewBook(Title1) == Some(Book("The Player of Games", Time(2017, 2017), None, None, None, None))
  {
    Title1Join();
    assert ["The Player of Games", "", "", "", "2017"] == ["The Player of Games"] + ["", "", ""] + ["2017"];
    SingleSpaced("The Player of Games");
    SingleSpaced("2017");
    TabbedTitle("The Player of Games", ["", "", ""], "2017");
    Year2017();
  }

  lemma Title2Chars()
    ensures ':' !in Title2 && '\n' !in Title2
    ensures Title2[0] == 'A' && Title2[1] == 'c' && Title2[|Title2| - 1] == '8'
  {
  }

  lemma Title2Kind()
    ensures IsTrimmed(Title2) && Classify(Title2) == Title
  {
    Title2Chars();
    assert LowerAscii('A') == 'a' && LowerAscii('c') == 'c';
    TitleKind(Title2);
  }

  lemma Title2Join()
    ensures Title2 == Join(["Accelerando", "", "", "", "", "2017-2018"], '\t')
  {
  }

  lemma RangeText()
    ensures ParseTime("2017-2018") == Some(Time(2017, 2018))
  {
    Decimal2017();
    Decimal2018();
    assert "2017-2018" == Join(["" + ToDecimal(2017) + "", "" + ToDecimal(2018) + ""] + [], '-');
    YearRange("", 2017, "", "", 2018, "", []);
  }

  /** The second title line names "Accelerando", spanning 2017 to 2018. */
  lemma Title2Book()
    ensures NewBook(Title2) == Some(Book("Accelerando", Time(2017, 2018), None, None, None, None))
  {
    Title2Join();
    assert ["Accelerando", "", "", "", "", "2017-2018"] == ["Accelerando"] + ["", "", "", ""] + ["2017-2018"];
    SingleSpaced("Accelerando");
    SingleSpaced("2017-2018");
    TabbedTitle("Accelerando", ["", "", "", ""], "2017-2018");
    RangeText();
  }

  /** A run over a line and more lines is that line's step, then the rest. */
  lemma RunCons(books: seq<Book>, line: string, rest: seq<string>, n: nat)
    ensures Run(books, [line] + rest, n) ==
              match Step(books, line, n)
              case Err(e) => Err(e)
              case Ok(next) => Run(next, rest, n + 1)
  {
    FoldAppend(Step, books, [line], rest, n);
    FoldOne(Step, books, line, n);
  }

  /** A line that trims to nothing changes nothing. */
  lemma BlankRun(books: seq<Book>, raw: string, rest: seq<string>, n: nat)
    requires Trim(raw) == []
    ensures Run(books, [raw] + rest, n) == Run(books, rest, n + 1)
  {
    StepSkips(books, raw, n);
    RunCons(books, raw, rest, n);
  }

  /** `t` is a trimmed title line that makes the book `m`. */
  predicate MakesBook(t: string, m: Book)
  {
    IsTrimmed(t) && Classify(t) == Title && NewBook(t) == Some(m)
  }

  /** `v` is a metadata value that survives the line's trimming and splitting
      unchanged. */
  predicate PlainValue(v: string)
  {
    v != [] && IsTrimmed(v) && ':' !in v
  }

  /** `ls` are the five lines of one book, each as it reads once trimmed: a
      blank line, a title that makes `m`, then its genre `g`, page count `p`
      and author `a`. */
  predicate BookLinesOf(ls: seq<string>, t: string, m: Book, g: string, p: Usize, a: string)
  {
    |ls| == 5 && HeadLines(ls[0], ls[1], t, m) && FieldLines(ls[2], ls[3], ls[4], g, p, a)
  }

  /** A blank line, then a title that makes `m`. */
  predicate HeadLines(l0: string, l1: string, t: string, m: Book)
  {
    Trim(l0) == [] && Trim(l1) == t && MakesBook(t, m)
  }

  /** A genre line for `g`, a pages line for `p` and an author line for `a`. */
  predicate FieldLines(l2: string, l3: string, l4: string, g: string, p: Usize, a: string)
  {
    && PlainValue(g) && Trim(l2) == "Genre" + ": " + g
    && Trim(l3) == "Pages" + ": " + ToDecimal(p)
    && PlainValue(a) && Trim(l4) == "Author" + ": " + a
  }

  /** A line that trims to a title appends the book it makes. */
  lemma TitleRun(front: seq<Book>, raw: string, t: string, b: Book, rest: seq<string>, n: nat)
    requires Trim(raw) == t && MakesBook(t, b)
    ensures Run(front, [raw] + rest, n) == Run(front + [b], rest, n + 1)
  {
    StepTitle(front, raw, n);
    RunCons(front, raw, rest, n);
  }

  lemma GenreRun(front: seq<Book>, b: Book, raw: string, value: string, rest: seq<string>, n: nat)
    requires PlainValue(value) && Trim(raw) == "Genre" + ": " + value
    ensures Run(front + [b], [raw] + rest, n)
              == Run(front + [b.(genre := Some(value))], rest, n + 1)
  {
    GenreLine(value);
    TextEntry(front + [b], raw, "Genre" + ": " + value, Genre, n);
    assert (front + [b])[..|front|] == front;
    RunCons(front + [b], raw, rest, n);
  }

  lemma PagesRun(front: seq<Book>, b: Book, raw: string, p: Usize, rest: seq<string>, n: nat)
    requires Trim(raw) == "Pages" + ": " + ToDecimal(p)
    ensures Run(front + [b], [raw] + rest, n)
              == Run(front + [b.(pages := Some(p))], rest, n + 1)
  {
    PagesLine(p);
    AssignPages(b, "Pages" + ": " + ToDecimal(p), p);
    assert (front + [b])[|front + [b]| - 1] == b;
    PagesEntry(front + [b], raw, "Pages" + ": " + ToDecimal(p), p, n);
    assert (front + [b])[..|front|] == front;
    RunCons(front + [b], raw, rest, n);
  }

  lemma AuthorRun(front: seq<Book>, b: Book, raw: string, value: string, rest: seq<string>, n: nat)
    requires PlainValue(value) && Trim(raw) == "Author" + ": " + value
    ensures Run(front + [b], [raw] + rest, n)
              == Run(front + [b.(author := Some(value))], rest, n + 1)
  {
    AuthorLine(value);
    TextEntry(front + [b], raw, "Author" + ": " + value, Author, n);
    assert (front + [b])[..|front|] == front;
    RunCons(front + [b], raw, rest, n);
  }

  lemma Cons5<T>(ls: seq<T>, rest: seq<T>)
    requires |ls| == 5
    ensures ls + rest == [ls[0]] + ([ls[1]] + ([ls[2]] + ([ls[3]] + ([ls[4]] + rest))))
  {
  }

  /** A book's lines make that book, with its three fields set, after the
      books before it. */
  lemma BookRun(
    front: seq<Book>, ls: seq<string>, t: string, m: Book, g: string, p: Usize, a: string, rest: seq<string>, n: nat)
    requires BookLinesOf(ls, t, m, g, p, a)
    ensures Run(front, ls + rest, n)
              == Run(front + [m.(genre := Some(g), pages := Some(p), author := Some(a))], rest, n + 5)
  {
    var b1 := m.(genre := Some(g));
    var b2 := b1.(pages := Some(p));
    Cons5(ls, rest);
    BlankRun(front, ls[0], [ls[1]] + ([ls[2]] + ([ls[3]] + ([ls[4]] + rest))), n);
    TitleRun(front, ls[1], t, m, [ls[2]] + ([ls[3]] + ([ls[4]] + rest)), n + 1);
    GenreRun(front, m, ls[2], g, [ls[3]] + ([ls[4]] + rest), n + 2);
    PagesRun(front, b1, ls[3], p, [ls[4]] + rest, n + 3);
    AuthorRun(front, b2, ls[4], a, rest, n + 4);
  }

  /** A line that trims to nothing, at the end, leaves the books as they
      are. */
  lemma LastBlank(books: seq<Book>, raw: string, n: nat)
    requires Trim(raw) == []
    ensures Run(books, [raw], n) == Ok(books)
  {
    StepSkips(books, raw, n);
    FoldOne(Step, books, raw, n);
  }

  /** Two books, then a blank line at the end, after the books `front`. */
  lemma TwoBooksRun(
    front: seq<Book>, n: nat,
    ls1: seq<string>, t1: string, m1: Book, g1: string, p1: Usize, a1: string,
    ls2: seq<string>, t2: string, m2: Book, g2: string, p2: Usize, a2: string, last: string)
    requires BookLinesOf(ls1, t1, m1, g1, p1, a1) && BookLinesOf(ls2, t2, m2, g2, p2, a2) && Trim(last) == []
    ensures Run(front, ls1 + ls2 + [last], n)
              == Ok(front + [m1.(genre := Some(g1), pages := Some(p1), author := Some(a1)),
                             m2.(genre := Some(g2), pages := Some(p2), author := Some(a2))])
  {
    var b1 := m1.(genre := Some(g1), pages := Some(p1), author := Some(a1));
    var b2 := m2.(genre := Some(g2), pages := Some(p2), author := Some(a2));
    BookRun(front, ls1, t1, m1, g1, p1, a1, ls2 + [last], n);
    BookRun(front + [b1], ls2, t2, m2, g2, p2, a2, [last], n + 5);
    LastBlank(front + [b1] + [b2], last, n + 10);
    Assoc(ls1, ls2, [last]);
    Pair(front, b1, b2);
  }

  lemma Assoc<T>(a: seq<T>, b: seq<T>, c: seq<T>)
    ensures a + b + c == a + (b + c)
  {
  }

  lemma Pair<T>(s: seq<T>, x: T, y: T)
    ensures s + [x] + [y] == s + [x, y]
  {
  }

  /** The lines of one book: a blank line, its title, then its genre, page
      count and author. */
  function BookLines(t: string, g: string, p: Usize, a: string): seq<string>
  {
    ["", t, Entry("Genre", g), Entry("Pages", ToDecimal(p)), Entry("Author", a)]
  }

  /** The test's way of writing a book's lines reads, once trimmed, as that
      book. */
  lemma BookLinesShape(t: string, m: Book, g: string, p: Usize, a: string)
    requires MakesBook(t, m) && PlainValue(g) && PlainValue(a)
    ensures BookLinesOf(BookLines(t, g, p, a), t, m, g, p, a)
  {
    TrimOfTrimmed("");
    TrimOfTrimmed(t);
    TextEntryTrim("Genre", g);
    PagesTrim(p);
    TextEntryTrim("Author", a);
    FiveLines("", t, Entry("Genre", g), Entry("Pages", ToDecimal(p)), Entry("Author", a),
              t, m, g, p, a);
  }

  /** Five lines that each read as their part of a book, once trimmed. */
  lemma FiveLines(
    l0: string, l1: string, l2: string, l3: string, l4: string,
    t: string, m: Book, g: string, p: Usize, a: string)
    requires HeadLines(l0, l1, t, m) && FieldLines(l2, l3, l4, g, p, a)
    ensures BookLinesOf([l0, l1, l2, l3, l4], t, m, g, p, a)
  {
    var ls := [l0, l1, l2, l3, l4];
    assert ls[0] == l0 && ls[1] == l1 && ls[2] == l2 && ls[3] == l3 && ls[4] == l4;
  }

  /** A genre or author line trims to `Key: value`. */
  lemma TextEntryTrim(key: string, v: string)
    requires key == "Genre" || key == "Author"
    requires PlainValue(v)
    ensures Trim(Entry(key, v)) == key + ": " + v
  {
    EntryTrim(key, v);
  }

  lemma PagesTrim(p: Usize)
    ensures Trim(Entry("Pages", ToDecimal(p))) == "Pages" + ": " + ToDecimal(p)
  {
    DecimalValue(p);
    EntryTrim("Pages", ToDecimal(p));
  }


  /** The books the two test titles make, before their metadata lines. */
  const Made1: Book := Book("The Player of Games", Time(2017, 2017), None, None, None, None)
  const Made2: Book := Book("Accelerando", Time(2017, 2018), None, None, None, None)

  lemma Title1Makes()
    ensures MakesBook(Title1, Made1)
  {
    Title1Kind();
    Title1Book();
  }

  lemma Title2Makes()
    ensures MakesBook(Title2, Made2)
  {
    Title2Kind();
    Title2Book();
  }

  lemma TestValues()
    ensures PlainValue("Science Fiction") && PlainValue("Iain Banks") && PlainValue("Charles Stross")
  {
  }

  /** The first book's lines read as its title, genre, pages and author. */
  lemma Book1Lines()
    ensures BookLinesOf(BookLines(Title1, "Science Fiction", 466, "Iain Banks"),
                        Title1, Made1, "Science Fiction", 466, "Iain Banks")
  {
    Title1Makes();
    TestValues();
    BookLinesShape(Title1, Made1, "Science Fiction", 466, "Iain Banks");
  }

  /** The second book's lines read as its title, genre, pages and author. */
  lemma Book2Lines()
    ensures BookLinesOf(BookLines(Title2, "Science Fiction", 621, "Charles Stross"),
                        Title2, Made2, "Science Fiction", 621, "Charles Stross")
  {
    Title2Makes();
    TestValues();
    BookLinesShape(Title2, Made2, "Science Fiction", 621, "Charles Stross");
  }

  /** With their metadata set, the two made books are the expected ones. */
  lemma Filled()
    ensures Made1.(genre := Some("Science Fiction"), pages := Some(466), author := Some("Iain Banks")) == Book1
    ensures Made2.(genre := Some("Science Fiction"), pages := Some(621), author := Some("Charles Stross")) == Book2
  {
  }

  lemma TestLinesBooks()
    ensures TestLines == BookLines(Title1, "Science Fiction", 466, "Iain Banks")
                         + BookLines(Title2, "Science Fiction", 621, "Charles Stross") + [""]
  {
    Decimal466();
    Decimal621();
  }

  /** The two books' lines, then a blank line, make the two books with
      their metadata set. */
  lemma TestRun()
    ensures Run([], BookLines(Title1, "Science Fiction", 466, "Iain Banks")
                    + BookLines(Title2, "Science Fiction", 621, "Charles Stross") + [""], 0)
            == Ok([] + [Made1.(genre := Some("Science Fiction"), pages := Some(466), author := Some("Iain Banks")),
                        Made2.(genre := Some("Science Fiction"), pages := Some(621), author := Some("Charles Stross"))])
  {
    Book1Lines();
    Book2Lines();
    TrimOfTrimmed("");
    TwoBooksRun([], 0,
                BookLines(Title1, "Science Fiction", 466, "Iain Banks"),
                Title1, Made1, "Science Fiction", 466, "Iain Banks",
                BookLines(Title2, "Science Fiction", 621, "Charles Stross"),
                Title2, Made2, "Science Fiction", 621, "Charles Stross", "");
  }

  lemma EmptyFront<T>(s: seq<T>)
    ensures [] + s == s
  {
  }

  /** The parser's unit test: the test's lines make the two expected books,
      in order. */
  lemma ManualRun()
    ensures Run([], TestLines, 0) == Ok([Book1, Book2])
  {
    TestLinesBooks();
    TestRun();
    Filled();
    EmptyFront([Book1, Book2]);
  }

  /** No line of the test holds a newline. */
  lemma NoNewlines()
    ensures forall k :: 0 <= k < |TestLines| ==> '\n' !in TestLines[k]
  {
    Title1Chars();
    Title2Chars();
    EntryFree("Genre", "Science Fiction");
    EntryFree("Pages", "466");
    EntryFree("Author", "Iain Banks");
    EntryFree("Pages", "621");
    EntryFree("Author", "Charles Stross");
  }

  /** A metadata line holds a newline only if its key or value does. */
  lemma EntryFree(key: string, value: string)
    requires '\n' !in key && '\n' !in value
    ensures '\n' !in Entry(key, value)
  {
  }

  /** `Books::parse` on the test's input, its lines joined by newlines,
      gives exactly the two expected books, in order. */
  lemma ManualCatalog()
    ensures Catalog(Join(TestLines, '\n')) == Ok(Books([Book1, Book2]))
  {
    NoNewlines();
    SplitJoin(TestLines, '\n');
    ManualRun();
  }
}
