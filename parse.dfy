/** The `.books` catalog parser: `Time`, `Book`, `Books` and `Books::parse`.

    `Parse` is the line loop, growing a sequence of books and rewriting its
    last element; `Step` and `Run` are the same loop as functions, one line at
    a time, and the lemmas below state what the loop promises about every
    input. A Rust panic becomes `Err(ParseError(line, kind))`, where `line` is
    the 0-based index of the physical line being processed; the `eprintln!`
    diagnostic becomes a message appended to the `stderr` output. */
module BookParse {
  import opened Wrappers
  import opened Text
  import opened Numbers
  import opened Separator
  import opened LineFold

  type U16 = n: nat | n <= U16_MAX
  type Usize = n: nat | n <= USIZE_MAX

  /** A year (`start == end`) or an inclusive year range. */
  datatype Time = Time(start: U16, end: U16)

  datatype Book = Book(
    name: string,
    time: Time,
    isbn: Option<string>,
    pages: Option<Usize>,
    genre: Option<string>,
    author: Option<string>)

  /** The parser's output, in the order of the title lines. */
  datatype Books = Books(inner: seq<Book>)

  /** The four metadata keys, in the order the parser tests them. */
  datatype Key = Isbn | Genre | Pages | Author

  datatype LineKind = Metadata(key: Key) | UnknownKey | Blank | Title

  /** Why a parse aborts: a metadata line before any title line (the
      `last_mut().unwrap()`), a `pages` value that is not a `usize`, or a year
      piece that is not a `u16` (the "Failed to parse year" `expect`s). */
  datatype ErrorKind = NoCurrentBook | MalformedPages | MalformedYear

  datatype ParseError = ParseError(line: nat, kind: ErrorKind)

  function KeyPrefix(k: Key): string
  {
    match k
    case Isbn => "isbn:"
    case Genre => "genre:"
    case Pages => "pages:"
    case Author => "author:"
  }

  /** The arms of the `match l.trim()`, tried top to bottom on the trimmed
      line `s`: a key prefix (ignoring ASCII case), then any `:`, then an
      empty title, then a title. The title arm's `title.trim() == ""` is
      `s == ""` because `s` is already trimmed (`TrimOfTrimmed`). */
  function Classify(s: string): LineKind
    requires IsTrimmed(s)
  {
    if StartsWithFolded(s, "isbn:") then Metadata(Isbn)
    else if StartsWithFolded(s, "genre:") then Metadata(Genre)
    else if StartsWithFolded(s, "pages:") then Metadata(Pages)
    else if StartsWithFolded(s, "author:") then Metadata(Author)
    else if ':' in s then UnknownKey
    else if s == [] then Blank
    else Title
  }

  /** A line that starts with a key (ignoring case) has its `:` right after
      the key. */
  lemma KeyPrefixColon(s: string, k: Key)
    ensures StartsWithFolded(s, KeyPrefix(k)) ==> s[|KeyPrefix(k)| - 1] == ':' && ':' in s
  {
    var key := KeyPrefix(k);
    if StartsWithFolded(s, key) {
      assert LowerAscii(s[|key| - 1]) == ':';
      assert LowerAscii(s[0]) == key[0];
    }
  }

  /** A metadata line holds a `:`, so its value can be taken. */
  lemma MetadataHasColon(s: string)
    requires IsTrimmed(s)
    ensures Classify(s).Metadata? ==> ':' in s
  {
    KeyPrefixColon(s, Isbn);
    KeyPrefixColon(s, Genre);
    KeyPrefixColon(s, Pages);
    KeyPrefixColon(s, Author);
  }

  /** What each kind of line is: a metadata line starts with its key (so it
      holds a `:`), an unknown-key line holds a `:` but starts with no key, a
      blank line is empty, and a title line is anything else. */
  lemma ClassifyMeaning(s: string)
    requires IsTrimmed(s)
    ensures Classify(s).Metadata? ==> StartsWithFolded(s, KeyPrefix(Classify(s).key))
    ensures Classify(s).Metadata? || Classify(s) == UnknownKey <==> ':' in s
    ensures Classify(s) == UnknownKey ==> forall k: Key :: !StartsWithFolded(s, KeyPrefix(k))
    ensures Classify(s) == Blank <==> s == []
    ensures Classify(s) == Title <==> ':' !in s && s != []
  {
    KeyPrefixColon(s, Isbn);
    KeyPrefixColon(s, Genre);
    KeyPrefixColon(s, Pages);
    KeyPrefixColon(s, Author);
    if Classify(s) == UnknownKey {
      forall k: Key ensures !StartsWithFolded(s, KeyPrefix(k)) {
        match k
        case Isbn =>
        case Genre =>
        case Pages =>
        case Author =>
      }
    }
  }

  /** `s.split(":")` chunk 1, trimmed: the value of a metadata line. */
  function MetadataValue(s: string): (v: string)
    requires ':' in s
    ensures ':' !in v && IsTrimmed(v)
  {
    var chunks := Split(s, ':');
    TrimKeepsOut(chunks[1], ':');
    Trim(chunks[1])
  }

  /** One year piece, parsed as a `u16`: it is accepted exactly when, after
      an optional `+`, it is a non-empty run of decimal digits worth at most
      65535, and the year is the value of those digits. */
  function ParseYear(t: string): (y: Option<U16>)
    ensures y.Some? <==> IsNumeral(t, U16_MAX)
    ensures y.Some? ==> y.value == NumeralValue(t)
  {
    ParseUnsignedMeaning(t, U16_MAX);
    match ParseUnsigned(t, U16_MAX)
    case None => None
    case Some(n) => Some(n)
  }

  /** The year annotation of a title: with a `-`, the trimmed pieces before
      the first `-` and between the first and second `-` are the start and
      end; without one, the trimmed text is both. */
  function ParseTime(ys: string): Option<Time>
  {
    if '-' in ys then
      var v := Split(ys, '-');
      var y1 := ParseYear(Trim(v[0]));
      var y2 := ParseYear(Trim(v[1]));
      if y1.Some? && y2.Some? then Some(Time(y1.value, y2.value)) else None
    else
      var y := ParseYear(Trim(ys));
      if y.Some? then Some(Time(y.value, y.value)) else None
  }

  /** The year text of a title line: the first non-empty chunk after the
      name, or the empty string. */
  function YearText(title: string): string
  {
    FirstNonEmpty(SplitSeparators(title)[1..])
  }

  /** A book with no metadata set. */
  predicate IsBare(b: Book)
  {
    b.isbn.None? && b.pages.None? && b.genre.None? && b.author.None?
  }

  /** The book a title line creates: named by the text before the leftmost
      tab or four spaces, dated by its year text, with no metadata. */
  function NewBook(title: string): (r: Option<Book>)
    ensures r.None? <==> ParseTime(YearText(title)).None?
    ensures r.Some? ==> IsBare(r.value) && Some(r.value.time) == ParseTime(YearText(title))
    ensures r.Some? ==> && |r.value.name| <= |title|
                        && SeparatorFree(r.value.name)
                        && title[..|r.value.name|] == r.value.name
                        && FirstMatchAt(title, |r.value.name|)
  {
    var chunks := SplitSeparators(title);
    var time := ParseTime(YearText(title));
    if time.None? then None
    else
      var b := Book(chunks[0], time.value, None, None, None, None);
      assert |b.name| < |title| ==> |chunks| > 1;
      Some(b)
  }

  /** `b` with its field `k` unset. */
  function Erase(b: Book, k: Key): Book
  {
    match k
    case Isbn => b.(isbn := None)
    case Genre => b.(genre := None)
    case Pages => b.(pages := None)
    case Author => b.(author := None)
  }

  /** Field `k` of `b` holds the metadata value `v` (for `pages`, the number
      `v` spells). */
  predicate Holds(b: Book, k: Key, v: string)
  {
    match k
    case Isbn => b.isbn == Some(v)
    case Genre => b.genre == Some(v)
    case Pages => b.pages.Some? && ParseUnsigned(v, USIZE_MAX) == Some(b.pages.value as nat)
    case Author => b.author == Some(v)
  }

  /** The metadata line `s` for key `k` applied to book `b`: only field `k`
      changes, to the line's value; `None` when a `pages` value is not a
      `usize`. */
  function Assign(b: Book, k: Key, s: string): (r: Option<Book>)
    requires ':' in s
    ensures r.None? <==> k == Pages && ParseUnsigned(MetadataValue(s), USIZE_MAX).None?
    ensures r.Some? ==> Erase(r.value, k) == Erase(b, k) && Holds(r.value, k, MetadataValue(s))
  {
    var v := MetadataValue(s);
    match k
    case Isbn => Some(b.(isbn := Some(v)))
    case Genre => Some(b.(genre := Some(v)))
    case Pages =>
      (match ParseUnsigned(v, USIZE_MAX)
       case None => None
       case Some(p) => Some(b.(pages := Some(p))))
    case Author => Some(b.(author := Some(v)))
  }

  /** One iteration of the loop on the physical line `raw`, the `n`-th one. */
  function Step(books: seq<Book>, raw: string, n: nat): (r: Result<seq<Book>, ParseError>)
    ensures r.Err? ==> r.error.line == n
  {
    var s := Trim(raw);
    MetadataHasColon(s);
    match Classify(s)
    case Metadata(k) =>
      if books == [] then Err(ParseError(n, NoCurrentBook))
      else
        (match Assign(books[|books| - 1], k, s)
         case None => Err(ParseError(n, MalformedPages))
         case Some(b) => Ok(books[..|books| - 1] + [b]))
    case UnknownKey => Ok(books)
    case Blank => Ok(books)
    case Title =>
      (match NewBook(s)
       case None => Err(ParseError(n, MalformedYear))
       case Some(b) => Ok(books + [b]))
  }

  /** The loop over `lines` from the books `books`, the first line being
      line number `at`; the first line that fails aborts the run. */
  function Run(books: seq<Book>, lines: seq<string>, at: nat): Result<seq<Book>, ParseError>
  {
    Fold(Step, books, lines, at)
  }

  /** `input.split('\n')`. */
  function Lines(input: string): seq<string>
  {
    Split(input, '\n')
  }

  /** `Books::parse(input)`, or the panic that aborts it. */
  function Catalog(input: string): Result<Books, ParseError>
  {
    match Run([], Lines(input), 0)
    case Ok(bs) => Ok(Books(bs))
    case Err(e) => Err(e)
  }

  /** The `eprintln!` message for an unknown key. */
  function UnknownKeyMessage(s: string): string
  {
    "Unknown key `" + s + "`"
  }

  /** The message printed for the physical line `raw`, if any. */
  function LineWarning(raw: string): seq<string>
  {
    var s := Trim(raw);
    if Classify(s) == UnknownKey then [UnknownKeyMessage(s)] else []
  }

  /** The messages printed while processing `lines`. */
  function Warnings(lines: seq<string>): seq<string>
    decreases |lines|
  {
    if lines == [] then []
    else Warnings(lines[..|lines| - 1]) + LineWarning(lines[|lines| - 1])
  }

  /** The messages are exactly those of the unknown-key lines: one for each
      such line, none for any other line, so none at all when no line has an
      unknown key. */
  lemma WarningsMeaning(lines: seq<string>)
    ensures |Warnings(lines)| == UnknownKeyCount(lines) <= |lines|
    ensures forall m :: m in Warnings(lines) ==>
              exists i :: 0 <= i < |lines| && Classify(Trim(lines[i])) == UnknownKey
                          && m == UnknownKeyMessage(Trim(lines[i]))
    ensures forall i :: 0 <= i < |lines| && Classify(Trim(lines[i])) == UnknownKey ==>
              UnknownKeyMessage(Trim(lines[i])) in Warnings(lines)
    ensures Warnings(lines) == [] <==>
              forall i :: 0 <= i < |lines| ==> Classify(Trim(lines[i])) != UnknownKey
  {
    WarningsFromUnknownKeys(lines);
    UnknownKeysWarn(lines);
    WarningsCount(lines);
    if Warnings(lines) != [] {
      assert Warnings(lines)[0] in Warnings(lines);
    }
  }

  /** The messages of consecutive blocks of lines are those of the first
      block followed by those of the second: messages come out in the order
      of their lines. */
  lemma {:induction false} WarningsAppend(a: seq<string>, b: seq<string>)
    ensures Warnings(a + b) == Warnings(a) + Warnings(b)
    decreases |b|
  {
    if b == [] {
      assert a + b == a;
    } else {
      var front, last := b[..|b| - 1], b[|b| - 1];
      assert b == front + [last];
      calc {
        Warnings(a + b);
        { assert a + b == (a + front) + [last]; }
        Warnings((a + front) + [last]);
        { WarningsSnoc(a + front, last); }
        Warnings(a + front) + LineWarning(last);
        { WarningsAppend(a, front); }
        (Warnings(a) + Warnings(front)) + LineWarning(last);
        Warnings(a) + (Warnings(front) + LineWarning(last));
        { WarningsSnoc(front, last); }
        Warnings(a) + Warnings(b);
      }
    }
  }

  /** One more line adds its own message, if any, at the end. */
  lemma WarningsSnoc(lines: seq<string>, raw: string)
    ensures Warnings(lines + [raw]) == Warnings(lines) + LineWarning(raw)
  {
    assert (lines + [raw])[..|lines|] == lines;
  }

  /** The number of unknown-key lines among `lines`. */
  function UnknownKeyCount(lines: seq<string>): nat
    decreases |lines|
  {
    if lines == [] then 0
    else (if Classify(Trim(lines[0])) == UnknownKey then 1 else 0) + UnknownKeyCount(lines[1..])
  }

  /** There is exactly one message per unknown-key line. */
  lemma {:induction false} WarningsCount(lines: seq<string>)
    ensures |Warnings(lines)| == UnknownKeyCount(lines)
    decreases |lines|
  {
    if lines != [] {
      assert lines == [lines[0]] + lines[1..];
      WarningsAppend([lines[0]], lines[1..]);
      assert [lines[0]][..0] == [];
      WarningsCount(lines[1..]);
    }
  }

  /** Every message comes from an unknown-key line, and there are no more
      messages than lines. */
  lemma {:induction false} WarningsFromUnknownKeys(lines: seq<string>)
    ensures |Warnings(lines)| <= |lines|
    ensures forall m :: m in Warnings(lines) ==>
              exists i :: 0 <= i < |lines| && Classify(Trim(lines[i])) == UnknownKey
                          && m == UnknownKeyMessage(Trim(lines[i]))
    decreases |lines|
  {
    if lines != [] {
      var n := |lines| - 1;
      var front := lines[..n];
      WarningsFromUnknownKeys(front);
      forall m | m in Warnings(lines)
        ensures exists i :: 0 <= i < |lines| && Classify(Trim(lines[i])) == UnknownKey
                            && m == UnknownKeyMessage(Trim(lines[i]))
      {
        if m in Warnings(front) {
          var i :| 0 <= i < |front| && Classify(Trim(front[i])) == UnknownKey
                   && m == UnknownKeyMessage(Trim(front[i]));
          assert front[i] == lines[i];
        } else {
          assert Classify(Trim(lines[n])) == UnknownKey && m == UnknownKeyMessage(Trim(lines[n]));
        }
      }
    }
  }

  /** Every unknown-key line has its message among the messages. */
  lemma {:induction false} UnknownKeysWarn(lines: seq<string>)
    ensures forall i :: 0 <= i < |lines| && Classify(Trim(lines[i])) == UnknownKey ==>
              UnknownKeyMessage(Trim(lines[i])) in Warnings(lines)
    decreases |lines|
  {
    if lines != [] {
      var n := |lines| - 1;
      var front := lines[..n];
      UnknownKeysWarn(front);
      forall i | 0 <= i < |lines| && Classify(Trim(lines[i])) == UnknownKey
        ensures UnknownKeyMessage(Trim(lines[i])) in Warnings(lines)
      {
        if i < n {
          assert front[i] == lines[i];
        }
      }
    }
  }

  /** Running the lines from the `i`-th on is one `Step` on line `i`
      followed by the run from line `i + 1` on. */
  lemma RunUnfold(books: seq<Book>, lines: seq<string>, i: nat)
    requires i < |lines|
    ensures Run(books, lines[i..], i) ==
              match Step(books, lines[i], i)
              case Err(e) => Err(e)
              case Ok(next) => Run(next, lines[i + 1..], i + 1)
  {
    assert lines[i..][1..] == lines[i + 1..];
  }

  /** A blank line or an unknown key leaves the books as they are. */
  lemma StepSkips(books: seq<Book>, raw: string, n: nat)
    requires Classify(Trim(raw)) == UnknownKey || Classify(Trim(raw)) == Blank
    ensures Step(books, raw, n) == Ok(books)
  {
  }

  /** A metadata line fails without a current book, and otherwise replaces
      the last book by its assigned version. */
  lemma StepMetadata(books: seq<Book>, raw: string, n: nat)
    requires Classify(Trim(raw)).Metadata?
    ensures ':' in Trim(raw)
    ensures books == [] ==> Step(books, raw, n) == Err(ParseError(n, NoCurrentBook))
    ensures books != [] ==>
              Step(books, raw, n) ==
                match Assign(books[|books| - 1], Classify(Trim(raw)).key, Trim(raw))
                case None => Err(ParseError(n, MalformedPages))
                case Some(b) => Ok(books[..|books| - 1] + [b])
  {
    MetadataHasColon(Trim(raw));
  }

  /** A title line appends the book it creates, or fails on its year. */
  lemma StepTitle(books: seq<Book>, raw: string, n: nat)
    requires Classify(Trim(raw)) == Title
    ensures Step(books, raw, n) ==
              match NewBook(Trim(raw))
              case None => Err(ParseError(n, MalformedYear))
              case Some(b) => Ok(books + [b])
  {
  }

  /** The metadata arms: the field `key` of `book` set from the trimmed line
      `s`; `None` where `parse().unwrap()` panics on a `pages` value. */
  method SetField(book: Book, key: Key, s: string) returns (r: Option<Book>)
    requires ':' in s
    ensures r == Assign(book, key, s)
  {
    var chunks := Split(s, ':');
    var value := Trim(chunks[1]);
    match key {
      case Isbn => r := Some(book.(isbn := Some(value)));
      case Genre => r := Some(book.(genre := Some(value)));
      case Pages =>
        var pages := ParseUnsigned(value, USIZE_MAX);
        if pages.None? {
          return None;
        }
        r := Some(book.(pages := Some(pages.value)));
      case Author => r := Some(book.(author := Some(value)));
    }
  }

  /** The title arm: the chunks of the title around tabs and four-space
      groups, the name and the year text taken from them; `None` where a
      year fails to parse. */
  method TitleBook(title: string) returns (r: Option<Book>)
    ensures r == NewBook(title)
  {
    var chunks := SplitSeparators(title);
    var name := chunks[0];
    var ys := FirstNonEmpty(chunks[1..]);
    var time := ParseTime(ys);
    if time.None? {
      return None;
    }
    r := Some(Book(name, time.value, None, None, None, None));
  }

  /** One pass of the loop body on the physical line `raw`, the `n`-th: the
      `match` on the trimmed line, giving the new books or the panic, and the
      message it prints. */
  method ParseLine(books: seq<Book>, raw: string, n: nat)
    returns (r: Result<seq<Book>, ParseError>, msgs: seq<string>)
    ensures r == Step(books, raw, n)
    ensures msgs == LineWarning(raw)
  {
    var s := Trim(raw);
    msgs := [];
    match Classify(s) {
      case Metadata(key) =>
        StepMetadata(books, raw, n);
        if books == [] {
          return Err(ParseError(n, NoCurrentBook)), [];
        }
        var updated := SetField(books[|books| - 1], key, s);
        if updated.None? {
          return Err(ParseError(n, MalformedPages)), [];
        }
        r := Ok(books[..|books| - 1] + [updated.value]);
      case UnknownKey =>
        StepSkips(books, raw, n);
        r := Ok(books);
        msgs := [UnknownKeyMessage(s)];
      case Blank =>
        StepSkips(books, raw, n);
        r := Ok(books);
      case Title =>
        StepTitle(books, raw, n);
        var book := TitleBook(s);
        if book.None? {
          return Err(ParseError(n, MalformedYear)), [];
        }
        r := Ok(books + [book.value]);
    }
  }

  /** `Books::parse`: the loop over the lines of `input`, pushing a book for
      each title line and updating the last book for each metadata line. */
  method Parse(input: string) returns (r: Result<Books, ParseError>, stderr: seq<string>)
    ensures r == Catalog(input)
    ensures r.Ok? ==> stderr == Warnings(Lines(input))
    ensures r.Err? ==> r.error.line < |Lines(input)|
                       && stderr == Warnings(Lines(input)[..r.error.line])
  {
    var lines := Lines(input);
    var books: seq<Book> := [];
    stderr := [];
    var i := 0;
    assert lines[..0] == [] && lines[0..] == lines;
    while i < |lines|
      invariant 0 <= i <= |lines|
      invariant Run(books, lines[i..], i) == Run([], lines, 0)
      invariant stderr == Warnings(lines[..i])
    {
      var step, msgs := ParseLine(books, lines[i], i);
      if step.Err? {
        LoopStops(input, books, i);
        return Err(step.error), stderr;
      }
      LoopGoesOn(lines, books, i, stderr);
      books := step.value;
      stderr := stderr + msgs;
      i := i + 1;
    }
    LoopEnds(input, books);
    assert lines[..i] == lines;
    r := Ok(Books(books));
  }

  /** A line that fails ends the loop with the parse's own error. */
  lemma LoopStops(input: string, books: seq<Book>, i: nat)
    requires i < |Lines(input)|
    requires Run(books, Lines(input)[i..], i) == Run([], Lines(input), 0)
    requires Step(books, Lines(input)[i], i).Err?
    ensures Catalog(input) == Err(Step(books, Lines(input)[i], i).error)
    ensures Step(books, Lines(input)[i], i).error.line == i
  {
    RunUnfold(books, Lines(input), i);
  }

  /** A line that succeeds carries the loop's invariant to the next line:
      the rest of the run is unchanged, and the printed messages are those
      of the lines read so far. */
  lemma LoopGoesOn(lines: seq<string>, books: seq<Book>, i: nat, stderr: seq<string>)
    requires i < |lines|
    requires Run(books, lines[i..], i) == Run([], lines, 0)
    requires stderr == Warnings(lines[..i])
    requires Step(books, lines[i], i).Ok?
    ensures Run(Step(books, lines[i], i).value, lines[i + 1..], i + 1) == Run([], lines, 0)
    ensures stderr + LineWarning(lines[i]) == Warnings(lines[..i + 1])
  {
    RunUnfold(books, lines, i);
    WarningsPrefix(lines, i);
  }

  /** The messages of one more line of `lines`. */
  lemma WarningsPrefix(lines: seq<string>, i: nat)
    requires i < |lines|
    ensures Warnings(lines[..i + 1]) == Warnings(lines[..i]) + LineWarning(lines[i])
  {
    WarningsSnoc(lines[..i], lines[i]);
    assert lines[..i] + [lines[i]] == lines[..i + 1];
  }

  /** Once every line is read, the books are the parse's result. */
  lemma LoopEnds(input: string, books: seq<Book>)
    requires Run(books, Lines(input)[|Lines(input)|..], |Lines(input)|) == Run([], Lines(input), 0)
    ensures Catalog(input) == Ok(Books(books))
  {
    assert Lines(input)[|Lines(input)|..] == [];
  }
}
