# The `.books` catalog parser

`Books::parse` reads a `.books` file: plain text with one book per title line.
Each title line holds the book's name, then a tab or four spaces, then a
year or a year range. Indented `key: value` lines below it set the book's
metadata (`isbn`, `genre`, `pages`, `author`). The parser splits the input at
`'\n'` and looks at each trimmed line in turn:
- a line that starts with a known key, ignoring case, sets that field of the most recent book;
- any other line holding a `:` is reported on standard error and skipped;
- an empty line is skipped;
- anything else is a new title, which pushes a new book.
The parser panics in three places:
- a metadata line before the first title;
- a `pages` value that is not a `usize`;
- a year that is not a `u16`.

The model has two layers:
- `BookParse` states the parse as functions. `Step` handles one line and `Run` folds it over the lines. `Catalog` is the whole parse, returning `Result<Books, ParseError>`, where a panic becomes `Err` with the line number and the reason.
- `BookParse.Parse` is the original loop as a method that grows and rewrites a sequence of books. It is proved equal to `Catalog`, and its second output is the list of messages written to standard error.

Helper modules:
- `Text` models Rust's `str::trim`, `split(char)` and ASCII case folding.
- `Numbers` models `str::parse` for `u16` and `usize`.
- `Separator` replaces the title regex `\t|    ` with an explicit scan.
- `LineFold` holds the generic early-exit fold.

`CatalogProperties` and `TitleProperties` state what the parser guarantees for every input. `ManualTest` proves that the repository's unit test gives the two books it expects.

Details of the code's behaviour that the model keeps:
- A metadata value is the trimmed text between the first and the second `:`. Anything after a second `:` is dropped, because the code takes chunk 1 of `split(":")`.
- A year range takes the trimmed pieces before the first `-` and between the first and the second `-`. Any further pieces are ignored.
- Titles are split at every single tab and at every group of exactly four spaces, not at whitespace runs. The name is the text before the leftmost such separator. The year is the first non-empty chunk after the name.
- The name of a title line is never empty, because the line is trimmed and a title line is not blank (`TitlesInOrder`). The code has no failure for a missing name.

## Model

| member | source | states |
|---|---|---|
| BookParse.Parse | src/parse.rs:28-100 | the loop's result is `Catalog(input)`; on success its standard-error output is `Warnings` of the lines, which is one "Unknown key" message per unknown-key line, in line order (`WarningsMeaning`, `WarningsCount`, `WarningsAppend`); on a panic the error's line exists and the messages are those of the lines before it |
| BookParse.ParseLine | src/parse.rs:33-96 | one pass of the loop body agrees with `Step`: the new books or the panic, and the line's message agrees with `LineWarning` |
| BookParse.SetField | src/parse.rs:34-53 | setting a metadata field from a line agrees with `Assign`: only that field changes, and a non-`usize` page count gives `None` |
| BookParse.TitleBook | src/parse.rs:62-94 | building a book from a title line agrees with `NewBook`: name, year text, time, no metadata, or `None` when a year fails |
| BookParse.ClassifyMeaning | src/parse.rs:33-61 | `Classify`, the arms of the `match`: a metadata line starts with its key ignoring case; a line holds `:` iff it is metadata or an unknown key; an unknown-key line starts with no key; a blank line is empty; a title line is non-empty and has no `:` |
| BookParse.MetadataHasColon | src/parse.rs:34-53 | every metadata line holds a `:`, so chunk 1 of its split exists and the `unwrap` on it never panics |
| BookParse.KeyPrefixColon | src/parse.rs:34-50 | a line starting with a key, ignoring case, has its `:` right after the key |
| BookParse.MetadataValue | src/parse.rs:36-37 | a metadata value holds no `:` and is trimmed |
| BookParse.ParseYear | src/parse.rs:78-83 | a year piece parses exactly when, after an optional `+`, it is a non-empty run of decimal digits whose base-10 value is at most 65535; the year is that value |
| BookParse.NewBook | src/parse.rs:62-94 | a title makes a book iff its year text parses; the book has no metadata, its time is the parsed year text, and its name is the prefix of the title before the leftmost tab or four-space group (the whole title when there is none), so no separator starts inside the name |
| BookParse.Assign | src/parse.rs:34-53 | a metadata line changes only its own field, which then holds the line's value (for `pages`, the number it spells); it fails iff the key is `pages` and the value is not a `usize` |
| BookParse.Step | src/parse.rs:32-97 | a failing line reports its own line number |
| BookParse.RunUnfold | src/parse.rs:32 | `Run`, the `for` loop: parsing from line `i` on is line `i`'s step followed by the parse from line `i + 1` on, stopping at the first failure |
| BookParse.WarningsMeaning | src/parse.rs:55 | `Warnings`: every message is the "Unknown key" message (`UnknownKeyMessage`) of some unknown-key line, every unknown-key line has its message, there are as many messages as unknown-key lines, and none at all iff no line has an unknown key |
| BookParse.WarningsAppend | src/parse.rs:32-55 | the messages of two consecutive blocks of lines are those of the first block followed by those of the second, so messages come out in line order |
| BookParse.WarningsCount | src/parse.rs:55 | there is exactly one message per unknown-key line |
| BookParse.WarningsSnoc | src/parse.rs:55 | one more line adds its own "Unknown key" message, if it has one, after the earlier messages |
| BookParse.StepSkips | src/parse.rs:55-61 | an unknown-key line or a blank line leaves the books unchanged |
| BookParse.StepMetadata | src/parse.rs:34-53 | a metadata line with no book yet fails with `NoCurrentBook`; otherwise it replaces the last book by its assigned version or fails with `MalformedPages` |
| BookParse.StepTitle | src/parse.rs:58-94 | a title line appends the book it makes or fails with `MalformedYear` |
| CatalogProperties.CatalogFailsAtFirstBadLine | src/parse.rs:29-97 | `Catalog`: a failed parse names a line that exists: every earlier line parses, and that line's own step fails with the reported error |
| CatalogProperties.StepFailure | src/parse.rs:35-83 | the three panics exactly: a metadata line fails with `NoCurrentBook` iff there is no book yet; `MalformedPages` iff it is a `pages` line after a title whose value is not a `usize`; `MalformedYear` iff it is a title whose year text does not parse; the error carries the line's number |
| CatalogProperties.MetadataValueIsSecondChunk | src/parse.rs:36-37 | the value of `head:v:more…` is `v` trimmed; anything after a second `:` is dropped |
| CatalogProperties.SkippedLinesChangeNothing | src/parse.rs:55-61 | any number of blank and unknown-key lines leave the books unchanged |
| CatalogProperties.StepShape | src/parse.rs:32-97 | a title line appends the book it makes; every other line keeps each book as its title created it; a line that is neither title nor metadata changes nothing |
| CatalogProperties.RunAppendsMadeBooks | src/parse.rs:30-97 | from any starting books, a successful run keeps every starting book but the last exactly and the name and time of the last, and appends, in order, one book per title line whose name and time are those the title makes (their metadata is what the lines after the title set) |
| CatalogProperties.TitlesInOrder | src/parse.rs:29-99 | `Catalog`: a successful parse has one book per title line, in order; the `k`-th book is the one the `k`-th title makes plus its metadata; every name is non-empty and has no tab |
| CatalogProperties.MadeInOrder | src/parse.rs:90-94 | when every title makes its book, the `k`-th book made is the `k`-th title's |
| CatalogProperties.EarlierBooksFrozen | src/parse.rs:34-94 | a run never drops a book and never changes any book but the last one it started with |
| CatalogProperties.StepKeepsEarlierBooks | src/parse.rs:34-94 | one line never drops a book and never changes any book but the last |
| CatalogProperties.NoMetadataAppendsBareBooks | src/parse.rs:55-94 | without metadata lines, a successful run is the starting books followed by the books its titles make |
| CatalogProperties.MadeAreBare | src/parse.rs:90-94 | every book a title line makes has no metadata: the fields are only set by later metadata lines |
| CatalogProperties.MetadataChangesOneField | src/parse.rs:34-53 | a successful metadata line keeps the other books, the name, the time and the other fields of the last book, and its own field holds the line's value |
| CatalogProperties.MetadataKeepsBares | src/parse.rs:34-53 | a metadata line keeps each book as its title line made it |
| CatalogProperties.AssignUnderErase | src/parse.rs:34-53 | two books that differ only in one field are set alike by any metadata line; a line for that same field makes them equal |
| CatalogProperties.StepKeepsSameExceptLast | src/parse.rs:34-61 | a non-title line treats two book lists that differ only in one field of the last book alike |
| CatalogProperties.RunKeepsSameExceptLast | src/parse.rs:32-61 | a run of non-title lines treats two book lists that differ only in one field of the last book alike |
| CatalogProperties.SameKeyOverwrites | src/parse.rs:34-53 | a metadata line for the field where two book lists differ makes them equal, or fails on both |
| CatalogProperties.LastWriteWins | src/parse.rs:34-53 | a metadata line that itself succeeds and is followed, with no title in between, by another line for the same key leaves no trace: the parse is as if it were absent, line numbers included (an earlier line that fails, for want of a book or on a bad pages value, is the failure itself) |
| TitleProperties.YearSingle | src/parse.rs:82-88 | a single `u16` year, padded with whitespace, is the time that starts and ends in that year |
| TitleProperties.YearRange | src/parse.rs:76-81 | `start-end`, each side padded, is the time from `start` to `end`; further `-` pieces are ignored |
| TitleProperties.YearOutOfRange | src/parse.rs:83 | a year above 65535 is refused |
| TitleProperties.YearMissing | src/parse.rs:83 | an empty year text is refused |
| TitleProperties.TabbedTitle | src/parse.rs:62-94 | a title laid out as name, one or more tabs and year text makes the book with that name and the parsed time, with no metadata |
| TitleProperties.SpacedTitle | src/parse.rs:62-94 | a title laid out as a name not ending in a space, four spaces and a separator-free year text makes the book with that name and the parsed time, with no metadata |
| TitleProperties.FiveSpacedTitle | src/parse.rs:62-94 | with five spaces between a name and a year, the name keeps no trailing space and the year still parses |
| TitleProperties.ParseTimeMeaning | src/parse.rs:76-88 | `ParseTime`: without a `-` the trimmed text is a `u16` numeral that is both start and end; with one, the trimmed pieces before the first `-` and between the first and second `-` are numerals for start and end; otherwise there is no time |
| TitleProperties.YearTextMeaning | src/parse.rs:63-74 | `YearText`: the year text holds no separator, is empty iff every chunk after the name is, and otherwise is the first non-empty chunk after the name |
| TitleProperties.TitleWithoutYear | src/parse.rs:63-83 | a title with no tab and no four spaces has no year and makes no book |
| Text.Trim | src/parse.rs:33 | a trimmed line has no whitespace at either end |
| Text.TrimStartDrops | src/parse.rs:33 | the leading-whitespace step removes a prefix of whitespace only and leaves a string that does not start with whitespace |
| Text.TrimEndDrops | src/parse.rs:33 | the trailing-whitespace step removes a suffix of whitespace only and leaves a string that does not end with whitespace |
| Text.TrimIsInfix | src/parse.rs:33 | trimming leaves a slice of the line with only whitespace before it and after it |
| Text.TrimKeepsOut | src/parse.rs:37 | trimming adds no character: a character absent from the text is absent from the trimmed text |
| Text.TrimEmpty | src/parse.rs:59 | a line trims to empty iff it is all whitespace |
| Text.TrimOfTrimmed | src/parse.rs:59 | trimming a trimmed line changes nothing |
| Text.TrimPadded | src/parse.rs:37 | trimming a trimmed text padded with whitespace gives the text back |
| Text.Split | src/parse.rs:29 | the pieces are non-empty in number, free of the separator, joined back give the input, and there are at least two when the separator occurs |
| Text.SplitJoin | src/parse.rs:29 | splitting the join of separator-free pieces gives the pieces back |
| Numbers.ParseUnsignedMeaning | src/parse.rs:47 | a text parses iff it is an optional `+` then at least one digit, with a value at most the type's maximum; the value is the digits read in base 10 |
| Numbers.ParseToDecimal | src/parse.rs:47 | the decimal rendering of `n` parses back to `n` exactly when `n` fits the type |
| Separator.SplitSeparators | src/parse.rs:63-65 | the split has at least one chunk, so the `expect("No name")` on the first chunk never fires; no chunk holds a separator; the first chunk is the prefix of the title before the leftmost tab or four-space group (no match starts inside it, one starts right after it), or the whole title when there is none |
| Separator.SplitAtTab | src/parse.rs:63-64 | a tab right after a separator-free piece cuts the title there, and the split goes on with the rest |
| Separator.SplitAtSpaces | src/parse.rs:63-64 | four spaces right after a separator-free piece that does not end in a space cut the title there, and the split goes on with the rest |
| Separator.SplitJoinTabs | src/parse.rs:63-64 | splitting separator-free pieces joined by tabs gives the pieces back |
| Separator.FirstPieceOfTrimmed | src/parse.rs:65 | the name of a non-empty trimmed title is non-empty and has no tab |
| Separator.FirstNonEmpty | src/parse.rs:68-74 | the year text is empty iff every chunk after the name is empty, and otherwise is one of those chunks |
| LineFold.FoldAppend | src/parse.rs:32 | parsing `a + b` is parsing `a` and then `b` from there, with line numbers continuing; a failure in `a` ends it |
| LineFold.FoldFailsAtFirstBadLine | src/parse.rs:32 | a failed fold fails at some line whose predecessors all succeed |
| LineFold.FoldOne | src/parse.rs:32 | `Fold` over a single line is that line's step |
| LineFold.FoldNoOps | src/parse.rs:32 | lines whose step leaves the state as it is change nothing, however many there are |
| ManualTest.ManualCatalog | src/parse.rs:103-145 | the unit test's input gives the two expected books, "The Player of Games" (2017, 466 pages) and "Accelerando" (2017-2018, 621 pages) |
| ManualTest.ManualRun | src/parse.rs:103-145 | the unit test's eleven lines parse, from no books, to those two books |
| ManualTest.TestRun | src/parse.rs:105-115 | the two books' lines as the test writes them, then a blank line, make "The Player of Games" and "Accelerando" with their genre, pages and author set |
| ManualTest.TwoBooksRun | src/parse.rs:32-97 | any two books' lines (blank, title, genre, pages, author), then a blank line, append those two books with their fields set |
| ManualTest.BookRun | src/parse.rs:32-97 | one book's five lines append the book its title makes, with its genre, page count and author set, numbering lines on by five |
| ManualTest.BookLinesShape | src/parse.rs:105-115 | the test's indented `Key: value` lines trim to `Key: value`, so a book written the test's way reads as its title, genre, pages and author |
| ManualTest.TitleRun | src/parse.rs:58-94 | a line that trims to a title appends the book it makes |
| ManualTest.BlankRun | src/parse.rs:59-61 | a line that trims to nothing leaves the books unchanged |
| ManualTest.GenreRun | src/parse.rs:39-43 | a `Genre: value` line sets the genre of the last book to `value` and nothing else |
| ManualTest.PagesRun | src/parse.rs:44-48 | a `Pages:` line with the decimal rendering of a `usize` sets the page count of the last book to that number |
| ManualTest.AuthorRun | src/parse.rs:49-53 | an `Author: value` line sets the author of the last book to `value` and nothing else |
| ManualTest.TitleKind | src/parse.rs:33-58 | a non-empty trimmed line with no `:` is a title (it cannot start with a key, since every key ends in `:`) |
| ManualTest.Title1Book | src/parse.rs:106 | the first test title makes "The Player of Games" in 2017 |
| ManualTest.Title2Book | src/parse.rs:111 | the second test title makes "Accelerando" from 2017 to 2018 |
| ManualTest.NoNewlines | src/parse.rs:105-115 | no line of the test's input holds a newline, so splitting the input gives back its eleven lines |

## Left out

- The `regex` crate: the title split `\t|    ` is an explicit scan (`Separator.SplitSeparators`) that cuts at each tab and at each group of four spaces, leftmost first, the way that regex matches.
- `eprintln!`: modelled as the list of messages that `Parse` returns; the stream itself is not modelled.
- `to_lowercase`: modelled as ASCII case folding on the line's characters. The model does not build the lower-cased string. Two non-ASCII characters lower-case to a string that starts with an ASCII letter: the Kelvin sign becomes `k`, which starts no key, and `İ` (U+0130) becomes `i` followed by U+0307, which starts `isbn:` with `i` but then fails the second position, which needs `s`. So the model decides the prefix test for `isbn:`, `genre:`, `pages:` and `author:` as the code does.
- Panics: modelled as `Err(ParseError(line, kind))`. Unwinding and the panic messages are not modelled.
- `usize`: taken as 64-bit (`Numbers.USIZE_MAX`).
- The `Into<&str>` conversion of the input: the model takes the string itself.
- `Books::parse` is modelled as producing `Books` or an error. The `Default` derive and `PartialEq` are not modelled; the unit test's `assert_eq!` is equality of the result.
- `BookParse.Classify` requires its argument to be trimmed. Every caller passes the trimmed line, as the code does.
- `ManualTest.ManualCatalog`: the test input is stated as its eleven lines joined by `'\n'` rather than as the single string literal of the test.
