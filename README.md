# CSV parse and search, modelled in Dafny

This project models the CSV core of a small Java web service: the parser that reads a CSV source
line by line into typed rows (`CSVParser`), the two row converters it is used with
(`StringListCreateFromRow`, `IntegerListCreateFromRow`), the searcher that filters parsed rows by a
word (`CSVSearcher`), the holder of the currently loaded dataset (`AccessCSV`) and the location
record that renders a broadband query string (`LocationData`).

Modules, one per source file, plus two support modules:

- `Wrappers`: `Option` and `Result`.
- `JavaLang`: the library calls the core relies on, `Integer.parseInt` (32-bit `int`) and
  `String.contains`.
- `RowSplit`: the field splitter, `Pattern.split` with the regex
  `,(?=([^"]*"[^"]*")*(?![^"]*"))`. A comma is a separator exactly when an even number of `"`
  follow it on the line. When at least one comma matches, trailing empty fields are dropped.
- `CreatorFromRow`: rows, the converter type and `FactoryFailureException`. A converter is a
  function from a row to a value or a failure.
- `StringListCreateFromRow`, `IntegerListCreateFromRow`: the two converters. The integer converter
  is a method with a loop, proved equal to the function `IntegerRow`.
- `CsvParse`: the class `CsvParser`. Its `Parse` method is the source's `while` loop, proved equal
  to a declarative specification. That specification is the first failing line (unreadable, wrong
  width or failed conversion) or, when no line fails, the converted non-header lines. The method
  also fixes the header list, the collected objects and the unread rest of the source afterwards.
- `CsvSearch`: the class `CsvSearcher`. Its three `search` methods are loops proved equal to one
  filter, `Select`. They also model the `NotFoundException` cases and the unchecked exceptions
  (`NullPointerException` for a `null` header list, `IndexOutOfBoundsException` for a short row).
- `DatasetAccess`: the class `AccessCsv` with its setters and getters.
- `CountyLocation`: `LocationData` and `toOurServerParams()`, with a reading-back function as its
  partner.

Two behaviours of the code are easy to miss, and the model keeps both:

- `search("")` returns every row that has at least one field, not every row: a line made of
  commas only, such as `,`, splits into zero fields, and such a row never matches
  (`CsvSearch.EmptyWordMatchesNonEmptyRows`).
- An empty source parsed with `hasHeader` leaves the header list `null`. A column search on the
  resulting searcher then throws a `NullPointerException`; it does not return an empty result
  (`CsvSearch.EmptySourceColumnSearchThrows`).

## Model

| member | source | states |
|---|---|---|
| JavaLang.ParseInt | src/main/java/CSV/IntegerListCreateFromRow.java:25 | `Integer.parseInt`: an optional sign and at least one ASCII digit whose value fits in an `int`, otherwise `NumberFormatException` (stated by the two lemmas below) |
| JavaLang.ParseIntToString | src/main/java/CSV/IntegerListCreateFromRow.java:25 | `Integer.parseInt` reads back the canonical decimal text of every 32-bit `int` |
| JavaLang.ParseIntRejectsNonDigit | src/main/java/CSV/IntegerListCreateFromRow.java:25-28 | text with a character that is neither a digit nor a leading sign raises `NumberFormatException` |
| JavaLang.Contains | src/main/java/CSV/CSVSearcher.java:91 | `String.contains`: the word is a prefix of some suffix of the string (stated by `ContainsIffOccurs`) |
| JavaLang.ContainsIffOccurs | src/main/java/CSV/CSVSearcher.java:91 | `contains` holds exactly when the word occurs in the string at some position |
| JavaLang.MissingFirstCharNotContained | src/main/java/CSV/CSVSearcher.java:109 | a string that lacks the word's first character does not contain the word |
| RowSplit.SplitRow | src/main/java/CSV/CSVParser.java:53-55 | the split of one line: the pieces between separating commas, the line whole when there is none, and otherwise without trailing empty pieces; its properties are the lemmas below |
| RowSplit.NextSeparatorIsFirst | src/main/java/CSV/CSVParser.java:53-55 | the match the splitter cuts at is the first separating comma after the previous cut |
| RowSplit.DropTrailingEmptyKeepsPrefix | src/main/java/CSV/CSVParser.java:55 | dropping trailing empty strings keeps a prefix, removes only empty strings and leaves a non-empty last field |
| RowSplit.JoinSegments | src/main/java/CSV/CSVParser.java:55 | the pieces between cuts, joined with commas, give back the line from the starting position |
| RowSplit.SegmentCommasAreSeparators | src/main/java/CSV/CSVParser.java:53-55 | the cuts fall at exactly the commas followed by an even number of quotes |
| RowSplit.SplitRowPieces | src/main/java/CSV/CSVParser.java:53-55 | the split is the pieces between separators, which join back to the line; with a separator every trailing empty piece is removed and nothing else; with no separator the line comes back whole |
| RowSplit.SeparatorOutsideQuotes | src/main/java/CSV/CSVParser.java:53-54 | on a line with balanced quotes, a comma separates fields exactly when it is outside every quoted span |
| RowSplit.UnquotedCommasSeparate | src/main/java/CSV/CSVParser.java:53-54 | on a line without quotes every comma separates fields |
| RowSplit.QuotedFieldKeepsCommas | src/main/java/CSV/CSVParser.java:53-55 | `x,"y",z` splits into `x`, `"y"` (its commas and quotes kept) and `z` (dropped when empty) |
| RowSplit.SplitJoinRoundTrip | src/main/java/CSV/CSVParser.java:55 | splitting undoes joining with commas for fields without commas or quotes whose last field is non-empty |
| RowSplit.QuotedCommaExample | src/main/java/CSV/CSVParser.java:55 | `a,"b,c",d` gives the three fields `a`, `"b,c"` and `d` |
| RowSplit.SplitRowEdgeExamples | src/main/java/CSV/CSVParser.java:55 | the empty line gives one empty field and the line `,` gives no field |
| StringListCreateFromRow.Create | src/main/java/CSV/StringListCreateFromRow.java:18-20 | the identity converter: it returns the row and never throws (stated by `CreateIsIdentity`) |
| StringListCreateFromRow.CreateIsIdentity | src/main/java/CSV/StringListCreateFromRow.java:18-20 | the identity converter never fails, keeps length and every field, and is idempotent |
| IntegerListCreateFromRow.IntegerRow | src/main/java/CSV/IntegerListCreateFromRow.java:21-31 | success exactly when every field parses, then one value per field in order; otherwise the failure names the leftmost bad field as `"Not an integer: " + field` and carries the row |
| IntegerListCreateFromRow.ConvertFrom | src/main/java/CSV/IntegerListCreateFromRow.java:23-30 | the same statement for the fields from a given index on |
| IntegerListCreateFromRow.FirstNonIntegerUnique | src/main/java/CSV/IntegerListCreateFromRow.java:27-28 | the field the failure reports is determined by the row |
| IntegerListCreateFromRow.Create | src/main/java/CSV/IntegerListCreateFromRow.java:21-31 | the loop returns exactly `IntegerRow(row)` |
| IntegerListCreateFromRow.EmptyRowConverts | src/main/java/CSV/IntegerListCreateFromRow.java:22-31 | the empty row converts to the empty list |
| IntegerListCreateFromRow.NonIntegerFieldExample | src/main/java/CSV/IntegerListCreateFromRow.java:27-28 | `["1", "abc"]` fails with `Not an integer: abc` and the whole row |
| CsvParse.SplitSource | src/main/java/CSV/CSVParser.java:52-55 | each read of the source is split into fields, and a read that throws stays a failure |
| CsvParse.Parsed | src/main/java/CSV/CSVParser.java:44-79 | what `parse()` returns: the first failing line's exception, or every data line converted in order (stated by `ParseSucceedsIffWellFormed`, `ParsedRowsInLineOrder` and `FailsFirstAt`) |
| CsvParse.HeaderAfter | src/main/java/CSV/CSVParser.java:65-67 | the header list after `parse()`: the first line's fields when a header is declared and that line is readable, otherwise the list held before |
| CsvParse.FirstFailure | src/main/java/CSV/CSVParser.java:52-75 | the first line that cannot be read, has a width other than the first line's, or fails to convert; every earlier line passes |
| CsvParse.DataRows | src/main/java/CSV/CSVParser.java:65-75 | one converted value per non-header line among those read |
| CsvParse.DataRowsAt | src/main/java/CSV/CSVParser.java:65-75 | element `j` of the collected values is the converter's value for data line `j` |
| CsvParse.LinesAccepted | src/main/java/CSV/CSVParser.java:52-76 | the lines handled before the parse stops |
| CsvParse.LinesConsumed | src/main/java/CSV/CSVParser.java:52 | the lines taken from the reader, the failing one included |
| CsvParse.FailsFirstAt | src/main/java/CSV/CSVParser.java:57-75 | when line `n` is the first failing one the parse throws that line's exception after reading `n + 1` lines |
| CsvParse.AcceptLine | src/main/java/CSV/CSVParser.java:57-76 | a line that passes extends the accepted prefix, and a data line appends its converted value |
| CsvParse.NoLineFails | src/main/java/CSV/CSVParser.java:52-78 | when no line fails the parse reads everything and returns every data row |
| CsvParse.CsvParser.constructor | src/main/java/CSV/CSVParser.java:28-32 | stores the reader, the converter and the header flag; no header list yet |
| CsvParse.CsvParser.Parse | src/main/java/CSV/CSVParser.java:44-79 | returns the specified result; the header list becomes the first line's fields when it is the header; the collected values and the unread rest of the source are as specified |
| CsvParse.CsvParser.GetHasHeader | src/main/java/CSV/CSVParser.java:86-88 | returns the header flag |
| CsvParse.CsvParser.GetHeaderList | src/main/java/CSV/CSVParser.java:95-97 | returns the stored header list, `null` when none was taken |
| CsvParse.ParseSucceedsIffWellFormed | src/main/java/CSV/CSVParser.java:52-78 | the parse returns a list exactly when every line is readable, of the first line's width and, unless it is the header, convertible |
| CsvParse.ParsedLinesInOrder | src/main/java/CSV/CSVParser.java:57-78 | on success every line has the first line's width and the result is the converted data lines in order |
| CsvParse.ParsedRowsInLineOrder | src/main/java/CSV/CSVParser.java:65-78 | on success the result has one value per non-header line, in line order, the converter's value for that line's fields |
| CsvParse.IdentityParseYieldsFields | src/main/java/CSV/CSVParser.java:55-75 | with the identity converter the rows are the lines' fields, all of the first line's width |
| CsvParse.WidthMismatchFails | src/main/java/CSV/CSVParser.java:57-63 | a line whose width differs from the first line's makes the parse fail |
| CsvParse.IdentityMismatchNamesRow | src/main/java/CSV/CSVParser.java:61-63 | the exception names the first row whose width differs; only the lines up to it need be readable |
| CsvParse.FailureIgnoresLaterLines | src/main/java/CSV/CSVParser.java:52-75 | the outcome of a failing parse does not depend on the lines after the failing one |
| CsvParse.EmptySourceParses | src/main/java/CSV/CSVParser.java:44-79 | an empty source gives the empty list and leaves the header list as it was |
| CsvSearch.Select | src/main/java/CSV/CSVSearcher.java:88-117 | the rows a query keeps, in order; never more rows than given (its properties are the `Select` lemmas below) |
| CsvSearch.ColumnSearch | src/main/java/CSV/CSVSearcher.java:75-96 | what `search(word, column)` returns: its three `NotFoundException` and two unchecked exception cases in the code's order, else the column filter (stated by `ColumnSearchOutcome`) |
| CsvSearch.NamedColumnSearch | src/main/java/CSV/CSVSearcher.java:50-65 | what `search(word, header)` returns: the column search at the first equal header, or the not-in-list exception (stated by `NamedSearchUsesFirstMatch`) |
| CsvSearch.SelectIsSubsequence | src/main/java/CSV/CSVSearcher.java:105-117 | search results are a subsequence of the rows: order kept, nothing invented |
| CsvSearch.SelectCounts | src/main/java/CSV/CSVSearcher.java:105-117 | a matching row occurs in the result as often as in the rows, a non-matching one never |
| CsvSearch.SelectMembership | src/main/java/CSV/CSVSearcher.java:88-94 | a row is in the result exactly when it is one of the rows and matches |
| CsvSearch.SelectIdempotent | src/main/java/CSV/CSVSearcher.java:105-117 | searching a search result again with the same word changes nothing |
| CsvSearch.SelectKeepsAll | src/main/java/CSV/CSVSearcher.java:105-117 | the result is all rows exactly when every row matches |
| CsvSearch.EmptyWordMatchesNonEmptyRows | src/main/java/CSV/CSVSearcher.java:107-115 | the empty word matches exactly the rows with at least one field |
| CsvSearch.FirstShortRow | src/main/java/CSV/CSVSearcher.java:89-90 | the first row too short for the column; every earlier row has it |
| CsvSearch.HeaderIndex | src/main/java/CSV/CSVSearcher.java:55-61 | the first header equal to the name; no earlier header is equal |
| CsvSearch.ColumnSearchOutcome | src/main/java/CSV/CSVSearcher.java:75-96 | a column search succeeds exactly when the header flag is set, the header list exists, the column is one of its indices and every row has it; the result is then an ordered subsequence of exactly the rows whose field there contains the word, each kept as often as it occurs |
| CsvSearch.NamedSearchUsesFirstMatch | src/main/java/CSV/CSVSearcher.java:50-65 | a search by name is the search by the first equal header's index, and an unknown name gives "Header inputted was not in CSV header list" |
| CsvSearch.ParsedTableSearchable | src/main/java/CSV/CSVSearcher.java:89-90 | after a successful identity parse with a header, any column of the header can be searched without an index error |
| CsvSearch.EmptySourceColumnSearchThrows | src/main/java/CSV/CSVSearcher.java:80-81 | an empty source with a declared header leaves the header list `null`, and column searches then throw `NullPointerException` |
| CsvSearch.CountyColumnExample | src/main/java/CSV/CSVSearcher.java:50-96 | on a `state,county` table, `Prov` in `county` finds the Providence row; an unknown name, indices 2 and -1, and a missing header give their messages |
| CsvSearch.CsvSearcher.constructor | src/main/java/CSV/CSVSearcher.java:34-38 | stores the rows, the header list and the header flag |
| CsvSearch.CsvSearcher.FromParser | src/main/java/CSV/CSVSearcher.java:26-32 | parses, then takes the rows, the header flag and the header list from the parser, which is left holding the collected objects and the unread rest of the source; a parse exception propagates and no searcher is made |
| CsvSearch.CsvSearcher.Search | src/main/java/CSV/CSVSearcher.java:105-118 | returns the rows with a field that contains the word, in order |
| CsvSearch.CsvSearcher.SearchIndex | src/main/java/CSV/CSVSearcher.java:75-96 | returns the specified column search, including each exception case |
| CsvSearch.CsvSearcher.SearchName | src/main/java/CSV/CSVSearcher.java:50-65 | returns the specified search by header name, including each exception case |
| DatasetAccess.AccessCsv.constructor | src/main/java/CSV/AccessCSV.java:19-22 | a new holder is not loaded, has no headers and holds no data or header list |
| DatasetAccess.AccessCsv.SetParsedText | src/main/java/CSV/AccessCSV.java:29-31 | sets the data and nothing else |
| DatasetAccess.AccessCsv.SetHeaders | src/main/java/CSV/AccessCSV.java:38-40 | sets the header list and nothing else |
| DatasetAccess.AccessCsv.SetLoaded | src/main/java/CSV/AccessCSV.java:47-49 | sets the loaded flag and nothing else |
| DatasetAccess.AccessCsv.SetHasHeaders | src/main/java/CSV/AccessCSV.java:83-85 | sets the header flag and nothing else |
| DatasetAccess.AccessCsv.GetLoaded | src/main/java/CSV/AccessCSV.java:56-58 | returns the loaded flag, changing nothing |
| DatasetAccess.AccessCsv.GetHeader | src/main/java/CSV/AccessCSV.java:65-67 | returns the header list, changing nothing |
| DatasetAccess.AccessCsv.GetParsedText | src/main/java/CSV/AccessCSV.java:74-76 | returns the data, changing nothing |
| DatasetAccess.AccessCsv.GetHasHeaders | src/main/java/CSV/AccessCSV.java:92-94 | returns the header flag, changing nothing |
| DatasetAccess.LoadThenRead | src/main/java/CSV/AccessCSV.java:29-94 | after all four setters each getter returns what was set |
| CountyLocation.LocationData.ToOurServerParams | src/main/java/countyAccess/LocationData.java:11-13 | the string is `state=`, the state, `&county=`, the county, in that order; its length is the two lengths plus 14 |
| CountyLocation.NextAmpersand | src/main/java/countyAccess/LocationData.java:12 | the first `&` from a position on, none before it |
| CountyLocation.ServerParamsRoundTrip | src/main/java/countyAccess/LocationData.java:11-13 | for a state without `&` the query string reads back to the same location |
| CountyLocation.AmbiguousWithoutEncoding | src/main/java/countyAccess/LocationData.java:12 | without encoding, two locations can give the same query string |
| CountyLocation.OnondagaExample | src/main/java/countyAccess/LocationData.java:6-13 | `("New+York", "Onondaga+County")` gives `state=New+York&county=Onondaga+County`, and the accessors return the arguments |

## Left out

- The reader is a sequence of line reads: each is a line without its terminator or a failed read
  (`IOException`). Line-terminator handling in `BufferedReader.readLine` is not modelled.
- A new `BufferedReader` may read ahead of the lines it returns. The model has a later `parse()`
  on the same parser see exactly the lines not yet returned. Buffering is not modelled.
- CsvParse.CsvParser.Parse: an `InconsistentRowException` is modelled by the row it names, not
  by its message text `"Inconsistent length of the row " + words`.
- `null` arguments are not modelled: a `null` reader, converter, row or field, or a `null`
  `Boolean` flag. The flags are plain booleans. The one `null` the model keeps is an unset header
  list or dataset (`None`), because the code reaches it in normal use.
- Java lists are shared by reference. The searcher's rows and the holder's data alias the caller's
  lists. The model uses values, so aliasing and later outside mutation are not captured.
- The debug printing in `search(word)` (two `System.out.println` calls per match) is not
  modelled.
- `Integer.parseInt` is modelled on ASCII digits. It also accepts other Unicode decimal digits,
  and this model does not.
- `String.equals` and `String.contains` compare UTF-16 code units. The model compares Dafny
  characters, which is the same thing for text without surrogate pairs.
- `CsvSearch.CsvSearcher.FromParser` is a static method rather than a constructor: a Dafny
  constructor cannot end in an exception. It is used with any converter producing string lists.
- The HTTP handlers, the census data source and its cache, `Main`, `InformationOnCSV` (an
  unreferenced copy of some `AccessCSV` accessors) and the county access utilities are not part of
  this model.
