/**
 * `CSVSearcher`: keeps the parsed rows of a CSV source with its header, and returns the rows in
 * which a word occurs, anywhere in the row or in one column given by index or by header name.
 */
module CsvSearch {
  import opened Wrappers
  import opened JavaLang
  import opened CreatorFromRow
  import opened CsvParse
  import opened RowSplit
  import StringListCreateFromRow

  const MissingHeaders := "CSV missing headers"
  const HeaderIndexOutOfBounds := "Header index out of bounds of CSV header list"
  const HeaderNotInList := "Header inputted was not in CSV header list"

  /** What a search can throw: the checked `NotFoundException`, or an unchecked exception. */
  datatype SearchError =
    | NotFound(message: string)
    | NullPointer                                // a `null` header list
    | IndexOutOfBounds(index: int, length: int)  // `List.get` past the end of a short row

  /** Which rows a search keeps. */
  datatype Query =
    | AnyField(word: string)                // `search(word)`
    | InColumn(column: nat, word: string)   // `search(word, column)`, once the column is known to exist

  /** `row` is kept by the search. */
  predicate Selects(q: Query, row: Row) {
    match q
    case AnyField(word) => exists k :: 0 <= k < |row| && Contains(row[k], word)
    case InColumn(column, word) => column < |row| && Contains(row[column], word)
  }

  /** The rows `q` keeps, in their original order. */
  function Select(rows: seq<Row>, q: Query): (kept: seq<Row>)
    ensures |kept| <= |rows|
  {
    if rows == [] then []
    else
      var last := rows[|rows| - 1];
      Select(rows[..|rows| - 1], q) + (if Selects(q, last) then [last] else [])
  }

  /** `xs` is `ys` with some elements removed, the others kept in order. */
  predicate Subsequence<X(==)>(xs: seq<X>, ys: seq<X>) {
    xs == [] || (ys != [] &&
      ((xs[|xs| - 1] == ys[|ys| - 1] && Subsequence(xs[..|xs| - 1], ys[..|ys| - 1]))
       || Subsequence(xs, ys[..|ys| - 1])))
  }

  /** The search result is a subsequence of the rows: no row is invented, moved or duplicated. */
  lemma {:induction false} SelectIsSubsequence(rows: seq<Row>, q: Query)
    ensures Subsequence(Select(rows, q), rows)
  {
    if rows != [] {
      var init := rows[..|rows| - 1];
      SelectIsSubsequence(init, q);
      var kept := Select(rows, q);
      if Selects(q, rows[|rows| - 1]) {
        assert kept[..|kept| - 1] == Select(init, q);
        assert kept[|kept| - 1] == rows[|rows| - 1];
      } else {
        assert kept == Select(init, q);
      }
    }
  }

  /** Each row is kept exactly as often as it occurs when the query keeps it, and never otherwise. */
  lemma {:induction false} SelectCounts(rows: seq<Row>, q: Query, row: Row)
    ensures multiset(Select(rows, q))[row] == if Selects(q, row) then multiset(rows)[row] else 0
  {
    if rows != [] {
      var init := rows[..|rows| - 1];
      var last := rows[|rows| - 1];
      SelectCounts(init, q, row);
      assert rows == init + [last];
      assert multiset(rows) == multiset(init) + multiset{last};
      if Selects(q, last) {
        assert Select(rows, q) == Select(init, q) + [last];
        assert multiset(Select(rows, q)) == multiset(Select(init, q)) + multiset{last};
      } else {
        assert Select(rows, q) == Select(init, q);
      }
    }
  }

  /** A row is in the result exactly when it is one of the rows and the query keeps it. */
  lemma SelectMembership(rows: seq<Row>, q: Query, row: Row)
    ensures row in Select(rows, q) <==> row in rows && Selects(q, row)
  {
    SelectCounts(rows, q, row);
  }

  /** Searching the result again with the same query changes nothing. */
  lemma {:induction false} SelectIdempotent(rows: seq<Row>, q: Query)
    ensures Select(Select(rows, q), q) == Select(rows, q)
  {
    if rows != [] {
      var init := rows[..|rows| - 1];
      var last := rows[|rows| - 1];
      SelectIdempotent(init, q);
      var kept := Select(rows, q);
      if Selects(q, last) {
        assert kept[..|kept| - 1] == Select(init, q);
        assert kept == Select(init, q) + [last];
        assert kept[|kept| - 1] == last;
        assert Select(kept, q) == Select(Select(init, q), q) + [last];
      } else {
        assert kept == Select(init, q);
      }
    }
  }

  /** The search keeps every row exactly when the query keeps each one. */
  lemma {:induction false} SelectKeepsAll(rows: seq<Row>, q: Query)
    ensures Select(rows, q) == rows <==> forall k :: 0 <= k < |rows| ==> Selects(q, rows[k])
  {
    if forall k :: 0 <= k < |rows| ==> Selects(q, rows[k]) {
      if rows != [] {
        var init := rows[..|rows| - 1];
        SelectKeepsAll(init, q);
        assert rows == init + [rows[|rows| - 1]];
      }
    } else {
      var k :| 0 <= k < |rows| && !Selects(q, rows[k]);
      SelectCounts(rows, q, rows[k]);
      assert multiset(rows)[rows[k]] > 0;
    }
  }

  /**
   * Every string contains the empty word, so `search("")` returns every row that has at least one
   * field, and all rows exactly when none is empty.
   */
  lemma EmptyWordMatchesNonEmptyRows(rows: seq<Row>)
    ensures forall row :: Selects(AnyField(""), row) <==> |row| > 0
    ensures Select(rows, AnyField("")) == rows <==> forall k :: 0 <= k < |rows| ==> |rows[k]| > 0
  {
    forall row | |row| > 0
      ensures Selects(AnyField(""), row)
    {
      assert Contains(row[0], "");
    }
    SelectKeepsAll(rows, AnyField(""));
  }

  /** The first row too short to have `column`, if any. */
  function FirstShortRow(rows: seq<Row>, column: nat, from: nat): (r: Option<nat>)
    requires from <= |rows|
    ensures r.Some? ==> from <= r.value < |rows| && |rows[r.value]| <= column
    ensures forall k :: from <= k < |rows| && (r.None? || k < r.value) ==> column < |rows[k]|
    decreases |rows| - from
  {
    if from == |rows| then None
    else if |rows[from]| <= column then Some(from)
    else FirstShortRow(rows, column, from + 1)
  }

  /** The first position of `name` in the header list, as `String.equals` finds it. */
  function HeaderIndex(headers: Row, name: string, from: nat): (r: Option<nat>)
    requires from <= |headers|
    ensures r.Some? ==> from <= r.value < |headers| && headers[r.value] == name
    ensures forall k :: from <= k < |headers| && (r.None? || k < r.value) ==> headers[k] != name
    decreases |headers| - from
  {
    if from == |headers| then None
    else if headers[from] == name then Some(from)
    else HeaderIndex(headers, name, from + 1)
  }

  /**
   * `search(word, column)`: no header, a `null` header list, an index outside the header list,
   * and a row shorter than the column (the first one the loop reaches) each end in an exception.
   */
  function ColumnSearch(rows: seq<Row>, headerList: Option<Row>, hasHeader: bool, word: string, column: int)
    : Result<seq<Row>, SearchError>
  {
    if !hasHeader then Failure(NotFound(MissingHeaders))
    else if headerList.None? then Failure(NullPointer)
    else if column >= |headerList.value| || column < 0 then Failure(NotFound(HeaderIndexOutOfBounds))
    else match FirstShortRow(rows, column, 0)
      case Some(k) => Failure(IndexOutOfBounds(column, |rows[k]|))
      case None => Success(Select(rows, InColumn(column, word)))
  }

  /** `search(word, header)`: the column is the first header equal to `header`. */
  function NamedColumnSearch(rows: seq<Row>, headerList: Option<Row>, hasHeader: bool, word: string, header: string)
    : Result<seq<Row>, SearchError>
  {
    if !hasHeader then Failure(NotFound(MissingHeaders))
    else if headerList.None? then Failure(NullPointer)
    else match HeaderIndex(headerList.value, header, 0)
      case None => Failure(NotFound(HeaderNotInList))
      case Some(i) => ColumnSearch(rows, headerList, hasHeader, word, i)
  }

  /**
   * A column search succeeds exactly when there is a header list, the column is one of its
   * positions and every row has that column; it then returns the rows whose field in that column
   * contains the word, in order, each as many times as it occurs among the rows.
   */
  lemma ColumnSearchOutcome(rows: seq<Row>, headerList: Option<Row>, hasHeader: bool, word: string, column: int)
    ensures var r := ColumnSearch(rows, headerList, hasHeader, word, column);
      && (r.Success? <==>
            hasHeader && headerList.Some? && 0 <= column < |headerList.value|
            && forall k :: 0 <= k < |rows| ==> column < |rows[k]|)
      && (r.Success? ==>
            Subsequence(r.value, rows)
            && (forall row :: row in r.value <==> row in rows && Contains(row[column], word))
            && (forall row :: multiset(r.value)[row] == if row in rows && Contains(row[column], word) then multiset(rows)[row] else 0))
  {
    var r := ColumnSearch(rows, headerList, hasHeader, word, column);
    if r.Success? {
      SelectIsSubsequence(rows, InColumn(column, word));
      forall row
        ensures row in r.value <==> row in rows && Contains(row[column], word)
      {
        SelectMembership(rows, InColumn(column, word), row);
      }
      forall row
        ensures multiset(r.value)[row] == if row in rows && Contains(row[column], word) then multiset(rows)[row] else 0
      {
        SelectCounts(rows, InColumn(column, word), row);
      }
    }
  }

  /**
   * A search by header name is the search by the index of the first equal header, and fails with
   * "Header inputted was not in CSV header list" when no header is equal.
   */
  lemma NamedSearchUsesFirstMatch(rows: seq<Row>, headers: Row, word: string, header: string)
    ensures forall i :: 0 <= i < |headers| && headers[i] == header && (forall k :: 0 <= k < i ==> headers[k] != header) ==>
      NamedColumnSearch(rows, Some(headers), true, word, header) == ColumnSearch(rows, Some(headers), true, word, i)
    ensures header !in headers ==>
      NamedColumnSearch(rows, Some(headers), true, word, header) == Failure(NotFound(HeaderNotInList))
  {
  }

  /**
   * A source parsed with a header by the identity converter can be searched in any column of its
   * header: every data row has the header's width, so no row is too short.
   */
  lemma ParsedTableSearchable(src: seq<LineRead>, rows: seq<Row>, prior: Option<Row>, word: string, column: int)
    requires Parsed(src, true, StringListCreateFromRow.Create) == Success(rows)
    requires HeaderAfter(src, true, prior).Some?
    requires 0 <= column < |HeaderAfter(src, true, prior).value|
    ensures ColumnSearch(rows, HeaderAfter(src, true, prior), true, word, column) == Success(Select(rows, InColumn(column, word)))
  {
    IdentityParseYieldsFields(src, true, rows);
    ParsedRowsInLineOrder(src, true, StringListCreateFromRow.Create, rows);
    forall k | 0 <= k < |rows|
      ensures column < |rows[k]|
    {
      var i := k + 1;
      assert FirstDataLine(true) <= i < |src|;
      assert rows[i - 1] == SplitRow(src[i].text);
    }
  }

  /**
   * A header-declared source with no lines parses to no rows and leaves the header list `null`, so a
   * search by column index or by name on the searcher built from it throws a `NullPointerException`
   * rather than a `NotFoundException`.
   */
  lemma EmptySourceColumnSearchThrows(word: string, column: int, header: string)
    ensures Parsed([], true, StringListCreateFromRow.Create) == Success([])
    ensures HeaderAfter([], true, None) == None
    ensures ColumnSearch([], HeaderAfter([], true, None), true, word, column) == Failure(NullPointer)
    ensures NamedColumnSearch([], HeaderAfter([], true, None), true, word, header) == Failure(NullPointer)
  {
    EmptySourceParses(true, StringListCreateFromRow.Create, None);
  }

  /** Searching the `county` column of a two-row table for `Prov` keeps only the Providence row. */
  lemma CountyColumnExample(rows: seq<Row>, headers: Row, word: string)
    requires headers == ["state", "county"]
    requires rows == [["RI", "Providence"], ["MA", "Boston"]]
    requires word == "Prov"
    ensures NamedColumnSearch(rows, Some(headers), true, word, "county") == Success([rows[0]])
    ensures NamedColumnSearch(rows, Some(headers), true, word, "town") == Failure(NotFound(HeaderNotInList))
    ensures ColumnSearch(rows, Some(headers), true, word, 2) == Failure(NotFound(HeaderIndexOutOfBounds))
    ensures ColumnSearch(rows, Some(headers), true, word, -1) == Failure(NotFound(HeaderIndexOutOfBounds))
    ensures NamedColumnSearch(rows, Some(headers), false, word, "county") == Failure(NotFound(MissingHeaders))
  {
    assert HeaderIndex(headers, "county", 0) == Some(1);
    assert HeaderIndex(headers, "town", 0) == None;
    assert Contains(rows[0][1], word) by {
      assert word <= rows[0][1];
    }
    assert !Contains(rows[1][1], word) by {
      MissingFirstCharNotContained(rows[1][1], word);
    }
    assert Select(rows, InColumn(1, word)) == [rows[0]] by {
      assert rows[..1][..0] == [];
    }
  }

  class CsvSearcher {
    var listOfStringRows: seq<Row>
    /** The parser the rows came from; `null` when built from rows directly. */
    var parser: CsvParser?<Row>
    var headerList: Option<Row>
    var hasHeader: bool

    /** `CSVSearcher(parsedText, headerList, hasHeader)`: stores what it is given. */
    constructor(parsedText: seq<Row>, headerList: Option<Row>, hasHeader: bool)
      ensures listOfStringRows == parsedText && this.headerList == headerList && this.hasHeader == hasHeader
      ensures parser == null
    {
      listOfStringRows := parsedText;
      this.headerList := headerList;
      this.hasHeader := hasHeader;
      parser := null;
    }

    /**
     * `CSVSearcher(parser)`: parses, then takes the rows, `hasHeader` and the header list from the
     * parser; an exception from `parse()` leaves no searcher.
     */
    static method FromParser(parser: CsvParser<Row>) returns (r: Result<CsvSearcher, ParseError>)
      modifies parser
      ensures var parsed := Parsed(old(parser.reader), parser.hasHeader, parser.rowToObject);
        && (r.Success? <==> parsed.Success?)
        && (r.Failure? ==> r.error == parsed.error)
        && (r.Success? ==>
              && fresh(r.value)
              && r.value.listOfStringRows == parsed.value
              && r.value.hasHeader == parser.hasHeader
              && r.value.headerList == HeaderAfter(old(parser.reader), parser.hasHeader, old(parser.headerList))
              && r.value.parser == parser)
      ensures parser.headerList == HeaderAfter(old(parser.reader), parser.hasHeader, old(parser.headerList))
      ensures parser.objectList == DataRows(SplitSource(old(parser.reader)), parser.hasHeader, parser.rowToObject,
                                            LinesAccepted(SplitSource(old(parser.reader)), parser.hasHeader, parser.rowToObject))
      ensures parser.reader == old(parser.reader)[LinesConsumed(SplitSource(old(parser.reader)), parser.hasHeader, parser.rowToObject)..]
    {
      var rows := parser.Parse();
      if rows.Failure? {
        return Failure(rows.error);
      }
      var hasHeader := parser.GetHasHeader();
      var headerList := parser.GetHeaderList();
      var searcher := new CsvSearcher(rows.value, headerList, hasHeader);
      searcher.parser := parser;
      r := Success(searcher);
    }

    /** `search(word)`: the rows with at least one field containing `word`, in order. */
    method Search(searchWord: string) returns (returnList: seq<Row>)
      ensures returnList == Select(listOfStringRows, AnyField(searchWord))
    {
      returnList := [];
      var i := 0;
      while i < |listOfStringRows|
        invariant i <= |listOfStringRows|
        invariant returnList == Select(listOfStringRows[..i], AnyField(searchWord))
      {
        var stringRow := listOfStringRows[i];
        ghost var before := returnList;
        var j := 0;
        while j < |stringRow|
          invariant j <= |stringRow| && returnList == before
          invariant forall k :: 0 <= k < j ==> !Contains(stringRow[k], searchWord)
        {
          if Contains(stringRow[j], searchWord) {
            returnList := returnList + [stringRow];
            break;
          }
          j := j + 1;
        }
        assert listOfStringRows[..i + 1][..i] == listOfStringRows[..i];
        i := i + 1;
      }
      assert listOfStringRows[..i] == listOfStringRows;
    }

    /** `search(word, header)` with an index: the rows whose field at that index contains `word`. */
    method SearchIndex(searchWord: string, header: int) returns (r: Result<seq<Row>, SearchError>)
      ensures r == ColumnSearch(listOfStringRows, headerList, hasHeader, searchWord, header)
    {
      if !hasHeader {
        return Failure(NotFound(MissingHeaders));
      }
      if headerList.None? {
        return Failure(NullPointer);
      }
      var headers := headerList.value;
      if header >= |headers| {
        return Failure(NotFound(HeaderIndexOutOfBounds));
      }
      if header < 0 {
        return Failure(NotFound(HeaderIndexOutOfBounds));
      }
      var returnList := [];
      for i := 0 to |listOfStringRows|
        invariant returnList == Select(listOfStringRows[..i], InColumn(header, searchWord))
        invariant forall k :: 0 <= k < i ==> header < |listOfStringRows[k]|
      {
        var stringRow := listOfStringRows[i];
        if header >= |stringRow| {
          return Failure(IndexOutOfBounds(header, |stringRow|));
        }
        var wordAtColumn := stringRow[header];
        if Contains(wordAtColumn, searchWord) {
          returnList := returnList + [stringRow];
        }
        assert listOfStringRows[..i + 1][..i] == listOfStringRows[..i];
      }
      assert listOfStringRows[..|listOfStringRows|] == listOfStringRows;
      r := Success(returnList);
    }

    /** `search(word, header)` with a name: looks the name up in the header list, then searches that column. */
    method SearchName(searchWord: string, header: string) returns (r: Result<seq<Row>, SearchError>)
      ensures r == NamedColumnSearch(listOfStringRows, headerList, hasHeader, searchWord, header)
    {
      if !hasHeader {
        return Failure(NotFound(MissingHeaders));
      }
      if headerList.None? {
        return Failure(NullPointer);
      }
      var headers := headerList.value;
      var wordCounter := 0;
      while wordCounter < |headers|
        invariant wordCounter <= |headers|
        invariant forall k :: 0 <= k < wordCounter ==> headers[k] != header
      {
        if headers[wordCounter] == header {
          r := SearchIndex(searchWord, wordCounter);
          return;
        }
        wordCounter := wordCounter + 1;
      }
      r := Failure(NotFound(HeaderNotInList));
    }
  }
}
