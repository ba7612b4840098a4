/**
 * `CSVParser<T>`: reads a source line by line, splits each line into fields, fixes the row width
 * from the first line, keeps the first line as the header when asked to, and converts every other
 * line with the caller's `CreatorFromRow<T>`.
 */
module CsvParse {
  import opened Wrappers
  import opened RowSplit
  import opened CreatorFromRow
  import StringListCreateFromRow

  /**
   * The result of one `readLine()` on the source: a line without its terminator, or an
   * `IOException`. The end of the sequence is the end of the stream (`readLine()` returns `null`).
   */
  datatype LineRead = Line(text: string) | IoFailure

  /** The three checked exceptions `parse()` throws. */
  datatype ParseError =
    | IOError                              // IOException from the reader
    | InconsistentRow(row: Row)            // InconsistentRowException, naming the offending row
    | Conversion(failure: FactoryFailure)  // FactoryFailureException from the converter

  /**
   * Each read of the source with its line split into fields, `None` where `readLine()` threw.
   * The rest of the specification is stated on these split lines.
   */
  function SplitSource(src: seq<LineRead>): (lines: seq<Option<Row>>)
    ensures |lines| == |src|
    ensures forall i :: 0 <= i < |src| ==> (lines[i].Some? <==> src[i].Line?)
    ensures forall i :: 0 <= i < |src| && src[i].Line? ==> lines[i] == Some(SplitRow(src[i].text))
  {
    seq(|src|, i requires 0 <= i < |src| => if src[i].Line? then Some(SplitRow(src[i].text)) else None)
  }

  /** `rowLength`: the field count of the first line, which every later line must match. */
  function Width(lines: seq<Option<Row>>): int
    requires |lines| > 0
  {
    if lines[0].Some? then |lines[0].value| else -1
  }

  /** Index of the first line that is converted: line 0 is the header when there is one. */
  function FirstDataLine(hasHeader: bool): nat {
    if hasHeader then 1 else 0
  }

  /** Number of converted lines among the first `n`. */
  function DataLineCount(hasHeader: bool, n: nat): nat {
    if hasHeader && n > 0 then n - 1 else n
  }

  /** `parse()` throws while handling line `i`: it cannot be read, its width differs, or its conversion fails. */
  predicate LineFails<T>(lines: seq<Option<Row>>, hasHeader: bool, create: Creator<T>, i: nat)
    requires i < |lines|
  {
    match lines[i]
    case None => true
    case Some(words) =>
      (i > 0 && |words| != Width(lines)) || (i >= FirstDataLine(hasHeader) && create(words).Failure?)
  }

  /** The exception thrown at a failing line; the width check comes before the conversion. */
  function ErrorAt<T>(lines: seq<Option<Row>>, hasHeader: bool, create: Creator<T>, i: nat): ParseError
    requires i < |lines| && LineFails(lines, hasHeader, create, i)
  {
    match lines[i]
    case None => IOError
    case Some(words) =>
      if i > 0 && |words| != Width(lines) then InconsistentRow(words) else Conversion(create(words).error)
  }

  /** The first failing line at or after `from`, if any. */
  function FirstFailure<T>(lines: seq<Option<Row>>, hasHeader: bool, create: Creator<T>, from: nat): (r: Option<nat>)
    requires from <= |lines|
    ensures r.Some? ==> from <= r.value < |lines| && LineFails(lines, hasHeader, create, r.value)
    ensures forall j :: from <= j < |lines| && (r.None? || j < r.value) ==> !LineFails(lines, hasHeader, create, j)
    decreases |lines| - from
  {
    if from == |lines| then None
    else if LineFails(lines, hasHeader, create, from) then Some(from)
    else FirstFailure(lines, hasHeader, create, from + 1)
  }

  /** No line before `n` fails. */
  predicate NoFailureBefore<T>(lines: seq<Option<Row>>, hasHeader: bool, create: Creator<T>, n: nat) {
    n <= |lines| && forall i :: 0 <= i < n ==> !LineFails(lines, hasHeader, create, i)
  }

  /** `row` is what the converter makes of data line `j`. */
  ghost predicate IsDataRow<T>(lines: seq<Option<Row>>, hasHeader: bool, create: Creator<T>, j: nat, row: T) {
    var i := j + FirstDataLine(hasHeader);
    i < |lines| && lines[i].Some? && create(lines[i].value) == Success(row)
  }

  /** The converted data lines among the first `n` lines, none of which fails. */
  function DataRows<T>(lines: seq<Option<Row>>, hasHeader: bool, create: Creator<T>, n: nat): (rows: seq<T>)
    requires NoFailureBefore(lines, hasHeader, create, n)
    ensures |rows| == DataLineCount(hasHeader, n)
  {
    if n == 0 || (n == 1 && hasHeader) then []
    else
      assert !LineFails(lines, hasHeader, create, n - 1);
      DataRows(lines, hasHeader, create, n - 1) + [create(lines[n - 1].value).value]
  }

  /** Element `j` of the data rows is the converter's value for data line `j`. */
  lemma {:induction false} DataRowsAt<T>(lines: seq<Option<Row>>, hasHeader: bool, create: Creator<T>, n: nat, j: nat)
    requires NoFailureBefore(lines, hasHeader, create, n)
    requires j < |DataRows(lines, hasHeader, create, n)|
    ensures IsDataRow(lines, hasHeader, create, j, DataRows(lines, hasHeader, create, n)[j])
  {
    var rows := DataRows(lines, hasHeader, create, n);
    var prev := DataRows(lines, hasHeader, create, n - 1);
    if j < |prev| {
      DataRowsAt(lines, hasHeader, create, n - 1, j);
      assert rows[j] == prev[j];
    } else {
      assert !LineFails(lines, hasHeader, create, n - 1);
      assert j + FirstDataLine(hasHeader) == n - 1;
    }
  }

  /** What `parse()` returns on split lines: the converted data lines, or the first failing line's exception. */
  function ParseLines<T>(lines: seq<Option<Row>>, hasHeader: bool, create: Creator<T>): Result<seq<T>, ParseError> {
    match FirstFailure(lines, hasHeader, create, 0)
    case Some(i) => Failure(ErrorAt(lines, hasHeader, create, i))
    case None => Success(DataRows(lines, hasHeader, create, |lines|))
  }

  /** What `parse()` returns on a source. */
  function Parsed<T>(src: seq<LineRead>, hasHeader: bool, create: Creator<T>): Result<seq<T>, ParseError> {
    ParseLines(SplitSource(src), hasHeader, create)
  }

  /** Lines converted or taken as header before `parse()` stops. */
  function LinesAccepted<T>(lines: seq<Option<Row>>, hasHeader: bool, create: Creator<T>): (n: nat)
    ensures n <= |lines|
  {
    match FirstFailure(lines, hasHeader, create, 0)
    case Some(i) => i
    case None => |lines|
  }

  /** Lines taken from the reader by `parse()`: the failing one is read too. */
  function LinesConsumed<T>(lines: seq<Option<Row>>, hasHeader: bool, create: Creator<T>): (n: nat)
    ensures n <= |lines|
  {
    match FirstFailure(lines, hasHeader, create, 0)
    case Some(i) => i + 1
    case None => |lines|
  }

  /** `headerList` after `parse()`: the first line's fields when it is the header, else unchanged. */
  function HeaderAfter(src: seq<LineRead>, hasHeader: bool, prior: Option<Row>): Option<Row> {
    if hasHeader && |src| > 0 && src[0].Line? then Some(SplitRow(src[0].text)) else prior
  }

  /** When line `n` is the first failing one, `parse()` throws its exception after reading it. */
  lemma FailsFirstAt<T>(lines: seq<Option<Row>>, hasHeader: bool, create: Creator<T>, n: nat)
    requires n < |lines| && LineFails(lines, hasHeader, create, n)
    requires NoFailureBefore(lines, hasHeader, create, n)
    ensures FirstFailure(lines, hasHeader, create, 0) == Some(n)
    ensures ParseLines(lines, hasHeader, create) == Failure(ErrorAt(lines, hasHeader, create, n))
    ensures LinesAccepted(lines, hasHeader, create) == n && LinesConsumed(lines, hasHeader, create) == n + 1
  {
  }

  /** A line that does not fail extends the accepted prefix; a data line adds its converted value. */
  lemma AcceptLine<T>(lines: seq<Option<Row>>, hasHeader: bool, create: Creator<T>, n: nat)
    requires n < |lines| && NoFailureBefore(lines, hasHeader, create, n)
    requires !LineFails(lines, hasHeader, create, n)
    ensures NoFailureBefore(lines, hasHeader, create, n + 1)
    ensures DataRows(lines, hasHeader, create, n + 1) ==
      DataRows(lines, hasHeader, create, n) + (if n < FirstDataLine(hasHeader) then [] else [create(lines[n].value).value])
  {
  }

  /** When no line fails, `parse()` reads the whole source and returns every data row. */
  lemma NoLineFails<T>(lines: seq<Option<Row>>, hasHeader: bool, create: Creator<T>)
    requires NoFailureBefore(lines, hasHeader, create, |lines|)
    ensures FirstFailure(lines, hasHeader, create, 0) == None
    ensures ParseLines(lines, hasHeader, create) == Success(DataRows(lines, hasHeader, create, |lines|))
    ensures LinesAccepted(lines, hasHeader, create) == |lines| == LinesConsumed(lines, hasHeader, create)
  {
  }

  class CsvParser<T> {
    /** The lines the reader has not delivered yet. */
    var reader: seq<LineRead>
    const rowToObject: Creator<T>
    const hasHeader: bool
    /** `null` (`None`) until a parse takes a header line. */
    var headerList: Option<Row>
    var objectList: seq<T>

    constructor(reader: seq<LineRead>, rowToObject: Creator<T>, hasHeader: bool)
      ensures this.reader == reader && this.rowToObject == rowToObject && this.hasHeader == hasHeader
      ensures headerList == None && objectList == []
    {
      this.reader := reader;
      this.rowToObject := rowToObject;
      this.hasHeader := hasHeader;
      headerList := None;
      objectList := [];
    }

    /**
     * `parse()`: reads the remaining lines, returns the converted rows or throws at the first line
     * that cannot be read, has the wrong width or does not convert. The header, when taken, stays
     * in `headerList` even if a later line fails.
     */
    method Parse() returns (r: Result<seq<T>, ParseError>)
      modifies this
      ensures r == Parsed(old(reader), hasHeader, rowToObject)
      ensures headerList == HeaderAfter(old(reader), hasHeader, old(headerList))
      ensures objectList == DataRows(SplitSource(old(reader)), hasHeader, rowToObject,
                                     LinesAccepted(SplitSource(old(reader)), hasHeader, rowToObject))
      ensures reader == old(reader)[LinesConsumed(SplitSource(old(reader)), hasHeader, rowToObject)..]
    {
      ghost var src := reader;
      ghost var lines := SplitSource(src);
      objectList := [];
      var rowNumber := 0;
      var rowLength := -1;
      while reader != []
        invariant rowNumber <= |src| && reader == src[rowNumber..]
        invariant NoFailureBefore(lines, hasHeader, rowToObject, rowNumber)
        invariant objectList == DataRows(lines, hasHeader, rowToObject, rowNumber)
        invariant rowLength == if rowNumber == 0 then -1 else Width(lines)
        invariant headerList == if rowNumber == 0 then old(headerList) else HeaderAfter(src, hasHeader, old(headerList))
        decreases |reader|
      {
        var next := reader[0];
        reader := reader[1..];
        assert next == src[rowNumber];
        if next.IoFailure? {
          FailsFirstAt(lines, hasHeader, rowToObject, rowNumber);
          return Failure(IOError);
        }
        var words := SplitRow(next.text);
        assert lines[rowNumber] == Some(words);
        if rowNumber > 0 {
          assert !LineFails(lines, hasHeader, rowToObject, 0);
        }
        if rowLength == -1 {
          rowLength := |words|;
        }
        if |words| != rowLength {
          FailsFirstAt(lines, hasHeader, rowToObject, rowNumber);
          return Failure(InconsistentRow(words));
        }
        if rowNumber == 0 && hasHeader {
          headerList := Some(words);
          assert !LineFails(lines, hasHeader, rowToObject, 0);
          AcceptLine(lines, hasHeader, rowToObject, rowNumber);
        } else {
          var obj := rowToObject(words);
          if obj.Failure? {
            FailsFirstAt(lines, hasHeader, rowToObject, rowNumber);
            return Failure(Conversion(obj.error));
          }
          assert rowNumber >= FirstDataLine(hasHeader);
          assert rowNumber > 0 ==> |words| == Width(lines);
          AcceptLine(lines, hasHeader, rowToObject, rowNumber);
          objectList := objectList + [obj.value];
        }
        rowNumber := rowNumber + 1;
      }
      NoLineFails(lines, hasHeader, rowToObject);
      r := Success(objectList);
    }

    /** `getHasHeader()`. */
    method GetHasHeader() returns (b: bool)
      ensures b == hasHeader
    {
      b := hasHeader;
    }

    /** `getHeaderList()`: whatever the last parse stored, `null` if none did. */
    method GetHeaderList() returns (h: Option<Row>)
      ensures h == headerList
    {
      h := headerList;
    }
  }

  /** Every line can be read, has the first line's width and, unless it is the header, converts. */
  predicate WellFormed<T>(src: seq<LineRead>, hasHeader: bool, create: Creator<T>) {
    forall i :: 0 <= i < |src| ==>
      && src[i].Line?
      && (i > 0 ==> src[0].Line? && |SplitRow(src[i].text)| == |SplitRow(src[0].text)|)
      && (i >= FirstDataLine(hasHeader) ==> create(SplitRow(src[i].text)).Success?)
  }

  /** `parse()` returns a list exactly when the whole source is well formed. */
  lemma ParseSucceedsIffWellFormed<T>(src: seq<LineRead>, hasHeader: bool, create: Creator<T>)
    ensures Parsed(src, hasHeader, create).Success? <==> WellFormed(src, hasHeader, create)
  {
    var lines := SplitSource(src);
    if WellFormed(src, hasHeader, create) {
      forall i | 0 <= i < |src|
        ensures !LineFails(lines, hasHeader, create, i)
      {
        assert src[i].Line?;
        assert lines[i] == Some(SplitRow(src[i].text));
        if i > 0 {
          assert lines[0] == Some(SplitRow(src[0].text));
        }
      }
      NoLineFails(lines, hasHeader, create);
    }
    if Parsed(src, hasHeader, create).Success? {
      assert FirstFailure(lines, hasHeader, create, 0).None?;
      forall i | 0 <= i < |src|
        ensures src[i].Line?
        ensures i > 0 ==> src[0].Line? && |SplitRow(src[i].text)| == |SplitRow(src[0].text)|
        ensures i >= FirstDataLine(hasHeader) ==> create(SplitRow(src[i].text)).Success?
      {
        assert !LineFails(lines, hasHeader, create, i);
        if i > 0 {
          assert !LineFails(lines, hasHeader, create, 0);
        }
      }
    }
  }

  /**
   * On split lines: a successful parse reads every line, all of the first line's width, and
   * returns the converter's value for each non-header line, in line order.
   */
  lemma ParsedLinesInOrder<T>(lines: seq<Option<Row>>, hasHeader: bool, create: Creator<T>, rows: seq<T>)
    requires ParseLines(lines, hasHeader, create) == Success(rows)
    ensures |rows| == DataLineCount(hasHeader, |lines|)
    ensures forall i :: 0 <= i < |lines| ==> lines[i].Some? && |lines[i].value| == Width(lines)
    ensures forall i :: FirstDataLine(hasHeader) <= i < |lines| ==>
      lines[i].Some? && create(lines[i].value) == Success(rows[i - FirstDataLine(hasHeader)])
  {
    assert FirstFailure(lines, hasHeader, create, 0).None?;
    assert rows == DataRows(lines, hasHeader, create, |lines|);
    forall i | 0 <= i < |lines|
      ensures lines[i].Some? && |lines[i].value| == Width(lines)
    {
      assert !LineFails(lines, hasHeader, create, i);
    }
    forall i | FirstDataLine(hasHeader) <= i < |lines|
      ensures lines[i].Some? && create(lines[i].value) == Success(rows[i - FirstDataLine(hasHeader)])
    {
      DataRowsAt(lines, hasHeader, create, |lines|, i - FirstDataLine(hasHeader));
    }
  }

  /**
   * On success the result has one element per non-header line, in line order, each the
   * converter's value for that line's fields; with a header the first line is not among them.
   */
  lemma ParsedRowsInLineOrder<T>(src: seq<LineRead>, hasHeader: bool, create: Creator<T>, rows: seq<T>)
    requires Parsed(src, hasHeader, create) == Success(rows)
    ensures |rows| == DataLineCount(hasHeader, |src|)
    ensures forall i :: FirstDataLine(hasHeader) <= i < |src| ==>
      src[i].Line? && create(SplitRow(src[i].text)) == Success(rows[i - FirstDataLine(hasHeader)])
  {
    var lines := SplitSource(src);
    ParsedLinesInOrder(lines, hasHeader, create, rows);
    forall i | FirstDataLine(hasHeader) <= i < |src|
      ensures src[i].Line? && create(SplitRow(src[i].text)) == Success(rows[i - FirstDataLine(hasHeader)])
    {
      assert lines[i].Some?;
    }
  }

  /**
   * With the identity converter the parsed rows are the lines' field lists, all of the first
   * line's width.
   */
  lemma IdentityParseYieldsFields(src: seq<LineRead>, hasHeader: bool, rows: seq<Row>)
    requires Parsed(src, hasHeader, StringListCreateFromRow.Create) == Success(rows)
    ensures forall i :: FirstDataLine(hasHeader) <= i < |src| ==>
      src[0].Line? && src[i].Line?
      && rows[i - FirstDataLine(hasHeader)] == SplitRow(src[i].text)
      && |SplitRow(src[i].text)| == |SplitRow(src[0].text)|
  {
    var lines := SplitSource(src);
    ParsedLinesInOrder(lines, hasHeader, StringListCreateFromRow.Create, rows);
    forall i | FirstDataLine(hasHeader) <= i < |src|
      ensures src[0].Line? && src[i].Line?
      ensures rows[i - FirstDataLine(hasHeader)] == SplitRow(src[i].text)
      ensures |SplitRow(src[i].text)| == |SplitRow(src[0].text)|
    {
      assert lines[0].Some? && lines[i].Some?;
    }
  }

  /** A line whose width differs from the first line's makes the parse fail. */
  lemma WidthMismatchFails<T>(src: seq<LineRead>, hasHeader: bool, create: Creator<T>, k: nat)
    requires 0 < k < |src| && src[0].Line? && src[k].Line?
    requires |SplitRow(src[k].text)| != |SplitRow(src[0].text)|
    ensures Parsed(src, hasHeader, create).Failure?
  {
    var lines := SplitSource(src);
    assert lines[0] == Some(SplitRow(src[0].text)) && lines[k] == Some(SplitRow(src[k].text));
    assert LineFails(lines, hasHeader, create, k);
  }

  /**
   * With the identity converter and the lines up to `k` readable, the exception names the first line whose
   * width differs from the first line's.
   */
  lemma IdentityMismatchNamesRow(src: seq<LineRead>, hasHeader: bool, k: nat)
    requires 0 < k < |src| && forall i :: 0 <= i <= k ==> src[i].Line?
    requires |SplitRow(src[k].text)| != |SplitRow(src[0].text)|
    requires forall j :: 0 < j < k ==> |SplitRow(src[j].text)| == |SplitRow(src[0].text)|
    ensures Parsed(src, hasHeader, StringListCreateFromRow.Create) == Failure(InconsistentRow(SplitRow(src[k].text)))
  {
    var create := StringListCreateFromRow.Create;
    var lines := SplitSource(src);
    assert lines[0] == Some(SplitRow(src[0].text)) && lines[k] == Some(SplitRow(src[k].text));
    assert LineFails(lines, hasHeader, create, k);
    forall j | 0 <= j < k
      ensures !LineFails(lines, hasHeader, create, j)
    {
      assert lines[j] == Some(SplitRow(src[j].text));
    }
    FailsFirstAt(lines, hasHeader, create, k);
  }

  /**
   * `parse()` stops at the first failing line: nothing after it is read, so any continuation of
   * the source after that line gives the same exception.
   */
  lemma FailureIgnoresLaterLines<T>(src: seq<LineRead>, hasHeader: bool, create: Creator<T>, i: nat, tail: seq<LineRead>)
    requires FirstFailure(SplitSource(src), hasHeader, create, 0) == Some(i)
    ensures Parsed(src[..i + 1] + tail, hasHeader, create) == Parsed(src, hasHeader, create)
  {
    var lines := SplitSource(src);
    var src' := src[..i + 1] + tail;
    var lines' := SplitSource(src');
    forall j | 0 <= j <= i
      ensures lines'[j] == lines[j]
    {
      assert src'[j] == src[j];
    }
    assert Width(lines') == Width(lines);
    forall j | 0 <= j <= i
      ensures LineFails(lines', hasHeader, create, j) == LineFails(lines, hasHeader, create, j)
    {
    }
    FailsFirstAt(lines', hasHeader, create, i);
  }

  /** An empty source parses to the empty list and leaves the header as it was, even with `hasHeader`. */
  lemma EmptySourceParses<T>(hasHeader: bool, create: Creator<T>, prior: Option<Row>)
    ensures Parsed([], hasHeader, create) == Success([])
    ensures HeaderAfter([], hasHeader, prior) == prior
  {
  }
}
