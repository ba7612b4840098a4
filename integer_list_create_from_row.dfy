/** `IntegerListCreateFromRow`: converts every field with `Integer.parseInt`, all or nothing. */
module IntegerListCreateFromRow {
  import opened Wrappers
  import opened JavaLang
  import opened CreatorFromRow

  const NotAnInteger := "Not an integer: "

  /** Every field of `row` parses as an `int`. */
  predicate AllIntegers(row: Row) {
    forall i :: 0 <= i < |row| ==> ParseInt(row[i]).Some?
  }

  /**
   * The converter as a function of the row: the fields' values in order, or, at the leftmost field
   * that is not an integer, `FactoryFailureException("Not an integer: " + field, row)`.
   */
  function IntegerRow(row: Row): (r: Result<seq<int32>, FactoryFailure>)
    ensures r.Success? <==> AllIntegers(row)
    ensures r.Success? ==> |r.value| == |row| && forall i :: 0 <= i < |row| ==> ParseInt(row[i]) == Some(r.value[i])
    ensures r.Failure? ==> exists k :: FirstNonInteger(row, k) && r.error == FactoryFailure(NotAnInteger + row[k], row)
  {
    ConvertFrom(row, 0)
  }

  /** `k` is the leftmost field of `row` that does not parse. */
  predicate FirstNonInteger(row: Row, k: int) {
    0 <= k < |row| && ParseInt(row[k]).None? && forall j :: 0 <= j < k ==> ParseInt(row[j]).Some?
  }

  /** Conversion of the fields from index `i` on; a failure reports the whole row. */
  function ConvertFrom(row: Row, i: nat): (r: Result<seq<int32>, FactoryFailure>)
    requires i <= |row|
    ensures r.Success? <==> forall k :: i <= k < |row| ==> ParseInt(row[k]).Some?
    ensures r.Success? ==> |r.value| == |row| - i && forall k :: i <= k < |row| ==> ParseInt(row[k]) == Some(r.value[k - i])
    ensures r.Failure? ==> exists k :: i <= k < |row| && ParseInt(row[k]).None? && (forall j :: i <= j < k ==> ParseInt(row[j]).Some?) && r.error == FactoryFailure(NotAnInteger + row[k], row)
    decreases |row| - i
  {
    if i == |row| then Success([])
    else match ParseInt(row[i])
      case None => Failure(FactoryFailure(NotAnInteger + row[i], row))
      case Some(v) =>
        match ConvertFrom(row, i + 1)
        case Failure(e) => Failure(e)
        case Success(vs) => Success([v] + vs)
  }

  /** The leftmost non-integer field is unique, so the reported field is determined by the row. */
  lemma FirstNonIntegerUnique(row: Row, k: int, k': int)
    requires FirstNonInteger(row, k) && FirstNonInteger(row, k')
    ensures k == k'
  {
  }

  /**
   * `create(row)`: a loop that appends each parsed field and throws at the first one that does not
   * parse; no partial list escapes.
   */
  method Create(row: Row) returns (r: Result<seq<int32>, FactoryFailure>)
    ensures r == IntegerRow(row)
  {
    var integerList: seq<int32> := [];
    for i := 0 to |row|
      invariant |integerList| == i
      invariant forall k :: 0 <= k < i ==> ParseInt(row[k]) == Some(integerList[k])
    {
      var value := row[i];
      match ParseInt(value)
      case None =>
        assert FirstNonInteger(row, i);
        var expected := IntegerRow(row);
        assert expected.Failure?;
        var k :| FirstNonInteger(row, k) && expected.error == FactoryFailure(NotAnInteger + row[k], row);
        FirstNonIntegerUnique(row, i, k);
        return Failure(FactoryFailure(NotAnInteger + value, row));
      case Some(intValue) =>
        integerList := integerList + [intValue];
    }
    assert AllIntegers(row);
    assert integerList == IntegerRow(row).value;
    r := Success(integerList);
  }

  /** The empty row converts to the empty list. */
  lemma EmptyRowConverts()
    ensures IntegerRow([]) == Success([])
  {
  }

  /** A row with a field such as `abc` fails, naming that field and carrying the whole row. */
  lemma NonIntegerFieldExample(row: Row)
    requires row == ["1", "abc"]
    ensures IntegerRow(row) == Failure(FactoryFailure("Not an integer: abc", row))
  {
    assert IsDecimal("1") && DecimalValue("1") == 1;
    assert row[0] == "1" && ParseInt(row[0]) == Some(1);
    ParseIntRejectsNonDigit("abc", 0);
    assert row[1] == "abc" && ParseInt(row[1]).None?;
    var r := IntegerRow(row);
    var k :| FirstNonInteger(row, k) && r.error == FactoryFailure(NotAnInteger + row[k], row);
    assert k == 1;
    assert NotAnInteger + row[k] == "Not an integer: abc";
  }
}
