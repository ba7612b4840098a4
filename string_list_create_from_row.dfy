/** `StringListCreateFromRow`: the identity converter. */
module StringListCreateFromRow {
  import opened Wrappers
  import opened CreatorFromRow

  /** `create(row)` returns the row itself and never throws. */
  function Create(row: Row): Result<Row, FactoryFailure> {
    Success(row)
  }

  /** The identity converter never fails, keeps every field in place and is idempotent. */
  lemma CreateIsIdentity(row: Row)
    ensures Create(row).Success?
    ensures |Create(row).value| == |row|
    ensures forall i :: 0 <= i < |row| ==> Create(row).value[i] == row[i]
    ensures Create(Create(row).value) == Create(row)
  {
  }
}
