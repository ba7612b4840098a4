/** The pluggable row converter that `CSVParser` applies to every data line. */
module CreatorFromRow {
  import opened Wrappers

  /** One line's fields, as the splitter returns them. */
  type Row = seq<string>

  /** `FactoryFailureException(message, row)`: a row could not be converted. */
  datatype FactoryFailure = FactoryFailure(message: string, row: Row)

  /** `CreatorFromRow<T>.create`: converts a row into a `T` or throws `FactoryFailureException`. */
  type Creator<T> = Row -> Result<T, FactoryFailure>
}
