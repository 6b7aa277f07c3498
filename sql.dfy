/** The errors the database raises, as far as the model distinguishes
    them. */
module Sql {

  /** Why a statement throws an SQLException: a repeated primary key, a
      value wider than its column, a null in a NOT NULL column, or a
      foreign key with no referenced row. */
  datatype SqlError = DuplicateKey | ValueTooLong | NullValue | MissingReference

  /** The SQLSTATE of each error, standing for the exception's message. */
  function SqlState(e: SqlError): string
  {
    match e
    case DuplicateKey => "23505"
    case ValueTooLong => "22001"
    case NullValue => "23502"
    case MissingReference => "23503"
  }
}
