/** Failure-compatible wrappers used throughout the model: `Option` for a lookup
    that may find nothing, `Result` for an operation that either succeeds with a
    value or raises one of the errors in `Errors`. */
module Wrappers {

  datatype Option<+T> = None | Some(value: T)

  datatype Result<+T, +E> = Ok(value: T) | Err(error: E) {

    predicate IsFailure() {
      Err?
    }

    function PropagateFailure<U>(): Result<U, E>
      requires Err?
    {
      Err(error)
    }

    function Extract(): T
      requires Ok?
    {
      value
    }
  }
}

/** The exceptions the converter can raise, one constructor per cause the
    model distinguishes. */
module Errors {

  datatype Error =
    | NotADirectory(path: string)
      // the input folder is not a directory (IOError in the constructor)
    | EmptyFile(path: string)
      // a file has no header line (the csv reader's first next() fails)
    | DuplicateTable(table: string)
      // "create table" for a name the store already holds
    | NoSuchTable(table: string)
      // a query or insert names a table that was never loaded
    | NoSuchColumn(table: string, column: string)
      // a query names a column the table's header does not have
    | WidthMismatch(table: string, expected: nat, given: nat)
      // an insert binds a number of values other than the header width
    | EightBitValue(table: string)
      // an insert binds a byte string holding a byte of 0x80 or above, which
      // sqlite3 refuses under the default unicode text factory
    | NoJoinedRow(routeId: string)
      // the routes/trips join is empty, so fetchone() yields None
    | IndexOutOfRange(index: nat)
      // the joined row is too short for the positional name or description
}
