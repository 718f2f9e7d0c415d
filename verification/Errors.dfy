/** Errors of the server. `Crash` stands for a Go panic or fatal runtime error: nothing recovers from it. */
module Errors {
  import opened BigEndian

  datatype Fault =
    | NegativeCount(n: int)   // make([]T, n) with a negative n
    | EmptyStatementList      // stmts[0] of an empty list
    | UnlockOfFreeMutex       // sync.Mutex.Unlock while not locked

  datatype Error =
    | Eof
    | UnexpectedEof
    | ShortMessage
    | InvalidLength(n: int)
    | InvalidPreparedType(b: byte)
    | InvalidSslCode(code: int)
    | NotSupported(t: byte)
    | StatementNotExist(name: GoString)
    | PortalNotExist(name: GoString)
    | MultipleStatements
    | EmptyQuery
    | TransactionBlocked
    | Timeout
    | UnsupportedColumn
    | SchemaLookup           // a selector the schema does not know
    | RowFetch               // a row the result set could not deliver
    | ColumnsNotEqual(got: nat, want: nat)
    | CopyIncomplete(copied: nat, failed: nat)
    | WriteFailed
    | External(code: int)     // an error made by the SQL parser or an executor
    | Crash(fault: Fault)

  /** The errors a read of the byte stream can end in. */
  predicate ReadError(e: Error) {
    e.Eof? || e.UnexpectedEof? || e.ShortMessage? || e.InvalidLength? || e.InvalidPreparedType? || e.InvalidSslCode?
    || (e.Crash? && e.fault.NegativeCount?)
  }

  datatype Result<+T> = Success(value: T) | Failure(error: Error) {
    predicate IsFailure() { Failure? }

    function PropagateFailure<U>(): Result<U>
      requires Failure?
    {
      Failure(error)
    }

    function Extract(): T
      requires Success?
    {
      value
    }
  }
}
