/** The exceptions the repository raises, as one error datatype.
    Python's class hierarchy is kept as predicates: the query errors derive
    from `ValueError` (through `SetupError`), and so does pydantic's
    `ValidationError`; `KeyError` and `IndexError` do not. */
module Exceptions {

  datatype Error =
    | NumberOfStatementsError(expectedCount: int, foundCount: int)
      /** The definition script of a table holds too many `;`; the script's file is
          named after the table. */
    | ScriptNumberOfStatementsError(scriptTable: string, semicolons: int)
    | InvalidStatementError(pattern: string)
    | ColumnsNotFoundError(statement: string)
    | CreateStatementError(tableName: string)
    | InsertStatementError(tableName: string)
    | IncompatibleDataError(expectedColumns: seq<string>, foundColumns: seq<string>)
    | BoundaryNotFoundError(tableName: string, key: string)
    | OperationalError(message: string)
    | IndexError
    | KeyError(key: string)
      /** Subscripting `None`, e.g. `fetchone()[0]` when no row matches, or calling it. */
    | TypeError(what: string)
    | ValueError(message: string)
    | ValidationError(message: string)
      /** pydantic's `ValidationError` for a `ValueError` raised inside a model validator;
          it keeps the error it wraps. */
    | ModelValidationError(cause: Error)
      /** Looking up an attribute the object lacks, e.g. `sleep` on the function `time`. */
    | AttributeError(attribute: string)

  /** True for the errors an `except ValueError` clause catches. */
  predicate IsValueError(e: Error) {
    || e.NumberOfStatementsError?
    || e.ScriptNumberOfStatementsError?
    || e.CreateStatementError?
    || e.InsertStatementError?
    || e.ColumnsNotFoundError?
    || e.ValueError?
    || e.ValidationError?
    || e.ModelValidationError?
  }

  /** What leaves a pydantic model validator: pydantic wraps any error of the `ValueError`
      family in its `ValidationError`; any other error propagates as it is. */
  function RaisedByModelValidator(e: Error): (r: Error)
    ensures IsValueError(r) <==> IsValueError(e)
    ensures IsValueError(e) ==> r.ModelValidationError? && r.cause == e
    ensures !IsValueError(e) ==> r == e
  {
    if IsValueError(e) then ModelValidationError(e) else e
  }
}
