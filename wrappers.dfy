/** Failure-compatible result types shared by the whole model.

    The engine reports every error at query-compile time (a thrown
    exception inside a constexpr evaluation, or a failed static_assert);
    the model returns those errors as values. */
module Wrappers {

  datatype Option<T> = None | Some(value: T) {
    predicate IsFailure() { None? }

    function PropagateFailure<U>(): Option<U>
      requires None?
    {
      None
    }

    function Extract(): T
      requires Some?
    {
      value
    }
  }

  /** The error conditions the core can raise while building a plan. */
  datatype Error =
    | AmbiguousAlias        // dealias_query: the two tables shadow each other's names
    | AmbiguousTableName    // dealias_query: a qualifier names both tables
    | AmbiguousColumn       // resolve_name: the column is in both schemas
    | UnknownColumn         // resolve_name: the column is in neither schema
    | TableCountMismatch    // resolve_table_name: SQL and schema table counts differ
    | MalformedJoinCondition // a join factor whose two sides name the same table
    | UnsupportedAggregate  // MAX/MIN on a non-arithmetic column, or AVG
    | BadVariantAccess      // std::get of a literal under the wrong type tag

  datatype Result<T> = Ok(value: T) | Err(error: Error) {
    predicate IsFailure() { Err? }

    function PropagateFailure<U>(): Result<U>
      requires Err?
    {
      Err(error)
    }

    function Extract(): T
      requires Ok?
    {
      value
    }
  }
}
