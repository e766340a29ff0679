/** Failures raised by the identity engine, and a result type carrying them. */
module Outcomes {
  import opened Entities

  datatype Failure =
    /** `resolve` was given something that is neither an int, None nor a placeholder */
    | TypeMismatch(typeName: string)
    /** `int()` of a placeholder whose chain ends in an unset slot */
    | Unresolved
    /** `resolved()` went round a cycle of placeholders and hit the interpreter's recursion limit */
    | RecursionLimit
    /** `get` for a kind whose ids are not generated here */
    | NotRegistered(kind: EntityKind)
    /** `get` for a kind that was never reserved */
    | NotReserved(kind: EntityKind)
    /** `get` after every id of the reserved range was handed out */
    | RangeExhausted(kind: EntityKind)

  datatype Option<+T> = None | Some(value: T)

  datatype Result<+T> = Ok(value: T) | Err(error: Failure) {
    predicate IsFailure() { Err? }
    function PropagateFailure<U>(): Result<U>
      requires Err?
    {
      Err(error)
    }
    function Extract(): T
      requires Ok?
    {
      value
    }
  }
}
