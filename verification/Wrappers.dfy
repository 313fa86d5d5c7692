/** Result types shared by the modules of the project. */
module Wrappers {

  datatype Option<+T> = None | Some(value: T)

  /** What a Go function that may return an error, or panic on a slice bound, comes back with. */
  datatype Outcome<+T> = Ok(value: T) | Err | Panic
  {
    predicate IsFailure() { !Ok? }

    function PropagateFailure<U>(): Outcome<U>
      requires IsFailure()
    {
      if Err? then Err else Panic
    }

    function Extract(): T
      requires !IsFailure()
    {
      value
    }
  }

  function Min(a: int, b: int): int { if a <= b then a else b }

  function Max(a: int, b: int): int { if a >= b then a else b }
}
