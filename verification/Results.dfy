/** A value or the reason why there is none, with the members that ":-" asks for. */
module Results {
  datatype Result<+T, +E> = Ok(value: T) | Error(error: E) {
    predicate IsFailure() { Error? }
    function PropagateFailure<U>(): Result<U, E> requires Error? { Error(error) }
    function Extract(): T requires Ok? { value }
  }
}
