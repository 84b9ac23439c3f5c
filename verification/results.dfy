/**
 * Optional values and outcomes that either carry a value or an error.
 * Python code in the modelled system signals failure by returning `None`
 * or by raising; both become explicit values here.
 */
module Results {

  datatype Option<T> = None | Some(value: T) {
    function GetOr(default: T): (r: T)
      ensures this.Some? ==> r == value
      ensures this.None? ==> r == default
    {
      match this
      case Some(v) => v
      case None => default
    }
  }

  datatype Result<T, E> = Ok(value: T) | Err(error: E) {
    predicate IsFailure() {
      Err?
    }

    function PropagateFailure<U>(): (r: Result<U, E>)
      requires Err?
      ensures r.Err? && r.error == error
    {
      Err(error)
    }

    function Extract(): (r: T)
      requires Ok?
      ensures r == value
    {
      value
    }
  }
}
