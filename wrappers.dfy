/** Optional values and the three outcomes a Go call can have here. */
module Wrappers {

  datatype Option<+T> = None | Some(value: T)

  /** The outcome of a Go function returning `(T, error)`. `Panic` stands for a
      Go runtime panic (an index out of range, a negative `make` size, a
      `log.Panic`): the call does not return at all. */
  datatype Result<+T> = Ok(value: T) | Err(msg: string) | Panic(msg: string) {
    predicate Failed() { !Ok? }

    /** The same failure, as the outcome of a caller that passes it on. */
    function PropagateFailure<U>(): (r: Result<U>)
      requires Failed()
      ensures r.Err? == Err? && r.Panic? == Panic? && r.msg == msg
    {
      if Err? then Err(msg) else Panic(msg)
    }
  }
}
