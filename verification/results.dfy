/** Failure-compatible result types shared by every module of the model. */
module Results {

  /** A value that may be absent, as a lookup or a decode returns it. */
  datatype Option<+T> = None | Some(value: T)

  /** The ways an envelope operation can fail. Error-message text is not modelled. */
  datatype Error =
    | NotFound            // no user or no account row matches the lookup
    | MalformedField      // a stored base64 field (salt, password hash) does not decode
    | InvalidCredentials  // the password does not match the stored hash
    | MalformedWrap       // a wrapped key is not two base64 tokens joined by one space
    | EnvelopeError       // the wrapped key does not decrypt under the given key

  /** The outcome of an operation: a value, or the first error met. Usable with `:-`. */
  datatype Result<+T> = Ok(value: T) | Err(error: Error) {

    predicate IsFailure() {
      Err?
    }

    function PropagateFailure<U>(): Result<U>
      requires Err?
    {
      Err(error)
    }

    function Extract(): T
      requires Ok?
    {
      value
    }
  }

  /** Turns an absent value into the given error. */
  function Need<T>(o: Option<T>, e: Error): (r: Result<T>)
    ensures r.Ok? <==> o.Some?
    ensures r.Ok? ==> r.value == o.value
    ensures r.Err? ==> r.error == e
  {
    match o
    case Some(v) => Ok(v)
    case None => Err(e)
  }
}
