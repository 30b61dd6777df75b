/** Values shared by every pipeline: optional values, the exceptions the
    pipelines can raise, and results that are either a value or one of them. */
module Base {

  datatype Option<T> = None | Some(value: T)

  /** The exceptions that end a stream, by the Java class that raises them. */
  datatype Error =
    | BadAddress              // toURL: a MalformedURLException rethrown as "Bad address"
    | FetchError              // the fetch itself threw
    | BadSerialization        // Jackson could not read the payload as a list of strings
    | StringIndexOutOfBounds  // charAt(0) on the empty string
    | IndexOutOfBounds        // List.get past the end of the address list
    | NumberFormat            // new BigInteger("")

  datatype Result<T> = Ok(value: T) | Err(error: Error)

  /** Adds two partial sums computed one after the other: the first error
      met, in that order, wins. */
  function Plus(a: Result<nat>, b: Result<nat>): Result<nat>
  {
    if a.Err? then a else if b.Err? then b else Ok(a.value + b.value)
  }

  /** Reactor's onErrorReturn on a Mono of a number. */
  function OrElse(r: Result<nat>, default: nat): nat
  {
    if r.Ok? then r.value else default
  }
}
