/** Optional values, results and the exceptions raised by the artifact store. */
module Errors {

  datatype Option<+T> = None | Some(value: T)

  /** The outcome of an operation that either returns a value or raises. */
  datatype Result<+T> = Success(value: T) | Failure(error: Error)

  /** The exceptions that the modelled code raises. */
  datatype Error =
    | TypeError                   // `set.intersection(None)` inside `select`
    | KeyError(key: string)       // a uuid missing from the uuid index in `get_by_uuids`
    | FileNotFound(name: string)  // `open` of a payload file that is not there
    | NotImplemented              // `remove_by_uuids`

  /** What a generator produced before it was exhausted (`raised == None`)
      or stopped by an exception (`raised == Some(e)`). */
  datatype Generated<+T> = Generated(items: seq<T>, raised: Option<Error>)
}
