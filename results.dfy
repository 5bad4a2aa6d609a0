/** Failure-carrying values shared by every module of the model. */
module Results {

  datatype Option<T> = None | Some(value: T)

  /** The reasons a constructor or an operation of the core refuses its input. */
  datatype Error =
    | EmptyText       // empty, blank or missing text
    | TooShort        // a string below its minimum length
    | TooLong         // a string above its maximum length
    | NotMeaningful   // fewer word characters than required
    | OutOfRange      // a number outside its field's bounds
    | Negative        // a count, a time or a cost below zero
    | InvalidFormat   // a string that does not match its field's pattern
    | TooManyItems    // a list longer than its field allows
    | UnknownService  // an API-key service outside the allow-list
    | InvalidKey      // an encryption key that cannot be used
    | Undecodable     // bytes that are not UTF-8

  datatype Result<T> = Ok(value: T) | Err(error: Error)
}
