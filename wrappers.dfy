/** Option and Result, the shapes used for JavaScript's `null` and for thrown errors. */
module Wrappers {

  /** `null` / `undefined` (None) or a present value (Some). */
  datatype Option<+T> = None | Some(value: T)

  /** The outcome of an operation that either returns a value or throws an Error
      carrying `message`. */
  datatype Result<+T> = Ok(value: T) | Err(message: string)

  /** The outcome of an operation that returns nothing or throws. */
  datatype Outcome = Pass | Fail(message: string)
}

/** Identifiers: `id || uuidv4()`. The generator is out of the model; a fresh identifier
    is passed in by the caller. */
module Ids {

  /** The given identifier, or the fresh one when it is empty. */
  function ChooseId(id: string, freshId: string): string
  {
    if id == "" then freshId else id
  }
}
