/** Option and Result, as used by every component of the model. */
module Prelude {

  datatype Option<+T> = None | Some(value: T)

  // The primary key of a chapter: its novel and its global number.
  datatype Key = Key(novel: nat, number: real)

  datatype Result<+T, +E> = Ok(value: T) | Err(error: E)

  function Min(x: int, y: int): int {
    if x <= y then x else y
  }
}
