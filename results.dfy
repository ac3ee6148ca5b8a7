/** The one failure the core can raise: Python's ValueError from int() on text that is not an integer. */
module Results {

  datatype Error = ValueError

  datatype Result<+T> = Ok(value: T) | Err(error: Error)
}
