/** Outcomes of operations that the source may abort with an exception. */
module Results {
  datatype Error = InvalidArgument(message: string)

  datatype Result<+T> = Ok(value: T) | Err(error: Error)
}
