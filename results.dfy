/** The success-or-error value every stage of the pipeline returns. */
module Results {

  datatype Result<+T, +E> = Ok(value: T) | Err(error: E)

}
