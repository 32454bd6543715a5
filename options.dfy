/** Optional values and results with an error message, used for the lookups and the
    failures of the upload pipeline. */
module Options {

  datatype Option<+T> = None | Some(value: T)

  datatype Result<+T> = Ok(value: T) | Err(message: string)
}
