/** Optional values and fallible results, used wherever the exporter either
    has no answer (an empty range) or stops with an error (an overflow). */
module Results {

  datatype Option<+T> = None | Some(value: T)

  datatype Result<+T, +E> = Ok(value: T) | Err(error: E)
}
