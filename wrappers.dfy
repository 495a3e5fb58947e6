/** Optional values and results with an error side, used for the
    dictionary lookups and raised exceptions of the scraper. */
module Wrappers {

  datatype Option<+T> = None | Some(value: T)

  datatype Result<+T, +E> = Ok(value: T) | Err(error: E)

}
