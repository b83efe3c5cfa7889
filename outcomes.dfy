/** Optional values and the outcome of a Python call that either returns or raises. */
module Outcomes {

  /** A value that may be absent: Python's `None` or a BeautifulSoup query that matched nothing. */
  datatype Option<+T> = None | Some(value: T)

  /** A call that returns `value`, or raises an exception whose `str(e)` is `message`. */
  datatype Result<+T> = Ok(value: T) | Err(message: string)
}
