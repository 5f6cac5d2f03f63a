/** Optional values: a DOM element or attribute that may be absent. */
module Wrappers {

  /** `None` stands for Python's `None` returned by a query that found nothing. */
  datatype Option<+T> = None | Some(value: T)
}
