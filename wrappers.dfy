/** Optional values, standing for Python's `None` and for the failure of a parse. */
module Wrappers {

  datatype Option<+T> = None | Some(value: T)

  /** Python 2 ordering of `a < b` when `b` may be `None`: every int compares
      greater than `None`, so `a < None` is false. */
  predicate Py2Less(a: int, b: Option<int>) {
    b.Some? && a < b.value
  }
}
