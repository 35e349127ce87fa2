/** Optional values: `None` stands for JavaScript's `undefined` and for a failed lookup. */
module Wrappers {

  datatype Option<+T> = None | Some(value: T)
}
