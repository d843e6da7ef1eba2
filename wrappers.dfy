/** Optional values: JavaScript's "value or undefined" results (Array.prototype.find,
    an optional start-parameter token, a missing request object). */
module Wrappers {

  datatype Option<+T> = None | Some(value: T) {
  }
}
