/** Optional values: a JavaScript `undefined` / a nullable column. */
module Wrappers {

  datatype Option<+T> = None | Some(value: T)

}
