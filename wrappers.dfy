/** Optional values: a request field that is missing or JSON null is None. */
module Wrappers {

  datatype Option<+T> = None | Some(value: T)

}
