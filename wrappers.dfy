/** Optional values, standing for the source's nullable references and `T?` fields. */
module Wrappers {

  datatype Option<+T> = None | Some(value: T)
}
