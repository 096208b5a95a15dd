/** Optional values, for the nullable columns and relations of the data model. */
module Wrappers {

  datatype Option<+T> = None | Some(value: T)
}
