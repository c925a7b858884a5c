/** Optional values, used for page text that could not be extracted and for
    operations that may fail without a payload. */
module Wrappers {

  datatype Option<+T> = None | Some(value: T)

}
