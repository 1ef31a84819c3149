/** Optional values: a Go nil pointer, or a lookup that found nothing. */
module Wrappers {

  datatype Option<+T> = None | Some(value: T)
}
