/** The optional value used wherever the source may yield null or an entry may be missing. */
module Wrappers {

  datatype Option<+T> = None | Some(value: T)
}
