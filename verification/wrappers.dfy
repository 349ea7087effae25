/** The optional-value datatype used for lookups that may find nothing
    (the source returns `False` from `facing_object`/`on_object` in that case). */
module Wrappers {

  datatype Option<+T> = None | Some(value: T)

}
