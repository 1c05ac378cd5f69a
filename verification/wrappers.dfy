/** The `Option` type. */
module Wrappers {

  /** A value that may be missing: a dictionary lookup that found nothing,
      a JSON field that was absent. */
  datatype Option<+T> = None | Some(value: T)
}
