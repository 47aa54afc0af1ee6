/** Shared vocabulary. */
module Basics {

  /** An argument or result that may be missing: a null pointer, an empty slot, a failed read. */
  datatype Option<T> = None | Some(value: T)
}
