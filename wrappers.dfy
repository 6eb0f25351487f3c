/** The optional value used wherever the Python code can raise instead of
    returning (a missing key, an index out of range, a failed parse). */
module Wrappers {
  datatype Option<T> = None | Some(value: T)
}
