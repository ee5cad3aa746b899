/** Shared vocabulary. */
module Base {
  datatype Option<+T> = None | Some(value: T)
}
