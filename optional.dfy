/**
 * Option, used for the lookups of the model that may find nothing.
 */
module Optional {
  datatype Option<+T> = None | Some(value: T)
}
