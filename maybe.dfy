/** The optional value used across the model: a lookup that finds nothing, an error that did not happen. */
module Maybe {
  datatype Option<+T> = None | Some(value: T)
}
