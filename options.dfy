/** The optional value used for a pick result, a selection and a reported part. */
module Options {

  /** `None` plays the part of JavaScript's `null` (and of a falsy `selected`). */
  datatype Option<T> = None | Some(value: T)
}
