/** The optional value used throughout the model: Python's `Optional[...]`,
    a missing dictionary key, or a lookup that found nothing. */
module Options {
  datatype Option<+T> = None | Some(value: T)
}
