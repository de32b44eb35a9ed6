/** A value that may be missing: a NULL, an unset slot, a lookup that found nothing. */
module Options {
  datatype Option<+T> = None | Some(value: T)
}
