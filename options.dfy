/** A value that may be absent: an empty storage slot, or a lookup that found nothing. */
module Options {
  datatype Option<+T> = None | Some(value: T)
}
