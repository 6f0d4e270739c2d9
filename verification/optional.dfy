/** An optional value, used for a subscriber count that may be missing and for lookups that may fail. */
module Optional {

  datatype Option<+T> = None | Some(value: T)
}
