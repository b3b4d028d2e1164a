/** An optional value, for the fields of a submission that the feed may leave unset. */
module Optional {

  datatype Option<+T> = None | Some(value: T)
}
