/** A value that may be missing: null and undefined in the client, a nil pointer or an error in the bridge. */
module Options {
  datatype Option<+T> = None | Some(value: T)
}
