/** A value that may be absent: JavaScript's `null` placeholder, a facility
    missing from `window`. */
module Optional {
  datatype Option<+T> = None | Some(value: T)
}
