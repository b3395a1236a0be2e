/** A value that may be missing: JavaScript's `undefined` for a destructured
    array element that does not exist, or a callback argument that was not given. */
module Optional {

  datatype Option<+T> = None | Some(value: T)
}
