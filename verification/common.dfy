/** Values shared by the handlers: an optional value, as a JSON field that may be absent. */
module Common {

  datatype Option<+T> = None | Some(value: T)

}
