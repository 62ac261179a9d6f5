/** An optional value, used for the request body and for the fields of a response. */
module Optional {

  datatype Option<+T> = None | Some(value: T)
}
