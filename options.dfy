/** An input field is either a known number or explicitly unknown. */
module Options {

  datatype Option<+T> = None | Some(value: T)
}
