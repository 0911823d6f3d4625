/** An optional value: stands for a Java reference that may be null, or for a result that may be missing. */
module Options {

  datatype Option<+T> = None | Some(value: T)
}
