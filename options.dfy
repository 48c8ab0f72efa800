/** An optional value: Python's `None`, or the place of a result that an exception replaced. */
module Options {

  datatype Option<+T> = None | Some(value: T)

}
