/** The optional value used throughout the model: Python's `None` versus a present value. */
module Options {

  datatype Option<+T> = None | Some(value: T)

}
