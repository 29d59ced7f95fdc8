/** The optional value used wherever the script works with Python's `None`. */
module Options {

  /** `None` stands for a missing value (Python's `None`, an unset environment variable,
      a failed request); `Some` carries the value. */
  datatype Option<+T> = None | Some(value: T)
}
