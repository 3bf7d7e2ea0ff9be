/** Python's `None`-or-value, as used for the probed height and the current job. */
module Optional {

  datatype Option<+T> = None | Some(value: T)

}
