/** A value that may be absent: the model's stand-in for the JavaScript
    `null` that marks a gap in a chart series or a failed parse. */
module Options {

  datatype Option<+T> = None | Some(value: T)
}
