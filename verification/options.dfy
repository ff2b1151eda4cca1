/** Python's "a value or None", used for the optional tag, hostname and
    timestamp arguments and for the results of the parsers. */
module Options {

  datatype Option<+T> = None | Some(value: T)
}
