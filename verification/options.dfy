/** The optional value used wherever the page reads something that may be absent:
    a saved preference, a DOM element, a matching section. */
module Options {

  datatype Option<+T> = None | Some(value: T)
}
