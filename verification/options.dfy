/** The optional value used throughout the model: JavaScript's `undefined` / `null`
    for a missing character, quote kind, table entry or filter. */
module Options {

  datatype Option<+T> = None | Some(value: T)

}
