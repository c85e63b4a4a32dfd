/** The one helper datatype of the model: a value that may be absent, as the
    persisted key-value store returns it (a string, or null for a key that was
    never written). */
module Options {

  datatype Option<+T> = None | Some(value: T)

}
