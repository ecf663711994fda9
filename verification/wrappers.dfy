/** The optional value the model returns where the Kotlin code would fail a
    `!!` null check on a missing map entry. */
module Wrappers {

  datatype Option<+T> = None | Some(value: T)
}
