/** The optional value the model uses for the emitted submission and a shown message. */
module Wrappers {
  datatype Option<T> = None | Some(value: T)
}
