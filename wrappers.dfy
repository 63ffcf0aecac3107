/** The one failure-carrying type the model needs: the language-model call either
    yields a text or fails. */
module Wrappers {
  datatype Option<+T> = None | Some(value: T)
}
