/** The optional value the model uses wherever the Java code would return
    null or throw for a missing value. */
module Wrappers {
  datatype Option<+T> = None | Some(value: T)
}
