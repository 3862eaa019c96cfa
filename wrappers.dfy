/** An optional value: `None` stands for the Java `null` results of the program. */
module Wrappers {
  datatype Option<T> = None | Some(value: T)
}
