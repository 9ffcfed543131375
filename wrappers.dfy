/** The optional value shared by the lifter's decoders and the coverage runtimes. */
module Wrappers {
  datatype Option<T> = None | Some(value: T)
}
