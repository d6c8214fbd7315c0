/** Value types shared by the allocator, the decoder and the visibility tracker. */
module Ids {

  /** A fragment identifier, a string in the source. */
  type FragmentId = string

  /** A `performance.now()` reading; the model receives it as a parameter. */
  type Time = real

  /** A value that may be JavaScript's `undefined`. */
  datatype Option<T> = None | Some(value: T)
}
