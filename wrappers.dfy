/** Optional values, failure outcomes and the ways an operation of the index can fail. */
module Wrappers {

  datatype Option<+T> = None | Some(value: T)

  /** How an operation can end other than by returning a value.
      `InvalidBlockId` is the engine's own error, returned to the caller;
      `Panic` stands for a Rust panic (an `unwrap` of an error or of `None`,
      a `Vec` index out of bounds); `StackOverflow` stands for a descent that
      visits more nodes than there are blocks, which can only happen on a
      cycle of child pointers, where the recursion never ends. */
  datatype Error = InvalidBlockId | Panic | StackOverflow

  datatype Result<+T> = Ok(value: T) | Err(error: Error)
}
