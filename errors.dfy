/** Optional values, results and the errors the pack lister raises. */
module Errors {

  datatype Option<+T> = None | Some(value: T)

  datatype Result<+T, +E> = Success(value: T) | Failure(error: E)

  /** The two ways a listing aborts: the stream ran out during a fixed-size
      read (the reader's IncompleteStream), or the lister threw a GitError
      with code InternalFail and a message. */
  datatype PackError = StreamTruncated | InternalFail(message: string)
}
