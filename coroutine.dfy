/** The state of a reel's `rollCoroutine` handle. */
module Coroutine {

  /** No handle; a handle to a roll suspended between frames; or a handle that
      is still held although its coroutine has already run to its end. */
  datatype Handle = Null | Active | Spent
}
