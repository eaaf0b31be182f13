/** Optional values, error-carrying results and the 32-bit int range, shared by
    the modules below. */
module Wrappers {

  datatype Option<T> = None | Some(value: T)

  datatype Result<T, E> = Success(value: T) | Failure(error: E)

  function Min(a: int, b: int): int
  {
    if a < b then a else b
  }

  /** The range of a C++ int on the targets the program builds for. */
  const IntMin: int := -0x8000_0000
  const IntMax: int := 0x7fff_ffff
}
