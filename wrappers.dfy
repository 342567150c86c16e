/** An optional value, used for the optional arguments of the entry point. */
module Wrappers {
  datatype Option<+T> = None | Some(value: T)

  function Min(a: int, b: int): int
  {
    if a <= b then a else b
  }
}
