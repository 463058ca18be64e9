/** The optional value used wherever the repository has a nil pointer or a missing row. */
module Options {
  datatype Option<+T> = None | Some(value: T)

  function Max(a: int, b: int): int {
    if a >= b then a else b
  }
}
