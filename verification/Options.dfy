module Options {
  datatype Option<+T> = None | Some(value: T)

  function Max(a: int, b: int): int {
    if a < b then b else a
  }

  function Min(a: int, b: int): int {
    if a < b then a else b
  }

  /** RT_ALIGN(size, 4). */
  function Align4(n: nat): nat {
    (n + 3) / 4 * 4
  }
}
