/**
 What several of the programs share.
 */
module Basics {
  datatype Option<+T> = None | Some(value: T)

  function Min(x: int, y: int): int { if x < y then x else y }

  function Max(x: int, y: int): int { if x < y then y else x }

  function Abs(x: int): nat { if x < 0 then -x else x }

  /** 10 to the k. */
  function Pow10(k: nat): (p: nat)
    ensures p >= 1
  {
    if k == 0 then 1 else 10 * Pow10(k - 1)
  }
}
