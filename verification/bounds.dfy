/** Integer helpers shared by the bounded collections. */
module Bounds {
  function Min(a: int, b: int): int { if a <= b then a else b }
  function Max(a: int, b: int): int { if a >= b then a else b }

  /** The most items a collection with limit `maxsize` can hold: `maxsize`,
      or none at all when it is negative. */
  function Capacity(maxsize: int): (c: nat)
    ensures maxsize >= 0 ==> c == maxsize
  {
    if maxsize < 0 then 0 else maxsize
  }
}
