/** Machine integers, and powers of the fan-out of a tree. */
module Words {

  const INT_MIN: int := -0x8000_0000
  const INT_MAX: nat := 0x7fff_ffff
  const UINT: nat := 0x1_0000_0000              // one more than UINT_MAX
  const WORD: nat := 0x1_0000_0000_0000_0000    // one more than ULONG_MAX

  function Max(a: nat, b: nat): nat { if a > b then a else b }

  /** 64 to the k: the number of indices below one slot at level k. */
  function Pow64(k: nat): (p: nat)
    ensures p > 0
  {
    if k == 0 then 1 else 64 * Pow64(k - 1)
  }
}
