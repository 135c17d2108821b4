/** Words as sets of bits. */
module Bits {

  predicate Bit(v: nat, b: nat) { if b == 0 then v % 2 == 1 else Bit(v / 2, b - 1) }

  /** v | 1 << b */
  function SetBit(v: nat, b: nat): nat { if b == 0 then v - v % 2 + 1 else 2 * SetBit(v / 2, b - 1) + v % 2 }

  /** v & ~(1 << b) */
  function ClearBit(v: nat, b: nat): nat { if b == 0 then v - v % 2 else 2 * ClearBit(v / 2, b - 1) + v % 2 }

  lemma {:induction false} SetBitIs(v: nat, b: nat, c: nat)
    ensures Bit(SetBit(v, b), c) == (Bit(v, c) || c == b)
    decreases b
  {
    if b > 0 && c > 0 { SetBitIs(v / 2, b - 1, c - 1); }
  }

  lemma {:induction false} ClearBitIs(v: nat, b: nat, c: nat)
    ensures Bit(ClearBit(v, b), c) == (Bit(v, c) && c != b)
    decreases b
  {
    if b > 0 && c > 0 { ClearBitIs(v / 2, b - 1, c - 1); }
  }

  lemma {:induction false} ZeroIsEmpty(b: nat)
    ensures !Bit(0, b)
  {
    if b > 0 { ZeroIsEmpty(b - 1); }
  }

  /** A word that is not zero has a bit. */
  lemma {:induction false} SomeBit(v: nat) returns (b: nat)
    requires v > 0
    ensures Bit(v, b)
  {
    if v % 2 == 1 {
      b := 0;
    } else {
      var c := SomeBit(v / 2);
      b := c + 1;
    }
  }
}
