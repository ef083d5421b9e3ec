/** Bits of a byte, least significant first. */
module Bits {

  type byte = bv8

  type BitIndex = i: nat | i < 8

  function Mask(i: BitIndex): byte {
    if i == 0 then 0x01 else if i == 1 then 0x02 else if i == 2 then 0x04 else if i == 3 then 0x08
    else if i == 4 then 0x10 else if i == 5 then 0x20 else if i == 6 then 0x40 else 0x80
  }

  predicate Bit(b: byte, i: BitIndex) {
    b & Mask(i) != 0
  }

  /** A byte as the number that its bits say. */
  function Value(b: byte): nat {
    var digit := (i: BitIndex) => if Bit(b, i) then 1 else 0;
    digit(0) + 2 * digit(1) + 4 * digit(2) + 8 * digit(3) + 16 * digit(4) + 32 * digit(5) + 64 * digit(6)
      + 128 * digit(7)
  }

  lemma {:induction false} ValueIsTheByte(b: byte)
    ensures Value(b) == b as nat
  {
  }

  lemma {:induction false} ZeroHasNoBits(i: BitIndex)
    ensures !Bit(0, i)
  {
  }

  lemma {:induction false} SetOneBit(b: byte, i: BitIndex, j: BitIndex)
    ensures Bit(b | Mask(i), j) == (i == j || Bit(b, j))
  {
  }
}
