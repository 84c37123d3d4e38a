/** Bytes and the bits of a string, the first bit being the most significant one of the first byte. */
module Bits {
  type Byte = bv8

  /** 1 << k */
  function Mask(k: nat): Byte
    requires k < 8
  {
    match k
    case 0 => 0x01
    case 1 => 0x02
    case 2 => 0x04
    case 3 => 0x08
    case 4 => 0x10
    case 5 => 0x20
    case 6 => 0x40
    case _ => 0x80
  }

  /** (b >> k) & 1 */
  predicate On(b: Byte, k: nat)
    requires k < 8
  {
    b & Mask(k) != 0
  }

  /** Bit i of a string. */
  predicate Bit(s: seq<Byte>, i: nat)
    requires i < 8 * |s|
  {
    On(s[i / 8], 7 - i % 8)
  }

  /** Bit i of a string followed by zero bits for ever. */
  predicate Padded(s: seq<Byte>, i: nat) {
    i < 8 * |s| && Bit(s, i)
  }

  function One(b: bool): nat {
    if b then 1 else 0
  }

  function Pow2(k: nat): (p: nat)
    ensures p > 0
  {
    if k == 0 then 1 else 2 * Pow2(k - 1)
  }

  lemma {:induction false} Pow2Add(a: nat, b: nat)
    ensures Pow2(a + b) == Pow2(a) * Pow2(b)
  {
    if a > 0 {
      Pow2Add(a - 1, b);
    }
  }

  /** The number that a byte stands for. */
  function Value(b: Byte): nat {
    One(On(b, 0)) + 2 * (One(On(b, 1)) + 2 * (One(On(b, 2)) + 2 * (One(On(b, 3)) + 2 * (One(On(b, 4))
    + 2 * (One(On(b, 5)) + 2 * (One(On(b, 6)) + 2 * One(On(b, 7))))))))
  }
}
