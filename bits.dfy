/**
 * Single-bit operations on one byte of the packed buffer. Bit `k` of a byte
 * is selected by the mask `1 << k` (least-significant bit first), which is how
 * the library addresses the edge of column `col` inside its byte, with `k == col % 8`.
 */
module Bits {

  /** The mask with a single 1 at bit position `k`. */
  function Mask(k: nat): (m: bv8)
    requires k < 8
  {
    1 << k
  }

  /** Whether bit `k` of `b` is set (`(b & mask) != 0`). */
  predicate TestBit(b: bv8, k: nat)
    requires k < 8
  {
    b & Mask(k) != 0
  }

  /** `b |= mask`: bit `k` becomes 1, and the byte is unchanged exactly when
      bit `k` was already set. */
  function SetBit(b: bv8, k: nat): (r: bv8)
    requires k < 8
    ensures TestBit(r, k)
    ensures r == b <==> TestBit(b, k)
  {
    b | Mask(k)
  }

  /** `b &= 0xFF ^ mask`: bit `k` becomes 0, and the byte is unchanged exactly
      when bit `k` was already clear. */
  function ClearBit(b: bv8, k: nat): (r: bv8)
    requires k < 8
    ensures !TestBit(r, k)
    ensures r == b <==> !TestBit(b, k)
  {
    b & (0xFF ^ Mask(k))
  }

  /** Distinct bit positions have disjoint masks. */
  lemma MasksDisjoint(k: nat, j: nat)
    requires k < 8 && j < 8 && j != k
    ensures Mask(k) & Mask(j) == 0
  {
  }

  /** Setting bit `k` leaves every other bit of the byte as it was. */
  lemma SetBitKeepsOthers(b: bv8, k: nat, j: nat)
    requires k < 8 && j < 8 && j != k
    ensures TestBit(SetBit(b, k), j) == TestBit(b, j)
  {
    MasksDisjoint(k, j);
    assert (b | Mask(k)) & Mask(j) == (b & Mask(j)) | (Mask(k) & Mask(j));
  }

  /** Clearing bit `k` leaves every other bit of the byte as it was. */
  lemma ClearBitKeepsOthers(b: bv8, k: nat, j: nat)
    requires k < 8 && j < 8 && j != k
    ensures TestBit(ClearBit(b, k), j) == TestBit(b, j)
  {
    MasksDisjoint(k, j);
    assert (b & (0xFF ^ Mask(k))) & Mask(j) == b & Mask(j);
  }

  /** A byte is determined by its eight bits, so eight edge bits determine a cell. */
  lemma BitsDetermineByte(x: bv8, y: bv8)
    requires forall k: nat :: k < 8 ==> TestBit(x, k) == TestBit(y, k)
    ensures x == y
  {
    assert Mask(0) == 1 && Mask(1) == 2 && Mask(2) == 4 && Mask(3) == 8;
    assert Mask(4) == 16 && Mask(5) == 32 && Mask(6) == 64 && Mask(7) == 128;
    assert TestBit(x, 0) == TestBit(y, 0) && TestBit(x, 1) == TestBit(y, 1);
    assert TestBit(x, 2) == TestBit(y, 2) && TestBit(x, 3) == TestBit(y, 3);
    assert TestBit(x, 4) == TestBit(y, 4) && TestBit(x, 5) == TestBit(y, 5);
    assert TestBit(x, 6) == TestBit(y, 6) && TestBit(x, 7) == TestBit(y, 7);
    assert x & 0x0F == y & 0x0F;
    assert x & 0xF0 == y & 0xF0;
  }
}
