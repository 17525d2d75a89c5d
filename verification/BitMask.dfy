/** Bits of a byte, as the reassembly bitmask uses them. */
module BitMask {

  /** The byte with only bit k set. */
  function Mask(k: nat): bv8
    requires k < 8
  {
    if k == 0 then 0x01 else if k == 1 then 0x02 else if k == 2 then 0x04 else if k == 3 then 0x08
    else if k == 4 then 0x10 else if k == 5 then 0x20 else if k == 6 then 0x40 else 0x80
  }

  predicate Bit(b: bv8, k: nat)
    requires k < 8
  {
    b & Mask(k) != 0
  }

  /** The source's expression: computed on 32-bit words, then truncated to a byte. */
  function BitRange(start: nat, end: nat): bv8
    requires start < 8 && end <= 8
  {
    var lo: bv32 := 1 << start;
    var hi: bv32 := 1 << end;
    ((!(lo - 1)) & (hi - 1) & 0xff) as bv8
  }

  lemma BitOr(a: bv8, b: bv8, k: nat)
    requires k < 8
    ensures Bit(a | b, k) <==> Bit(a, k) || Bit(b, k)
  {
  }

  lemma BitFull(b: bv8)
    ensures b == 0xff <==> forall k: nat | k < 8 :: Bit(b, k)
  {
    if forall k: nat | k < 8 :: Bit(b, k) {
      assert Bit(b, 0) && Bit(b, 1) && Bit(b, 2) && Bit(b, 3) && Bit(b, 4) && Bit(b, 5) && Bit(b, 6) && Bit(b, 7);
    }
  }

  lemma BitsDetermine(a: bv8, b: bv8)
    requires forall k: nat | k < 8 :: Bit(a, k) == Bit(b, k)
    ensures a == b
  {
    assert Bit(a, 0) == Bit(b, 0) && Bit(a, 1) == Bit(b, 1) && Bit(a, 2) == Bit(b, 2) && Bit(a, 3) == Bit(b, 3);
    assert Bit(a, 4) == Bit(b, 4) && Bit(a, 5) == Bit(b, 5) && Bit(a, 6) == Bit(b, 6) && Bit(a, 7) == Bit(b, 7);
  }

  /** bit_range sets bits start (inclusive) to end (exclusive) and no others. */
  lemma BitRangeBits(start: nat, end: nat, k: nat)
    requires start < 8 && end <= 8 && k < 8
    ensures Bit(BitRange(start, end), k) <==> start <= k < end
  {
    var lo: bv32 := 1 << start;
    var hi: bv32 := 1 << end;
    assert start == 0 || start == 1 || start == 2 || start == 3 || start == 4 || start == 5 || start == 6 || start == 7;
    assert end == 0 || end == 1 || end == 2 || end == 3 || end == 4 || end == 5 || end == 6 || end == 7 || end == 8;
  }
}
