/** Bits in an array of bytes: the file bitmap of a mirror stream. */
module Bitmap {

  /** The byte `1 << k`. */
  function Mask(k: nat): bv8
    requires k < 8
  {
    if k == 0 then 1 else Mask(k - 1) << 1
  }

  /** The byte `(1 << k) - 1`. */
  function LowBits(k: nat): bv8
    requires k < 8
  {
    Mask(k) - 1
  }

  predicate BitSet(bits: seq<bv8>, i: nat)
    requires i / 8 < |bits|
  {
    HasBit(bits[i / 8], i % 8)
  }

  predicate HasBit(byte: bv8, k: nat)
    requires k < 8
  {
    byte & Mask(k) != 0
  }

  function Or(byte: bv8, mask: bv8): bv8 { byte | mask }

  /** The mask of the next bit, and what its carry adds to the byte index. */
  function Rotated(mask: bv8): bv8 { (mask >> 7) | (mask << 1) }

  function Carry(mask: bv8): nat { (mask >> 7) as nat }

  lemma MaskValues()
    ensures Mask(0) == 1 && Mask(1) == 2 && Mask(2) == 4 && Mask(3) == 8
    ensures Mask(4) == 16 && Mask(5) == 32 && Mask(6) == 64 && Mask(7) == 128
  {
    assert Mask(2) == Mask(1) << 1 && Mask(3) == Mask(2) << 1 && Mask(4) == Mask(3) << 1;
    assert Mask(5) == Mask(4) << 1 && Mask(6) == Mask(5) << 1 && Mask(7) == Mask(6) << 1;
  }

  lemma MasksDisjoint(j: nat, k: nat)
    requires j < 8 && k < 8
    ensures Mask(j) & Mask(k) == if j == k then Mask(j) else 0
    ensures Mask(j) != 0
  {
    MaskValues();
    if j == 0 { } else if j == 1 { } else if j == 2 { } else if j == 3 { }
    else if j == 4 { } else if j == 5 { } else if j == 6 { } else { }
  }

  lemma NoBitInZero(k: nat)
    requires k < 8
    ensures !HasBit(0, k)
  {
    hide Mask;
  }

  lemma OrDistributes(b: bv8, m: bv8, n: bv8)
    ensures (b | m) & n == (b & n) | (m & n)
  {
  }

  /** Setting bit `k` of a byte sets that bit and no other. */
  lemma OrSetsOne(b: bv8, k: nat, j: nat)
    requires j < 8 && k < 8
    ensures HasBit(Or(b, Mask(k)), j) <==> HasBit(b, j) || j == k
  {
    hide Mask;
    OrDistributes(b, Mask(k), Mask(j));
    MasksDisjoint(k, j);
  }

  /** The mask of the next bit is the old one rotated left; its top bit carries into the byte index. */
  lemma MaskRotates(k: nat)
    requires k < 8
    ensures Rotated(Mask(k)) == Mask((k + 1) % 8)
    ensures Carry(Mask(k)) == if k == 7 then 1 else 0
  {
    MaskValues();
    if k == 0 { } else if k == 1 { } else if k == 2 { } else if k == 3 { }
    else if k == 4 { } else if k == 5 { } else if k == 6 { } else { }
  }

  /** Moving on by one bit: the carry of the mask moves the byte index exactly when a byte is done. */
  lemma NextBit(b: nat)
    ensures Rotated(Mask(b % 8)) == Mask((b + 1) % 8) && b / 8 + Carry(Mask(b % 8)) == (b + 1) / 8
  {
    MaskRotates(b % 8);
    hide *;
    assert (b % 8 + 1) % 8 == (b + 1) % 8;
  }

  /** A byte is determined by its eight bits. */
  lemma BitsDetermineByte(b: bv8, c: bv8)
    requires forall k :: 0 <= k < 8 ==> (HasBit(b, k) <==> HasBit(c, k))
    ensures b == c
  {
    MaskValues();
    assert (HasBit(b, 0) <==> HasBit(c, 0)) && (HasBit(b, 1) <==> HasBit(c, 1));
    assert (HasBit(b, 2) <==> HasBit(c, 2)) && (HasBit(b, 3) <==> HasBit(c, 3));
    assert (HasBit(b, 4) <==> HasBit(c, 4)) && (HasBit(b, 5) <==> HasBit(c, 5));
    assert (HasBit(b, 6) <==> HasBit(c, 6)) && (HasBit(b, 7) <==> HasBit(c, 7));
    hide Mask;
    EightBits(b, c);
  }

  lemma EightBits(b: bv8, c: bv8)
    requires (b & 1 != 0 <==> c & 1 != 0) && (b & 2 != 0 <==> c & 2 != 0)
    requires (b & 4 != 0 <==> c & 4 != 0) && (b & 8 != 0 <==> c & 8 != 0)
    requires (b & 16 != 0 <==> c & 16 != 0) && (b & 32 != 0 <==> c & 32 != 0)
    requires (b & 64 != 0 <==> c & 64 != 0) && (b & 128 != 0 <==> c & 128 != 0)
    ensures b == c
  {
  }

  lemma BitOfLowBits(e: nat, k: nat)
    requires e < 8 && k < 8
    ensures HasBit(LowBits(e), k) <==> k < e
    ensures HasBit(0xFF, k)
  {
    MaskValues();
    if k == 0 { BitOfLowBits'(e, 1); } else if k == 1 { BitOfLowBits'(e, 2); } else if k == 2 { BitOfLowBits'(e, 4); }
    else if k == 3 { BitOfLowBits'(e, 8); } else if k == 4 { BitOfLowBits'(e, 16); }
    else if k == 5 { BitOfLowBits'(e, 32); }
    else if k == 6 { BitOfLowBits'(e, 64); } else { BitOfLowBits'(e, 128); }
  }

  /** `e` against a mask given by its value. */
  lemma BitOfLowBits'(e: nat, m: bv8)
    requires e < 8 && m in {1, 2, 4, 8, 16, 32, 64, 128}
    ensures LowBits(e) & m != 0 <==> m < Mask(e)
    ensures 0xFF & m != 0
  {
    MaskValues();
    if e == 0 { } else if e == 1 { } else if e == 2 { } else if e == 3 { }
    else if e == 4 { } else if e == 5 { } else if e == 6 { } else { }
  }
}
