/** The CRC-32 calculator: sixteen lookup tables, a 64-byte unrolled loop and a byte tail,
    proved equal to the bit-by-bit reflected CRC of section 8 of RFC 1952.

    The machine operations on 32-bit words are named functions, so that a proof about sums of
    registers can hide them and treat words as elements of an abstract vector space. */
module Crc32 {
  import opened Bytes

  function Xor(x: bv32, y: bv32): bv32 { x ^ y }
  function Wide(b: bv8): bv32 { b as bv32 }
  function Not(x: bv32): bv32 { !x }
  function Half(w: bv32): bv32 { w >> 1 }
  function Low(w: bv32): bv32 { w & 0xFF }
  function High(w: bv32): bv32 { w >> 8 }
  function Up(w: bv32): bv32 { w << 8 }

  // ----- Specification: one bit, one byte, a whole string -----

  /** The reflected generator polynomial. */
  const REFLECTED_POLYNOMIAL: bv32 := 0xEDB8_8320

  /** One zero bit through the register. */
  function BitStep(c: bv32): bv32 {
    if c & 1 == 1 then REFLECTED_POLYNOMIAL ^ (c >> 1) else c >> 1
  }

  function BitSteps(c: bv32, n: nat): bv32
    decreases n
  {
    if n == 0 then c else BitStep(BitSteps(c, n - 1))
  }

  /** Runs the register over eight zero bits. */
  function ByteShift(c: bv32): bv32 {
    BitStep(BitStep(BitStep(BitStep(BitStep(BitStep(BitStep(BitStep(c))))))))
  }

  function ByteStep(c: bv32, b: bv32): bv32 {
    ByteShift(Xor(c, b))
  }

  function Fold(c: bv32, data: seq<bv8>): bv32
    decreases |data|
  {
    if data == [] then c else Fold(ByteStep(c, Wide(data[0])), data[1..])
  }

  /** The CRC of `data`, continued from the CRC `previous` of what came before it. */
  function Crc(data: seq<bv8>, previous: bv32): bv32 {
    0xFFFF_FFFF ^ Fold(0xFFFF_FFFF ^ previous, data)
  }

  /** The register `c` after `n` zero bytes. */
  function Shifted(c: bv32, n: nat): bv32
    decreases n
  {
    if n == 0 then c else ByteShift(Shifted(c, n - 1))
  }

  // ----- Strings compose -----

  lemma {:induction false} FoldConcat(c: bv32, a: seq<bv8>, b: seq<bv8>)
    ensures Fold(c, a + b) == Fold(Fold(c, a), b)
    decreases |a|
  {
    hide ByteStep;
    if a == [] {
      assert a + b == b;
    } else {
      FoldConcat(ByteStep(c, Wide(a[0])), a[1..], b);
      assert (a + b)[1..] == a[1..] + b;
    }
  }

  /** Feeding a string in two pieces gives the CRC of the whole. */
  lemma CrcConcat(a: seq<bv8>, b: seq<bv8>, previous: bv32)
    ensures Crc(b, Crc(a, previous)) == Crc(a + b, previous)
  {
    hide Fold, Not, Crc;
    FoldConcat(Not(previous), a, b);
    DoubleComplement(Fold(Not(previous), a));
    CrcIsFold(a, previous);
    CrcIsFold(b, Crc(a, previous));
    CrcIsFold(a + b, previous);
  }

  lemma DoubleComplement(x: bv32)
    ensures Not(Not(x)) == x
  {
  }

  // ----- The register is linear over GF(2) -----

  /** What the outgoing bit adds to the register. */
  function Feedback(c: bv32): bv32 {
    if c & 1 == 1 then REFLECTED_POLYNOMIAL else 0
  }

  lemma BitStepIsXor(c: bv32)
    ensures BitStep(c) == Xor(Half(c), Feedback(c))
  {
    hide Xor, Half, BitStep;
    BitStepCases(c);
    XorZero(Half(c));
    XorCommutes(REFLECTED_POLYNOMIAL, Half(c));
  }

  lemma BitStepCases(c: bv32)
    ensures BitStep(c) == if c & 1 == 1 then Xor(REFLECTED_POLYNOMIAL, Half(c)) else Half(c)
  {
  }

  lemma FeedbackIsLinear(x: bv32, y: bv32)
    ensures Feedback(Xor(x, y)) == Xor(Feedback(x), Feedback(y))
  {
    assert Xor(x, y) & 1 == Xor(x & 1, y & 1);
    if x & 1 == 1 && y & 1 == 1 { } else { }
  }

  lemma HalfIsLinear(x: bv32, y: bv32)
    ensures Half(Xor(x, y)) == Xor(Half(x), Half(y))
  {
    HalvesAdd(x, y, Xor(x, y), Half(x), Half(y));
  }

  // Bit facts are stated on named words, one per operation: the solver then only substitutes.
  lemma HalvesAdd(x: bv32, y: bv32, sum: bv32, x': bv32, y': bv32)
    requires sum == x ^ y && x' == x >> 1 && y' == y >> 1
    ensures Half(sum) == Xor(x', y')
  {
  }

  lemma XorRegroup(a: bv32, b: bv32, c: bv32, d: bv32)
    ensures Xor(Xor(a, b), Xor(c, d)) == Xor(Xor(a, c), Xor(b, d))
  {
    SumsRegroup(a, b, c, d, Xor(a, b), Xor(c, d), Xor(a, c), Xor(b, d));
  }

  lemma SumsRegroup(a: bv32, b: bv32, c: bv32, d: bv32, ab: bv32, cd: bv32, ac: bv32, bd: bv32)
    requires ab == a ^ b && cd == c ^ d && ac == a ^ c && bd == b ^ d
    ensures Xor(ab, cd) == Xor(ac, bd)
  {
  }

  lemma BitStepIsLinear(x: bv32, y: bv32)
    ensures BitStep(Xor(x, y)) == Xor(BitStep(x), BitStep(y))
  {
    hide *;
    BitStepIsXor(x);
    BitStepIsXor(y);
    BitStepIsXor(Xor(x, y));
    HalfIsLinear(x, y);
    FeedbackIsLinear(x, y);
    XorRegroup(Half(x), Half(y), Feedback(x), Feedback(y));
  }

  lemma ByteShiftIsLinear(x: bv32, y: bv32)
    ensures ByteShift(Xor(x, y)) == Xor(ByteShift(x), ByteShift(y))
  {
    hide BitStep, Xor;
    var x1, y1 := BitStep(x), BitStep(y);    BitStepIsLinear(x, y);
    var x2, y2 := BitStep(x1), BitStep(y1);  BitStepIsLinear(x1, y1);
    var x3, y3 := BitStep(x2), BitStep(y2);  BitStepIsLinear(x2, y2);
    var x4, y4 := BitStep(x3), BitStep(y3);  BitStepIsLinear(x3, y3);
    var x5, y5 := BitStep(x4), BitStep(y4);  BitStepIsLinear(x4, y4);
    var x6, y6 := BitStep(x5), BitStep(y5);  BitStepIsLinear(x5, y5);
    var x7, y7 := BitStep(x6), BitStep(y6);  BitStepIsLinear(x6, y6);
    BitStepIsLinear(x7, y7);
  }

  lemma {:induction false} ShiftedIsLinear(x: bv32, y: bv32, n: nat)
    ensures Shifted(Xor(x, y), n) == Xor(Shifted(x, n), Shifted(y, n))
    decreases n
  {
    hide ByteShift, Xor;
    if n > 0 {
      ShiftedIsLinear(x, y, n - 1);
      ByteShiftIsLinear(Shifted(x, n - 1), Shifted(y, n - 1));
    }
  }

  lemma {:induction false} ShiftedAdds(c: bv32, m: nat, n: nat)
    ensures Shifted(c, m + n) == Shifted(Shifted(c, m), n)
    decreases n
  {
    hide ByteShift;
    if n > 0 { ShiftedAdds(c, m, n - 1); }
  }

  lemma ByteShiftUndoesUp(y: bv32)
    requires y & 0xFF00_0000 == 0
    ensures ByteShift(Up(y)) == y
  {
  }

  lemma HighIsClear(w: bv32)
    ensures High(w) & 0xFF00_0000 == 0
  {
  }

  /** A value below the top byte drops by one position in one byte time. */
  lemma ByteShiftOfHigh(w: bv32)
    ensures ByteShift(Up(High(w))) == High(w)
  {
    hide *;
    HighIsClear(w);
    ByteShiftUndoesUp(High(w));
  }

  /** The table-driven byte step: shift by eight bits and add the entry of the outgoing byte. */
  lemma ByteShiftByTable(c: bv32)
    ensures ByteShift(c) == Xor(High(c), ByteShift(Low(c)))
  {
    assert c == Xor(Up(High(c)), Low(c));
    hide ByteShift, Xor, Up, High, Low;
    ByteShiftIsLinear(Up(High(c)), Low(c));
    ByteShiftOfHigh(c);
  }

  // ----- Words as four bytes -----

  /** The `k`-th byte of `w`, lowest first. */
  function ByteOf(w: bv32, k: nat): bv32
    requires k < 4
    decreases k
  {
    if k == 0 then Low(w) else ByteOf(High(w), k - 1)
  }

  lemma {:induction false} ByteStepOfWord(c: bv32, w: bv32)
    ensures ByteShift(Xor(c, w)) == Xor(ByteStep(c, Low(w)), High(w))
  {
    XorLow(c, w);
    hide ByteShift, Xor, Up, High, Low;
    ByteShiftIsLinear(Xor(c, Low(w)), Up(High(w)));
    ByteShiftOfHigh(w);
  }

  lemma XorLow(c: bv32, w: bv32)
    ensures Xor(c, w) == Xor(Xor(c, Low(w)), Up(High(w)))
  {
  }

  lemma HighOfFour(w: bv32)
    ensures High(High(High(High(w)))) == 0
  {
  }

  lemma XorZero(x: bv32)
    ensures Xor(x, 0) == x && Xor(0, x) == x
  {
  }

  /** Four byte steps are one word added in, then four byte times. */
  lemma FourByteSteps(c: bv32, w: bv32)
    ensures Shifted(Xor(c, w), 4)
         == ByteStep(ByteStep(ByteStep(ByteStep(c, ByteOf(w, 0)), ByteOf(w, 1)), ByteOf(w, 2)), ByteOf(w, 3))
  {
    hide ByteShift, ByteStep, Xor, Up, High, Low;
    var w1 := High(w);
    var w2 := High(w1);
    var w3 := High(w2);
    var c1 := ByteStep(c, Low(w));
    var c2 := ByteStep(c1, Low(w1));
    var c3 := ByteStep(c2, Low(w2));
    var c4 := ByteStep(c3, Low(w3));
    ByteStepOfWord(c, w);
    ByteStepOfWord(c1, w1);
    ByteStepOfWord(c2, w2);
    ByteStepOfWord(c3, w3);
    HighOfFour(w);
    XorZero(c4);
    BytesOfWord(w);
    ShiftedFour(Xor(c, w));
  }

  lemma BytesOfWord(w: bv32)
    ensures ByteOf(w, 0) == Low(w) && ByteOf(w, 1) == Low(High(w))
    ensures ByteOf(w, 2) == Low(High(High(w))) && ByteOf(w, 3) == Low(High(High(High(w))))
  {
    hide High, Low;
    assert ByteOf(High(w), 1) == ByteOf(High(High(w)), 0);
    assert ByteOf(High(High(w)), 1) == ByteOf(High(High(High(w))), 0);
  }

  lemma ShiftedFour(c: bv32)
    ensures Shifted(c, 4) == ByteShift(ByteShift(ByteShift(ByteShift(c))))
  {
    hide ByteShift;
    assert Shifted(c, 2) == ByteShift(ByteShift(c));
  }

  /** A word shifted by `n + 4` bytes is the sum of four table entries, one table per byte. */
  lemma WordSum(w: bv32, n: nat)
    ensures Shifted(w, n + 4) == Xor(Xor(Xor(Shifted(ByteOf(w, 3), n + 1), Shifted(ByteOf(w, 2), n + 2)),
                                         Shifted(ByteOf(w, 1), n + 3)), Shifted(ByteOf(w, 0), n + 4))
  {
    hide ByteShift, Xor, Up, High, Low;
    var w1 := High(w);
    var w2 := High(w1);
    var w3 := High(w2);
    ShiftedByByte(w, n + 3);
    ShiftedByByte(w1, n + 2);
    ShiftedByByte(w2, n + 1);
    ShiftedByByte(w3, n);
    HighOfFour(w);
    XorZero(Shifted(Low(w3), n + 1));
    ShiftedZero(n);
    BytesOfWord(w);
  }

  lemma {:induction false} ShiftedZero(n: nat)
    ensures Shifted(0, n) == 0
  {
    if n > 0 { ShiftedZero(n - 1); }
  }

  /** One byte of the word is settled by a table, the rest waits one position lower. */
  lemma ShiftedByByte(w: bv32, n: nat)
    ensures Shifted(w, n + 1) == Xor(Shifted(High(w), n), Shifted(Low(w), n + 1))
  {
    hide ByteShift, Xor, Up, High, Low;
    ByteShiftByTable(w);
    ShiftedIsLinear(High(w), ByteShift(Low(w)), n);
    ShiftedAdds(w, 1, n);
    ShiftedAdds(Low(w), 1, n);
    ShiftedOne(w);
    ShiftedOne(Low(w));
  }

  lemma ShiftedOne(c: bv32)
    ensures Shifted(c, 1) == ByteShift(c)
  {
    hide ByteShift;
    assert Shifted(c, 0) == c;
  }

  lemma BytesOfLe32(b0: bv8, b1: bv8, b2: bv8, b3: bv8)
    ensures var w := Le32(b0, b1, b2, b3);
      && Low(w) == Wide(b0) && Low(High(w)) == Wide(b1)
      && Low(High(High(w))) == Wide(b2) && Low(High(High(High(w)))) == Wide(b3)
  {
  }

  function WordAt(data: seq<bv8>, pos: nat): bv32
    requires pos + 4 <= |data|
  {
    Le32(data[pos], data[pos + 1], data[pos + 2], data[pos + 3])
  }

  lemma FoldFour(c: bv32, s: seq<bv8>)
    requires |s| >= 4
    ensures Fold(c, s) == Fold(Shifted(Xor(c, WordAt(s, 0)), 4), s[4..])
  {
    hide Le32, ByteStep, Xor, High, Low, Shifted, Wide;
    FourByteSteps(c, WordAt(s, 0));
    BytesOfWord(WordAt(s, 0));
    BytesOfLe32(s[0], s[1], s[2], s[3]);
    var c1 := ByteStep(c, Wide(s[0]));
    var c2 := ByteStep(c1, Wide(s[1]));
    assert s[1..][1..] == s[2..] && s[2..][1..] == s[3..] && s[3..][1..] == s[4..];
    assert Fold(c1, s[1..]) == Fold(c2, s[2..]);
    assert Fold(c2, s[2..]) == Fold(ByteStep(c2, Wide(s[2])), s[3..]);
  }

  /** One pass of the slicing-by-16 loop body, as a sum of four shifted words. */
  lemma SixteenByteSteps(c: bv32, s: seq<bv8>)
    requires |s| >= 16
    ensures Fold(c, s) == Fold(Xor(Xor(Xor(Shifted(Xor(c, WordAt(s, 0)), 16), Shifted(WordAt(s, 4), 12)),
                                       Shifted(WordAt(s, 8), 8)), Shifted(WordAt(s, 12), 4)), s[16..])
  {
    hide Le32, ByteStep, ByteShift, Xor, Fold;
    var v1, w2, w3, w4 := Xor(c, WordAt(s, 0)), WordAt(s, 4), WordAt(s, 8), WordAt(s, 12);
    assert s[4..][4..] == s[8..] && s[8..][4..] == s[12..] && s[12..][4..] == s[16..];
    FoldFour(c, s);
    var c4 := Shifted(v1, 4);
    FoldFour(c4, s[4..]);
    ShiftedIsLinear(c4, w2, 4);
    var c8 := Xor(Shifted(c4, 4), Shifted(w2, 4));
    FoldFour(c8, s[8..]);
    ShiftedIsLinear(c8, w3, 4);
    ShiftedIsLinear(Shifted(c4, 4), Shifted(w2, 4), 4);
    var c12 := Shifted(Xor(c8, w3), 4);
    FoldFour(c12, s[12..]);
    ShiftedIsLinear(c12, w4, 4);
    ShiftedIsLinear(Shifted(c8, 4), Shifted(w3, 4), 4);
    ShiftedIsLinear(Shifted(Shifted(c4, 4), 4), Shifted(Shifted(w2, 4), 4), 4);
    ShiftedByFours(v1);
    ShiftedByFours(w2);
    ShiftedByFours(w3);
  }

  lemma ShiftedByFours(c: bv32)
    ensures Shifted(Shifted(c, 4), 4) == Shifted(c, 8)
    ensures Shifted(Shifted(Shifted(c, 4), 4), 4) == Shifted(c, 12)
    ensures Shifted(Shifted(Shifted(Shifted(c, 4), 4), 4), 4) == Shifted(c, 16)
  {
    ShiftedAdds(c, 4, 4);
    ShiftedAdds(c, 8, 4);
    ShiftedAdds(c, 12, 4);
    hide *;
  }

  // ----- Bit reversal, and the table of single bytes -----

  /** The 32 bits of `x` in reverse order. */
  function Reversed(x: bv32): bv32 {
    var a := ((x >> 1) & 0x5555_5555) | ((x & 0x5555_5555) << 1);
    var b := ((a >> 2) & 0x3333_3333) | ((a & 0x3333_3333) << 2);
    var c := ((b >> 4) & 0x0F0F_0F0F) | ((b & 0x0F0F_0F0F) << 4);
    var d := ((c >> 8) & 0x00FF_00FF) | ((c & 0x00FF_00FF) << 8);
    (d >> 16) | (d << 16)
  }

  function Bit(x: bv32, k: bv32): bv32
    requires k < 32
  {
    (x >> k) & 1
  }

  lemma ReversedBit(x: bv32, i: bv32, m: bv32)
    requires i < 32 && m == 31 - i
    ensures Bit(Reversed(x), m) == Bit(x, i)
  {
  }

  lemma ReversedTwice(x: bv32)
    ensures Reversed(Reversed(x)) == x
  {
  }

  lemma ReversedIsLinear(x: bv32, y: bv32)
    ensures Reversed(Xor(x, y)) == Xor(Reversed(x), Reversed(y))
  {
  }

  lemma ReversedShift(x: bv32)
    ensures Reversed(x << 1) == Reversed(x) >> 1
  {
  }

  lemma ReversedTopBit(x: bv32)
    ensures x & 0x8000_0000 != 0 <==> Reversed(x) & 1 == 1
  {
  }

  /** The generator polynomial in the order of its exponents, as the table builder has it. */
  const POLYNOMIAL: bv32 := 0x04C1_1DB7

  lemma PolynomialsMirror()
    ensures Reversed(POLYNOMIAL) == REFLECTED_POLYNOMIAL
  {
  }

  function LeftStep(x: bv32): bv32 {
    Xor(x << 1, if x & 0x8000_0000 != 0 then POLYNOMIAL else 0)
  }

  lemma ReversedZero()
    ensures Reversed(0) == 0
  {
  }

  /** A left shift with the plain polynomial mirrors a right shift with the reflected one. */
  lemma LeftStepMirrors(x: bv32)
    ensures Reversed(LeftStep(x)) == BitStep(Reversed(x))
  {
    hide Reversed, Xor, BitStep, POLYNOMIAL, REFLECTED_POLYNOMIAL;
    PolynomialsMirror();
    ReversedZero();
    ReversedShift(x);
    ReversedTopBit(x);
    ReversedIsLinear(x << 1, if x & 0x8000_0000 != 0 then POLYNOMIAL else 0);
    BitStepIsXor(Reversed(x));
  }

  lemma EightBitSteps(c: bv32)
    ensures BitSteps(c, 8) == Shifted(c, 1)
  {
    hide BitStep;
    assert BitSteps(c, 2) == BitStep(BitStep(c));
    assert BitSteps(c, 4) == BitStep(BitStep(BitSteps(c, 2)));
    assert BitSteps(c, 6) == BitStep(BitStep(BitSteps(c, 4)));
    ShiftedOne(c);
  }

  /** The highest `val` bits of `r`. */
  function Top(r: bv32, val: bv32): bv32
    requires val <= 32
  {
    r >> (32 - val)
  }

  /** The bits of `q` from position `k` up. */
  function Above(q: bv32, k: bv32): bv32
    requires k <= 32
  {
    q & (0xFFFF_FFFF << k)
  }

  function Mark(value: bv32, bit: bv32, k: bv32): bv32
    requires k < 32
  {
    value | (bit << k)
  }

  lemma AboveNext(q: bv32, k: bv32, k': bv32)
    requires k < 32 && k' == k + 1
    ensures Above(q, k) == Mark(Above(q, k'), Bit(q, k), k)
  {
  }

  lemma BitOfTop(r: bv32, val: bv32, k: bv32, m: bv32)
    requires k < val <= 32 && m == 32 - val + k
    ensures m < 32 && Bit(Top(r, val), k) == Bit(r, m)
  {
  }

  /** Bit `k` of the reflected value is bit `val - 1 - k` of the original. */
  lemma ReflectedBit(x: bv32, val: bv32, k: bv32, i: bv32)
    requires k < val <= 32 && i == val - 1 - k
    ensures i < 32 && Bit(Top(Reversed(x), val), k) == Bit(x, i)
  {
    var m := 32 - val + k;
    assert i < 32 && m == 31 - i;
    hide *;
    BitOfTop(Reversed(x), val, k, m);
    ReversedBit(x, i, m);
  }

  lemma MarkOne(value: bv32, w: bv32, k: bv32)
    requires k < 32
    ensures Mark(value, w & 1, k) == MarkIf(value, w, k)
  {
    if w & 1 != 0 { assert w & 1 == 1; }
  }

  lemma Positions(val: bv32, place: bv32, below: bv32, bit: bv32)
    requires 1 <= place <= val <= 32 && below == place - 1 && bit == val - place
    ensures below < place && below < val && bit < 32 && bit == val - 1 - below
    ensures place == below + 1 && val - below == bit + 1
  {
  }

  function MarkIf(value: bv32, w: bv32, k: bv32): bv32
    requires k < 32
  {
    if w & 1 != 0 then value | (1 << k) else value
  }

  /** One pass of the reflection loop: `place` is the position still to be filled, plus one. */
  lemma ReflectStep(x: bv32, val: bv32, place: bv32, below: bv32, bit: bv32, rest: bv32, value: bv32)
    requires 1 <= place <= val <= 32 && below == place - 1 && bit == val - place
    requires bit < 32 && below < val && rest == Drop(x, bit) && value == Above(Top(Reversed(x), val), place)
    ensures below < 32 && Half(rest) == Drop(x, bit + 1)
    ensures MarkIf(value, rest, below) == Above(Top(Reversed(x), val), below)
  {
    hide *;
    Positions(val, place, below, bit);
    AboveNext(Top(Reversed(x), val), below, place);
    ReflectedBit(x, val, below, bit);
    DropIsShift(x, bit);
    BitOfDrop(x, rest, bit);
    MarkOne(value, rest, below);
  }

  lemma AboveZero(q: bv32)
    ensures Above(q, 0) == q
  {
  }

  lemma AboveTop(r: bv32, val: bv32)
    requires 1 <= val <= 32
    ensures Above(Top(r, val), val) == 0
  {
  }

  function Drop(x: bv32, k: bv32): bv32
    requires k <= 32
  {
    x >> k
  }

  lemma DropZero(x: bv32)
    ensures Drop(x, 0) == x
  {
  }

  lemma BitOfDrop(x: bv32, rest: bv32, k: bv32)
    requires k < 32 && rest == x >> k
    ensures rest & 1 == Bit(x, k) && Half(rest) == Drop(x, k + 1)
  {
  }

  lemma DropIsShift(x: bv32, k: bv32)
    requires k <= 32
    ensures Drop(x, k) == x >> k
  {
  }

  // ----- The calculator -----

  const MAX_SLICES := 16
  const BYTES_AT_ONCE := 64

  class Calculator {
    const lut: array2<bv32>

    /** Entry `i` of table `k` is the register after the byte `i` and `k` zero bytes. */
    ghost predicate Valid()
      reads this, lut
    {
      && lut.Length0 == MAX_SLICES && lut.Length1 == 256
      && forall k, i :: 0 <= k < MAX_SLICES && 0 <= i < 256 ==> lut[k, i] == Shifted(i as bv32, k + 1)
    }

    constructor ()
      ensures Valid() && fresh(lut)
    {
      lut := new bv32[MAX_SLICES, 256];
      new;
      Initialize();
    }

    method Initialize()
      requires lut.Length0 == MAX_SLICES && lut.Length1 == 256
      modifies lut
      ensures Valid()
    {
      hide Shifted;
      for i := 0 to 256
        invariant forall j :: 0 <= j < i ==> lut[0, j] == Shifted(j as bv32, 1)
      {
        var entry := ByteEntry(i as bv32);
        lut[0, i] := entry;
      }
      for i := 0 to 256
        invariant forall j :: 0 <= j < 256 ==> lut[0, j] == Shifted(j as bv32, 1)
        invariant forall k, j :: 1 <= k < MAX_SLICES && 0 <= j < i ==> lut[k, j] == Shifted(j as bv32, k + 1)
      {
        FillSlices(i);
      }
      ValidTables();
    }

    lemma ValidTables()
      requires lut.Length0 == MAX_SLICES && lut.Length1 == 256
      requires forall j :: 0 <= j < 256 ==> lut[0, j] == Shifted(j as bv32, 1)
      requires forall k, j :: 1 <= k < MAX_SLICES && 0 <= j < 256 ==> lut[k, j] == Shifted(j as bv32, k + 1)
      ensures Valid()
    {
      hide Shifted;
    }

    /** Derives the other fifteen entries of one byte from the first table. */
    method FillSlices(i: nat)
      requires i < 256 && lut.Length0 == MAX_SLICES && lut.Length1 == 256
      requires forall j :: 0 <= j < 256 ==> lut[0, j] == Shifted(j as bv32, 1)
      modifies lut
      ensures forall k, j :: 0 <= k < MAX_SLICES && 0 <= j < 256 && (k == 0 || j != i) ==> lut[k, j] == old(lut[k, j])
      ensures forall k :: 1 <= k < MAX_SLICES ==> lut[k, i] == Shifted(i as bv32, k + 1)
    {
      hide Shifted, Low, High, Xor;
      for slice := 1 to MAX_SLICES
        invariant forall k, j :: 0 <= k < MAX_SLICES && 0 <= j < 256 && (k == 0 || j != i) ==>
          lut[k, j] == old(lut[k, j])
        invariant forall k :: 0 <= k < slice ==> lut[k, i] == Shifted(i as bv32, k + 1)
      {
        var previous := lut[slice - 1, i];
        NextSlice(i as bv32, slice);
        lut[slice, i] := Xor(High(previous), lut[0, Index(previous)]);
      }
    }

    /** The first table's entry for one byte: reflected in, eight left steps, reflected out. */
    static method ByteEntry(i: bv32) returns (entry: bv32)
      requires i & 0xFFFF_FF00 == 0
      ensures entry == Shifted(i, 1)
    {
      entry := Reflect(i, 8);
      entry := entry << 24;
      ReflectedByte(i);
      for pos := 0 to 8
        invariant Reversed(entry) == BitSteps(i, pos)
      {
        hide LeftStep, Reversed, BitStep;
        LeftStepMirrors(entry);
        entry := LeftStep(entry);
      }
      EightBitSteps(i);
      entry := Reflect(entry, 32);
    }

    /** Reverses the low `val` bits of `reflect`. */
    static method Reflect(reflect: bv32, val: bv32) returns (value: bv32)
      requires 1 <= val <= 32
      ensures value == Top(Reversed(reflect), val)
    {
      hide *;
      ghost var result := Top(Reversed(reflect), val);
      value := 0;
      AboveTop(Reversed(reflect), val);
      AboveZero(result);
      DropZero(reflect);
      var place, rest := val, reflect;  // the source counts i = val - place + 1 upwards
      ghost var bit := 0;
      while place > 0
        invariant place <= val && bit == val - place && rest == Drop(reflect, bit) && value == Above(result, place)
        decreases place
      {
        Positions(val, place, place - 1, bit);
        ReflectStep(reflect, val, place, place - 1, bit, rest, value);
        place, bit := place - 1, bit + 1;
        value := MarkIf(value, rest, place);
        rest := Half(rest);
      }
    }

    /** The entry of table `k` for the byte `b`. */
    function Entry(k: nat, b: bv32): bv32
      requires k < MAX_SLICES && Valid()
      reads this, lut
    {
      lut[k, Index(b)]
    }

    lemma EntryMeaning(k: nat, b: bv32)
      requires k < MAX_SLICES && Valid()
      ensures Entry(k, b) == Shifted(Low(b), k + 1)
    {
      hide Shifted, Low;
    }

    /** The entries of the four bytes of a word, in the four tables from `k` up. */
    function WordEntries(k: nat, w: bv32): bv32
      requires k + 4 <= MAX_SLICES && Valid()
      reads this, lut
    {
      Xor(Xor(Xor(Entry(k, w >> 24), Entry(k + 1, w >> 16)), Entry(k + 2, w >> 8)), Entry(k + 3, w))
    }

    lemma WordEntriesMeaning(k: nat, w: bv32)
      requires k + 4 <= MAX_SLICES && Valid()
      ensures WordEntries(k, w) == Shifted(w, k + 4)
    {
      hide Shifted, Low, Xor, ByteOf, High, Entry, Valid;
      EntryMeaning(k, w >> 24);
      EntryMeaning(k + 1, w >> 16);
      EntryMeaning(k + 2, w >> 8);
      EntryMeaning(k + 3, w);
      ShiftedBytes(w);
      WordSum(w, k);
    }

    method CalculateCrc(data: seq<bv8>, previousCrc: bv32) returns (crc: bv32)
      requires Valid()
      ensures crc == Crc(data, previousCrc) == 0xFFFF_FFFF ^ Fold(0xFFFF_FFFF ^ previousCrc, data)
    {
      hide Fold, Not, Xor, High, Low, Wide, ByteStep, Shifted, Crc, Valid, Entry;
      crc := Not(previousCrc);
      var pos := 0;
      ghost var whole := Fold(crc, data);
      assert data[0..] == data;
      while |data| - pos >= BYTES_AT_ONCE
        invariant pos <= |data| && Fold(crc, data[pos..]) == whole
      {
        ghost var start := pos;
        for unrolling := 0 to 4
          invariant pos == start + 16 * unrolling && Fold(crc, data[pos..]) == whole
        {
          crc := Slice16(crc, data, pos);
          pos := pos + 16;
        }
      }
      while pos < |data|
        invariant pos <= |data| && Fold(crc, data[pos..]) == whole
      {
        FoldOne(crc, data[pos..]);
        assert data[pos..][1..] == data[pos + 1..];
        WideIsByte(data[pos]);
        TableByteStep(crc, Wide(data[pos]));
        EntryMeaning(0, Xor(Low(crc), Wide(data[pos])));
        crc := Xor(High(crc), Entry(0, Xor(Low(crc), Wide(data[pos]))));
        pos := pos + 1;
      }
      assert data[pos..] == [];
      FoldNone(crc);
      CrcIsFold(data, previousCrc);
      CrcComplements(data, previousCrc);
      crc := Not(crc);
    }

    /** The body of the unrolled loop: sixteen bytes through sixteen tables. */
    function Slice16(crc: bv32, data: seq<bv8>, pos: nat): (r: bv32)
      requires Valid() && pos + 16 <= |data|
      reads this, lut
      ensures Fold(r, data[pos + 16..]) == Fold(crc, data[pos..])
    {
      var one := Xor(WordAt(data, pos), crc);
      var two := WordAt(data, pos + 4);
      var three := WordAt(data, pos + 8);
      var four := WordAt(data, pos + 12);
      Slice16Correct(crc, data, pos);
      Xor(Xor(Xor(WordEntries(0, four), WordEntries(4, three)), WordEntries(8, two)), WordEntries(12, one))
    }

    lemma Slice16Correct(crc: bv32, data: seq<bv8>, pos: nat)
      requires Valid() && pos + 16 <= |data|
      ensures var one := Xor(WordAt(data, pos), crc);
        var sum := Xor(Xor(Xor(WordEntries(0, WordAt(data, pos + 12)), WordEntries(4, WordAt(data, pos + 8))),
                           WordEntries(8, WordAt(data, pos + 4))), WordEntries(12, one));
        Fold(sum, data[pos + 16..]) == Fold(crc, data[pos..])
    {
      hide Valid, WordEntries, Xor, Fold, Shifted, Le32;
      var s := data[pos..];
      assert s[16..] == data[pos + 16..];
      SixteenByteSteps(crc, s);
      var one, two, three, four := Xor(WordAt(data, pos), crc), WordAt(s, 4), WordAt(s, 8), WordAt(s, 12);
      XorCommutes(crc, WordAt(s, 0));
      WordEntriesMeaning(12, one);
      WordEntriesMeaning(8, two);
      WordEntriesMeaning(4, three);
      WordEntriesMeaning(0, four);
      XorReverse(Shifted(one, 16), Shifted(two, 12), Shifted(three, 8), Shifted(four, 4));
    }
  }

  lemma XorCommutes(x: bv32, y: bv32)
    ensures Xor(x, y) == Xor(y, x)
  {
  }

  lemma XorAssociates(x: bv32, y: bv32, z: bv32)
    ensures Xor(Xor(x, y), z) == Xor(x, Xor(y, z))
  {
    SumsAssociate(x, y, z, Xor(x, y), Xor(y, z));
  }

  lemma SumsAssociate(x: bv32, y: bv32, z: bv32, xy: bv32, yz: bv32)
    requires xy == x ^ y && yz == y ^ z
    ensures Xor(xy, z) == Xor(x, yz)
  {
  }

  lemma XorReverse(a: bv32, b: bv32, c: bv32, d: bv32)
    ensures Xor(Xor(Xor(a, b), c), d) == Xor(Xor(Xor(d, c), b), a)
  {
    hide *;
    XorCommutes(Xor(Xor(a, b), c), d);
    XorCommutes(Xor(a, b), c);
    XorAssociates(d, c, Xor(a, b));
    XorCommutes(a, b);
    XorAssociates(Xor(d, c), b, a);
  }

  lemma ShiftsAreHighs(w: bv32)
    ensures w >> 8 == High(w) && w >> 16 == High(High(w)) && w >> 24 == High(High(High(w)))
  {
  }

  lemma ShiftedBytes(w: bv32)
    ensures Low(w) == ByteOf(w, 0) && Low(w >> 8) == ByteOf(w, 1)
    ensures Low(w >> 16) == ByteOf(w, 2) && Low(w >> 24) == ByteOf(w, 3)
  {
    hide *;
    ShiftsAreHighs(w);
    BytesOfWord(w);
  }

  lemma WideIsByte(b: bv8)
    ensures Wide(b) & 0xFFFF_FF00 == 0
  {
  }

  lemma FoldOne(c: bv32, s: seq<bv8>)
    requires s != []
    ensures Fold(c, s) == Fold(ByteStep(c, Wide(s[0])), s[1..])
  {
  }

  lemma FoldNone(c: bv32)
    ensures Fold(c, []) == c
  {
  }

  lemma CrcIsFold(data: seq<bv8>, previous: bv32)
    ensures Crc(data, previous) == Not(Fold(Not(previous), data))
  {
    hide Fold;
    ComplementIsSum(previous);
    ComplementIsSum(Fold(Not(previous), data));
  }

  lemma CrcComplements(data: seq<bv8>, previous: bv32)
    ensures Crc(data, previous) == 0xFFFF_FFFF ^ Fold(0xFFFF_FFFF ^ previous, data)
  {
  }

  /** The complement of a word is its sum with all ones. */
  lemma ComplementIsSum(x: bv32)
    ensures Not(x) == 0xFFFF_FFFF ^ x
  {
  }

  /** The byte loop's update, by the first table, is one byte step. */
  lemma TableByteStep(c: bv32, b: bv32)
    requires b & 0xFFFF_FF00 == 0
    ensures ByteStep(c, b) == Xor(High(c), Shifted(Low(Xor(Low(c), b)), 1))
  {
    HighOfSum(c, b);
    hide Xor, High, Low, ByteShift;
    ByteShiftByTable(Xor(c, b));
    ShiftedOne(Low(Xor(c, b)));
  }

  lemma HighOfSum(c: bv32, b: bv32)
    requires b & 0xFFFF_FF00 == 0
    ensures High(Xor(c, b)) == High(c) && Low(Xor(c, b)) == Low(Xor(Low(c), b))
  {
  }

  function Index(w: bv32): (i: nat)
    ensures i < 256 && i as bv32 == Low(w)
  {
    Low(w) as nat
  }

  lemma NextSlice(i: bv32, k: nat)
    requires 1 <= k
    ensures Shifted(i, k + 1) == Xor(High(Shifted(i, k)), Shifted(Low(Shifted(i, k)), 1))
  {
    hide Xor, High, Low, ByteShift;
    ByteShiftByTable(Shifted(i, k));
    ShiftedOne(Low(Shifted(i, k)));
  }

  lemma ReflectedByte(i: bv32)
    requires i & 0xFFFF_FF00 == 0
    ensures Reversed((Reversed(i) >> 24) << 24) == i
  {
  }
}
