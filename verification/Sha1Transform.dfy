/** The SHA-1 block transform: eighty rounds over a circular schedule of sixteen words, with the
    working variables renamed instead of moved, against the eighty-word form of FIPS PUB 180-1. */
module Sha1Transform {
  import opened Bytes

  // ----- Specification: sections 3, 5, 6 and 7 of FIPS PUB 180-1 -----

  /** S^n of the standard: rotation to the left. */
  function Rol(x: bv32, n: bv6): bv32
    requires 1 <= n < 32
  {
    (x << n) | (x >> (32 - n))
  }

  // What a rotation means, for each distance by which the algorithm rotates: bit i comes to bit i + n modulo 32.

  lemma RolByOne(x: bv32, i: bv32)
    requires i < 32
    ensures (Rol(x, 1) >> ((i + 1) & 31)) & 1 == (x >> i) & 1
  {
  }

  lemma RolByFive(x: bv32, i: bv32)
    requires i < 32
    ensures (Rol(x, 5) >> ((i + 5) & 31)) & 1 == (x >> i) & 1
  {
  }

  lemma RolByThirty(x: bv32, i: bv32)
    requires i < 32
    ensures (Rol(x, 30) >> ((i + 30) & 31)) & 1 == (x >> i) & 1
  {
  }

  function Ch(b: bv32, c: bv32, d: bv32): bv32 { (b & c) | (!b & d) }
  function Parity(b: bv32, c: bv32, d: bv32): bv32 { b ^ c ^ d }
  function Maj(b: bv32, c: bv32, d: bv32): bv32 { (b & c) | (b & d) | (c & d) }

  function F(t: nat, b: bv32, c: bv32, d: bv32): bv32 {
    if t < 20 then Ch(b, c, d) else if 40 <= t < 60 then Maj(b, c, d) else Parity(b, c, d)
  }

  function K(t: nat): bv32 {
    if t < 20 then 0x5A82_7999 else if t < 40 then 0x6ED9_EBA1 else if t < 60 then 0x8F1B_BCDC else 0xCA62_C1D6
  }

  /** The `t`-th word of the schedule of the sixteen-word block `m`. */
  function W(m: seq<bv32>, t: nat): bv32
    requires |m| == 16
  {
    if t < 16 then m[t] else Rol(W(m, t - 3) ^ W(m, t - 8) ^ W(m, t - 14) ^ W(m, t - 16), 1)
  }

  datatype Regs = Regs(a: bv32, b: bv32, c: bv32, d: bv32, e: bv32)

  function Step(r: Regs, t: nat, w: bv32): Regs {
    Regs(Temp(r.a, F(t, r.b, r.c, r.d), r.e, w, K(t)), r.a, Rol(r.b, 30), r.c, r.d)
  }

  /** Addition modulo 2^32. */
  function Plus(x: bv32, y: bv32): bv32 { x + y }

  /** A sum counts up from its first summand, as often as the second one says. */
  lemma PlusCountsUp(x: bv32, y: bv32, next: bv32, sum: bv32)
    requires next == y + 1 && sum == Plus(x, y)
    ensures Plus(x, 0) == x && Plus(x, next) == sum + 1
  {
  }

  function Temp(a: bv32, f: bv32, e: bv32, w: bv32, k: bv32): bv32 {
    Plus(Plus(Plus(Plus(Rol(a, 5), f), e), w), k)
  }

  /** The registers after `t` rounds. */
  function Rounds(r: Regs, m: seq<bv32>, t: nat): Regs
    requires |m| == 16
  {
    if t == 0 then r else Step(Rounds(r, m, t - 1), t - 1, W(m, t - 1))
  }

  lemma RoundsZero(r: Regs, m: seq<bv32>)
    requires |m| == 16
    ensures Rounds(r, m, 0) == r
  {
  }

  function Add(x: Regs, y: Regs): Regs {
    Regs(Plus(x.a, y.a), Plus(x.b, y.b), Plus(x.c, y.c), Plus(x.d, y.d), Plus(x.e, y.e))
  }

  /** The chaining value after one block. */
  function Compress(h: Regs, m: seq<bv32>): Regs
    requires |m| == 16
  {
    Add(h, Rounds(h, m, 80))
  }

  /** The sixteen big-endian words of a block of 64 bytes. */
  function Words(block: seq<bv8>): (m: seq<bv32>)
    requires |block| == 64
    ensures |m| == 16
  {
    seq(16, i requires 0 <= i < 16 => Be32(block[4 * i], block[4 * i + 1], block[4 * i + 2], block[4 * i + 3]))
  }

  function Be32(b0: bv8, b1: bv8, b2: bv8, b3: bv8): bv32 {
    ((b0 as bv32) << 24) | ((b1 as bv32) << 16) | ((b2 as bv32) << 8) | (b3 as bv32)
  }

  // ----- The expressions of the round macros -----

  /** The word that SHABLK makes of four others. */
  function Mix(w13: bv32, w8: bv32, w2: bv32, w0: bv32): bv32 {
    Rol(w13 ^ w8 ^ w2 ^ w0, 1)
  }

  lemma MixedWord(m: seq<bv32>, t: nat)
    requires |m| == 16 && t >= 16
    ensures W(m, t) == Mix(W(m, t - 3), W(m, t - 8), W(m, t - 14), W(m, t - 16))
  {
    hide Rol;
  }

  /** The swap done when a word of the block is first used. */
  function Swap(w: bv32): bv32 {
    (Rol(w, 24) & 0xFF00_FF00) | (Rol(w, 8) & 0x00FF_00FF)
  }

  lemma SwapOfLe32(b0: bv8, b1: bv8, b2: bv8, b3: bv8)
    ensures Swap(Le32(b0, b1, b2, b3)) == Be32(b0, b1, b2, b3)
  {
  }

  function Choose(w: bv32, x: bv32, y: bv32): bv32 {
    (w & (x ^ y)) ^ y
  }

  function Majority(w: bv32, x: bv32, y: bv32): bv32 {
    ((w | x) & y) | (w & x)
  }

  lemma ChooseBits(w: bv32, x: bv32, y: bv32)
    ensures (w & (x ^ y)) ^ y == (w & x) | (!w & y)
  {
  }

  lemma ChooseIsCh(w: bv32, x: bv32, y: bv32)
    ensures Choose(w, x, y) == Ch(w, x, y)
  {
    ChooseBits(w, x, y);
  }

  lemma MajorityBits(w: bv32, x: bv32, y: bv32)
    ensures ((w | x) & y) | (w & x) == (w & x) | (w & y) | (x & y)
  {
  }

  lemma MajorityIsMaj(w: bv32, x: bv32, y: bv32)
    ensures Majority(w, x, y) == Maj(w, x, y)
  {
    MajorityBits(w, x, y);
  }

  lemma SumIsParity(w: bv32, x: bv32, y: bv32)
    ensures w ^ x ^ y == Parity(w, x, y)
  {
  }

  /** What a round macro adds to `z`. */
  function Increment(f: bv32, s: bv32, k: bv32, v: bv32): bv32 {
    Plus(Plus(Plus(f, s), k), Rol(v, 5))
  }

  lemma PlusCommutes(x: bv32, y: bv32)
    ensures Plus(x, y) == Plus(y, x)
  {
  }

  lemma PlusAssociates(x: bv32, y: bv32, z: bv32)
    ensures Plus(Plus(x, y), z) == Plus(x, Plus(y, z))
  {
    SumsAssociate(x, y, z, Plus(x, y), Plus(y, z));
  }

  lemma SumsAssociate(x: bv32, y: bv32, z: bv32, xy: bv32, yz: bv32)
    requires xy == x + y && yz == y + z
    ensures Plus(xy, z) == Plus(x, yz)
  {
  }

  lemma IncrementIsTemp(v: bv32, f: bv32, z: bv32, s: bv32, k: bv32)
    ensures Plus(z, Increment(f, s, k, v)) == Temp(v, f, z, s, k)
  {
    hide Plus, Rol;
    var r := Rol(v, 5);
    PlusCommutes(Plus(Plus(f, s), k), r);
    PlusAssociates(r, Plus(f, s), k);
    PlusAssociates(r, f, s);
    PlusAssociates(z, Plus(Plus(r, f), s), k);
    PlusAssociates(z, Plus(r, f), s);
    PlusCommutes(z, Plus(r, f));
  }

  /** One block in progress: the union of 64 bytes and sixteen words, used as a circular schedule. */
  class Workspace {
    const l: array<bv32>
    ghost const start: Regs
    ghost const words: seq<bv32>

    /** Before round `t` the array holds the last sixteen words of the schedule; words of the block
        not yet used are still in the byte order of memory. */
    ghost predicate Ready(t: nat)
      reads this, l
    {
      && l.Length == 16 && |words| == 16
      && (forall j :: 0 <= j < 16 && t <= j ==> Swap(l[j]) == words[j])
      && (forall j :: 0 <= j < t <= j + 16 ==> l[j % 16] == W(words, j))
    }

    constructor (ghost state: Regs, buffer: seq<bv8>)
      requires |buffer| == 64
      ensures fresh(l) && l.Length == 16 && start == state && words == Words(buffer) && Ready(0)
    {
      start, words := state, Words(buffer);
      l := new bv32[16];
      new;
      hide Le32, Be32, Swap, W;
      for i := 0 to 16
        invariant forall j :: 0 <= j < i ==> Swap(l[j]) == words[j]
      {
        SwapOfLe32(buffer[4 * i], buffer[4 * i + 1], buffer[4 * i + 2], buffer[4 * i + 3]);
        l[i] := Le32(buffer[4 * i], buffer[4 * i + 1], buffer[4 * i + 2], buffer[4 * i + 3]);
      }
    }

    /** SHABLK0: the word of a round below sixteen, swapped in place. */
    method FirstUse(i: nat) returns (w: bv32)
      requires i < 16 && Ready(i)
      modifies l
      ensures Ready(i + 1) && w == W(words, i)
    {
      hide Swap;
      l[i] := Swap(l[i]);
      w := l[i];
    }

    /** SHABLK: the word of a later round, over the one used sixteen rounds before. */
    method Extend(i: nat) returns (w: bv32)
      requires 16 <= i && Ready(i)
      modifies l
      ensures Ready(i + 1) && w == W(words, i)
    {
      hide Swap, Mix, W;
      Places(i);
      MixedWord(words, i);
      w := Mix(l[(i + 13) % 16], l[(i + 8) % 16], l[(i + 2) % 16], l[i % 16]);
      l[i % 16] := w;
    }

    /** The last sixteen words are in different places. */
    lemma Places(i: nat)
      requires i >= 16
      ensures (i + 13) % 16 == (i - 3) % 16 && (i + 8) % 16 == (i - 8) % 16
      ensures (i + 2) % 16 == (i - 14) % 16 && i % 16 == (i - 16) % 16
      ensures forall j :: i - 16 < j < i ==> j % 16 != i % 16
    {
    }

    ghost predicate At(t: nat, v: bv32, w: bv32, x: bv32, y: bv32, z: bv32)
      reads this
    {
      |words| == 16 && Regs(v, w, x, y, z) == Rounds(start, words, t)
    }

    method R0(v: bv32, w: bv32, x: bv32, y: bv32, z: bv32, i: nat) returns (z': bv32, w': bv32)
      requires i < 16 && Ready(i) && At(i, v, w, x, y, z)
      modifies l
      ensures Ready(i + 1) && At(i + 1, z', v, w', x, y)
    {
      hide W, Rol, Temp, Plus, Increment, Ch, Maj, Parity, Choose, Majority, Ready;
      var s := FirstUse(i);
      ChooseIsCh(w, x, y);
      IncrementIsTemp(v, Choose(w, x, y), z, s, 0x5A82_7999);
      z' := Plus(z, Increment(Choose(w, x, y), s, 0x5A82_7999, v));
      w' := Rol(w, 30);
    }

    method R1(v: bv32, w: bv32, x: bv32, y: bv32, z: bv32, i: nat) returns (z': bv32, w': bv32)
      requires 16 <= i < 20 && Ready(i) && At(i, v, w, x, y, z)
      modifies l
      ensures Ready(i + 1) && At(i + 1, z', v, w', x, y)
    {
      hide W, Rol, Temp, Plus, Increment, Ch, Maj, Parity, Choose, Majority, Ready;
      var s := Extend(i);
      ChooseIsCh(w, x, y);
      IncrementIsTemp(v, Choose(w, x, y), z, s, 0x5A82_7999);
      z' := Plus(z, Increment(Choose(w, x, y), s, 0x5A82_7999, v));
      w' := Rol(w, 30);
    }

    method R2(v: bv32, w: bv32, x: bv32, y: bv32, z: bv32, i: nat) returns (z': bv32, w': bv32)
      requires 20 <= i < 40 && Ready(i) && At(i, v, w, x, y, z)
      modifies l
      ensures Ready(i + 1) && At(i + 1, z', v, w', x, y)
    {
      hide W, Rol, Temp, Plus, Increment, Ch, Maj, Parity, Choose, Majority, Ready;
      var s := Extend(i);
      SumIsParity(w, x, y);
      IncrementIsTemp(v, w ^ x ^ y, z, s, 0x6ED9_EBA1);
      z' := Plus(z, Increment(w ^ x ^ y, s, 0x6ED9_EBA1, v));
      w' := Rol(w, 30);
    }

    method R3(v: bv32, w: bv32, x: bv32, y: bv32, z: bv32, i: nat) returns (z': bv32, w': bv32)
      requires 40 <= i < 60 && Ready(i) && At(i, v, w, x, y, z)
      modifies l
      ensures Ready(i + 1) && At(i + 1, z', v, w', x, y)
    {
      hide W, Rol, Temp, Plus, Increment, Ch, Maj, Parity, Choose, Majority, Ready;
      var s := Extend(i);
      MajorityIsMaj(w, x, y);
      IncrementIsTemp(v, Majority(w, x, y), z, s, 0x8F1B_BCDC);
      z' := Plus(z, Increment(Majority(w, x, y), s, 0x8F1B_BCDC, v));
      w' := Rol(w, 30);
    }

    method R4(v: bv32, w: bv32, x: bv32, y: bv32, z: bv32, i: nat) returns (z': bv32, w': bv32)
      requires 60 <= i < 80 && Ready(i) && At(i, v, w, x, y, z)
      modifies l
      ensures Ready(i + 1) && At(i + 1, z', v, w', x, y)
    {
      hide W, Rol, Temp, Plus, Increment, Ch, Maj, Parity, Choose, Majority, Ready;
      var s := Extend(i);
      SumIsParity(w, x, y);
      IncrementIsTemp(v, w ^ x ^ y, z, s, 0xCA62_C1D6);
      z' := Plus(z, Increment(w ^ x ^ y, s, 0xCA62_C1D6, v));
      w' := Rol(w, 30);
    }

    /** Rounds 0 to 19. */
    method Rounds1(a: bv32, b: bv32, c: bv32, d: bv32, e: bv32)
      returns (a': bv32, b': bv32, c': bv32, d': bv32, e': bv32)
      requires Ready(0) && At(0, a, b, c, d, e)
      modifies l
      ensures Ready(20) && At(20, a', b', c', d', e')
    {
      hide W, Ready, Rounds;
      a', b', c', d', e' := a, b, c, d, e;
      e', b' := R0(a', b', c', d', e', 0);
      d', a' := R0(e', a', b', c', d', 1);
      c', e' := R0(d', e', a', b', c', 2);
      b', d' := R0(c', d', e', a', b', 3);
      a', c' := R0(b', c', d', e', a', 4);
      e', b' := R0(a', b', c', d', e', 5);
      d', a' := R0(e', a', b', c', d', 6);
      c', e' := R0(d', e', a', b', c', 7);
      b', d' := R0(c', d', e', a', b', 8);
      a', c' := R0(b', c', d', e', a', 9);
      e', b' := R0(a', b', c', d', e', 10);
      d', a' := R0(e', a', b', c', d', 11);
      c', e' := R0(d', e', a', b', c', 12);
      b', d' := R0(c', d', e', a', b', 13);
      a', c' := R0(b', c', d', e', a', 14);
      e', b' := R0(a', b', c', d', e', 15);
      d', a' := R1(e', a', b', c', d', 16);
      c', e' := R1(d', e', a', b', c', 17);
      b', d' := R1(c', d', e', a', b', 18);
      a', c' := R1(b', c', d', e', a', 19);
    }

    /** Rounds 20 to 39. */
    method Rounds2(a: bv32, b: bv32, c: bv32, d: bv32, e: bv32)
      returns (a': bv32, b': bv32, c': bv32, d': bv32, e': bv32)
      requires Ready(20) && At(20, a, b, c, d, e)
      modifies l
      ensures Ready(40) && At(40, a', b', c', d', e')
    {
      hide W, Ready, Rounds;
      a', b', c', d', e' := a, b, c, d, e;
      e', b' := R2(a', b', c', d', e', 20);
      d', a' := R2(e', a', b', c', d', 21);
      c', e' := R2(d', e', a', b', c', 22);
      b', d' := R2(c', d', e', a', b', 23);
      a', c' := R2(b', c', d', e', a', 24);
      e', b' := R2(a', b', c', d', e', 25);
      d', a' := R2(e', a', b', c', d', 26);
      c', e' := R2(d', e', a', b', c', 27);
      b', d' := R2(c', d', e', a', b', 28);
      a', c' := R2(b', c', d', e', a', 29);
      e', b' := R2(a', b', c', d', e', 30);
      d', a' := R2(e', a', b', c', d', 31);
      c', e' := R2(d', e', a', b', c', 32);
      b', d' := R2(c', d', e', a', b', 33);
      a', c' := R2(b', c', d', e', a', 34);
      e', b' := R2(a', b', c', d', e', 35);
      d', a' := R2(e', a', b', c', d', 36);
      c', e' := R2(d', e', a', b', c', 37);
      b', d' := R2(c', d', e', a', b', 38);
      a', c' := R2(b', c', d', e', a', 39);
    }

    /** Rounds 40 to 59. */
    method Rounds3(a: bv32, b: bv32, c: bv32, d: bv32, e: bv32)
      returns (a': bv32, b': bv32, c': bv32, d': bv32, e': bv32)
      requires Ready(40) && At(40, a, b, c, d, e)
      modifies l
      ensures Ready(60) && At(60, a', b', c', d', e')
    {
      hide W, Ready, Rounds;
      a', b', c', d', e' := a, b, c, d, e;
      e', b' := R3(a', b', c', d', e', 40);
      d', a' := R3(e', a', b', c', d', 41);
      c', e' := R3(d', e', a', b', c', 42);
      b', d' := R3(c', d', e', a', b', 43);
      a', c' := R3(b', c', d', e', a', 44);
      e', b' := R3(a', b', c', d', e', 45);
      d', a' := R3(e', a', b', c', d', 46);
      c', e' := R3(d', e', a', b', c', 47);
      b', d' := R3(c', d', e', a', b', 48);
      a', c' := R3(b', c', d', e', a', 49);
      e', b' := R3(a', b', c', d', e', 50);
      d', a' := R3(e', a', b', c', d', 51);
      c', e' := R3(d', e', a', b', c', 52);
      b', d' := R3(c', d', e', a', b', 53);
      a', c' := R3(b', c', d', e', a', 54);
      e', b' := R3(a', b', c', d', e', 55);
      d', a' := R3(e', a', b', c', d', 56);
      c', e' := R3(d', e', a', b', c', 57);
      b', d' := R3(c', d', e', a', b', 58);
      a', c' := R3(b', c', d', e', a', 59);
    }

    /** Rounds 60 to 79. */
    method Rounds4(a: bv32, b: bv32, c: bv32, d: bv32, e: bv32)
      returns (a': bv32, b': bv32, c': bv32, d': bv32, e': bv32)
      requires Ready(60) && At(60, a, b, c, d, e)
      modifies l
      ensures Ready(80) && At(80, a', b', c', d', e')
    {
      hide W, Ready, Rounds;
      a', b', c', d', e' := a, b, c, d, e;
      e', b' := R4(a', b', c', d', e', 60);
      d', a' := R4(e', a', b', c', d', 61);
      c', e' := R4(d', e', a', b', c', 62);
      b', d' := R4(c', d', e', a', b', 63);
      a', c' := R4(b', c', d', e', a', 64);
      e', b' := R4(a', b', c', d', e', 65);
      d', a' := R4(e', a', b', c', d', 66);
      c', e' := R4(d', e', a', b', c', 67);
      b', d' := R4(c', d', e', a', b', 68);
      a', c' := R4(b', c', d', e', a', 69);
      e', b' := R4(a', b', c', d', e', 70);
      d', a' := R4(e', a', b', c', d', 71);
      c', e' := R4(d', e', a', b', c', 72);
      b', d' := R4(c', d', e', a', b', 73);
      a', c' := R4(b', c', d', e', a', 74);
      e', b' := R4(a', b', c', d', e', 75);
      d', a' := R4(e', a', b', c', d', 76);
      c', e' := R4(d', e', a', b', c', 77);
      b', d' := R4(c', d', e', a', b', 78);
      a', c' := R4(b', c', d', e', a', 79);
    }
  }

  /** Updates the five chaining words with one block of 64 bytes. */
  method Transform(state: array<bv32>, buffer: seq<bv8>)
    requires state.Length == 5 && |buffer| == 64
    modifies state
    ensures AsRegs(state[..]) == Compress(old(AsRegs(state[..])), Words(buffer))
  {
    ghost var h := AsRegs(state[..]);
    var block := new Workspace(h, buffer);
    RoundsZero(h, Words(buffer));
    hide Words, Rounds, Add;
    var a, b, c, d, e := block.Rounds1(state[0], state[1], state[2], state[3], state[4]);
    a, b, c, d, e := block.Rounds2(a, b, c, d, e);
    a, b, c, d, e := block.Rounds3(a, b, c, d, e);
    a, b, c, d, e := block.Rounds4(a, b, c, d, e);
    AddInto(state, Regs(a, b, c, d, e));
  }

  /** Adds the working variables back into the chaining words. */
  method AddInto(state: array<bv32>, r: Regs)
    requires state.Length == 5
    modifies state
    ensures AsRegs(state[..]) == Add(old(AsRegs(state[..])), r)
  {
    hide Plus;
    state[0] := Plus(state[0], r.a);
    state[1] := Plus(state[1], r.b);
    state[2] := Plus(state[2], r.c);
    state[3] := Plus(state[3], r.d);
    state[4] := Plus(state[4], r.e);
  }

  function AsRegs(s: seq<bv32>): Regs
    requires |s| == 5
  {
    Regs(s[0], s[1], s[2], s[3], s[4])
  }
}
