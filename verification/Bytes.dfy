/** Little-endian numbers in byte strings. */
module Bytes {

  /** How many values a word of 32 bits has, and one of 64 bits. */
  const DWORD := 0x1_0000_0000
  const QWORD := DWORD * DWORD

  /** The byte whose value is `x`, counted up from zero. */
  function ToByte(x: nat): (b: bv8)
    requires x < 0x100
    ensures b as nat == x
  {
    if x == 0 then 0 else ToByte(x - 1) + 1
  }

  /** The lowest eight bits of `n`. */
  function Octet(n: nat): (b: bv8)
    ensures b as nat == n % 0x100
  {
    ToByte(n % 0x100)
  }

  function Zeros(n: nat): (s: seq<bv8>)
    ensures |s| == n
  {
    seq(n, _ => 0)
  }

  /** The word that four bytes are in memory, lowest byte first. */
  function Le32(b0: bv8, b1: bv8, b2: bv8, b3: bv8): bv32 {
    (b0 as bv32) | ((b1 as bv32) << 8) | ((b2 as bv32) << 16) | ((b3 as bv32) << 24)
  }

  /** 256 to the power `k`. */
  function Range(k: nat): (r: nat)
    ensures r >= 1
  {
    if k == 0 then 1 else 0x100 * Range(k - 1)
  }

  /** The low `k` bytes of `n`, lowest first. */
  function Le(n: nat, k: nat): (s: seq<bv8>)
    ensures |s| == k
  {
    if k == 0 then [] else [Octet(n)] + Le(n / 0x100, k - 1)
  }

  function FromLe(s: seq<bv8>): nat {
    if s == [] then 0 else s[0] as nat + 0x100 * FromLe(s[1..])
  }

  lemma {:induction false} LeRoundTrip(n: nat, k: nat)
    requires n < Range(k)
    ensures FromLe(Le(n, k)) == n
    decreases k
  {
    hide Octet;
    if k > 0 {
      LeRoundTrip(n / 0x100, k - 1);
      assert Le(n, k)[1..] == Le(n / 0x100, k - 1);
    }
  }

  lemma {:induction false} FromLeIsSmall(s: seq<bv8>)
    ensures FromLe(s) < Range(|s|)
  {
    if s != [] {
      FromLeIsSmall(s[1..]);
    }
  }

  /** What a number was read from is its bytes. */
  lemma {:induction false} LeOfBytes(s: seq<bv8>)
    ensures Le(FromLe(s), |s|) == s
  {
    hide Octet;
    if s != [] {
      LeOfBytes(s[1..]);
      OctetOfSum(s[0], FromLe(s[1..]));
      assert s == [s[0]] + s[1..];
    }
  }

  lemma OctetOfSum(b: bv8, n: nat)
    ensures Octet(b as nat + 0x100 * n) == b && (b as nat + 0x100 * n) / 0x100 == n
  {
    hide Octet;
    LowPart(b as nat, n);
    SameOctet(Octet(b as nat + 0x100 * n), b);
  }

  lemma LowPart(low: nat, n: nat)
    requires low < 0x100
    ensures (low + 0x100 * n) % 0x100 == low && (low + 0x100 * n) / 0x100 == n
  {
  }

  lemma SameOctet(a: bv8, b: bv8)
    requires a as nat == b as nat
    ensures a == b
  {
  }

  /** The words read at a position are written there. */
  lemma {:induction false} DwordsThere(s: seq<bv8>, at: nat, ws: seq<nat>)
    requires at + 4 * |ws| <= |s| && forall i :: 0 <= i < |ws| ==> DwordAt(s, at + 4 * i) == ws[i]
    ensures s[at..at + 4 * |ws|] == Dwords(ws)
    decreases |ws|
  {
    hide Le, FromLe;
    if ws != [] {
      LeOfBytes(s[at..at + 4]);
      assert DwordAt(s, at + 4 * 0) == ws[0];
      forall i | 0 <= i < |ws| - 1 ensures DwordAt(s, at + 4 + 4 * i) == ws[1..][i] {
        assert DwordAt(s, at + 4 * (i + 1)) == ws[i + 1];
      }
      DwordsThere(s, at + 4, ws[1..]);
      assert s[at..at + 4 * |ws|] == s[at..at + 4] + s[at + 4..at + 4 * |ws|];
    }
  }

  lemma PrefixOfSlice<T>(s: seq<T>, start: nat, end: nat, n: nat)
    requires start <= end <= |s| && n <= end - start
    ensures s[start..end][..n] == s[start..start + n]
  {
  }

  lemma Ranges()
    ensures Range(1) == 0x100 && Range(2) == 0x1_0000 && Range(4) == 0x1_0000_0000
    ensures Range(8) == 0x1_0000_0000_0000_0000
  {
    assert Range(2) == 0x100 * Range(1);
    assert Range(3) == 0x100 * Range(2);
    assert Range(4) == 0x100 * Range(3);
    assert Range(5) == 0x100 * Range(4);
    assert Range(6) == 0x100 * Range(5);
    assert Range(7) == 0x100 * Range(6);
    assert Range(8) == 0x100 * Range(7);
  }

  lemma Le16RoundTrip(n: nat)
    requires n < 0x1_0000
    ensures FromLe(Le(n, 2)) == n
  {
    Ranges();
    LeRoundTrip(n, 2);
  }

  lemma Le32RoundTrip(n: nat)
    requires n < 0x1_0000_0000
    ensures FromLe(Le(n, 4)) == n
  {
    Ranges();
    LeRoundTrip(n, 4);
  }

  lemma Le64RoundTrip(n: nat)
    requires n < 0x1_0000_0000_0000_0000
    ensures FromLe(Le(n, 8)) == n
  {
    Ranges();
    LeRoundTrip(n, 8);
  }

  /** Words of four bytes in a row. */
  function Dwords(ws: seq<nat>): (s: seq<bv8>)
    ensures |s| == 4 * |ws|
  {
    if ws == [] then [] else Le(ws[0], 4) + Dwords(ws[1..])
  }

  /** The word at position `at`. */
  function DwordAt(s: seq<bv8>, at: nat): nat
    requires at + 4 <= |s|
  {
    FromLe(s[at..at + 4])
  }

  lemma {:induction false} DwordsAt(ws: seq<nat>, i: nat)
    requires i < |ws|
    ensures Dwords(ws)[4 * i..4 * i + 4] == Le(ws[i], 4)
  {
    if i > 0 {
      DwordsAt(ws[1..], i - 1);
      SliceBehind(Le(ws[0], 4), Dwords(ws[1..]), 4 * (i - 1), 4);
    }
  }

  lemma SliceBehind(before: seq<bv8>, s: seq<bv8>, i: nat, n: nat)
    requires i + n <= |s|
    ensures (before + s)[|before| + i..|before| + i + n] == s[i..i + n]
  {
  }

  lemma SliceInside(before: seq<bv8>, middle: seq<bv8>, after: seq<bv8>, i: nat, n: nat)
    requires i + n <= |middle|
    ensures (before + middle + after)[|before| + i..|before| + i + n] == middle[i..i + n]
  {
  }

  /** A word written behind `before` is read back. */
  lemma DwordReadBack(before: seq<bv8>, ws: seq<nat>, after: seq<bv8>, i: nat)
    requires i < |ws| && ws[i] < 0x1_0000_0000
    ensures DwordAt(before + Dwords(ws) + after, |before| + 4 * i) == ws[i]
  {
    hide Dwords, Le, FromLe;
    DwordsAt(ws, i);
    Le32RoundTrip(ws[i]);
    SliceInside(before, Dwords(ws), after, 4 * i, 4);
  }
}
