/** Streaming SHA-1: bytes arrive in pieces, whole blocks are folded as they fill, and the end is
    padded. The digest depends only on the concatenation of the pieces. */
module Sha1 {
  import opened Bytes
  import opened Sha1Transform

  // ----- Specification: sections 4 and 7 of FIPS PUB 180-1 -----

  const INITIAL := Regs(0x6745_2301, 0xEFCD_AB89, 0x98BA_DCFE, 0x1032_5476, 0xC3D2_E1F0)

  /** The chaining value after all blocks of `data`. */
  ghost function FoldBlocks(data: seq<bv8>): Regs
    requires |data| % 64 == 0
  {
    if data == [] then INITIAL
    else Compress(FoldBlocks(data[..|data| - 64]), Words(data[|data| - 64..]))
  }

  /** `n` modulo 2^64 as eight bytes, highest first. */
  function LengthBytes(n: nat): (s: seq<bv8>)
    ensures |s| == 8
  {
    [Octet(n / 0x100_0000_0000_0000), Octet(n / 0x1_0000_0000_0000), Octet(n / 0x100_0000_0000),
      Octet(n / 0x1_0000_0000),
     Octet(n / 0x100_0000), Octet(n / 0x1_0000), Octet(n / 0x100), Octet(n)]
  }

  /** How many zero bytes bring `n` bytes, a marker byte and eight bytes of length to a full block. */
  function PadZeros(n: nat): (z: nat)
    ensures z < 64 && (n + 1 + z + 8) % 64 == 0
  {
    if n % 64 <= 55 then 55 - n % 64 else 119 - n % 64
  }

  /** The padding loop stops at exactly the number of zeros the standard asks for. */
  lemma LastZero(n: nat, z: nat)
    requires z <= PadZeros(n)
    ensures (n + 1 + z) % 64 == 56 <==> z == PadZeros(n)
  {
  }

  /** The message, a one bit, zeros up to eight bytes short of a block, and the length in bits. */
  function Pad(message: seq<bv8>): (p: seq<bv8>)
    ensures |p| % 64 == 0
  {
    message + [0x80] + Zeros(PadZeros(|message|)) + LengthBytes(8 * |message|)
  }

  function WordBytes(w: bv32): (s: seq<bv8>)
    ensures |s| == 4
  {
    [(w >> 24) as bv8, ((w >> 16) & 0xFF) as bv8, ((w >> 8) & 0xFF) as bv8, (w & 0xFF) as bv8]
  }

  function RegsBytes(r: Regs): (s: seq<bv8>)
    ensures |s| == 20
  {
    WordBytes(r.a) + WordBytes(r.b) + WordBytes(r.c) + WordBytes(r.d) + WordBytes(r.e)
  }

  /** The bytes of a word, highest first, are that word. */
  lemma WordOfBytes(w: bv32)
    ensures var s := WordBytes(w); Be32(s[0], s[1], s[2], s[3]) == w
  {
  }

  function RegAt(r: Regs, i: nat): bv32
    requires i < 5
  {
    if i == 0 then r.a else if i == 1 then r.b else if i == 2 then r.c else if i == 3 then r.d else r.e
  }

  /** Four bytes of a digest, read with the highest first, are a word of the chaining value. */
  lemma DigestWord(r: Regs, i: nat)
    requires i < 5
    ensures var d := RegsBytes(r); Be32(d[4 * i], d[4 * i + 1], d[4 * i + 2], d[4 * i + 3]) == RegAt(r, i)
  {
    hide WordBytes, Be32, RegsBytes;
    WordOfBytes(RegAt(r, i));
    RegsByte(r, i, 0);
    RegsByte(r, i, 1);
    RegsByte(r, i, 2);
    RegsByte(r, i, 3);
  }

  lemma RegsByte(r: Regs, i: nat, k: nat)
    requires i < 5 && k < 4
    ensures RegsBytes(r)[4 * i + k] == WordBytes(RegAt(r, i))[k]
  {
    hide WordBytes;
    if i == 0 { } else if i == 1 { } else if i == 2 { } else if i == 3 { } else { }
  }

  lemma DigestByte(s: seq<bv32>, k: nat)
    requires |s| == 5 && k < 20
    ensures RegsBytes(AsRegs(s))[k] == WordBytes(s[k / 4])[k % 4]
  {
    hide WordBytes;
    if k < 4 { } else if k < 8 { } else if k < 12 { } else if k < 16 { } else { }
  }

  ghost function Digest(message: seq<bv8>): seq<bv8> {
    RegsBytes(FoldBlocks(Pad(message)))
  }

  // ----- The two-word bit counter -----

  /** The low counter word after `len` more bytes. */
  function LowAfter(low: nat, len: nat): nat {
    (low + 8 * len % DWORD) % DWORD
  }

  /** The high counter word: it takes the carry of the low word and the bits shifted out of `8 * len`. */
  function HighAfter(low: nat, high: nat, len: nat): nat {
    var carried := if LowAfter(low, len) < 8 * len % DWORD then (high + 1) % DWORD else high;
    (carried + len / 0x2000_0000) % DWORD
  }

  lemma CounterAdvances(n: nat, len: nat, low: nat, high: nat)
    requires low == 8 * n % DWORD && high == 8 * n / DWORD % DWORD
    ensures LowAfter(low, len) == 8 * (n + len) % DWORD
    ensures HighAfter(low, high, len) == 8 * (n + len) / DWORD % DWORD
  {
    LowWordAdvances(n, len, 8 * len % DWORD, LowAfter(low, len));
    ModSum(8 * n / DWORD, if LowAfter(low, len) < 8 * len % DWORD then 1 else 0, len / 0x2000_0000);
  }

  lemma LowWordAdvances(n: nat, len: nat, added: nat, low: nat)
    requires added == 8 * len % DWORD && low == (8 * n % DWORD + added) % DWORD
    ensures low == 8 * (n + len) % DWORD
    ensures 8 * n / DWORD + (if low < added then 1 else 0) + len / 0x2000_0000 == 8 * (n + len) / DWORD
  {
    EightTimes(len);
    CarrySplit(8 * n / DWORD, 8 * n % DWORD, len / 0x2000_0000, added, 8 * (n + len));
  }

  lemma EightTimes(len: nat)
    ensures 8 * len == DWORD * (len / 0x2000_0000) + 8 * len % DWORD
  {
  }

  /** The sum of two numbers given by their words carries exactly when its low word is less than a summand. */
  lemma CarrySplit(high: nat, low: nat, addedHigh: nat, added: nat, sum: nat)
    requires low < DWORD && added < DWORD && sum == DWORD * high + low + (DWORD * addedHigh + added)
    ensures sum % DWORD == (low + added) % DWORD
    ensures sum / DWORD == high + addedHigh + if (low + added) % DWORD < added then 1 else 0
  {
    if low + added >= DWORD {
      assert sum == DWORD * (high + addedHigh + 1) + (low + added - DWORD);
    } else {
      assert sum == DWORD * (high + addedHigh) + (low + added);
    }
  }

  lemma ModSum(a: nat, c: nat, x: nat)
    requires c <= 1
    ensures ((if c == 1 then (a % DWORD + 1) % DWORD else a % DWORD) + x) % DWORD == (a + c + x) % DWORD
  {
  }

  lemma CounterGivesFill(n: nat)
    ensures 8 * n % DWORD / 8 % 64 == n % 64 && (n - n % 64) % 64 == 0
  {
    assert 8 * n % DWORD == 8 * (n % 0x2000_0000);
  }

  function WordOctets(n: nat): seq<bv8> {
    [Octet(n / 0x100_0000), Octet(n / 0x1_0000), Octet(n / 0x100), Octet(n)]
  }

  lemma OctetIgnoresMultiples(n: nat, q: nat)
    ensures Octet(n + 0x100 * q) == Octet(n)
  {
    assert (n + 0x100 * q) % 0x100 == n % 0x100;
  }

  lemma WordOctetsOf(n: nat, q: nat, w: nat)
    requires n == DWORD * q + w
    ensures WordOctets(n) == WordOctets(w)
  {
    hide Octet;
    assert n / 0x100_0000 == w / 0x100_0000 + 0x100 * q;
    assert n / 0x1_0000 == w / 0x1_0000 + 0x100 * (0x100 * q);
    assert n / 0x100 == w / 0x100 + 0x100 * (0x1_0000 * q);
    assert n == w + 0x100 * (0x100_0000 * q);
    OctetIgnoresMultiples(w / 0x100_0000, q);
    OctetIgnoresMultiples(w / 0x1_0000, 0x100 * q);
    OctetIgnoresMultiples(w / 0x100, 0x1_0000 * q);
    OctetIgnoresMultiples(w, 0x100_0000 * q);
  }

  /** The counter's two words, high word first, are the eight bytes of the bit length. */
  lemma CounterGivesLength(n: nat, low: nat, high: nat)
    requires low == 8 * n % DWORD && high == 8 * n / DWORD % DWORD
    ensures WordOctets(high) + WordOctets(low) == LengthBytes(8 * n)
  {
    hide Octet;
    var bits := 8 * n;
    var top := bits / DWORD;
    WordOctetsOf(bits, top, low);
    WordOctetsOf(top, top / DWORD, high);
    assert top / 0x100_0000 == bits / 0x100_0000_0000_0000 && top / 0x1_0000 == bits / 0x1_0000_0000_0000;
    assert top / 0x100 == bits / 0x100_0000_0000;
  }

  lemma FoldOneMore(data: seq<bv8>, block: seq<bv8>)
    requires |data| % 64 == 0 && |block| == 64
    ensures FoldBlocks(data + block) == Compress(FoldBlocks(data), Words(block))
  {
    hide Compress;
    assert (data + block)[..|data|] == data && (data + block)[|data|..] == block;
  }

  // ----- The object -----

  class Hasher {
    const state: array<bv32>
    var countLow: nat
    var countHigh: nat
    const buffer: array<bv8>
    const digest: array<bv8>
    ghost var message: seq<bv8>

    ghost predicate Shaped() {
      state.Length == 5 && buffer.Length == 64 && digest.Length == 20 && buffer != digest
    }

    /** The full blocks of the message are folded into the state, its tail is in the buffer, and the
        two counter words are its length in bits modulo 2^64. */
    ghost predicate Valid()
      reads this, state, buffer
    {
      var tail := |message| % 64;
      && Shaped()
      && countLow == 8 * |message| % DWORD && countHigh == 8 * |message| / DWORD % DWORD
      && AsRegs(state[..]) == FoldBlocks(message[..|message| - tail])
      && buffer[..tail] == message[|message| - tail..]
    }

    constructor ()
      ensures Valid() && message == [] && fresh(state) && fresh(buffer) && fresh(digest)
    {
      state := new bv32[5];
      buffer := new bv8[64];
      digest := new bv8[20];
      new;
      Reset();
    }

    method Reset()
      requires Shaped()
      modifies this, state
      ensures Valid() && message == []
    {
      state[0] := 0x6745_2301;
      state[1] := 0xEFCD_AB89;
      state[2] := 0x98BA_DCFE;
      state[3] := 0x1032_5476;
      state[4] := 0xC3D2_E1F0;
      countLow, countHigh := 0, 0;
      message := [];
    }

    method Update(data: seq<bv8>)
      requires Valid() && |message| % 64 + |data| < DWORD
      modifies this, state, buffer
      ensures Valid() && message == old(message) + data
    {
      hide Compress, Words, FoldBlocks, Valid;
      Opened();
      CounterGivesFill(|message|);
      var j := countLow / 8 % 64;
      AdvanceCounter(|data|);
      ghost var full := |message| - j;
      SliceAcross(message, data, full);
      var i := 0;
      if j + |data| > 63 {
        i := FillBlock(j, data);
        j, full := 0, |message| + i;
      }
      Store(j, data[i..]);
      message := message + data;
      Reached(full);
    }

    /** Completes the block in the buffer, then folds whole blocks straight from the data. */
    method FillBlock(j: nat, data: seq<bv8>) returns (i: nat)
      requires Shaped() && j == |message| % 64 && j + |data| > 63
      requires AsRegs(state[..]) == FoldBlocks(message[..|message| - j]) && buffer[..j] == message[|message| - j..]
      modifies state, buffer
      ensures 64 - j <= i <= |data| < i + 64 && (|message| + i) % 64 == 0
      ensures AsRegs(state[..]) == FoldBlocks((message + data)[..|message| + i])
    {
      hide Compress, Words, FoldBlocks;
      ghost var all, full := message + data, |message| - j;
      SliceAcross(message, data, full);
      i := 64 - j;
      Store(j, data[..i]);
      assert buffer[..] == message[full..] + data[..i] == all[full..full + 64];
      Transform(state, buffer[..]);
      FoldNext(all, full);
      i := TransformBlocks(data, i, all);
    }

    /** Pads the message, leaves its digest, and wipes the rest. */
    method Final()
      requires Valid()
      modifies this, state, buffer, digest
      ensures digest[..] == Digest(old(message))
      ensures forall i :: 0 <= i < 5 ==>
        Be32(digest[4 * i], digest[4 * i + 1], digest[4 * i + 2], digest[4 * i + 3]) ==
        RegAt(FoldBlocks(Pad(old(message))), i)
      ensures countLow == 0 && countHigh == 0 && buffer[..] == Zeros(64)
      ensures AsRegs(state[..]) == Compress(Regs(0, 0, 0, 0, 0), Words(Zeros(64)))
    {
      hide Compress, Words, FoldBlocks, RegsBytes, WordOctets, LengthBytes, Be32, RegAt;
      AppendPadding();
      StoreDigest();
      assert message[..|message|] == message;
      DigestWords(FoldBlocks(message));
      forall k | 0 <= k < 64 { buffer[k] := 0; }
      forall k | 0 <= k < 5 { state[k] := 0; }
      countLow, countHigh := 0, 0;
      assert buffer[..] == Zeros(64);
      Transform(state, buffer[..]);
    }

    method AppendPadding()
      requires Valid()
      modifies this, state, buffer
      ensures Valid() && message == Pad(old(message))
    {
      hide Compress, Words, FoldBlocks, RegsBytes, WordOctets, LengthBytes, Valid, Shaped;
      Opened();
      ghost var original := message;
      var finalCount := WordOctets(countHigh) + WordOctets(countLow);
      CounterGivesLength(|message|, countLow, countHigh);
      Update([0x80]);
      Opened();
      ghost var z := 0;
      while countLow / 8 % 64 != 56
        invariant Valid() && countLow == 8 * |message| % DWORD
        invariant z <= PadZeros(|original|) && message == original + [0x80] + Zeros(z)
        decreases PadZeros(|original|) - z
      {
        CounterGivesFill(|message|);
        LastZero(|original|, z);
        assert Zeros(z) + [0] == Zeros(z + 1);
        Update([0]);
        Opened();
        z := z + 1;
      }
      CounterGivesFill(|message|);
      LastZero(|original|, z);
      Update(finalCount);
    }

    lemma DigestWords(r: Regs)
      requires Shaped() && digest[..] == RegsBytes(r)
      ensures forall i :: 0 <= i < 5 ==>
        Be32(digest[4 * i], digest[4 * i + 1], digest[4 * i + 2], digest[4 * i + 3]) == RegAt(r, i)
    {
      hide RegsBytes, Be32, RegAt;
      var d := digest[..];
      forall i: nat | i < 5
        ensures Be32(digest[4 * i], digest[4 * i + 1], digest[4 * i + 2], digest[4 * i + 3]) == RegAt(r, i)
      {
        DigestWord(r, i);
        assert d[4 * i] == digest[4 * i] && d[4 * i + 1] == digest[4 * i + 1];
        assert d[4 * i + 2] == digest[4 * i + 2] && d[4 * i + 3] == digest[4 * i + 3];
      }
    }

    method StoreDigest()
      requires Shaped()
      modifies digest
      ensures digest[..] == RegsBytes(AsRegs(state[..]))
    {
      hide WordBytes, RegsBytes;
      for i := 0 to 20
        invariant forall k :: 0 <= k < i ==> digest[k] == RegsBytes(AsRegs(state[..]))[k]
      {
        DigestByte(state[..], i);
        digest[i] := WordBytes(state[i / 4])[i % 4];
      }
    }

    lemma Opened()
      requires Valid()
      ensures var tail := |message| % 64;
        && countLow == 8 * |message| % DWORD && countHigh == 8 * |message| / DWORD % DWORD && Shaped()
        && AsRegs(state[..]) == FoldBlocks(message[..|message| - tail]) && buffer[..tail] == message[|message| - tail..]
    {
      hide FoldBlocks;
    }

    lemma Reached(full: nat)
      requires Shaped() && full <= |message| < full + 64 && full % 64 == 0
      requires countLow == 8 * |message| % DWORD && countHigh == 8 * |message| / DWORD % DWORD
      requires AsRegs(state[..]) == FoldBlocks(message[..full]) && buffer[..|message| - full] == message[full..]
      ensures Valid()
    {
      hide Compress, FoldBlocks;
      assert |message| - |message| % 64 == full;
    }

    lemma SliceAcross(m: seq<bv8>, d: seq<bv8>, from: nat)
      requires from <= |m|
      ensures (m + d)[from..] == m[from..] + d && (m + d)[..from] == m[..from]
    {
    }

    method AdvanceCounter(len: nat)
      requires countLow == 8 * |message| % DWORD && countHigh == 8 * |message| / DWORD % DWORD
      modifies this`countLow, this`countHigh
      ensures countLow == 8 * (|message| + len) % DWORD && countHigh == 8 * (|message| + len) / DWORD % DWORD
    {
      CounterAdvances(|message|, len, countLow, countHigh);
      hide LowAfter, HighAfter;
      countLow, countHigh := LowAfter(countLow, len), HighAfter(countLow, countHigh, len);
    }

    /** Folds the whole blocks of `data` from `from` on straight into the state. */
    method TransformBlocks(data: seq<bv8>, from: nat, ghost all: seq<bv8>) returns (i: nat)
      requires Shaped() && from <= |data| && all == message + data && (|message| + from) % 64 == 0
      requires AsRegs(state[..]) == FoldBlocks(all[..|message| + from])
      modifies state
      ensures from <= i <= |data| < i + 64 && (|message| + i) % 64 == 0
      ensures AsRegs(state[..]) == FoldBlocks(all[..|message| + i])
    {
      hide Compress, Words, FoldBlocks, AsRegs;
      i := from;
      ghost var full := |message| + from;
      while i + 63 < |data|
        invariant from <= i <= |data| && full == |message| + i && full % 64 == 0
        invariant AsRegs(state[..]) == FoldBlocks(all[..full])
      {
        PieceOfAll(message, data, i);
        Transform(state, data[i..i + 64]);
        FoldNext(all, full);
        i := i + 64;
        full := full + 64;
      }
    }

    lemma PieceOfAll(m: seq<bv8>, d: seq<bv8>, i: nat)
      requires i + 64 <= |d|
      ensures (m + d)[|m| + i..|m| + i + 64] == d[i..i + 64]
    {
    }

    lemma FoldNext(all: seq<bv8>, full: nat)
      requires full % 64 == 0 && full + 64 <= |all|
      ensures FoldBlocks(all[..full + 64]) == Compress(FoldBlocks(all[..full]), Words(all[full..full + 64]))
    {
      hide Compress, Words, FoldBlocks;
      assert all[..full + 64] == all[..full] + all[full..full + 64];
      FoldOneMore(all[..full], all[full..full + 64]);
    }

    /** Copies `data` into the buffer at `at`. */
    method Store(at: nat, data: seq<bv8>)
      requires at + |data| <= buffer.Length
      modifies buffer
      ensures buffer[..at + |data|] == old(buffer[..at]) + data
    {
      forall k | 0 <= k < |data| {
        buffer[at + k] := data[k];
      }
    }
  }
}
