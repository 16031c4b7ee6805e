/** What a mirror leaves on disk when it is closed, and how a stream is opened from that. */
module MirrorFile {
  import opened Bytes
  import opened Bitmap
  import opened Division
  import opened Mirror

  const DEFAULT_BLOCK_SIZE := 0x4000
  const DEFAULT_BUILD_NUMBER := 10958
  const SIGNATURE := 0x33767470
  const FOOTER_VERSION := 3
  const FOOTER_SIZE := 24
  const PART_VERSION := 2
  const BUILD_TEXT_SIZE := 32

  /** `Undefined` is a division by a zero block size, or a map larger than the room allotted for it. */
  datatype Loaded =
    | NotLoaded
    | Undefined
    | Bits(build: nat, streamSize: nat, blockSize: nat, bits: seq<bv8>, isComplete: bool)
    | Map(build: nat, streamSize: nat, blockSize: nat, entries: seq<MapEntry>, isComplete: bool)

  // ----- The bitmap behind a flat mirror -----

  /** All blocks are marked, and nothing else is. */
  predicate AllSet(bits: seq<bv8>, count: nat)
    requires (count + 7) / 8 <= |bits|
  {
    forall b :: 0 <= b < (count + 7) / 8 * 8 ==> (BitSet(bits, b) <==> b < count)
  }

  method CheckFlat(bits: seq<bv8>, count: nat) returns (complete: bool)
    requires (count + 7) / 8 <= |bits|
    ensures complete <==> AllSet(bits, count)
  {
    hide HasBit, LowBits;
    var wholeBytes, extraBits := count / 8, count % 8;
    var i := 0;
    while i < wholeBytes
      invariant 0 <= i <= wholeBytes
      invariant forall b :: 0 <= b < 8 * i ==> BitSet(bits, b)
    {
      FullByte(bits[i]);
      if bits[i] != 0xFF {
        var k: nat :| k < 8 && !HasBit(bits[i], k);
        assert !BitSet(bits, 8 * i + k);
        return false;
      }
      i := i + 1;
    }
    if extraBits != 0 {
      LastByte(bits[wholeBytes], extraBits);
      if bits[wholeBytes] != LowBits(extraBits) {
        var k: nat :| k < 8 && (HasBit(bits[wholeBytes], k) <==> k >= extraBits);
        assert BitSet(bits, 8 * wholeBytes + k) <==> k >= extraBits;
        return false;
      }
    }
    complete := true;
  }

  lemma FullByte(byte: bv8)
    ensures byte == 0xFF <==> forall k :: 0 <= k < 8 ==> HasBit(byte, k)
  {
    hide HasBit, LowBits;
    forall k | 0 <= k < 8 ensures HasBit(0xFF, k) {
      BitOfLowBits(0, k);
    }
    if forall k :: 0 <= k < 8 ==> HasBit(byte, k) {
      BitsDetermineByte(byte, 0xFF);
    }
  }

  lemma LastByte(byte: bv8, e: nat)
    requires e < 8
    ensures byte == LowBits(e) <==> forall k :: 0 <= k < 8 ==> (HasBit(byte, k) <==> k < e)
  {
    hide HasBit, LowBits;
    forall k | 0 <= k < 8 ensures HasBit(LowBits(e), k) <==> k < e {
      BitOfLowBits(e, k);
    }
    if forall k :: 0 <= k < 8 ==> (HasBit(byte, k) <==> k < e) {
      BitsDetermineByte(byte, LowBits(e));
    }
  }

  /** A file that passes the check has every byte. */
  lemma AllSetHasAll(m: Mirror)
    requires m.Shaped() && m.kind == Flat && (m.Blocks() + 7) / 8 <= |m.bits| && AllSet(m.bits, m.Blocks())
    ensures m.RunIs(0, |m.content|, true)
  {
    hide HasBit, BlockCount;
    forall p | 0 <= p < |m.content| ensures m.AvailableAt(p) {
      InSomeBlock(p, |m.content|, m.blockSize);
    }
  }

  /** With no stray bits the check misses no file that has every byte. */
  lemma FlatComplete(m: Mirror)
    requires m.Shaped() && m.kind == Flat
    requires forall b :: m.Blocks() <= b < (m.Blocks() + 7) / 8 * 8 ==> b / 8 < |m.bits| && !BitSet(m.bits, b)
    ensures (m.Blocks() + 7) / 8 <= |m.bits|
    ensures AllSet(m.bits, m.Blocks()) <==> m.RunIs(0, |m.content|, true)
  {
    hide HasBit, BlockCount;
    if m.RunIs(0, |m.content|, true) {
      forall b: nat | b < m.Blocks() ensures BitSet(m.bits, b) {
        BlockStartsInside(b, |m.content|, m.blockSize);
        QuotientIsUnique(b * m.blockSize, m.blockSize, b, 0);
        assert m.AvailableAt(b * m.blockSize);
      }
    }
    if AllSet(m.bits, m.Blocks()) {
      AllSetHasAll(m);
    }
  }

  function Footer(build: nat, size: nat, blockSize: nat): (s: seq<bv8>)
    ensures |s| == FOOTER_SIZE
  {
    Dwords([SIGNATURE, FOOTER_VERSION, build, size % DWORD, size / DWORD, blockSize])
  }

  /** The file of a flat mirror after it was closed: the bitmap behind the data, then the footer. */
  function FlatClosed(m: Mirror, build: nat): seq<bv8>
    requires |m.content| <= |m.file|
  {
    Overwrite(Overwrite(m.file, |m.content|, m.bits), |m.content| + |m.bits|, Footer(build, |m.content|, m.blockSize))
  }

  /** The bitmap in a file, found by the footer at its end. Offsets are kept in 64 bits, counts in 32. */
  function LoadBits(file: seq<bv8>): Loaded {
    if |file| <= FOOTER_SIZE then NotLoaded
    else
      var at := |file| - FOOTER_SIZE;
      if DwordAt(file, at) != SIGNATURE || DwordAt(file, at + 4) != FOOTER_VERSION then NotLoaded
      else BitsAt(file, DwordAt(file, at + 8), DwordAt(file, at + 16) * DWORD + DwordAt(file, at + 12),
        DwordAt(file, at + 20))
  }

  function BitsAt(file: seq<bv8>, build: nat, offset: nat, blockSize: nat): Loaded {
    if blockSize == 0 then Undefined
    else
      var count := (BlockOf((offset + QWORD - 1) % QWORD, blockSize) + 1) % DWORD;
      var size := (count + 7) % DWORD / 8;
      if (offset + size + FOOTER_SIZE) % QWORD != |file| || offset + size > |file| then NotLoaded
      else if size < (count + 7) / 8 then Undefined
      else Bits(build, offset, blockSize, file[offset..offset + size], AllSet(file[offset..offset + size], count))
  }

  /** A bitmap is found only behind data and in front of a footer that fits both. */
  lemma BitsFoundExactly(file: seq<bv8>)
    requires LoadBits(file).Bits? && |file| <= MAX_FILE
    ensures var found := LoadBits(file);
      && FOOTER_SIZE < |file| && found.build < DWORD && 0 < found.blockSize < DWORD && found.streamSize <= |file|
      && file == file[..found.streamSize] + found.bits + Footer(found.build, found.streamSize, found.blockSize)
  {
    hide AllSet, DwordAt, Dwords, BitsAt;
    var at := |file| - FOOTER_SIZE;
    var size := DwordAt(file, at + 16) * DWORD + DwordAt(file, at + 12);
    DwordIsSmall(file, at + 8);
    DwordIsSmall(file, at + 12);
    DwordIsSmall(file, at + 16);
    DwordIsSmall(file, at + 20);
    BitsAtEnd(file, DwordAt(file, at + 8), size, DwordAt(file, at + 20));
    WordsOf(DwordAt(file, at + 16), DwordAt(file, at + 12));
    var words := [SIGNATURE, FOOTER_VERSION, DwordAt(file, at + 8), size % DWORD, size / DWORD, DwordAt(file, at + 20)];
    forall i | 0 <= i < |words| ensures DwordAt(file, at + 4 * i) == words[i] {
      if i == 0 { } else if i == 1 { } else if i == 2 { } else if i == 3 { } else if i == 4 { } else { }
    }
    DwordsThere(file, at, words);
    assert file == file[..size] + file[size..at] + file[at..];
  }

  lemma WordsOf(high: nat, low: nat)
    requires low < DWORD
    ensures (high * DWORD + low) % DWORD == low && (high * DWORD + low) / DWORD == high
  {
  }

  lemma BitsAtEnd(file: seq<bv8>, build: nat, offset: nat, blockSize: nat)
    requires BitsAt(file, build, offset, blockSize).Bits? && |file| <= MAX_FILE && offset < QWORD
    ensures var found := BitsAt(file, build, offset, blockSize);
      && found.build == build && found.streamSize == offset && found.blockSize == blockSize > 0
      && offset + |found.bits| + FOOTER_SIZE == |file| && found.bits == file[offset..|file| - FOOTER_SIZE]
  {
    hide AllSet, BlockOf;
  }

  /** Closing a flat mirror and opening it again gives the same stream, with the same blocks cached. */
  lemma FlatReopens(m: Mirror, build: nat)
    requires m.Coherent() && m.kind == Flat && |m.bits| == (m.Blocks() + 7) / 8
    requires |m.file| <= |m.content| + |m.bits| + FOOTER_SIZE
    requires m.Blocks() + 7 < DWORD && m.blockSize < DWORD && build < DWORD
    requires |m.content| + |m.bits| + FOOTER_SIZE <= MAX_FILE
    ensures LoadBits(FlatClosed(m, build)) == Bits(build, |m.content|, m.blockSize, m.bits, AllSet(m.bits, m.Blocks()))
    ensures Gains(m, m.(file := FlatClosed(m, build)), 0, 0)
  {
    hide Mirror.Coherent, Gains, AllSet, Dwords, DwordAt, Overwrite, LoadBits;
    CoherentIsShaped(m);
    FlatLayout(m, build);
    KeepsData(m, FlatClosed(m, build));
    FooterLoads(m.file[..|m.content|], m.bits, build, |m.content|, m.blockSize);
  }

  lemma CoherentIsShaped(m: Mirror)
    requires m.Coherent()
    ensures m.Shaped()
  {
  }

  lemma FlatLayout(m: Mirror, build: nat)
    requires |m.content| <= |m.file| <= |m.content| + |m.bits| + FOOTER_SIZE
    ensures FlatClosed(m, build) == m.file[..|m.content|] + m.bits + Footer(build, |m.content|, m.blockSize)
    ensures FlatClosed(m, build)[..|m.content|] == m.file[..|m.content|]
  {
    hide Footer;
  }

  /** Whatever is written behind the data leaves a flat mirror coherent. */
  lemma KeepsData(m: Mirror, file: seq<bv8>)
    requires m.Coherent() && m.kind == Flat && |m.content| <= |file| <= MAX_FILE && |m.content| <= |m.file|
    requires file[..|m.content|] == m.file[..|m.content|]
    ensures Gains(m, m.(file := file), 0, 0)
  {
    hide Mirror.AvailableAt, Mirror.Holds;
    var next := m.(file := file);
    forall p | 0 <= p < |m.content|
      ensures next.AvailableAt(p) <==> m.AvailableAt(p)
      ensures next.Where(p) == m.Where(p)
      ensures next.Holds(p) <==> m.Holds(p)
    {
      SameAvailability(m, next, p);
      FlatHolds(m, p);
      FlatHolds(next, p);
      assert file[p] == file[..|m.content|][p] == m.file[..|m.content|][p] == m.file[p];
    }
  }

  /** The footer leads back to the bitmap. */
  lemma FooterLoads(data: seq<bv8>, bits: seq<bv8>, build: nat, size: nat, blockSize: nat)
    requires 0 < size == |data| && 0 < blockSize < DWORD && build < DWORD && size + |bits| + FOOTER_SIZE <= MAX_FILE
    requires |bits| == (BlockCount(size, blockSize) + 7) / 8 && BlockCount(size, blockSize) + 7 < DWORD
    ensures LoadBits(data + bits + Footer(build, size, blockSize)) ==
      Bits(build, size, blockSize, bits, AllSet(bits, BlockCount(size, blockSize)))
  {
    hide AllSet, Dwords, DwordAt, BlockCount, Footer, BitsAt;
    FooterWord(data + bits, build, size, blockSize, 0);
    FooterWord(data + bits, build, size, blockSize, 1);
    FooterWord(data + bits, build, size, blockSize, 2);
    FooterWord(data + bits, build, size, blockSize, 3);
    FooterWord(data + bits, build, size, blockSize, 4);
    FooterWord(data + bits, build, size, blockSize, 5);
    BitsFound(data, bits, Footer(build, size, blockSize), build, blockSize);
  }

  lemma BitsFound(data: seq<bv8>, bits: seq<bv8>, footer: seq<bv8>, build: nat, blockSize: nat)
    requires 0 < |data| && 0 < blockSize && |footer| == FOOTER_SIZE && |data| + |bits| + FOOTER_SIZE <= MAX_FILE
    requires |bits| == (BlockCount(|data|, blockSize) + 7) / 8 && BlockCount(|data|, blockSize) + 7 < DWORD
    ensures BitsAt(data + bits + footer, build, |data|, blockSize) ==
      Bits(build, |data|, blockSize, bits, AllSet(bits, BlockCount(|data|, blockSize)))
  {
    hide AllSet, BlockCount, BlockOf;
    assert (|data| + QWORD - 1) % QWORD == |data| - 1;
    CountByLast(|data|, blockSize);
    assert (data + bits + footer)[|data|..|data| + |bits|] == bits;
  }

  lemma FooterWord(before: seq<bv8>, build: nat, size: nat, blockSize: nat, i: nat)
    requires i < 6 && size < QWORD && blockSize < DWORD && build < DWORD
    ensures DwordAt(before + Footer(build, size, blockSize), |before| + 4 * i) ==
            [SIGNATURE, FOOTER_VERSION, build, size % DWORD, size / DWORD, blockSize][i]
  {
    hide Dwords, DwordAt;
    var words := [SIGNATURE, FOOTER_VERSION, build, size % DWORD, size / DWORD, blockSize];
    assert before + Dwords(words) == before + Dwords(words) + [];
    DwordReadBack(before, words, [], i);
  }

  // ----- The map in front of a part mirror -----

  method CheckPart(entries: seq<MapEntry>) returns (complete: bool)
    ensures complete <==> AllPresent(entries)
  {
    var i := 0;
    while i < |entries|
      invariant 0 <= i <= |entries| && AllPresent(entries[..i])
    {
      if entries[i].flags != 3 {
        return false;
      }
      i := i + 1;
    }
    assert entries[..i] == entries;
    complete := true;
  }

  predicate AllPresent(entries: seq<MapEntry>) {
    forall i :: 0 <= i < |entries| ==> entries[i].flags == 3
  }

  lemma PartComplete(m: Mirror)
    requires m.Shaped() && m.kind == Part && AllPresent(m.entries)
    ensures m.RunIs(0, |m.content|, true)
  {
    hide BlockCount;
    forall p | 0 <= p < |m.content| ensures m.AvailableAt(p) {
      InSomeBlock(p, |m.content|, m.blockSize);
    }
  }

  predicate IsDigit(c: bv8) { 48 <= c as nat <= 57 }

  /** The characters from 0 to 9. */
  lemma DigitsAre(c: bv8)
    ensures IsDigit(c) <==> c in [0x30, 0x31, 0x32, 0x33, 0x34, 0x35, 0x36, 0x37, 0x38, 0x39]
  {
  }

  /** A number in decimal digits. */
  function Decimal(n: nat): (s: seq<bv8>)
    ensures |s| >= 1 && forall i :: 0 <= i < |s| ==> IsDigit(s[i])
  {
    (if n < 10 then [] else Decimal(n / 10)) + [ToByte(48 + n % 10)]
  }

  lemma DecimalLength(n: nat)
    requires n < DWORD
    ensures |Decimal(n)| <= 10 && (|Decimal(n)| >= 3 <==> n >= 100)
  {
    hide Decimal;
    Digits(n);
    Digits(n / 10);
    Digits(n / 100);
    TenBillion();
    LengthBound(n, 9);
  }

  lemma Digits(n: nat)
    ensures |Decimal(n)| == if n < 10 then 1 else |Decimal(n / 10)| + 1
  {
    hide ToByte;
  }

  lemma TenBillion()
    ensures Ten(10) == 10000000000
  {
    assert Ten(5) == 100000;
    assert Ten(10) == 10 * Ten(9) && Ten(9) == 10 * Ten(8) && Ten(8) == 10 * Ten(7) && Ten(7) == 10 * Ten(6) &&
      Ten(6) == 10 * Ten(5);
  }

  /** A number below ten to the power `k + 1` has at most `k + 1` digits. */
  lemma {:induction false} LengthBound(n: nat, k: nat)
    requires n < Ten(k + 1)
    ensures |Decimal(n)| <= k + 1
    decreases k
  {
    hide Decimal;
    Digits(n);
    if k > 0 && n >= 10 {
      LengthBound(n / 10, k - 1);
    }
  }

  function Ten(k: nat): (r: nat)
    ensures r > 0
  {
    if k == 0 then 1 else 10 * Ten(k - 1)
  }

  function BuildText(build: nat): (s: seq<bv8>)
    requires build < DWORD
    ensures |s| == BUILD_TEXT_SIZE
  {
    DecimalLength(build);
    Decimal(build) + Zeros(BUILD_TEXT_SIZE - |Decimal(build)|)
  }

  function PartHeader(build: nat, size: nat, blockSize: nat): (s: seq<bv8>)
    requires build < DWORD
    ensures |s| == PART_HEADER_SIZE
  {
    Dwords([PART_VERSION]) + BuildText(build) + Dwords([0, size % DWORD, size / DWORD, blockSize])
  }

  /** The words of a map: flags, the two words of the offset, and two of unknown meaning that are zero. */
  function MapWords(entries: seq<MapEntry>): (ws: seq<nat>)
    ensures |ws| == 5 * |entries|
  {
    seq(5 * |entries|, i requires 0 <= i < 5 * |entries| => EntryWord(entries[i / 5], i % 5))
  }

  predicate WordsFit(entries: seq<MapEntry>) {
    forall i :: 0 <= i < |entries| ==>
      entries[i].flags < DWORD && entries[i].offsetLow < DWORD && entries[i].offsetHigh < DWORD
  }

  function EntryWord(e: MapEntry, i: nat): nat {
    if i == 0 then e.flags else if i == 1 then e.offsetLow else if i == 2 then e.offsetHigh else 0
  }

  /** The file of a part mirror after it was closed: header and map are overwritten, the data stays. */
  function PartClosed(m: Mirror, build: nat): seq<bv8>
    requires m.kind == Part && m.DataStart() <= |m.file| && build < DWORD
  {
    Overwrite(Overwrite(m.file, 0, PartHeader(build, |m.content|, m.blockSize)), PART_HEADER_SIZE,
      Dwords(MapWords(m.entries)))
  }

  /** As the source has it, zero passes for a power of two. */
  predicate PowerOfTwo(n: nat) {
    n <= 1 || (n % 2 == 0 && PowerOfTwo(n / 2))
  }

  function Two(k: nat): (r: nat)
    ensures r > 0
  {
    if k == 0 then 1 else 2 * Two(k - 1)
  }

  lemma {:induction false} IsTwo(n: nat) returns (k: nat)
    requires PowerOfTwo(n) && n > 0
    ensures n == Two(k)
  {
    if n == 1 {
      k := 0;
    } else {
      k := IsTwo(n / 2);
      k := k + 1;
    }
  }

  lemma {:induction false} TwoIsPower(k: nat)
    ensures PowerOfTwo(Two(k))
  {
    if k > 0 {
      TwoIsPower(k - 1);
      assert Two(k) % 2 == 0 && Two(k) / 2 == Two(k - 1);
    }
  }

  function LoadMap(file: seq<bv8>): Loaded {
    if |file| <= PART_HEADER_SIZE then NotLoaded
    else if DwordAt(file, 0) != PART_VERSION || !IsDigit(file[4]) || !IsDigit(file[5]) || !IsDigit(file[6]) ||
      !PowerOfTwo(DwordAt(file, 48)) then
      NotLoaded
    else
      var build := Skewed(DigitsOf(file[4..4 + BUILD_TEXT_SIZE]));
      MapAt(file, build, DwordAt(file, 44) * DWORD + DwordAt(file, 40), DwordAt(file, 48))
  }

  function MapCount(size: nat, blockSize: nat): nat
    requires blockSize > 0
  {
    BlockOf((size + blockSize - 1) % QWORD, blockSize) % DWORD
  }

  lemma MapCountFits(size: nat, blockSize: nat)
    requires 0 < blockSize && size + blockSize <= QWORD && BlockCount(size, blockSize) < DWORD
    ensures MapCount(size, blockSize) == BlockCount(size, blockSize)
  {
  }

  function MapAt(file: seq<bv8>, build: nat, size: nat, blockSize: nat): Loaded {
    if blockSize == 0 then Undefined
    else
      var count := MapCount(size, blockSize);
      var mapSize := count * MAP_ENTRY_SIZE % DWORD;
      if PART_HEADER_SIZE + mapSize >= |file| then NotLoaded
      else if mapSize < count * MAP_ENTRY_SIZE then Undefined
      else
        var entries := seq(count, i requires 0 <= i < count => EntryOf(file, PART_HEADER_SIZE + MAP_ENTRY_SIZE * i));
        Map(build, size, blockSize, entries, AllPresent(entries))
  }

  function EntryOf(file: seq<bv8>, at: nat): MapEntry
    requires at + MAP_ENTRY_SIZE <= |file|
  {
    MapEntry(DwordAt(file, at), DwordAt(file, at + 4), DwordAt(file, at + 8))
  }

  /** Closing a part mirror and opening it again gives the same map, except that a build number of fewer
      than three digits, or a mirror that holds no block yet, is not recognised; and the build number is
      another one. */
  lemma PartReopens(m: Mirror, build: nat)
    requires m.Coherent() && m.kind == Part && build < DWORD && m.blockSize < DWORD && PowerOfTwo(m.blockSize)
    requires MAP_ENTRY_SIZE * m.Blocks() < DWORD
    requires WordsFit(m.entries)
    ensures LoadMap(PartClosed(m, build)) ==
            if build >= 100 && m.DataStart() < |m.file| then MapOf(m, build) else NotLoaded
    ensures Gains(m, m.(file := PartClosed(m, build)), 0, 0)
  {
    hide Mirror.Coherent, Gains, Dwords, DwordAt, LoadMap, PartHeader, MapWords, PowerOfTwo, Skewed, Decimal, DigitsOf;
    CoherentIsShaped(m);
    PartLayout(m, build);
    KeepsBlocks(m, PartClosed(m, build));
    HeaderLoads(m, build);
    if build >= 100 {
      MapFound(m, Skewed(Decimal(build)), PartHeader(build, |m.content|, m.blockSize), m.file[m.DataStart()..]);
    }
  }

  /** What is found in the file of a part mirror. */
  function MapOf(m: Mirror, build: nat): Loaded {
    Map(Skewed(Decimal(build)), |m.content|, m.blockSize, m.entries, AllPresent(m.entries))
  }

  lemma PartLayout(m: Mirror, build: nat)
    requires m.kind == Part && m.DataStart() <= |m.file| && build < DWORD
    ensures PartClosed(m, build) ==
      PartHeader(build, |m.content|, m.blockSize) + Dwords(MapWords(m.entries)) + m.file[m.DataStart()..]
  {
    hide PartHeader, MapWords;
  }

  /** Whatever is written in front of the data leaves a part mirror coherent. */
  lemma KeepsBlocks(m: Mirror, file: seq<bv8>)
    requires m.Coherent() && m.kind == Part && |file| == |m.file| && m.DataStart() <= |file|
    requires file[m.DataStart()..] == m.file[m.DataStart()..]
    ensures Gains(m, m.(file := file), 0, 0)
  {
    hide Mirror.AvailableAt, Mirror.Where, Mirror.Key, Xor;
    var next, start := m.(file := file), m.DataStart();
    forall p | 0 <= p < |m.content|
      ensures next.AvailableAt(p) <==> m.AvailableAt(p)
      ensures next.Where(p) == m.Where(p)
      ensures next.AvailableAt(p) ==> next.Holds(p)
    {
      SameAvailability(m, next, p);
      if m.AvailableAt(p) {
        assert m.Holds(p);
        assert file[m.Where(p)] == file[start..][m.Where(p) - start] == m.file[start..][m.Where(p) - start];
      }
    }
  }

  lemma HeaderLoads(m: Mirror, build: nat)
    requires m.kind == Part && build < DWORD && m.blockSize < DWORD && PowerOfTwo(m.blockSize)
    requires |m.content| < QWORD && m.DataStart() <= |m.file|
    ensures
      var file := PartHeader(build, |m.content|, m.blockSize) + Dwords(MapWords(m.entries)) + m.file[m.DataStart()..];
      LoadMap(file) ==
      if build >= 100 && |file| > PART_HEADER_SIZE then MapAt(file, Skewed(Decimal(build)), |m.content|, m.blockSize)
        else NotLoaded
  {
    hide MapAt, Dwords, DwordAt, MapWords, PowerOfTwo, PartHeader, IsDigit, Skewed, Decimal, DigitsOf, BuildText;
    BuildNumberLost(build);
    var size := |m.content|;
    var rest := Dwords(MapWords(m.entries)) + m.file[m.DataStart()..];
    var file := PartHeader(build, size, m.blockSize) + Dwords(MapWords(m.entries)) + m.file[m.DataStart()..];
    assert file == PartHeader(build, size, m.blockSize) + rest;
    HeaderWords(build, size, m.blockSize, rest);
    HeaderText(build, size, m.blockSize, rest);
  }

  lemma HeaderWords(build: nat, size: nat, blockSize: nat, rest: seq<bv8>)
    requires build < DWORD && size < QWORD && blockSize < DWORD
    ensures var file := PartHeader(build, size, blockSize) + rest;
      && DwordAt(file, 0) == PART_VERSION && DwordAt(file, 40) == size % DWORD
      && DwordAt(file, 44) == size / DWORD && DwordAt(file, 48) == blockSize
  {
    hide Dwords, DwordAt, BuildText;
    var file, text, words := PartHeader(build, size, blockSize) + rest, BuildText(build),
      [0, size % DWORD, size / DWORD, blockSize];
    assert file == [] + Dwords([PART_VERSION]) + (text + Dwords(words) + rest);
    DwordReadBack([], [PART_VERSION], text + Dwords(words) + rest, 0);
    var front := Dwords([PART_VERSION]) + text;
    assert file == front + Dwords(words) + rest;
    DwordReadBack(front, words, rest, 1);
    DwordReadBack(front, words, rest, 2);
    DwordReadBack(front, words, rest, 3);
  }

  /** The build number is recognised when it has three digits. */
  lemma HeaderText(build: nat, size: nat, blockSize: nat, rest: seq<bv8>)
    requires build < DWORD
    ensures var file := PartHeader(build, size, blockSize) + rest;
      && (IsDigit(file[4]) && IsDigit(file[5]) && IsDigit(file[6]) <==> build >= 100)
      && file[4..4 + BUILD_TEXT_SIZE] == BuildText(build)
  {
    hide Dwords, ToByte;
    var file, text := PartHeader(build, size, blockSize) + rest, BuildText(build);
    assert file[4..4 + BUILD_TEXT_SIZE] == text;
    assert file[4] == text[0] && file[5] == text[1] && file[6] == text[2];
    DecimalLength(build);
    if build < 100 {
      assert text[2] == 0;
    }
  }

  /** A map is found only behind a header of the right version, with three digits and a power of two, and in front
      of at least one byte; its entries are the words that stand there. */
  lemma MapFoundOnly(file: seq<bv8>, i: nat)
    requires LoadMap(file).Map? && i < |LoadMap(file).entries|
    ensures var found, at := LoadMap(file), PART_HEADER_SIZE + MAP_ENTRY_SIZE * i;
      && file[..4] == Dwords([PART_VERSION])
      && (forall k :: 4 <= k < 7 ==> file[k] in [0x30, 0x31, 0x32, 0x33, 0x34, 0x35, 0x36, 0x37, 0x38, 0x39])
      && PowerOfTwo(found.blockSize) && found.blockSize > 0
      && file[40..PART_HEADER_SIZE] == Dwords([found.streamSize % DWORD, found.streamSize / DWORD, found.blockSize])
      && PART_HEADER_SIZE + MAP_ENTRY_SIZE * |found.entries| < |file|
      && file[at..at + 12] ==
         Dwords([found.entries[i].flags, found.entries[i].offsetLow, found.entries[i].offsetHigh])
  {
    hide DwordAt, Dwords, PowerOfTwo, Skewed, DigitsOf, AllPresent, MapCount, IsDigit;
    var found, at := LoadMap(file), PART_HEADER_SIZE + MAP_ENTRY_SIZE * i;
    assert DwordAt(file, 0) == [PART_VERSION][0];
    DwordsThere(file, 0, [PART_VERSION]);
    DigitsAre(file[4]);
    DigitsAre(file[5]);
    DigitsAre(file[6]);
    DwordIsSmall(file, 40);
    WordsOf(DwordAt(file, 44), DwordAt(file, 40));
    var words := [found.streamSize % DWORD, found.streamSize / DWORD, found.blockSize];
    forall k | 0 <= k < |words| ensures DwordAt(file, 40 + 4 * k) == words[k] {
      if k == 0 { } else if k == 1 { } else { }
    }
    DwordsThere(file, 40, words);
    var entry := [found.entries[i].flags, found.entries[i].offsetLow, found.entries[i].offsetHigh];
    forall k | 0 <= k < |entry| ensures DwordAt(file, at + 4 * k) == entry[k] {
      if k == 0 { } else if k == 1 { } else { }
    }
    DwordsThere(file, at, entry);
  }

  lemma MapFound(m: Mirror, build: nat, header: seq<bv8>, data: seq<bv8>)
    requires m.Shaped() && m.kind == Part && |header| == PART_HEADER_SIZE
    requires MAP_ENTRY_SIZE * m.Blocks() < DWORD && m.blockSize < DWORD
    requires WordsFit(m.entries)
    ensures MapAt(header + Dwords(MapWords(m.entries)) + data, build, |m.content|, m.blockSize) ==
            if |data| > 0 then Map(build, |m.content|, m.blockSize, m.entries, AllPresent(m.entries)) else NotLoaded
  {
    hide MapCount, Dwords, EntryOf, MapWords, AllPresent;
    var file, n := header + Dwords(MapWords(m.entries)) + data, |m.entries|;
    MapCountFits(|m.content|, m.blockSize);
    forall i | 0 <= i < n ensures EntryOf(file, PART_HEADER_SIZE + MAP_ENTRY_SIZE * i) == m.entries[i] {
      EntryFound(m.entries, header, data, i);
    }
    if |data| > 0 {
      assert seq(n, i requires 0 <= i < n => EntryOf(file, PART_HEADER_SIZE + MAP_ENTRY_SIZE * i)) == m.entries;
    }
  }

  lemma WordsOfEntry(entries: seq<MapEntry>, i: nat)
    requires i < |entries|
    ensures var e, words := entries[i], MapWords(entries);
      && words[5 * i] == e.flags && words[5 * i + 1] == e.offsetLow && words[5 * i + 2] == e.offsetHigh
      && words[5 * i + 3] == words[5 * i + 4] == 0
  {
  }

  lemma EntryFound(entries: seq<MapEntry>, header: seq<bv8>, data: seq<bv8>, i: nat)
    requires i < |entries| && |header| == PART_HEADER_SIZE
    requires entries[i].flags < DWORD && entries[i].offsetLow < DWORD && entries[i].offsetHigh < DWORD
    ensures EntryOf(header + Dwords(MapWords(entries)) + data, PART_HEADER_SIZE + MAP_ENTRY_SIZE * i) == entries[i]
  {
    hide Dwords, DwordAt;
    var words := MapWords(entries);
    WordsOfEntry(entries, i);
    DwordReadBack(header, words, data, 5 * i);
    DwordReadBack(header, words, data, 5 * i + 1);
    DwordReadBack(header, words, data, 5 * i + 2);
  }

  // ----- Opening a mirror -----

  /** The key bytes where there is no key. */
  function NoKey(high: nat, low: nat): seq<bv8> { Zeros(CHUNK) }

  /** The stream that is found in a file which is a mirror of `content`. */
  ghost function Opened(loaded: Loaded, content: seq<bv8>, file: seq<bv8>): Mirror
    requires loaded.Bits? || loaded.Map?
  {
    match loaded
    case Bits(_, _, blockSize, bits, _) => Mirror(Flat, blockSize, content, NoKey, file, bits, [])
    case Map(_, _, blockSize, entries, _) => Mirror(Part, blockSize, content, NoKey, file, [], entries)
  }

  /** If a bitmap or map is found in a file, it says the truth of `content`. */
  ghost predicate Truthful(loaded: Loaded, content: seq<bv8>, file: seq<bv8>) {
    && !loaded.Undefined?
    && (loaded.Bits? || loaded.Map? ==>
        loaded.streamSize == |content| && PowerOfTwo(loaded.blockSize) && Opened(loaded, content, file).Coherent())
  }

  /** The size that is set is not another one than before if a file has it already. */
  function Resized(file: seq<bv8>, size: nat): (r: seq<bv8>)
    ensures |r| == size && forall k :: 0 <= k < |file| && k < size ==> r[k] == file[k]
  {
    if size <= |file| then file[..size] else file + Zeros(size - |file|)
  }

  /** A flat mirror has room for the data, one bit a block, and a footer. */
  function FlatSize(masterSize: nat): nat {
    masterSize + (BlockCount(masterSize, DEFAULT_BLOCK_SIZE) + 7) / 8 + FOOTER_SIZE
  }

  /** What is found in an existing file that is to mirror a master. */
  function FlatFound(file: seq<bv8>, masterSize: nat, useBitmap: bool): Loaded {
    if |file| == FlatSize(masterSize) && useBitmap then LoadBits(file) else NotLoaded
  }

  /** The room for header and map in front of a part mirror. */
  function PartStart(masterSize: nat): nat {
    PART_HEADER_SIZE + MAP_ENTRY_SIZE * BlockCount(masterSize, DEFAULT_BLOCK_SIZE)
  }

  /** What lies behind the map is expected to be whole blocks, or to have the size of the master. */
  predicate PartSizeFits(size: nat, masterSize: nat) {
    && PartStart(masterSize) <= size
    && ((size - PartStart(masterSize)) % DEFAULT_BLOCK_SIZE == 0 || size - PartStart(masterSize) == masterSize)
  }

  function PartFound(file: seq<bv8>, masterSize: nat): Loaded {
    if PartSizeFits(|file|, masterSize) then LoadMap(file) else NotLoaded
  }

  /** A flat mirror that was closed is found again for its master, if bitmaps are used. */
  lemma FlatReopensForMaster(m: Mirror, build: nat, useBitmap: bool)
    requires m.Coherent() && m.kind == Flat && |m.bits| == (m.Blocks() + 7) / 8
    requires |m.file| <= |m.content| + |m.bits| + FOOTER_SIZE
    requires m.blockSize == DEFAULT_BLOCK_SIZE && m.Blocks() + 7 < DWORD
    requires build < DWORD && FlatSize(|m.content|) <= MAX_FILE
    ensures FlatFound(FlatClosed(m, build), |m.content|, useBitmap) ==
            if useBitmap then Bits(build, |m.content|, m.blockSize, m.bits, AllSet(m.bits, m.Blocks())) else NotLoaded
  {
    hide Mirror.Coherent, AllSet, LoadBits, Footer;
    CoherentIsShaped(m);
    FlatReopens(m, build);
    FlatLayout(m, build);
  }

  /** A part mirror that was closed is found again for its master exactly if the build number has three
      digits, and something is stored, which is whole blocks or as much as the master has. */
  lemma PartReopensForMaster(m: Mirror, build: nat)
    requires m.Coherent() && m.kind == Part && build < DWORD && m.blockSize == DEFAULT_BLOCK_SIZE
    requires MAP_ENTRY_SIZE * m.Blocks() < DWORD
    requires WordsFit(m.entries)
    ensures m.DataStart() <= |m.file|
    ensures var stored := |m.file| - m.DataStart();
      PartFound(PartClosed(m, build), |m.content|) ==
      if build >= 100 && stored > 0 && (stored % DEFAULT_BLOCK_SIZE == 0 || stored == |m.content|) then MapOf(m, build)
        else NotLoaded
  {
    hide Mirror.Coherent, LoadMap, PartHeader, MapWords, MapOf, Gains;
    CoherentIsShaped(m);
    DefaultIsPowerOfTwo();
    PartReopens(m, build);
    PartLayout(m, build);
  }

  /** If a stream is found in its file again, the file says the truth, and the same is cached. */
  lemma OpenedAgain(m: Mirror, file: seq<bv8>, found: Loaded)
    requires m.(file := file).Coherent() && m.kind != Encrypted && PowerOfTwo(m.blockSize)
    requires
      || found == NotLoaded
      || (found.Bits? && m.kind == Flat && found.streamSize == |m.content| && found.blockSize == m.blockSize &&
        found.bits == m.bits)
      || (found.Map? && m.kind == Part && found.streamSize == |m.content| && found.blockSize == m.blockSize &&
        found.entries == m.entries)
    ensures Truthful(found, m.content, file)
    ensures !found.NotLoaded? ==> SameCached(m.(file := file), Opened(found, m.content, file))
  {
    hide Mirror.AvailableAt, Mirror.Holds, PowerOfTwo, BlockCount;
    if !found.NotLoaded? {
      var before, now := m.(file := file), Opened(found, m.content, file);
      assert now.Shaped();
      forall p | 0 <= p < |m.content|
        ensures now.AvailableAt(p) <==> before.AvailableAt(p)
        ensures now.Where(p) == before.Where(p) && (now.Holds(p) <==> before.Holds(p))
      {
        SameByte(before, now, p);
      }
    }
  }

  lemma SameByte(m: Mirror, next: Mirror, p: nat)
    requires m.Shaped() && next.Shaped() && p < |m.content| && m.kind != Encrypted
    requires next.kind == m.kind && next.blockSize == m.blockSize && next.content == m.content && next.file == m.file
    requires if m.kind == Flat then next.bits == m.bits else next.entries == m.entries
    ensures next.AvailableAt(p) <==> m.AvailableAt(p)
    ensures next.Where(p) == m.Where(p) && (next.Holds(p) <==> m.Holds(p))
  {
    hide Xor, BitSet, BlockCount;
  }

  /** Two streams of the same content have the same bytes cached. */
  ghost predicate SameCached(a: Mirror, b: Mirror) {
    && a.Shaped() && b.Shaped() && |a.content| == |b.content|
    && forall p :: 0 <= p < |a.content| ==> (a.AvailableAt(p) <==> b.AvailableAt(p))
  }

  lemma DefaultIsPowerOfTwo()
    ensures PowerOfTwo(DEFAULT_BLOCK_SIZE)
  {
    assert PowerOfTwo(0x40) && PowerOfTwo(0x400);
  }

  /** A part mirror of which the short last block was read, and nothing else, is not found again for its
      master: what it has stored is lost. Without the master it is found. */
  lemma ShortLastBlockIsLost(content: seq<bv8>)
    requires |content| == DEFAULT_BLOCK_SIZE + 100
    ensures var entries := [MapEntry(0, 0, 0), EntryAt(92)];
      var m := Mirror(Part, DEFAULT_BLOCK_SIZE, content, NoKey, Zeros(92) + content[DEFAULT_BLOCK_SIZE..], [], entries);
      && m.Coherent() && m.RunIs(DEFAULT_BLOCK_SIZE, |content|, true) && m.DataStart() == 92
      && PartFound(PartClosed(m, DEFAULT_BUILD_NUMBER), |content|) == NotLoaded
      && LoadMap(PartClosed(m, DEFAULT_BUILD_NUMBER)) == MapOf(m, DEFAULT_BUILD_NUMBER)
  {
    hide LoadMap, PartFound, MapOf, PartClosed, BlockCount;
    var entries := [MapEntry(0, 0, 0), EntryAt(92)];
    var m := Mirror(Part, DEFAULT_BLOCK_SIZE, content, NoKey, Zeros(92) + content[DEFAULT_BLOCK_SIZE..], [], entries);
    TwoBlocks();
    assert m.Shaped();
    forall p | 0 <= p < |content|
      ensures m.AvailableAt(p) <==> DEFAULT_BLOCK_SIZE <= p
      ensures DEFAULT_BLOCK_SIZE <= p ==> m.Where(p) == 92 + (p - DEFAULT_BLOCK_SIZE) && m.Holds(p)
    {
      LastOfTwo(m, p);
    }
    PartReopensForMaster(m, DEFAULT_BUILD_NUMBER);
    DefaultIsPowerOfTwo();
    PartReopens(m, DEFAULT_BUILD_NUMBER);
  }

  lemma TwoBlocks()
    ensures BlockCount(DEFAULT_BLOCK_SIZE + 100, DEFAULT_BLOCK_SIZE) == 2
  {
  }

  lemma LastOfTwo(m: Mirror, p: nat)
    requires m.Shaped() && m.kind == Part && m.blockSize == DEFAULT_BLOCK_SIZE
    requires |m.content| == DEFAULT_BLOCK_SIZE + 100 && p < |m.content|
    requires m.entries == [MapEntry(0, 0, 0), EntryAt(92)] && m.file == Zeros(92) + m.content[DEFAULT_BLOCK_SIZE..]
    ensures m.AvailableAt(p) <==> DEFAULT_BLOCK_SIZE <= p
    ensures DEFAULT_BLOCK_SIZE <= p ==> m.Where(p) == 92 + (p - DEFAULT_BLOCK_SIZE) && m.Holds(p)
  {
    hide Xor;
    InSomeBlock(p, |m.content|, m.blockSize);
    if DEFAULT_BLOCK_SIZE <= p {
      QuotientIsUnique(p, DEFAULT_BLOCK_SIZE, 1, p - DEFAULT_BLOCK_SIZE);
      assert m.file[92 + (p - DEFAULT_BLOCK_SIZE)] == m.content[p];
      XorZero(m.content[p]);
    } else {
      QuotientIsUnique(p, DEFAULT_BLOCK_SIZE, 0, p);
    }
  }

  /** What a bitmap counts as its blocks are those of the stream. */
  lemma BitsFit(file: seq<bv8>, content: seq<bv8>)
    requires LoadBits(file).Bits? && Truthful(LoadBits(file), content, file)
    ensures var loaded := LoadBits(file); var m := Opened(loaded, content, file);
      && m.Shaped() && loaded.build < DWORD && (loaded.isComplete ==> m.RunIs(0, |content|, true))
      && loaded.blockSize < DWORD && BlockCount(|content|, loaded.blockSize) + 7 < DWORD
      && |loaded.bits| == (BlockCount(|content|, loaded.blockSize) + 7) / 8
      && |file| == |content| + |loaded.bits| + FOOTER_SIZE
  {
    hide AllSet, DwordAt, PowerOfTwo, BitsAt, Mirror.Coherent, Mirror.Shaped, Mirror.RunIs;
    var at := |file| - FOOTER_SIZE;
    DwordIsSmall(file, at + 8);
    DwordIsSmall(file, at + 20);
    CoherentIsShaped(Opened(LoadBits(file), content, file));
    BitsAtFit(file, DwordAt(file, at + 8), DwordAt(file, at + 16) * DWORD + DwordAt(file, at + 12),
      DwordAt(file, at + 20), content);
  }

  lemma BitsAtFit(file: seq<bv8>, build: nat, offset: nat, blockSize: nat, content: seq<bv8>)
    requires BitsAt(file, build, offset, blockSize).Bits?
    requires Opened(BitsAt(file, build, offset, blockSize), content, file).Shaped()
    requires BitsAt(file, build, offset, blockSize).streamSize == |content|
    ensures var loaded := BitsAt(file, build, offset, blockSize);
      && loaded.build == build && (loaded.isComplete ==> Opened(loaded, content, file).RunIs(0, |content|, true))
      && loaded.blockSize == blockSize && BlockCount(|content|, blockSize) + 7 < DWORD
      && |loaded.bits| == (BlockCount(|content|, blockSize) + 7) / 8
      && |file| == |content| + |loaded.bits| + FOOTER_SIZE
  {
    hide AllSet, Mirror.AvailableAt, BlockOf, BlockCount;
    var loaded := BitsAt(file, build, offset, blockSize);
    assert (offset + QWORD - 1) % QWORD == offset - 1;
    CountByLast(|content|, blockSize);
    if loaded.isComplete {
      AllSetHasAll(Opened(loaded, content, file));
    }
  }

  lemma DwordIsSmall(file: seq<bv8>, at: nat)
    requires at + 4 <= |file|
    ensures DwordAt(file, at) < DWORD
  {
    Ranges();
    FromLeIsSmall(file[at..at + 4]);
  }

  lemma EntryFits(file: seq<bv8>, at: nat)
    requires at + MAP_ENTRY_SIZE <= |file|
    ensures var e := EntryOf(file, at); e.flags < DWORD && e.offsetLow < DWORD && e.offsetHigh < DWORD
  {
    hide DwordAt;
    DwordIsSmall(file, at);
    DwordIsSmall(file, at + 4);
    DwordIsSmall(file, at + 8);
  }

  lemma MapFits(file: seq<bv8>, content: seq<bv8>)
    requires LoadMap(file).Map? && Truthful(LoadMap(file), content, file)
    ensures var loaded := LoadMap(file); var m := Opened(loaded, content, file);
      && m.Shaped() && loaded.build < DWORD && (loaded.isComplete ==> m.RunIs(0, |content|, true))
      && 0 < loaded.blockSize < DWORD && |loaded.entries| == BlockCount(|content|, loaded.blockSize)
      && MAP_ENTRY_SIZE * |loaded.entries| < DWORD && WordsFit(loaded.entries)
  {
    hide AllPresent, DwordAt, PowerOfTwo, Skewed, DigitsOf, MapCount;
    var loaded := LoadMap(file);
    DwordIsSmall(file, 48);
    forall i | 0 <= i < |loaded.entries|
      ensures loaded.entries[i].flags < DWORD && loaded.entries[i].offsetLow < DWORD
      ensures loaded.entries[i].offsetHigh < DWORD
    {
      EntryFits(file, PART_HEADER_SIZE + MAP_ENTRY_SIZE * i);
    }
    if loaded.isComplete {
      PartComplete(Opened(loaded, content, file));
    }
  }

  // ----- The build number in the header of a part mirror -----

  /** The leading digits of a text. */
  function DigitsOf(text: seq<bv8>): (digits: seq<bv8>)
    ensures forall i :: 0 <= i < |digits| ==> IsDigit(digits[i])
  {
    if text == [] || !IsDigit(text[0]) then [] else [text[0]] + DigitsOf(text[1..])
  }

  /** Digits read as the source reads them: each counts nine too few. */
  function Skewed(digits: seq<bv8>): (value: nat)
    requires forall i :: 0 <= i < |digits| ==> IsDigit(digits[i])
    ensures value < DWORD
  {
    if digits == [] then 0
    else (10 * Skewed(digits[..|digits| - 1]) + digits[|digits| - 1] as int - 57) % DWORD
  }

  lemma {:induction false} LeadingDigits(digits: seq<bv8>, rest: seq<bv8>)
    requires forall i :: 0 <= i < |digits| ==> IsDigit(digits[i])
    requires rest == [] || !IsDigit(rest[0])
    ensures DigitsOf(digits + rest) == digits
  {
    hide IsDigit;
    if digits == [] {
      assert digits + rest == rest;
    } else {
      LeadingDigits(digits[1..], rest);
      assert (digits + rest)[1..] == digits[1..] + rest;
    }
  }

  lemma SkewedStep(front: seq<bv8>, d: nat)
    requires (forall i :: 0 <= i < |front| ==> IsDigit(front[i])) && d < 10
    ensures IsDigit(ToByte(48 + d)) && Skewed(front + [ToByte(48 + d)]) == (10 * Skewed(front) + d - 9) % DWORD
  {
    var digits := front + [ToByte(48 + d)];
    assert digits[..|digits| - 1] == front;
  }

  lemma TimesTen(x: int, y: int, d: int)
    requires x == y % DWORD
    ensures (10 * x + d) % DWORD == (10 * y + d) % DWORD
  {
    var q := y / DWORD;
    assert 10 * y + d == 10 * x + d + 10 * q * DWORD;
  }

  lemma {:induction false} SkewedDecimal(n: nat)
    ensures Skewed(Decimal(n)) == (n + 1 - Ten(|Decimal(n)|)) % DWORD
  {
    hide Skewed, ToByte, IsDigit, Decimal, Ten;
    Digits(n);
    LastDigit(n);
    if n < 10 {
      SkewedStep([], n);
      NoDigits();
      Tens(0);
    } else {
      var front := Decimal(n / 10);
      SkewedStep(front, n % 10);
      SkewedDecimal(n / 10);
      TimesTen(Skewed(front), n / 10 + 1 - Ten(|front|), n % 10 - 9);
      Tens(|front|);
    }
  }

  lemma LastDigit(n: nat)
    ensures Decimal(n) == (if n < 10 then [] else Decimal(n / 10)) + [ToByte(48 + n % 10)]
  {
    hide ToByte;
  }

  lemma Tens(k: nat)
    ensures Ten(0) == 1 && Ten(k + 1) == 10 * Ten(k)
  {
  }

  lemma NoDigits()
    ensures Skewed([]) == 0
  {
  }

  lemma {:induction false} TenIsEven(k: nat)
    requires k > 0
    ensures Ten(k) % 2 == 0
  {
    assert Ten(k) == 2 * (5 * Ten(k - 1));
  }

  /** No build number is read back from the header it was written to. */
  lemma BuildNumberLost(build: nat)
    requires build < DWORD
    ensures DigitsOf(BuildText(build)) == Decimal(build)
    ensures Skewed(Decimal(build)) != build
  {
    hide Decimal, Skewed, IsDigit;
    DecimalLength(build);
    var padding := Zeros(BUILD_TEXT_SIZE - |Decimal(build)|);
    ZeroIsNoDigit();
    LeadingDigits(Decimal(build), padding);
    SkewedDecimal(build);
    TenIsEven(|Decimal(build)|);
  }

  lemma ZeroIsNoDigit()
    ensures !IsDigit(0)
  {
  }

  /** Reads the build number up to the first character that is no digit. */
  method StringToInt(text: seq<bv8>) returns (value: nat)
    requires exists i :: 0 <= i < |text| && !IsDigit(text[i])
    ensures value == Skewed(DigitsOf(text))
  {
    hide Skewed, IsDigit;
    value := 0;
    var i := 0;
    NoDigits();
    assert text[..0] + DigitsOf(text[0..]) == DigitsOf(text) by { assert text[0..] == text; }
    while IsDigit(text[i])
      invariant 0 <= i < |text| && (forall k :: 0 <= k < i ==> IsDigit(text[k]))
      invariant text[..i] + DigitsOf(text[i..]) == DigitsOf(text)
      invariant value == Skewed(text[..i])
      decreases |text| - i
    {
      SkewedNext(text[..i], text[i]);
      value := (10 * value + text[i] as int - 57) % DWORD;
      assert text[..i + 1] == text[..i] + [text[i]] && text[i..][1..] == text[i + 1..];
      i := i + 1;
    }
    assert text[..i] + DigitsOf(text[i..]) == text[..i];
  }

  lemma SkewedNext(digits: seq<bv8>, c: bv8)
    requires (forall i :: 0 <= i < |digits| ==> IsDigit(digits[i])) && IsDigit(c)
    ensures Skewed(digits + [c]) == (10 * Skewed(digits) + c as int - 57) % DWORD
  {
    hide IsDigit;
    assert (digits + [c])[..|digits|] == digits;
  }
}
