/** The (attributes) file of an archive: checksums, times, hashes and patch bits of its files. */
module Attributes {
  import opened Bitmap
  import opened Bytes

  const VERSION := 100
  const HEADER_SIZE := 8
  const MD5_SIZE := 16
  const FLAGS_RANGE := 16
  const PATCH_FILE: bv32 := 0x0010_0000
  /** More entries than this do not fit an archive. */
  const MAX_ENTRIES := 0x400_0000
  const MAX_FILE := 0x8000_0000

  datatype Entry = Entry(crc32: nat, fileTime: nat, md5: seq<bv8>, flags: bv32) {
    predicate Sized() { crc32 < DWORD && fileTime < QWORD && |md5| == MD5_SIZE }
    predicate Patched() { flags & PATCH_FILE != 0 }
  }

  /** Which arrays the file has, and how that is coded in its header. */
  datatype Flags = Flags(crc32: bool, fileTime: bool, md5: bool, patchBit: bool) {
    function Word(): (w: nat)
      ensures w < FLAGS_RANGE && FlagsOf(w) == this
    {
      (if crc32 then 1 else 0) + (if fileTime then 2 else 0) + (if md5 then 4 else 0) + (if patchBit then 8 else 0)
    }
  }

  function FlagsOf(w: nat): Flags {
    Flags(w % 2 == 1, w / 2 % 2 == 1, w / 4 % 2 == 1, w / 8 % 2 == 1)
  }

  predicate AllSized(table: seq<Entry>) { forall i :: 0 <= i < |table| ==> table[i].Sized() }

  predicate AnyPatched(table: seq<Entry>) { exists i :: 0 <= i < |table| && table[i].Patched() }

  // ----- The rotating masks -----

  function Wide(b: bv8): bv32 { b as bv32 }

  /** The writer's mask is a byte, the loader's a word; both rotate right, the word by way of its upper bytes. */
  function RotatedRight(m: bv8): bv8 { (m << 7) | (m >> 1) }

  function RotatedWide(m: bv32): bv32 { (m << 7) | (m >> 1) }

  /** Bit `k` of all four bytes. */
  function Spread(k: nat): bv32
    requires k < 8
  {
    if k == 0 then 0x0101_0101 else Spread(k - 1) << 1
  }

  /** A word whose lowest byte is the mask of bit `k`, and whose other bytes have at most that bit. */
  predicate WideMask(m: bv32, k: nat)
    requires k < 8
  {
    m & 0xFF == Wide(Mask(k)) && m & Spread(k) == m
  }

  lemma SpreadValues()
    ensures Spread(0) == 0x0101_0101 && Spread(1) == 0x0202_0202 && Spread(2) == 0x0404_0404 && Spread(3) == 0x0808_0808
    ensures Spread(4) == 0x1010_1010 && Spread(5) == 0x2020_2020 && Spread(6) == 0x4040_4040 && Spread(7) == 0x8080_8080
  {
    assert Spread(2) == Spread(1) << 1 && Spread(3) == Spread(2) << 1 && Spread(4) == Spread(3) << 1;
    assert Spread(5) == Spread(4) << 1 && Spread(6) == Spread(5) << 1 && Spread(7) == Spread(6) << 1;
  }

  /** The two masks stay the same in their lowest byte. */
  lemma MasksRotate(m: bv32, k: nat)
    requires k < 8 && WideMask(m, k)
    ensures WideMask(RotatedWide(m), (k + 7) % 8) && RotatedRight(Mask(k)) == Mask((k + 7) % 8)
    ensures m & 1 == Wide(Mask(k) & 1) == if k == 0 then 1 else 0
  {
    MaskValues();
    SpreadValues();
    if k == 0 { } else if k == 1 { } else if k == 2 { } else if k == 3 { }
    else if k == 4 { } else if k == 5 { } else if k == 6 { } else { }
  }

  lemma WideMaskSelects(b: bv8, m: bv32, k: nat)
    requires k < 8 && WideMask(m, k)
    ensures Wide(b) & m != 0 <==> HasBit(b, k)
  {
    hide Mask, Spread;
    Selects(b, m, Mask(k));
  }

  lemma Selects(b: bv8, m: bv32, mask: bv8)
    requires m & 0xFF == mask as bv32
    ensures (b as bv32) & m != 0 <==> b & mask != 0
  {
    assert (b as bv32) & m == ((b & mask) as bv32);
  }

  /** The place of entry `i` in its byte: the highest bit comes first. */
  function PlaceInByte(i: nat): (k: nat)
    ensures k < 8
  {
    7 - i % 8
  }

  function LowBit(m: bv8): nat { (m & 1) as nat }

  function LowBitWide(m: bv32): nat { (m & 1) as nat }

  /** Both masks move on to the next entry together with the byte index. */
  lemma NextEntry(m: bv32, i: nat)
    requires WideMask(m, PlaceInByte(i))
    ensures WideMask(RotatedWide(m), PlaceInByte(i + 1))
    ensures RotatedRight(Mask(PlaceInByte(i))) == Mask(PlaceInByte(i + 1))
    ensures i / 8 + LowBitWide(m) == (i + 1) / 8 == i / 8 + LowBit(Mask(PlaceInByte(i)))
  {
    hide WideMask, Mask, LowBit, LowBitWide, RotatedRight, RotatedWide, PlaceInByte;
    MasksRotate(m, PlaceInByte(i));
    LowBits(m, Mask(PlaceInByte(i)));
    NextPlace(i);
  }

  lemma NextPlace(i: nat)
    ensures (PlaceInByte(i) + 7) % 8 == PlaceInByte(i + 1)
    ensures (i + 1) / 8 == i / 8 + if PlaceInByte(i) == 0 then 1 else 0
  {
  }

  lemma LowBits(m: bv32, mask: bv8)
    requires m & 1 == Wide(mask & 1)
    ensures LowBitWide(m) == if m & 1 == 1 then 1 else 0
    ensures LowBit(mask) == LowBitWide(m)
  {
    if mask & 1 == 0 { } else { assert mask & 1 == 1; }
  }

  // ----- The bit array -----

  /** The bits of the first `n` entries, in as many bytes as `room`. */
  function Packed(table: seq<Entry>, n: nat, room: nat): (bits: seq<bv8>)
    requires n <= |table| && (n + 7) / 8 <= room
    ensures |bits| == room
  {
    if n == 0 then Zeros(room)
    else
      var bits := Packed(table, n - 1, room);
      if table[n - 1].Patched() then bits[(n - 1) / 8 := Or(bits[(n - 1) / 8], Mask(PlaceInByte(n - 1)))] else bits
  }

  lemma {:induction false} PackedBit(table: seq<Entry>, n: nat, room: nat, i: nat)
    requires n <= |table| && (n + 7) / 8 <= room && i / 8 < room
    ensures HasBit(Packed(table, n, room)[i / 8], PlaceInByte(i)) <==> i < n && table[i].Patched()
    decreases n
  {
    hide HasBit, Mask, Or;
    if n == 0 {
      NoBitInZero(PlaceInByte(i));
    } else {
      PackedBit(table, n - 1, room, i);
      if table[n - 1].Patched() && i / 8 == (n - 1) / 8 {
        OrSetsOne(Packed(table, n - 1, room)[i / 8], PlaceInByte(n - 1), PlaceInByte(i));
        assert PlaceInByte(n - 1) == PlaceInByte(i) <==> i == n - 1;
      }
    }
  }

  // ----- Sizes -----

  function SizeOfAttributesFile(flags: Flags, n: nat): nat {
    HEADER_SIZE + (if flags.crc32 then 4 * n else 0) + (if flags.fileTime then 8 * n else 0) +
      (if flags.md5 then MD5_SIZE * n else 0)
    + (if flags.patchBit then (n + 6) / 8 else 0)
  }

  /** The number of entries that a file of `size` bytes has for a table of `n`; zero if the size is wrong. */
  function EntriesOf(size: nat, flags: Flags, n: nat): nat {
    var crcs, times, hashes := if flags.crc32 then 4 * n else 0, if flags.fileTime then 8 * n else 0,
      if flags.md5 then MD5_SIZE * n else 0;
    var crcsLess, timesLess, hashesLess :=
      if flags.crc32 then 4 * n - 4 else 0, if flags.fileTime then 8 * n - 8 else 0,
      if flags.md5 then MD5_SIZE * n - MD5_SIZE else 0;
    var bits, words := if flags.patchBit then (n + 6) / 8 else 0, if flags.patchBit then 4 * n else 0;
    if size == (HEADER_SIZE + crcs + times + hashes + bits) % DWORD then n
    else if size == (HEADER_SIZE + crcsLess + timesLess + hashesLess + bits) % DWORD
      then (if n == 0 then DWORD - 1 else n - 1)
    else if size == (HEADER_SIZE + crcs + times + hashes) % DWORD then n
    else if size == (HEADER_SIZE + crcs + times + hashes + words) % DWORD then n
    else 0
  }

  // ----- The file -----

  function Qwords(ws: seq<nat>): (s: seq<bv8>)
    ensures |s| == 8 * |ws|
  {
    if ws == [] then [] else Le(ws[0], 8) + Qwords(ws[1..])
  }

  function Crcs(table: seq<Entry>): (ws: seq<nat>)
    ensures |ws| == |table|
  {
    seq(|table|, i requires 0 <= i < |table| => table[i].crc32)
  }

  function Times(table: seq<Entry>): (ws: seq<nat>)
    ensures |ws| == |table|
  {
    seq(|table|, i requires 0 <= i < |table| => table[i].fileTime)
  }

  function Hashes(table: seq<Entry>): (s: seq<bv8>)
    requires AllSized(table)
    ensures |s| == MD5_SIZE * |table|
  {
    if table == [] then [] else table[0].md5 + Hashes(table[1..])
  }

  /** The bit array has no room for the last entry if that would begin a byte. */
  function BitArray(table: seq<Entry>): (s: seq<bv8>)
    ensures |s| == (|table| + 6) / 8
  {
    Packed(table, |table|, (|table| + 6) / 8 + 1)[..(|table| + 6) / 8]
  }

  function Arrays(flags: Flags, table: seq<Entry>): (s: seq<bv8>)
    requires AllSized(table)
    ensures |s| + HEADER_SIZE == SizeOfAttributesFile(flags, |table|)
  {
    (if flags.crc32 then Dwords(Crcs(table)) else []) + (if flags.fileTime then Qwords(Times(table)) else [])
    + (if flags.md5 then Hashes(table) else []) + (if flags.patchBit then BitArray(table) else [])
  }

  function Layout(flags: Flags, table: seq<Entry>): (s: seq<bv8>)
    requires AllSized(table)
    ensures |s| == SizeOfAttributesFile(flags, |table|)
  {
    Dwords([VERSION, flags.Word()]) + Arrays(flags, table)
  }

  // ----- Loading -----

  datatype Result = Success | BadFormat | Corrupt

  function WithCrcs(table: seq<Entry>, file: seq<bv8>, pos: nat, k: nat): (r: seq<Entry>)
    requires k <= |table| && pos + 4 * k <= |file|
    ensures |r| == |table|
  {
    seq(|table|, i requires 0 <= i < |table| => if i < k then table[i].(crc32 := DwordAt(file, pos + 4 * i))
      else table[i])
  }

  function WithTimes(table: seq<Entry>, file: seq<bv8>, pos: nat, k: nat): (r: seq<Entry>)
    requires k <= |table| && pos + 8 * k <= |file|
    ensures |r| == |table|
  {
    seq(|table|, i requires 0 <= i < |table| =>
      if i < k then table[i].(fileTime := FromLe(file[pos + 8 * i..pos + 8 * i + 8])) else table[i])
  }

  function WithHashes(table: seq<Entry>, file: seq<bv8>, pos: nat, k: nat): (r: seq<Entry>)
    requires k <= |table| && pos + MD5_SIZE * k <= |file|
    ensures |r| == |table|
  {
    seq(|table|, i requires 0 <= i < |table| =>
      if i < k then table[i].(md5 := file[pos + MD5_SIZE * i..pos + MD5_SIZE * i + MD5_SIZE]) else table[i])
  }

  function WithBits(table: seq<Entry>, file: seq<bv8>, pos: nat, k: nat): (r: seq<Entry>)
    requires k <= |table| && pos + (k + 7) / 8 <= |file|
    ensures |r| == |table|
  {
    seq(|table|, i requires 0 <= i < |table| =>
      if i < k then table[i].(flags := OrFlags(table[i].flags, HasBit(file[pos + i / 8], PlaceInByte(i))))
        else table[i])
  }

  function OrFlags(flags: bv32, patched: bool): bv32 { flags | (if patched then PATCH_FILE else 0) }

  /** The arrays from `pos` on, for the first `k` entries. */
  function LoadArrays(file: seq<bv8>, pos: nat, flags: Flags, k: nat, table: seq<Entry>): (Result, seq<Entry>)
    requires k <= |table| && pos <= |file|
  {
    if !flags.crc32 then LoadFromTimes(file, pos, flags, k, table)
    else if pos + 4 * k > |file| then (Corrupt, table)
    else LoadFromTimes(file, pos + 4 * k, flags, k, WithCrcs(table, file, pos, k))
  }

  function LoadFromTimes(file: seq<bv8>, pos: nat, flags: Flags, k: nat, table: seq<Entry>): (Result, seq<Entry>)
    requires k <= |table| && pos <= |file|
  {
    if !flags.fileTime then LoadFromHashes(file, pos, flags, k, table)
    else if pos + 8 * k > |file| then (Corrupt, table)
    else LoadFromHashes(file, pos + 8 * k, flags, k, WithTimes(table, file, pos, k))
  }

  function LoadFromHashes(file: seq<bv8>, pos: nat, flags: Flags, k: nat, table: seq<Entry>): (Result, seq<Entry>)
    requires k <= |table| && pos <= |file|
  {
    if !flags.md5 then LoadPatchBits(file, pos, flags, k, table)
    else if pos + MD5_SIZE * k > |file| then (Corrupt, table)
    else LoadPatchBits(file, pos + MD5_SIZE * k, flags, k, WithHashes(table, file, pos, k))
  }

  /** A bit array of any other size than that of the entries is ignored. */
  function LoadPatchBits(file: seq<bv8>, pos: nat, flags: Flags, k: nat, table: seq<Entry>): (Result, seq<Entry>)
    requires k <= |table| && pos <= |file|
  {
    if flags.patchBit && pos + (k + 7) / 8 == |file| then (Success, WithBits(table, file, pos, k)) else (Success, table)
  }

  lemma EntriesBound(size: nat, flags: Flags, n: nat)
    requires size < MAX_FILE && n <= MAX_ENTRIES && size >= HEADER_SIZE
    ensures EntriesOf(size, flags, n) <= n
  {
  }

  function Load(file: seq<bv8>, flags: Flags, table: seq<Entry>): (Result, Flags, seq<Entry>)
    requires |file| < MAX_FILE && |table| <= MAX_ENTRIES
  {
    if |file| < HEADER_SIZE then
      var (result, loaded) := LoadArrays(file, 0, flags, 0, table);
      (result, flags, loaded)
    else if DwordAt(file, 0) != VERSION || DwordAt(file, 4) >= FLAGS_RANGE then (BadFormat, flags, table)
    else
      var stored := FlagsOf(DwordAt(file, 4));
      var entries := EntriesOf(|file|, stored, |table|);
      EntriesBound(|file|, stored, |table|);
      if entries == 0 then (BadFormat, flags, table)
      else
        var (result, loaded) := LoadArrays(file, HEADER_SIZE, stored, entries, table);
        (result, stored, loaded)
  }

  class Archive {
    var fileTable: seq<Entry>
    var attrFlags: Flags

    constructor (fileTable: seq<Entry>, attrFlags: Flags)
      ensures this.fileTable == fileTable && this.attrFlags == attrFlags
    {
      this.fileTable, this.attrFlags := fileTable, attrFlags;
    }

    method CreateAttributesFile() returns (file: seq<bv8>)
      requires AllSized(fileTable)
      modifies this`attrFlags
      ensures attrFlags == old(attrFlags).(patchBit := old(attrFlags).patchBit || AnyPatched(fileTable))
      ensures file == Layout(attrFlags, fileTable)
    {
      hide Entry.Patched, Entry.Sized, Dwords, Qwords, Crcs, Times, Hashes, Packed, Flags.Word, Layout;
      MarkPatched();
      var crcs, times, hashes, bits: seq<bv8> := [], [], [], [];
      if attrFlags.crc32 {
        crcs := WriteCrcs();
      }
      if attrFlags.fileTime {
        times := WriteTimes();
      }
      if attrFlags.md5 {
        hashes := WriteHashes();
      }
      if attrFlags.patchBit {
        bits := WriteBits();
        bits := bits[..(|fileTable| + 6) / 8];
      }
      file := Dwords([VERSION, attrFlags.Word()]) + crcs + times + hashes + bits;
      LayoutByParts(attrFlags, fileTable, crcs, times, hashes, bits);
    }

    method MarkPatched()
      modifies this`attrFlags
      ensures attrFlags == old(attrFlags).(patchBit := old(attrFlags).patchBit || AnyPatched(fileTable))
    {
      hide Entry.Patched;
      var i := 0;
      while i < |fileTable|
        invariant 0 <= i <= |fileTable| && attrFlags == old(attrFlags)
        invariant forall k :: 0 <= k < i ==> !fileTable[k].Patched()
      {
        if fileTable[i].Patched() {
          attrFlags := attrFlags.(patchBit := true);
          return;
        }
        i := i + 1;
      }
    }

    method WriteCrcs() returns (s: seq<bv8>)
      ensures s == Dwords(Crcs(fileTable))
    {
      hide Le;
      s := [];
      var i := 0;
      while i < |fileTable|
        invariant 0 <= i <= |fileTable| && s + Dwords(Crcs(fileTable)[i..]) == Dwords(Crcs(fileTable))
      {
        assert Crcs(fileTable)[i..][1..] == Crcs(fileTable)[i + 1..];
        s := s + Le(fileTable[i].crc32, 4);
        i := i + 1;
      }
    }

    method WriteTimes() returns (s: seq<bv8>)
      ensures s == Qwords(Times(fileTable))
    {
      hide Le;
      s := [];
      var i := 0;
      while i < |fileTable|
        invariant 0 <= i <= |fileTable| && s + Qwords(Times(fileTable)[i..]) == Qwords(Times(fileTable))
      {
        assert Times(fileTable)[i..][1..] == Times(fileTable)[i + 1..];
        s := s + Le(fileTable[i].fileTime, 8);
        i := i + 1;
      }
    }

    method WriteHashes() returns (s: seq<bv8>)
      requires AllSized(fileTable)
      ensures s == Hashes(fileTable)
    {
      s := [];
      var i := 0;
      assert fileTable[0..] == fileTable;
      while i < |fileTable|
        invariant 0 <= i <= |fileTable| && s + Hashes(fileTable[i..]) == Hashes(fileTable)
      {
        assert fileTable[i..][1..] == fileTable[i + 1..];
        s := s + fileTable[i].md5;
        i := i + 1;
      }
    }

    /** The array has a byte more than is kept. */
    method WriteBits() returns (bits: seq<bv8>)
      ensures bits == Packed(fileTable, |fileTable|, (|fileTable| + 6) / 8 + 1)
    {
      hide Mask, Or, Entry.Patched, RotatedRight, LowBit;
      bits := Zeros((|fileTable| + 6) / 8 + 1);
      var i, byteIndex: nat, bitMask: bv8 := 0, 0, 0x80;
      FirstMasks();
      while i < |fileTable|
        invariant 0 <= i <= |fileTable| && bits == Packed(fileTable, i, (|fileTable| + 6) / 8 + 1)
        invariant byteIndex == i / 8 && bitMask == Mask(PlaceInByte(i))
        invariant exists m :: WideMask(m, PlaceInByte(i))
      {
        if fileTable[i].Patched() {
          bits := bits[byteIndex := Or(bits[byteIndex], bitMask)];
        }
        ghost var m :| WideMask(m, PlaceInByte(i));
        NextEntry(m, i);
        byteIndex := byteIndex + LowBit(bitMask);
        bitMask := RotatedRight(bitMask);
        i := i + 1;
      }
    }

    method LoadAttributesFile(file: seq<bv8>) returns (result: Result)
      requires |file| < MAX_FILE && |fileTable| <= MAX_ENTRIES
      modifies this
      ensures (result, attrFlags, fileTable) == Load(file, old(attrFlags), old(fileTable))
    {
      hide DwordAt, Flags.Word, EntriesOf, LoadArrays;
      var entries, pos := 0, 0;
      if HEADER_SIZE <= |file| {
        if DwordAt(file, 0) != VERSION {
          return BadFormat;
        }
        if DwordAt(file, 4) >= FLAGS_RANGE {
          return BadFormat;
        }
        entries := EntriesOf(|file|, FlagsOf(DwordAt(file, 4)), |fileTable|);
        EntriesBound(|file|, FlagsOf(DwordAt(file, 4)), |fileTable|);
        if entries == 0 {
          return BadFormat;
        }
        attrFlags := FlagsOf(DwordAt(file, 4));
        pos := HEADER_SIZE;
      }
      result := ReadArrays(file, pos, entries);
    }

    method ReadArrays(file: seq<bv8>, start: nat, entries: nat) returns (result: Result)
      requires entries <= |fileTable| && start <= |file|
      modifies this`fileTable
      ensures (result, fileTable) == LoadArrays(file, start, attrFlags, entries, old(fileTable))
    {
      hide WithCrcs, WithTimes, WithHashes, WithBits;
      var pos := start;
      if attrFlags.crc32 {
        if pos + 4 * entries > |file| {
          return Corrupt;
        }
        ReadCrcs(file, pos, entries);
        pos := pos + 4 * entries;
      }
      if attrFlags.fileTime {
        if pos + 8 * entries > |file| {
          return Corrupt;
        }
        ReadTimes(file, pos, entries);
        pos := pos + 8 * entries;
      }
      if attrFlags.md5 {
        if pos + MD5_SIZE * entries > |file| {
          return Corrupt;
        }
        ReadHashes(file, pos, entries);
        pos := pos + MD5_SIZE * entries;
      }
      if attrFlags.patchBit && pos + (entries + 7) / 8 == |file| {
        ReadBits(file, pos, entries);
      }
      result := Success;
    }

    method ReadCrcs(file: seq<bv8>, pos: nat, k: nat)
      requires k <= |fileTable| && pos + 4 * k <= |file|
      modifies this`fileTable
      ensures fileTable == WithCrcs(old(fileTable), file, pos, k)
    {
      hide DwordAt;
      var i := 0;
      while i < k
        invariant 0 <= i <= k <= |fileTable| == |old(fileTable)| && fileTable == WithCrcs(old(fileTable), file, pos, i)
      {
        fileTable := fileTable[i := fileTable[i].(crc32 := DwordAt(file, pos + 4 * i))];
        i := i + 1;
      }
    }

    method ReadTimes(file: seq<bv8>, pos: nat, k: nat)
      requires k <= |fileTable| && pos + 8 * k <= |file|
      modifies this`fileTable
      ensures fileTable == WithTimes(old(fileTable), file, pos, k)
    {
      hide FromLe;
      var i := 0;
      while i < k
        invariant 0 <= i <= k <= |fileTable| == |old(fileTable)| && fileTable == WithTimes(old(fileTable), file, pos, i)
      {
        fileTable := fileTable[i := fileTable[i].(fileTime := FromLe(file[pos + 8 * i..pos + 8 * i + 8]))];
        i := i + 1;
      }
    }

    method ReadHashes(file: seq<bv8>, pos: nat, k: nat)
      requires k <= |fileTable| && pos + MD5_SIZE * k <= |file|
      modifies this`fileTable
      ensures fileTable == WithHashes(old(fileTable), file, pos, k)
    {
      var i, at := 0, pos;
      while i < k
        invariant 0 <= i <= k <= |fileTable| == |old(fileTable)| && at == pos + MD5_SIZE * i
        invariant fileTable == WithHashes(old(fileTable), file, pos, i)
      {
        fileTable := fileTable[i := fileTable[i].(md5 := file[at..at + MD5_SIZE])];
        at := at + MD5_SIZE;
        i := i + 1;
      }
    }

    method ReadBits(file: seq<bv8>, pos: nat, k: nat)
      requires k <= |fileTable| && pos + (k + 7) / 8 <= |file|
      modifies this`fileTable
      ensures fileTable == WithBits(old(fileTable), file, pos, k)
    {
      hide WideMask, HasBit, LowBitWide, RotatedWide, OrFlags, PlaceInByte, WithBits;
      var i: nat, byteIndex: nat, bitMask: bv32 := 0, 0, 0x80;
      FirstMasks();
      NoBitsYet(fileTable, file, pos);
      while i < k
        invariant i <= k <= |fileTable| == |old(fileTable)| && byteIndex == i / 8 && WideMask(bitMask, PlaceInByte(i))
        invariant (i + 7) / 8 <= (k + 7) / 8 && fileTable == WithBits(old(fileTable), file, pos, i)
      {
        OneMoreBit(old(fileTable), file, pos, i);
        WideMaskSelects(file[pos + byteIndex], bitMask, PlaceInByte(i));
        var patched := Wide(file[pos + byteIndex]) & bitMask != 0;
        fileTable := fileTable[i := fileTable[i].(flags := OrFlags(fileTable[i].flags, patched))];
        NextEntry(bitMask, i);
        byteIndex := byteIndex + LowBitWide(bitMask);
        bitMask := RotatedWide(bitMask);
        i := i + 1;
      }
    }
  }

  lemma NoBitsYet(table: seq<Entry>, file: seq<bv8>, pos: nat)
    requires pos <= |file|
    ensures WithBits(table, file, pos, 0) == table
  {
  }

  lemma OneMoreBit(table: seq<Entry>, file: seq<bv8>, pos: nat, i: nat)
    requires i < |table| && pos + i / 8 < |file|
    ensures (i + 7) / 8 <= i / 8 + 1 == (i + 8) / 8
    ensures var now := WithBits(table, file, pos, i);
      WithBits(table, file, pos, i + 1) ==
        now[i := now[i].(flags := OrFlags(now[i].flags, HasBit(file[pos + i / 8], PlaceInByte(i))))]
  {
    hide HasBit, OrFlags, PlaceInByte;
  }

  lemma FirstMasks()
    ensures Mask(PlaceInByte(0)) == 0x80 && WideMask(0x80, PlaceInByte(0))
  {
    MaskValues();
    SpreadValues();
  }

  lemma LayoutByParts(flags: Flags, table: seq<Entry>, crcs: seq<bv8>, times: seq<bv8>, hashes: seq<bv8>,
                      bits: seq<bv8>)
    requires AllSized(table)
    requires crcs == (if flags.crc32 then Dwords(Crcs(table)) else [])
    requires times == (if flags.fileTime then Qwords(Times(table)) else [])
    requires hashes == (if flags.md5 then Hashes(table) else [])
    requires bits == (if flags.patchBit then BitArray(table) else [])
    ensures Dwords([VERSION, flags.Word()]) + crcs + times + hashes + bits == Layout(flags, table)
  {
    hide Dwords, Qwords, Hashes, BitArray;
  }

  // ----- What is stored is loaded -----

  /** A file with the arrays of a table, but with anything in the place of the bit array. */
  function StoredFile(flags: Flags, table: seq<Entry>, tail: seq<bv8>): (s: seq<bv8>)
    requires AllSized(table)
    ensures |s| == HEADER_SIZE + EntrySize(flags) * |table| + |tail|
  {
    SizeOfArrays(flags, |table|);
    Dwords([VERSION, flags.Word()]) + (if flags.crc32 then Dwords(Crcs(table)) else []) +
      (if flags.fileTime then Qwords(Times(table)) else []) + (if flags.md5 then Hashes(table) else []) + tail
  }

  /** What an entry takes in all arrays but that of bits. */
  function EntrySize(flags: Flags): nat {
    (if flags.crc32 then 4 else 0) + (if flags.fileTime then 8 else 0) + (if flags.md5 then MD5_SIZE else 0)
  }

  lemma LayoutIsStored(flags: Flags, table: seq<Entry>)
    requires AllSized(table)
    ensures Layout(flags, table) == StoredFile(flags, table, if flags.patchBit then BitArray(table) else [])
  {
    hide Dwords, Qwords, Hashes, BitArray, Crcs, Times;
  }

  /** The first entries of a table with checksums put in. */
  function SetCrcs(blank: seq<Entry>, table: seq<Entry>): (r: seq<Entry>)
    requires |table| <= |blank|
    ensures |r| == |blank|
  {
    seq(|blank|, i requires 0 <= i < |blank| => if i < |table| then blank[i].(crc32 := table[i].crc32) else blank[i])
  }

  function SetTimes(blank: seq<Entry>, table: seq<Entry>): (r: seq<Entry>)
    requires |table| <= |blank|
    ensures |r| == |blank|
  {
    seq(|blank|, i requires 0 <= i < |blank| =>
      if i < |table| then blank[i].(fileTime := table[i].fileTime) else blank[i])
  }

  function SetHashes(blank: seq<Entry>, table: seq<Entry>): (r: seq<Entry>)
    requires |table| <= |blank|
    ensures |r| == |blank|
  {
    seq(|blank|, i requires 0 <= i < |blank| => if i < |table| then blank[i].(md5 := table[i].md5) else blank[i])
  }

  lemma CrcsLoad(before: seq<bv8>, table: seq<Entry>, after: seq<bv8>, blank: seq<Entry>)
    requires AllSized(table) && |table| <= |blank|
    ensures WithCrcs(blank, before + Dwords(Crcs(table)) + after, |before|, |table|) == SetCrcs(blank, table)
  {
    hide Dwords, DwordAt;
    var file := before + Dwords(Crcs(table)) + after;
    forall i | 0 <= i < |table| ensures DwordAt(file, |before| + 4 * i) == table[i].crc32 {
      DwordReadBack(before, Crcs(table), after, i);
    }
  }

  lemma {:induction false} QwordsAt(ws: seq<nat>, i: nat)
    requires i < |ws|
    ensures Qwords(ws)[8 * i..8 * i + 8] == Le(ws[i], 8)
  {
    if i > 0 {
      QwordsAt(ws[1..], i - 1);
      SliceBehind(Le(ws[0], 8), Qwords(ws[1..]), 8 * (i - 1), 8);
    }
  }

  lemma TimesLoad(before: seq<bv8>, table: seq<Entry>, after: seq<bv8>, blank: seq<Entry>)
    requires AllSized(table) && |table| <= |blank|
    ensures WithTimes(blank, before + Qwords(Times(table)) + after, |before|, |table|) == SetTimes(blank, table)
  {
    hide Qwords, FromLe, Le;
    var file := before + Qwords(Times(table)) + after;
    forall i | 0 <= i < |table| ensures FromLe(file[|before| + 8 * i..|before| + 8 * i + 8]) == table[i].fileTime {
      QwordsAt(Times(table), i);
      Le64RoundTrip(table[i].fileTime);
      SliceInside(before, Qwords(Times(table)), after, 8 * i, 8);
    }
  }

  lemma {:induction false} HashesAt(table: seq<Entry>, i: nat)
    requires AllSized(table) && i < |table|
    ensures Hashes(table)[MD5_SIZE * i..MD5_SIZE * i + MD5_SIZE] == table[i].md5
  {
    if i > 0 {
      HashesAt(table[1..], i - 1);
      SliceBehind(table[0].md5, Hashes(table[1..]), MD5_SIZE * (i - 1), MD5_SIZE);
    }
  }

  lemma HashesLoad(before: seq<bv8>, table: seq<Entry>, after: seq<bv8>, blank: seq<Entry>)
    requires AllSized(table) && |table| <= |blank|
    ensures WithHashes(blank, before + Hashes(table) + after, |before|, |table|) == SetHashes(blank, table)
  {
    hide Hashes, AllSized;
    var file := before + Hashes(table) + after;
    forall i | 0 <= i < |table|
      ensures file[|before| + MD5_SIZE * i..|before| + MD5_SIZE * i + MD5_SIZE] == table[i].md5
    {
      HashesAt(table, i);
      SliceInside(before, Hashes(table), after, MD5_SIZE * i, MD5_SIZE);
    }
  }

  /** What the flagged arrays but that of bits put into another table. */
  function Restored(flags: Flags, table: seq<Entry>, blank: seq<Entry>): (r: seq<Entry>)
    requires |table| <= |blank|
    ensures |r| == |blank|
  {
    RestoredFromTimes(flags, table, if flags.crc32 then SetCrcs(blank, table) else blank)
  }

  function RestoredFromTimes(flags: Flags, table: seq<Entry>, blank: seq<Entry>): (r: seq<Entry>)
    requires |table| <= |blank|
    ensures |r| == |blank|
  {
    RestoredFromHashes(flags, table, if flags.fileTime then SetTimes(blank, table) else blank)
  }

  function RestoredFromHashes(flags: Flags, table: seq<Entry>, blank: seq<Entry>): (r: seq<Entry>)
    requires |table| <= |blank|
    ensures |r| == |blank|
  {
    if flags.md5 then SetHashes(blank, table) else blank
  }

  lemma RestoredEntry(flags: Flags, table: seq<Entry>, blank: seq<Entry>, i: nat)
    requires |table| <= |blank| && i < |blank|
    ensures var r, stored := Restored(flags, table, blank)[i], i < |table|;
      && r.crc32 == (if stored && flags.crc32 then table[i].crc32 else blank[i].crc32)
      && r.fileTime == (if stored && flags.fileTime then table[i].fileTime else blank[i].fileTime)
      && r.md5 == (if stored && flags.md5 then table[i].md5 else blank[i].md5) && r.flags == blank[i].flags
  {
  }

  /** The tail is taken for a bit array if it has its size. */
  function WithTail(flags: Flags, tail: seq<bv8>, k: nat, table: seq<Entry>): (r: seq<Entry>)
    requires k <= |table|
    ensures |r| == |table|
  {
    if flags.patchBit && |tail| == (k + 7) / 8 then WithBits(table, tail, 0, k) else table
  }

  lemma TailLoads(before: seq<bv8>, flags: Flags, k: nat, blank: seq<Entry>, tail: seq<bv8>)
    requires k <= |blank|
    ensures LoadPatchBits(before + tail, |before|, flags, k, blank) == (Success, WithTail(flags, tail, k, blank))
  {
    hide HasBit, OrFlags, PlaceInByte;
    if flags.patchBit && |tail| == (k + 7) / 8 {
      assert WithBits(blank, before + tail, |before|, k) == WithBits(blank, tail, 0, k);
    }
  }

  lemma LoadsFromHashes(before: seq<bv8>, flags: Flags, table: seq<Entry>, blank: seq<Entry>, tail: seq<bv8>)
    requires AllSized(table) && |table| <= |blank|
    ensures LoadFromHashes(before + (if flags.md5 then Hashes(table) else []) + tail, |before|, flags, |table|,
      blank) ==
            (Success, WithTail(flags, tail, |table|, RestoredFromHashes(flags, table, blank)))
  {
    hide AllSized, Hashes, WithHashes, SetHashes, LoadPatchBits, WithTail;
    if flags.md5 {
      HashesThenBits(before, flags, table, blank, tail);
      TailLoads(before + Hashes(table), flags, |table|, SetHashes(blank, table), tail);
    } else {
      assert before + [] + tail == before + tail;
      TailLoads(before, flags, |table|, blank, tail);
    }
  }

  lemma HashesThenBits(before: seq<bv8>, flags: Flags, table: seq<Entry>, blank: seq<Entry>, tail: seq<bv8>)
    requires AllSized(table) && |table| <= |blank| && flags.md5
    ensures LoadFromHashes(before + Hashes(table) + tail, |before|, flags, |table|, blank) ==
            LoadPatchBits(before + Hashes(table) + tail, |before + Hashes(table)|, flags, |table|,
              SetHashes(blank, table))
  {
    hide Hashes, WithHashes, SetHashes, LoadPatchBits;
    HashesLoad(before, table, tail, blank);
  }

  lemma LoadsFromTimes(before: seq<bv8>, flags: Flags, table: seq<Entry>, blank: seq<Entry>, hashes: seq<bv8>,
                       tail: seq<bv8>)
    requires AllSized(table) && |table| <= |blank| && hashes == if flags.md5 then Hashes(table) else []
    ensures var times := if flags.fileTime then Qwords(Times(table)) else [];
      LoadFromTimes(before + times + hashes + tail, |before|, flags, |table|, blank) ==
      (Success, WithTail(flags, tail, |table|, RestoredFromTimes(flags, table, blank)))
  {
    hide AllSized, Qwords, Times, Hashes, WithTimes, SetTimes, LoadFromHashes, RestoredFromHashes, WithTail;
    if flags.fileTime {
      TimesThenRest(before, flags, table, blank, hashes + tail);
      assert before + Qwords(Times(table)) + hashes + tail == before + Qwords(Times(table)) + (hashes + tail);
      LoadsFromHashes(before + Qwords(Times(table)), flags, table, SetTimes(blank, table), tail);
    } else {
      assert before + [] + hashes + tail == before + hashes + tail;
      LoadsFromHashes(before, flags, table, blank, tail);
    }
  }

  lemma TimesThenRest(before: seq<bv8>, flags: Flags, table: seq<Entry>, blank: seq<Entry>, rest: seq<bv8>)
    requires AllSized(table) && |table| <= |blank| && flags.fileTime
    ensures var times := Qwords(Times(table));
      LoadFromTimes(before + times + rest, |before|, flags, |table|, blank) ==
      LoadFromHashes(before + times + rest, |before + times|, flags, |table|, SetTimes(blank, table))
  {
    hide AllSized, Qwords, Times, WithTimes, SetTimes, LoadFromHashes;
    TimesLoad(before, table, rest, blank);
  }

  lemma ArraysLoad(before: seq<bv8>, flags: Flags, table: seq<Entry>, blank: seq<Entry>, tail: seq<bv8>)
    requires AllSized(table) && |table| <= |blank|
    ensures var crcs := if flags.crc32 then Dwords(Crcs(table)) else [];
      var times := if flags.fileTime then Qwords(Times(table)) else [];
      var hashes := if flags.md5 then Hashes(table) else [];
      LoadArrays(before + crcs + times + hashes + tail, |before|, flags, |table|, blank) ==
      (Success, WithTail(flags, tail, |table|, Restored(flags, table, blank)))
  {
    hide AllSized, Dwords, Crcs, Qwords, Times, Hashes, WithCrcs, SetCrcs, LoadFromTimes, RestoredFromTimes, WithTail;
    var crcs, times := if flags.crc32 then Dwords(Crcs(table)) else [],
      if flags.fileTime then Qwords(Times(table)) else [];
    var hashes := if flags.md5 then Hashes(table) else [];
    assert before + crcs + times + hashes + tail == before + crcs + (times + hashes + tail);
    CrcsThenRest(before, flags, table, blank, crcs, times + hashes + tail);
    LoadsFromTimes(before + crcs, flags, table, if flags.crc32 then SetCrcs(blank, table) else blank, hashes, tail);
  }

  lemma CrcsThenRest(before: seq<bv8>, flags: Flags, table: seq<Entry>, blank: seq<Entry>, crcs: seq<bv8>,
                     rest: seq<bv8>)
    requires AllSized(table) && |table| <= |blank| && crcs == if flags.crc32 then Dwords(Crcs(table)) else []
    ensures LoadArrays(before + crcs + rest, |before|, flags, |table|, blank) ==
            LoadFromTimes(before + crcs + rest, |before + crcs|, flags, |table|,
              if flags.crc32 then SetCrcs(blank, table) else blank)
  {
    hide Dwords, Crcs, WithCrcs, SetCrcs, LoadFromTimes;
    if flags.crc32 {
      CrcsLoad(before, table, rest, blank);
    }
  }

  lemma HeaderReads(words: seq<nat>, arrays: seq<bv8>)
    requires |words| == 2 && words[0] < DWORD && words[1] < DWORD
    ensures DwordAt(Dwords(words) + arrays, 0) == words[0] && DwordAt(Dwords(words) + arrays, 4) == words[1]
  {
    hide Dwords, DwordAt;
    assert [] + Dwords(words) + arrays == Dwords(words) + arrays;
    DwordReadBack([], words, arrays, 0);
    DwordReadBack([], words, arrays, 1);
  }

  lemma HeaderThenArrays(flags: Flags, table: seq<Entry>, tail: seq<bv8>)
    requires AllSized(table)
    ensures var file := StoredFile(flags, table, tail);
      DwordAt(file, 0) == VERSION && DwordAt(file, 4) == flags.Word()
  {
    hide AllSized, Dwords, DwordAt, Crcs, Qwords, Times, Hashes, Flags.Word;
    var words, crcs, times := [VERSION, flags.Word()], if flags.crc32 then Dwords(Crcs(table)) else [],
      if flags.fileTime then Qwords(Times(table)) else [];
    var hashes := if flags.md5 then Hashes(table) else [];
    assert StoredFile(flags, table, tail) == Dwords(words) + (crcs + times + hashes + tail);
    HeaderReads(words, crcs + times + hashes + tail);
  }

  /** If a file is taken to have as many entries as it has, all of them are loaded. */
  lemma StoredLoads(flags: Flags, table: seq<Entry>, tail: seq<bv8>, before: Flags, blank: seq<Entry>)
    requires AllSized(table) && 1 <= |table| <= |blank| <= MAX_ENTRIES
    requires |StoredFile(flags, table, tail)| < MAX_FILE
    requires EntriesOf(|StoredFile(flags, table, tail)|, flags, |blank|) == |table|
    ensures Load(StoredFile(flags, table, tail), before, blank) ==
            (Success, flags, WithTail(flags, tail, |table|, Restored(flags, table, blank)))
  {
    hide AllSized, Dwords, DwordAt, LoadArrays, Restored, Flags.Word, FlagsOf, EntriesOf, WithTail, Crcs, Qwords, Times,
      Hashes;
    HeaderThenArrays(flags, table, tail);
    ArraysLoad(Dwords([VERSION, flags.Word()]), flags, table, blank, tail);
  }

  /** How an entry looks after loading: what is flagged and was stored is there, and the rest is as before. */
  ghost predicate EntryLoaded(flags: Flags, table: seq<Entry>, blank: seq<Entry>, loaded: seq<Entry>, i: nat)
    requires |table| <= |blank| == |loaded| && i < |blank|
  {
    && loaded[i].crc32 == (if i < |table| && flags.crc32 then table[i].crc32 else blank[i].crc32)
    && loaded[i].fileTime == (if i < |table| && flags.fileTime then table[i].fileTime else blank[i].fileTime)
    && loaded[i].md5 == (if i < |table| && flags.md5 then table[i].md5 else blank[i].md5)
  }

  lemma TailKeepsFields(flags: Flags, table: seq<Entry>, tail: seq<bv8>, blank: seq<Entry>, i: nat)
    requires |table| <= |blank| && i < |blank|
    ensures var loaded := WithTail(flags, tail, |table|, Restored(flags, table, blank));
      && EntryLoaded(flags, table, blank, loaded, i)
      && loaded[i].flags == if flags.patchBit && |tail| == (|table| + 7) / 8 && i < |table|
        then OrFlags(blank[i].flags, HasBit(tail[i / 8], PlaceInByte(i))) else blank[i].flags
  {
    hide Restored, OrFlags, HasBit, PlaceInByte;
    RestoredEntry(flags, table, blank, i);
  }

  // ----- Which files are accepted -----

  /** The sizes that a file may have: all arrays as the writer makes them; the same for one entry less, but
      with the bit array of all entries; no bit array; or a word for each entry in place of a bit. */
  ghost predicate SizeAccepted(size: nat, flags: Flags, n: nat) {
    var bits := if flags.patchBit then (n + 6) / 8 else 0;
    || size == HEADER_SIZE + EntrySize(flags) * n + bits
    || (n > 1 && size == HEADER_SIZE + EntrySize(flags) * (n - 1) + bits)
    || size == HEADER_SIZE + EntrySize(flags) * n
    || (flags.patchBit && size == HEADER_SIZE + EntrySize(flags) * n + 4 * n)
  }

  /** With a good header the size alone decides: a file is loaded, or else refused and nothing is changed. */
  lemma SizeDecides(file: seq<bv8>, before: Flags, blank: seq<Entry>)
    requires HEADER_SIZE <= |file| < MAX_FILE && |blank| <= MAX_ENTRIES
    requires DwordAt(file, 0) == VERSION && DwordAt(file, 4) < FLAGS_RANGE
    ensures var flags := FlagsOf(DwordAt(file, 4));
      if |blank| > 0 && SizeAccepted(|file|, flags, |blank|)
      then Load(file, before, blank).0 == Success && Load(file, before, blank).1 == flags
      else Load(file, before, blank) == (BadFormat, before, blank)
  {
    hide DwordAt, FlagsOf, EntriesOf, LoadArrays, SizeAccepted;
    var flags := FlagsOf(DwordAt(file, 4));
    EntriesBound(|file|, flags, |blank|);
    EntriesBySize(|file|, flags, |blank|);
    ArraysFit(file, HEADER_SIZE, flags, EntriesOf(|file|, flags, |blank|), blank);
  }

  lemma EntriesBySize(size: nat, flags: Flags, n: nat)
    requires HEADER_SIZE <= size < MAX_FILE && n <= MAX_ENTRIES
    ensures EntriesOf(size, flags, n) > 0 <==> n > 0 && SizeAccepted(size, flags, n)
    ensures HEADER_SIZE + EntrySize(flags) * EntriesOf(size, flags, n) <= size
  {
    hide EntriesOf, EntrySize;
    if n == 0 {
      NoEntries(size, flags);
    } else {
      EntriesByCase(size, flags, n);
      OneLess(EntrySize(flags), n - 1);
      TimesBound(EntrySize(flags), n);
    }
  }

  lemma NoEntries(size: nat, flags: Flags)
    requires HEADER_SIZE <= size < MAX_FILE
    ensures EntriesOf(size, flags, 0) == 0
  {
  }

  lemma TimesBound(size: nat, n: nat)
    requires n > 0
    ensures size * n >= size && size * 0 == 0
  {
  }

  /** The number of entries that is read off the size, in the order of the tests. */
  lemma EntriesByCase(size: nat, flags: Flags, n: nat)
    requires 1 <= n <= MAX_ENTRIES
    ensures var all, bits := HEADER_SIZE + EntrySize(flags) * n, if flags.patchBit then (n + 6) / 8 else 0;
      EntriesOf(size, flags, n) ==
      if size == all + bits then n
      else if size == all - EntrySize(flags) + bits then n - 1
      else if size == all || (flags.patchBit && size == all + 4 * n) then n
      else 0
  {
    hide EntrySize, EntriesOf;
    var all, bits := HEADER_SIZE + EntrySize(flags) * n, if flags.patchBit then (n + 6) / 8 else 0;
    var words := if flags.patchBit then 4 * n else 0;
    SizeOfArrays(flags, n);
    SizeOfArrays(flags, 1);
    EntriesByTests(size, flags, n, all, all - EntrySize(flags), bits, words);
    NoWrap(all + bits);
    NoWrap(all - EntrySize(flags) + bits);
    NoWrap(all);
    NoWrap(all + words);
  }

  lemma EntriesByTests(size: nat, flags: Flags, n: nat, all: nat, less: nat, bits: nat, words: nat)
    requires n >= 1 && bits == (if flags.patchBit then (n + 6) / 8 else 0)
    requires words == if flags.patchBit then 4 * n else 0
    requires all == HEADER_SIZE + (if flags.crc32 then 4 * n else 0) + (if flags.fileTime then 8 * n else 0) +
      (if flags.md5 then MD5_SIZE * n else 0)
    requires less == all - ((if flags.crc32 then 4 else 0) + (if flags.fileTime then 8 else 0) +
      (if flags.md5 then MD5_SIZE else 0))
    ensures EntriesOf(size, flags, n) ==
      if size == (all + bits) % DWORD then n
      else if size == (less + bits) % DWORD then n - 1
      else if size == all % DWORD || size == (all + words) % DWORD then n
      else 0
  {
    if flags.crc32 { } else { }
    if flags.fileTime { } else { }
    if flags.md5 { } else { }
  }

  lemma NoWrap(x: nat)
    requires x < DWORD
    ensures x % DWORD == x
  {
  }

  lemma SizeOfArrays(flags: Flags, n: nat)
    ensures EntrySize(flags) * n ==
      (if flags.crc32 then 4 * n else 0) + (if flags.fileTime then 8 * n else 0) +
      (if flags.md5 then MD5_SIZE * n else 0) <= 28 * n
  {
    if flags.crc32 { } else { }
    if flags.fileTime { } else { }
    if flags.md5 { } else { }
  }

  lemma ArraysFit(file: seq<bv8>, pos: nat, flags: Flags, k: nat, table: seq<Entry>)
    requires k <= |table| && pos + EntrySize(flags) * k <= |file|
    ensures LoadArrays(file, pos, flags, k, table).0 == Success
  {
    hide WithCrcs, WithTimes, WithHashes, WithBits, EntrySize;
    SizeOfArrays(flags, k);
  }

  lemma ArraysKeep(file: seq<bv8>, pos: nat, flags: Flags, k: nat, table: seq<Entry>, i: nat)
    requires k <= i < |table| && pos <= |file|
    ensures |LoadArrays(file, pos, flags, k, table).1| == |table|
    ensures LoadArrays(file, pos, flags, k, table).1[i] == table[i]
  {
    hide DwordAt, FromLe, OrFlags, HasBit, PlaceInByte;
  }

  /** Loading what was created restores every array that the flags name; the bit array is looked at if it has
      the size that the loader expects. */
  lemma LoadsBack(flags: Flags, table: seq<Entry>, before: Flags, blank: seq<Entry>)
    requires AllSized(table) && 1 <= |table| == |blank| <= MAX_ENTRIES
    ensures |Layout(flags, table)| < MAX_FILE
    ensures Load(Layout(flags, table), before, blank) ==
            (Success, flags, WithTail(flags, if flags.patchBit then BitArray(table) else [], |table|,
              Restored(flags, table, blank)))
  {
    hide AllSized, Load, Layout, StoredFile, BitArray, WithTail, Restored, EntriesOf;
    LayoutIsStored(flags, table);
    SizesRecognised(flags, |table|);
    StoredLoads(flags, table, if flags.patchBit then BitArray(table) else [], before, blank);
  }

  /** What each size is taken for. */
  lemma SizesRecognised(flags: Flags, n: nat)
    requires 1 <= n <= MAX_ENTRIES
    ensures var bits, all := if flags.patchBit then (n + 6) / 8 else 0, HEADER_SIZE + EntrySize(flags) * n;
      && all + bits < MAX_FILE && EntriesOf(all + bits, flags, n) == n
      && (EntrySize(flags) > 0 ==> all >= EntrySize(flags))
      && (EntrySize(flags) > 0 ==> EntriesOf(all - EntrySize(flags) + bits, flags, n) == n - 1)
      && (flags.patchBit ==>
          EntriesOf(all, flags, n) == if EntrySize(flags) > 0 && (n + 6) / 8 == EntrySize(flags) then n - 1 else n)
      && (flags.patchBit ==> EntriesOf(all + 4 * n, flags, n) == n)
  {
    hide EntriesOf, EntrySize;
    var bits, all := if flags.patchBit then (n + 6) / 8 else 0, HEADER_SIZE + EntrySize(flags) * n;
    SizeOfArrays(flags, n);
    TimesBound(EntrySize(flags), n);
    EntriesByCase(all + bits, flags, n);
    EntriesByCase(all - EntrySize(flags) + bits, flags, n);
    EntriesByCase(all, flags, n);
    EntriesByCase(all + 4 * n, flags, n);
  }

  /** Entry by entry: what was flagged is as it was stored, and the rest as it was before. */
  lemma EntriesComeBack(flags: Flags, table: seq<Entry>, before: Flags, blank: seq<Entry>, i: nat)
    requires AllSized(table) && i < |table| == |blank| <= MAX_ENTRIES
    ensures |Layout(flags, table)| < MAX_FILE
    ensures var (result, loadedFlags, loaded) := Load(Layout(flags, table), before, blank);
      && result == Success && loadedFlags == flags && |loaded| == |table|
      && EntryLoaded(flags, table, blank, loaded, i)
  {
    hide AllSized, Layout, Load, WithTail, Restored, EntryLoaded, BitArray;
    LoadsBack(flags, table, before, blank);
    TailKeepsFields(flags, table, if flags.patchBit then BitArray(table) else [], blank, i);
  }

  /** A file of one entry less than the table, with the bit array of all: all its entries are loaded, with
      their bits, and the last entry of the table is left alone. */
  lemma OneEntryLess(flags: Flags, table: seq<Entry>, bits: seq<bv8>, before: Flags, blank: seq<Entry>, i: nat)
    requires AllSized(table) && 1 <= |table| == |blank| - 1 && i < |blank| <= MAX_ENTRIES && EntrySize(flags) > 0
    requires |bits| == if flags.patchBit then (|blank| + 6) / 8 else 0
    ensures |StoredFile(flags, table, bits)| < MAX_FILE
    ensures var (result, loadedFlags, loaded) := Load(StoredFile(flags, table, bits), before, blank);
      && result == Success && loadedFlags == flags && |loaded| == |blank|
      && EntryLoaded(flags, table, blank, loaded, i)
      && loaded[i].flags ==
         if flags.patchBit && i < |table| then OrFlags(blank[i].flags, HasBit(bits[i / 8], 7 - i % 8))
           else blank[i].flags
  {
    hide AllSized, Load, StoredFile, WithTail, Restored, EntryLoaded, OrFlags, HasBit, EntriesOf, EntrySize;
    SizesRecognised(flags, |blank|);
    OneLess(EntrySize(flags), |table|);
    StoredLoads(flags, table, bits, before, blank);
    TailKeepsFields(flags, table, bits, blank, i);
  }

  lemma OneLess(size: nat, n: nat)
    ensures size * n == size * (n + 1) - size
  {
  }

  /** A file without the bit array that its flags name is loaded, unless the array would have as many bytes
      as one entry has: then the file is taken for one of one entry less, and the last entry is not loaded. */
  lemma NoBitArray(flags: Flags, table: seq<Entry>, before: Flags, blank: seq<Entry>, i: nat)
    requires AllSized(table) && i < |table| == |blank| <= MAX_ENTRIES && flags.patchBit
    ensures |StoredFile(flags, table, [])| < MAX_FILE
    ensures var (result, loadedFlags, loaded) := Load(StoredFile(flags, table, []), before, blank);
      && result == Success && loadedFlags == flags && |loaded| == |blank|
      && if EntrySize(flags) > 0 && (|table| + 6) / 8 == EntrySize(flags)
         then loaded[|blank| - 1] == blank[|blank| - 1]
         else EntryLoaded(flags, table, blank, loaded, i) && loaded[i].flags == blank[i].flags
  {
    hide AllSized, Load, StoredFile, WithTail, Restored, EntryLoaded, OrFlags, HasBit, EntriesOf, EntrySize, LoadArrays,
      DwordAt, FlagsOf, Flags.Word;
    SizesRecognised(flags, |blank|);
    if EntrySize(flags) > 0 && (|table| + 6) / 8 == EntrySize(flags) {
      TakenForLess(flags, table, before, blank);
    } else {
      StoredLoads(flags, table, [], before, blank);
      TailKeepsFields(flags, table, [], blank, i);
    }
  }

  lemma TakenForLess(flags: Flags, table: seq<Entry>, before: Flags, blank: seq<Entry>)
    requires AllSized(table) && 1 <= |table| == |blank| <= MAX_ENTRIES && flags.patchBit
    requires EntrySize(flags) > 0 && (|table| + 6) / 8 == EntrySize(flags)
    ensures |StoredFile(flags, table, [])| < MAX_FILE
    ensures var (result, loadedFlags, loaded) := Load(StoredFile(flags, table, []), before, blank);
      result == Success && loadedFlags == flags && |loaded| == |blank| && loaded[|blank| - 1] == blank[|blank| - 1]
  {
    hide AllSized, StoredFile, EntriesOf, EntrySize, LoadArrays, DwordAt, FlagsOf, Flags.Word;
    var n, file := |table|, StoredFile(flags, table, []);
    SizesRecognised(flags, n);
    HeaderThenArrays(flags, table, []);
    EntriesBySize(|file|, flags, n);
    ArraysFit(file, HEADER_SIZE, flags, n - 1, blank);
    ArraysKeep(file, HEADER_SIZE, flags, n - 1, blank, n - 1);
  }

  /** A word for each entry in place of a bit is not looked at. */
  lemma WordArray(flags: Flags, table: seq<Entry>, words: seq<bv8>, before: Flags, blank: seq<Entry>, i: nat)
    requires AllSized(table) && i < |table| == |blank| <= MAX_ENTRIES && flags.patchBit && |words| == 4 * |table|
    requires |StoredFile(flags, table, words)| < MAX_FILE
    ensures var (result, loadedFlags, loaded) := Load(StoredFile(flags, table, words), before, blank);
      && result == Success && loadedFlags == flags && |loaded| == |blank|
      && EntryLoaded(flags, table, blank, loaded, i) && loaded[i].flags == blank[i].flags
  {
    hide AllSized, Load, StoredFile, WithTail, Restored, EntryLoaded, OrFlags, HasBit, EntriesOf, EntrySize;
    SizesRecognised(flags, |blank|);
    StoredLoads(flags, table, words, before, blank);
    TailKeepsFields(flags, table, words, blank, i);
  }

  /** The patch bits come back from what was created exactly if the table has not one entry more than a
      multiple of eight, or has none set. */
  lemma PatchBitsSurvive(flags: Flags, table: seq<Entry>, before: Flags, blank: seq<Entry>)
    requires AllSized(table) && 1 <= |table| == |blank| <= MAX_ENTRIES
    requires !AnyPatched(blank) && (AnyPatched(table) ==> flags.patchBit)
    ensures |Layout(flags, table)| < MAX_FILE
    ensures var loaded := Load(Layout(flags, table), before, blank).2;
      |loaded| == |table| &&
      ((forall i :: 0 <= i < |table| ==> (loaded[i].Patched() <==> table[i].Patched())) <==>
        |table| % 8 != 1 || !AnyPatched(table))
  {
    hide Entry.Patched, OrFlags, Layout, Load, WithTail, Restored, EntryLoaded, BitArray, HasBit, AllSized;
    LoadsBack(flags, table, before, blank);
    var bits := if flags.patchBit then BitArray(table) else [];
    var r := WithTail(flags, bits, |table|, Restored(flags, table, blank));
    forall i: nat | i < |table|
      ensures r[i].Patched() <==> flags.patchBit && |table| % 8 != 1 && table[i].Patched()
    {
      TailKeepsFields(flags, table, bits, blank, i);
      var read := flags.patchBit && |table| % 8 != 1;
      if read { BitOfArray(table, i); }
      OrPatched(blank[i].flags, table[i].Patched());
      assert !blank[i].Patched();
      SamePatch(r[i], blank[i], if read then OrFlags(blank[i].flags, table[i].Patched()) else blank[i].flags);
    }
  }

  lemma BitOfArray(table: seq<Entry>, i: nat)
    requires i < |table| && |table| % 8 != 1
    ensures |BitArray(table)| == (|table| + 7) / 8
    ensures HasBit(BitArray(table)[i / 8], PlaceInByte(i)) <==> table[i].Patched()
  {
    hide HasBit, Packed, Entry.Patched, PlaceInByte;
    PackedBit(table, |table|, (|table| + 6) / 8 + 1, i);
  }

  lemma OrPatched(flags: bv32, patched: bool)
    ensures OrFlags(flags, patched) & PATCH_FILE != 0 <==> flags & PATCH_FILE != 0 || patched
  {
    assert (flags | 0) == flags;
    assert (flags | PATCH_FILE) & PATCH_FILE == PATCH_FILE;
  }

  /** No other flag changes. */
  lemma OrKeepsOthers(flags: bv32, patched: bool)
    ensures OrFlags(flags, patched) & !PATCH_FILE == flags & !PATCH_FILE
  {
    assert (flags | 0) == flags;
  }

  lemma SamePatch(e: Entry, blank: Entry, flags: bv32)
    requires e.flags == flags
    ensures e.Patched() <==> flags & PATCH_FILE != 0
    ensures blank.Patched() <==> blank.flags & PATCH_FILE != 0
  {
  }
}
