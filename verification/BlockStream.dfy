/** The reader of block-oriented streams: it groups blocks of equal availability, loads the missing
    ones from the master and stores them, and must deliver the content whatever is cached. */
module BlockStream {
  import opened Bitmap
  import opened Bytes
  import opened Division
  import opened Mirror
  import opened MirrorFile

  datatype Option<T> = None | Some(value: T) {
    function GetOr(default: T): (r: T)
      ensures this == Some(r) || (this == None && r == default)
    {
      match this
      case None => default
      case Some(v) => v
    }
  }

  /** From `n` on a buffer is as it was. */
  ghost predicate Kept(before: seq<bv8>, now: seq<bv8>, n: nat) {
    |now| == |before| && forall k :: n <= k < |now| ==> now[k] == before[k]
  }

  lemma KeptFurther(a: seq<bv8>, b: seq<bv8>, c: seq<bv8>, n: nat, m: nat)
    requires Kept(a, b, n) && Kept(b, c, m) && n <= m
    ensures Kept(a, c, m)
  {
  }

  lemma KeptAll(a: seq<bv8>)
    ensures Kept(a, a, 0)
  {
  }

  /** What closing a stream depends on: the size of its file, its bitmap or map, and whether that is changed. */
  datatype Store = Store(size: nat, bits: seq<bv8>, entries: seq<MapEntry>, modified: bool)

  /** Blocks may have been stored meanwhile. Then the bitmap or map is marked as changed, and can be written. */
  ghost predicate Follows(a: Store, b: Store, kind: Kind) {
    && (a.modified ==> b.modified) && (b.modified || (b.bits == a.bits && b.entries == a.entries))
    && |b.bits| == |a.bits| && |b.entries| == |a.entries| && (kind != Part ==> b.size == a.size)
    && (WordsFit(a.entries) ==> WordsFit(b.entries))
  }

  lemma FollowsItself(a: Store, kind: Kind)
    ensures Follows(a, a, kind)
  {
  }

  lemma FollowsOn(a: Store, b: Store, c: Store, kind: Kind)
    requires Follows(a, b, kind) && Follows(b, c, kind)
    ensures Follows(a, c, kind)
  {
  }

  class Stream {
    const kind: Kind
    const blockSize: nat
    const streamSize: nat
    const buildNumber: nat
    ghost const content: seq<bv8>

    const master: Option<seq<bv8>>
    /** Whether the `k`-th read of the master succeeds. */
    const masterUp: nat -> bool
    var masterReads: nat
    /** Whether the system completes every write for which there is room. */
    const writesComplete: bool

    var file: seq<bv8>
    var bitmap: seq<bv8>
    var blockMap: seq<MapEntry>
    /** The key bytes of the chunk whose number has these high and low words. */
    const keystream: (nat, nat) -> seq<bv8>

    const isComplete: bool
    var isModified: bool
    var streamPos: nat

    ghost function State(): Mirror
      reads this
    {
      Mirror(kind, blockSize, content, keystream, file, bitmap, blockMap)
    }

    ghost function Stored(): Store
      reads this
    {
      Store(|file|, bitmap, blockMap, isModified)
    }

    /** What the stream keeps can be written so that it is found again. */
    ghost predicate Closable()
      reads this
    {
      match kind
      case Flat =>
        && 0 < blockSize < DWORD && BlockCount(streamSize, blockSize) + 7 < DWORD
        && |bitmap| == (BlockCount(streamSize, blockSize) + 7) / 8 && |file| == streamSize + |bitmap| + FOOTER_SIZE
      case Part =>
        && 0 < blockSize < DWORD && PowerOfTwo(blockSize)
        && |blockMap| == BlockCount(streamSize, blockSize) && MAP_ENTRY_SIZE * |blockMap| < DWORD && WordsFit(blockMap)
      case Encrypted => true
    }

    twostate lemma StillClosable()
      requires old(Closable()) && Follows(old(Stored()), Stored(), kind)
      ensures Closable()
    {
    }

    ghost predicate Valid()
      reads this
    {
      && State().Coherent() && streamSize == |content|
      && (kind != Encrypted && master.Some? ==> master.value == content)
      && (kind == Encrypted ==> isComplete)
      && (isComplete ==> State().RunIs(0, streamSize, true))
      && streamPos <= streamSize && buildNumber < DWORD
    }

    /** A flat mirror of a master, in an existing file or a new one. If no bitmap is found, the file is given
        room for the data, a bitmap and a footer, and nothing is cached. */
    constructor CreateFlat(master: seq<bv8>, file: seq<bv8>, useBitmap: bool, masterUp: nat -> bool,
                           writesComplete: bool)
      requires 0 < |master| && FlatSize(|master|) <= MAX_FILE && BlockCount(|master|, DEFAULT_BLOCK_SIZE) + 7 < DWORD
      requires |file| <= MAX_FILE && Truthful(FlatFound(file, |master|, useBitmap), master, file)
      ensures Valid() && kind == Flat && content == master && this.master == Some(master) && this.masterUp == masterUp
      ensures this.writesComplete == writesComplete && streamPos == 0 && masterReads == 0 && Closable()
      ensures var loaded := FlatFound(file, |master|, useBitmap);
        if loaded.Bits?
        then
          && State() == Opened(loaded, master, file) && buildNumber == loaded.build
          && isComplete == loaded.isComplete && !isModified
        else
          && State().RunIs(0, streamSize, false) && this.file == Resized(file, FlatSize(|master|))
          && blockSize == DEFAULT_BLOCK_SIZE && buildNumber == DEFAULT_BUILD_NUMBER && !isComplete && isModified
    {
      hide LoadBits, Mirror.Coherent;
      var loaded := FlatFound(file, |master|, useBitmap);
      kind, streamSize, content, keystream := Flat, |master|, master, NoKey;
      this.master, this.masterUp, masterReads, streamPos, this.writesComplete := Some(master), masterUp, 0, 0,
        writesComplete;
      blockMap := [];
      if loaded.Bits? {
        this.file, blockSize, bitmap, buildNumber := file, loaded.blockSize, loaded.bits, loaded.build;
        isComplete, isModified := loaded.isComplete, false;
        BitsFit(file, master);
      } else {
        this.file, blockSize, buildNumber := Resized(file, FlatSize(|master|)), DEFAULT_BLOCK_SIZE,
          DEFAULT_BUILD_NUMBER;
        bitmap := Zeros((BlockCount(|master|, DEFAULT_BLOCK_SIZE) + 7) / 8);
        isComplete, isModified := false, true;
      }
      new;
      if !loaded.Bits? {
        NothingMarked(State());
      }
    }

    lemma NothingMarked(m: Mirror)
      requires m.Shaped() && m.kind == Flat && forall i :: 0 <= i < |m.bits| ==> m.bits[i] == 0
      ensures m.Coherent() && m.RunIs(0, |m.content|, false)
    {
      hide Mirror.Holds, Mirror.Where, BlockCount, HasBit;
      forall p | 0 <= p < |m.content| ensures !m.AvailableAt(p) {
        InSomeBlock(p, |m.content|, m.blockSize);
        NoBitInZero(BlockOf(p, m.blockSize) % 8);
      }
    }

    /** A flat mirror without its master, which is one only if a bitmap is found. */
    constructor OpenFlat(file: seq<bv8>, ghost content: seq<bv8>)
      requires |file| <= MAX_FILE && LoadBits(file).Bits? && Truthful(LoadBits(file), content, file)
      ensures Valid() && State() == Opened(LoadBits(file), content, file) && master == None && streamPos == 0
      ensures buildNumber == LoadBits(file).build
      ensures isComplete == LoadBits(file).isComplete && !isModified && Closable()
    {
      hide LoadBits, Mirror.Coherent;
      var loaded := LoadBits(file);
      BitsFit(file, content);
      kind, streamSize, this.content, keystream := Flat, loaded.streamSize, content, NoKey;
      master, masterUp, masterReads, streamPos, writesComplete := None, (k: nat) => false, 0, 0, false;
      this.file, blockSize, bitmap, blockMap, buildNumber := file, loaded.blockSize, loaded.bits, [], loaded.build;
      isComplete, isModified := loaded.isComplete, false;
    }

    /** A part mirror of a master, in an existing file or a new one. If no map is found, what the file has is
        given up: it is cut to the size of header and map, and nothing is cached. */
    constructor CreatePart(master: seq<bv8>, file: seq<bv8>, masterUp: nat -> bool, writesComplete: bool)
      requires 0 < |master| <= MAX_FILE && PartStart(|master|) < DWORD
      requires |file| <= MAX_FILE && Truthful(PartFound(file, |master|), master, file)
      ensures Valid() && kind == Part && content == master && this.master == Some(master) && this.masterUp == masterUp
      ensures this.writesComplete == writesComplete && streamPos == 0 && masterReads == 0 && Closable()
      ensures var loaded := PartFound(file, |master|);
        if loaded.Map?
        then
          && State() == Opened(loaded, master, file) && buildNumber == loaded.build
          && isComplete == loaded.isComplete && !isModified
        else
          && State().RunIs(0, streamSize, false) && this.file == Resized(file, PartStart(|master|))
          && blockSize == DEFAULT_BLOCK_SIZE && buildNumber == DEFAULT_BUILD_NUMBER && !isComplete && isModified
    {
      hide LoadMap, Mirror.Coherent;
      var loaded := PartFound(file, |master|);
      kind, streamSize, content, keystream := Part, |master|, master, NoKey;
      this.master, this.masterUp, masterReads, streamPos, this.writesComplete := Some(master), masterUp, 0, 0,
        writesComplete;
      bitmap := [];
      if loaded.Map? {
        this.file, blockSize, blockMap, buildNumber := file, loaded.blockSize, loaded.entries, loaded.build;
        isComplete, isModified := loaded.isComplete, false;
        MapFits(file, master);
      } else {
        this.file, blockSize, buildNumber := Resized(file, PartStart(|master|)), DEFAULT_BLOCK_SIZE,
          DEFAULT_BUILD_NUMBER;
        blockMap := seq(BlockCount(|master|, DEFAULT_BLOCK_SIZE), i => MapEntry(0, 0, 0));
        isComplete, isModified := false, true;
      }
      new;
      if !loaded.Map? {
        NothingMapped(State());
        DefaultIsPowerOfTwo();
      }
    }

    lemma NothingMapped(m: Mirror)
      requires m.Shaped() && m.kind == Part && forall i :: 0 <= i < |m.entries| ==> m.entries[i].flags == 0
      ensures m.Coherent() && m.RunIs(0, |m.content|, false)
    {
      hide Mirror.Holds, Mirror.Where, BlockCount;
      forall p | 0 <= p < |m.content| ensures !m.AvailableAt(p) {
        InSomeBlock(p, |m.content|, m.blockSize);
      }
    }

    /** A part mirror without its master, which must have a map. */
    constructor OpenPart(file: seq<bv8>, ghost content: seq<bv8>)
      requires |file| <= MAX_FILE && LoadMap(file).Map? && Truthful(LoadMap(file), content, file)
      ensures Valid() && State() == Opened(LoadMap(file), content, file) && master == None && streamPos == 0
      ensures buildNumber == LoadMap(file).build && isComplete == LoadMap(file).isComplete && !isModified && Closable()
    {
      hide LoadMap, Mirror.Coherent;
      var loaded := LoadMap(file);
      MapFits(file, content);
      kind, streamSize, this.content, keystream := Part, loaded.streamSize, content, NoKey;
      master, masterUp, masterReads, streamPos, writesComplete := None, (k: nat) => false, 0, 0, false;
      this.file, blockSize, bitmap, blockMap, buildNumber := file, loaded.blockSize, [], loaded.entries, loaded.build;
      isComplete, isModified := loaded.isComplete, false;
    }

    /** An encrypted file, whose content is its decryption under the key found for it. */
    constructor OpenEncrypted(file: seq<bv8>, keystream: (nat, nat) -> seq<bv8>)
      requires 0 < |file| <= MAX_FILE && forall h, l :: |keystream(h, l)| == CHUNK
      ensures Valid() && kind == Encrypted && content == Decrypted(keystream, file, 0)
      ensures isComplete && !isModified && master == None
      ensures this.file == file && streamPos == 0
    {
      hide Xor, KeyByte;
      kind, blockSize, streamSize, buildNumber := Encrypted, CHUNK, |file|, 0;
      content, master, masterUp, masterReads := Decrypted(keystream, file, 0), None, (k: nat) => false, 0;
      this.file, bitmap, blockMap, this.keystream := file, [], [], keystream;
      isComplete, isModified, streamPos, writesComplete := true, false, 0, false;
      new;
      EncryptedContent(State());
    }

    /** The first `n` bytes of the buffer are the content from `origin` on. */
    ghost predicate Filled(buffer: array<bv8>, n: nat, origin: nat)
      reads buffer
    {
      n <= buffer.Length && origin + n <= |content| && buffer[..n] == content[origin..origin + n]
    }

    lemma FilledNothing(buffer: array<bv8>, origin: nat)
      requires origin <= |content|
      ensures Filled(buffer, 0, origin)
    {
    }

    lemma FilledFurther(buffer: array<bv8>, at: nat, n: nat, start: nat)
      requires at + n <= buffer.Length && at <= start && start + n <= |content|
      requires buffer[..at] == content[start - at..start] && buffer[at..at + n] == content[start..start + n]
      ensures Filled(buffer, at + n, start - at)
    {
      assert buffer[..at + n] == buffer[..at] + buffer[at..at + n];
    }

    lemma FilledLess(buffer: array<bv8>, n: nat, k: nat, origin: nat)
      requires Filled(buffer, n, origin) && k <= n
      ensures Filled(buffer, k, origin)
    {
      assert buffer[..n][..k] == buffer[..k] && content[origin..origin + n][..k] == content[origin..origin + k];
    }

    // ----- The base file -----

    /** Reads `n` bytes of the file into `buffer`; short at the end of the file. */
    method BaseRead(offset: nat, n: nat, buffer: array<bv8>, at: nat) returns (ok: bool)
      requires at + n <= buffer.Length
      modifies buffer
      ensures ok <==> n == 0 || offset + n <= |file|
      ensures ok && n > 0 ==> buffer[at..at + n] == file[offset..offset + n]
      ensures buffer[..at] == old(buffer[..at]) && Kept(old(buffer[..]), buffer[..], at + n)
    {
      var count := if |file| <= offset then 0 else Min(n, |file| - offset);
      forall k | 0 <= k < count {
        buffer[at + k] := file[offset + k];
      }
      ok := count == n;
    }

    /** Writes to the file; the system may stop after any number of bytes. */
    method BaseWrite(offset: nat, data: seq<bv8>) returns (ok: bool, n: nat)
      requires offset <= |file| <= MAX_FILE
      modifies this`file
      ensures n <= |data| && offset + n <= MAX_FILE && (ok <==> n == |data|)
      ensures writesComplete && offset + |data| <= MAX_FILE ==> ok
      ensures file == Overwrite(old(file), offset, data[..n])
    {
      var count: nat :| count <= |data| && offset + count <= MAX_FILE &&
        (writesComplete && offset + |data| <= MAX_FILE ==> count == |data|);
      file := Overwrite(file, offset, data[..count]);
      ok, n := count == |data|, count;
    }

    /** Loads blocks from the master; the attempt counts whether or not it succeeds. */
    method MasterRead(start: nat, end: nat, buffer: array<bv8>, at: nat) returns (ok: bool)
      requires Valid() && master.Some? && start < end <= |master.value| && at + (end - start) <= buffer.Length
      modifies this`masterReads, buffer
      ensures Valid() && State() == old(State())
      ensures ok == masterUp(old(masterReads)) && masterReads == old(masterReads) + 1
      ensures ok ==> buffer[at..at + (end - start)] == master.value[start..end]
      ensures buffer[..at] == old(buffer[..at]) && Kept(old(buffer[..]), buffer[..], at + (end - start))
    {
      hide Mirror.Coherent, Mirror.AvailableAt, Mirror.Shaped, Mirror.RunIs;
      ok := masterUp(masterReads);
      masterReads := masterReads + 1;
      if ok {
        forall k | 0 <= k < end - start {
          buffer[at + k] := master.value[start + k];
        }
      }
    }

    /** There is room to store `n` bytes more, and the system will do it. */
    ghost predicate CanStore(n: nat)
      reads this
    {
      writesComplete && (kind == Part ==> |file| + n <= MAX_FILE)
    }

    // ----- Availability -----

    method BlockCheck(offset: nat) returns (available: bool)
      requires Valid() && offset < streamSize && Aligned(offset, blockSize) && kind != Encrypted
      ensures available <==> State().AvailableAt(offset)
    {
      InSomeBlock(offset, streamSize, blockSize);
      var b := BlockOf(offset, blockSize);
      match kind
      case Flat => available := HasBit(bitmap[b / 8], b % 8);
      case Part => available := blockMap[b].flags % 4 != 0;
    }

    // ----- Flat mirror -----

    /** Sets the bits of the blocks from `start` to `end`, the mask rotating through the bytes. */
    method UpdateBitmap(start: nat, end: nat)
      requires State().Shaped() && kind == Flat && State().WholeBlocks(start, end)
      modifies this`bitmap, this`isModified
      ensures Marked(old(bitmap), bitmap, BlockOf(start, blockSize), BlockCount(end, blockSize)) && isModified
    {
      StartOf(start);
      assert BlockCount(|content|, blockSize) <= 8 * |bitmap| && end <= |content|;
      hide Mask, BlockCount, Rotated, Carry, StartsBlock, Aligned, Marked, Or, Mirror.Shaped;
      var offset := start;
      var first: nat := BlockOf(start, blockSize);
      var byteIndex, bitMask := first / 8, Mask(first % 8);
      ghost var b, before := first, bitmap;
      MarkNothing(before, first);
      while offset < end
        invariant StartsBlock(offset, b, blockSize) && first <= b && offset < end + blockSize
        invariant byteIndex == b / 8 && bitMask == Mask(b % 8)
        invariant Marked(before, bitmap, first, b)
      {
        ScanBlock(offset, b, |content|, blockSize);
        MarkOne(before, bitmap, first, b);
        bitmap := bitmap[byteIndex := Or(bitmap[byteIndex], bitMask)];
        NextBit(b);
        offset := offset + blockSize;
        byteIndex := byteIndex + Carry(bitMask);
        bitMask := Rotated(bitMask);
        b := b + 1;
      }
      ScanEnds(end, offset, b, blockSize);
      isModified := true;
    }

    lemma StartOf(start: nat)
      requires Aligned(start, blockSize)
      ensures StartsBlock(start, BlockOf(start, blockSize), blockSize)
    {
      Quotient(start, blockSize);
    }

    /** Stores a run fetched from the master; this is not required to succeed. */
    method FlatStore(start: nat, end: nat, data: seq<bv8>)
      requires Valid() && kind == Flat && State().WholeBlocks(start, end) && State().RunIs(start, end, false)
      requires data == content[start..end]
      modifies this`file, this`isModified, this`bitmap
      ensures Valid() && Gains(old(State()), State(), start, end) && |file| == |old(file)|
      ensures writesComplete ==> State().RunIs(start, end, true)
      ensures Follows(old(Stored()), Stored(), kind)
    {
      hide Mirror.Coherent, Mirror.AvailableAt, Marked;
      Facts();
      ghost var before := State();
      var stored, n := BaseWrite(start, data);
      PrefixOfSlice(content, start, end, n);
      FlatWritten(before, start, end, n);
      CoherentIsShaped(State());
      if stored {
        UpdateBitmap(start, end);
        MarkedLength(old(bitmap), bitmap, BlockOf(start, blockSize), BlockCount(end, blockSize));
      }
      FlatFetched(before, start, end, n, bitmap);
      StillValid(before, start, end);
    }

    /** Reads an available run, of which only the first `needed` bytes matter. Such a read cannot fall short. */
    method FlatRead(start: nat, end: nat, buffer: array<bv8>, at: nat, needed: nat)
      requires Valid() && kind == Flat && start < end <= streamSize && State().RunIs(start, end, true)
      requires at + (end - start) <= buffer.Length && at <= start && Filled(buffer, at, start - at)
      modifies buffer
      ensures Filled(buffer, at + Min(needed, end - start), start - at)
      ensures Kept(old(buffer[..]), buffer[..], at + (end - start))
    {
      hide Mirror.Coherent, Mirror.AvailableAt, Mirror.Shaped, Mirror.RunIs, Valid, State;
      Facts();
      FlatRun(State(), start, end);
      var bytesToRead := Min(end - start, needed);
      var ok := BaseRead(start, bytesToRead, buffer, at);
      PrefixOfSlice(file, start, end, bytesToRead);
      PrefixOfSlice(content, start, end, bytesToRead);
      FilledFurther(buffer, at, bytesToRead, start);
    }

    lemma Facts()
      requires Valid()
      ensures State().Shaped() && streamSize == |content| && |file| <= MAX_FILE && blockSize > 0
      ensures State().content == content && State().blockSize == blockSize
      ensures State().kind == kind && State().file == file
      ensures State().Coherent() && streamPos <= streamSize && (kind == Encrypted ==> isComplete)
      ensures (kind == Flat ==> streamSize <= |file|) && State().DataStart() <= |file| && buildNumber < DWORD
      ensures isComplete ==> State().RunIs(0, streamSize, true)
      ensures kind == Encrypted ==> streamSize == |file| && blockSize == CHUNK && forall h, l ::
        |keystream(h, l)| == CHUNK
      ensures kind != Encrypted && master.Some? ==> master.value == content
    {
    }

    lemma Widened(m: Mirror, next: Mirror, start: nat, end: nat, wider: nat)
      requires Gains(m, next, start, end) && end <= wider
      ensures Gains(m, next, start, wider)
    {
      hide Mirror.Coherent, Mirror.AvailableAt;
    }

    lemma CoherentIsShaped(m: Mirror)
      requires m.Coherent()
      ensures m.Shaped()
    {
    }

    lemma Unchanged(m: Mirror, start: nat, end: nat)
      requires m.Coherent()
      ensures Gains(m, m, start, end)
    {
    }

    lemma StillValid(before: Mirror, start: nat, end: nat)
      requires Gains(before, State(), start, end) && streamSize == |content|
      requires (kind != Encrypted && master.Some? ==> master.value == content)
      requires (kind == Encrypted ==> isComplete) && streamPos <= streamSize && buildNumber < DWORD
      requires isComplete ==> before.RunIs(0, streamSize, true)
      ensures Valid()
    {
      hide Mirror.Coherent, Mirror.AvailableAt;
    }

    // ----- Part mirror -----

    /** Points the entries of the blocks from `start` to `end` at consecutive places from `room` on. */
    method UpdateMap(start: nat, end: nat, room: nat)
      requires State().Shaped() && kind == Part && State().WholeBlocks(start, end) && room + (end - start) <= MAX_FILE
      modifies this`blockMap, this`isModified
      ensures Mapped(old(blockMap), blockMap, BlockOf(start, blockSize), BlockCount(end, blockSize), blockSize, start,
        room)
      ensures isModified && |blockMap| == |old(blockMap)| && (WordsFit(old(blockMap)) ==> WordsFit(blockMap))
    {
      hide BlockCount, StartsBlock, Aligned;
      var offset, target := start, room;
      StartOf(start);
      var index: nat := BlockOf(start, blockSize);
      ghost var first, before := index, blockMap;
      while offset < end
        invariant StartsBlock(offset, index, blockSize) && first <= index && offset < end + blockSize
        invariant target == room + offset - start && start <= offset
        invariant Mapped(before, blockMap, first, index, blockSize, start, room)
        invariant |blockMap| == |before| && (WordsFit(before) ==> WordsFit(blockMap))
      {
        ScanBlock(offset, index, |content|, blockSize);
        BlockStart(offset, index, blockSize);
        blockMap := blockMap[index := EntryAt(target)];
        offset := offset + blockSize;
        target := target + blockSize;
        index := index + 1;
      }
      ScanEnds(end, offset, index, blockSize);
      isModified := true;
    }

    lemma BlockStart(offset: nat, b: nat, size: nat)
      requires StartsBlock(offset, b, size)
      ensures offset == b * size
    {
      Quotient(offset, size);
    }

    /** Appends a run fetched from the master; this is not required to succeed. */
    method PartStore(start: nat, end: nat, data: seq<bv8>)
      requires Valid() && kind == Part && State().WholeBlocks(start, end) && State().RunIs(start, end, false)
      requires data == content[start..end]
      modifies this`file, this`isModified, this`blockMap
      ensures Valid() && Gains(old(State()), State(), start, end) && |file| <= |old(file)| + (end - start)
      ensures old(CanStore(end - start)) ==> State().RunIs(start, end, true)
      ensures Follows(old(Stored()), Stored(), kind)
    {
      hide Mirror.Coherent, Mirror.AvailableAt, Mapped, WordsFit;
      Facts();
      ghost var before := State();
      var room := |file|;
      var stored, n := BaseWrite(room, data);
      PrefixOfSlice(content, start, end, n);
      PartAppended(before, start, n);
      CoherentIsShaped(State());
      if stored {
        UpdateMap(start, end, room);
      }
      PartFetched(before, start, end, n, blockMap);
      StillValid(before, start, end);
    }

    lemma PartAppended(m: Mirror, start: nat, n: nat)
      requires m.Coherent() && m.kind == Part && start + n <= |m.content| && |m.file| + n <= MAX_FILE
      ensures m.(file := Overwrite(m.file, |m.file|, m.content[start..start + n])).Coherent()
    {
      hide Mirror.Coherent;
      PartWritten(m, m.content[start..start + n]);
      assert Overwrite(m.file, |m.file|, m.content[start..start + n]) == m.file + m.content[start..start + n];
    }

    /** Reads an available run block by block, each from where its entry points. Such a read cannot
        fall short, so the source's error return is never taken. */
    method PartRead(start: nat, end: nat, buffer: array<bv8>, at: nat, needed: nat)
      requires Valid() && kind == Part && start < end <= streamSize
      requires Aligned(start, blockSize) && State().RunIs(start, end, true)
      requires RoundDown(end - 1, blockSize) < start + needed
      requires at + (end - start) <= buffer.Length && at <= start && Filled(buffer, at, start - at)
      modifies buffer
      ensures Filled(buffer, at + Min(needed, end - start), start - at)
      ensures Kept(old(buffer[..]), buffer[..], at + (end - start))
    {
      hide Mirror.Coherent, Mirror.AvailableAt, Mirror.Shaped, StartsBlock, Aligned, RoundDown, Valid, BlockOf, Filled;
      Facts();
      StartOf(start);
      ghost var stop, before := start + Min(needed, end - start), buffer[..];
      var offset, pos, left: int := start, at, needed;
      var index: nat := BlockOf(start, blockSize);
      while offset < end
        invariant start <= offset < end + blockSize && pos == at + (offset - start) && left == needed - (offset - start)
        invariant StartsBlock(offset, index, blockSize)
        invariant Filled(buffer, at + (Min(offset, stop) - start), start - at)
        invariant Kept(before, buffer[..], at + (end - start))
      {
        LastBlockNeeded(offset, index, end, blockSize);
        var bytesToRead := Min(Min(end - offset, blockSize), left);
        assert bytesToRead == Min(stop - offset, blockSize) && offset < stop;
        PartReadBlock(offset, index, buffer, pos, bytesToRead);
        ScanBlock(offset, index, streamSize, blockSize);
        offset := offset + blockSize;
        pos := pos + blockSize;
        left := left - blockSize;
        index := index + 1;
      }
    }

    method PartReadBlock(offset: nat, index: nat, buffer: array<bv8>, at: nat, n: nat)
      requires Valid() && kind == Part && StartsBlock(offset, index, blockSize)
      requires 0 < n <= blockSize && offset + n <= streamSize && State().RunIs(offset, offset + n, true)
      requires at + n <= buffer.Length && at <= offset && Filled(buffer, at, offset - at)
      modifies buffer
      ensures Filled(buffer, at + n, offset - at) && Kept(old(buffer[..]), buffer[..], at + n)
    {
      hide Mirror.Coherent, Mirror.AvailableAt, StartsBlock;
      PartBlock(State(), offset, index, n);
      var ok := BaseRead(blockMap[index].Offset(), n, buffer, at);
      FilledFurther(buffer, at, n, offset);
    }

    /** A block that starts before `end` starts no later than the one that holds the last byte. */
    lemma LastBlockNeeded(offset: nat, b: nat, end: nat, size: nat)
      requires StartsBlock(offset, b, size) && offset < end
      ensures offset <= RoundDown(end - 1, size)
    {
      if RoundDown(end - 1, size) < offset {
        AlignedGap(RoundDown(end - 1, size), offset, size);
      }
    }

    // ----- Encrypted file -----

    /** Takes the key bytes off whole chunks of the buffer. The chunk number is kept in two words,
        the low one carrying into the high one when it wraps. */
    method DecryptFileChunk(buffer: array<bv8>, at: nat, byteOffset: nat, length: nat)
      requires forall h, l :: |keystream(h, l)| == CHUNK
      requires byteOffset % CHUNK == 0 && length % CHUNK == 0 && byteOffset + length < DWORD * DWORD
      requires at + length <= buffer.Length
      modifies buffer
      ensures buffer[at..at + length] == Decrypted(keystream, old(buffer[at..at + length]), byteOffset)
      ensures buffer[..at] == old(buffer[..at]) && buffer[at + length..] == old(buffer[at + length..])
    {
      hide Xor, KeyByte, CounterAt, Deciphered, Decrypted;
      var high: nat, low: nat := byteOffset / CHUNK / DWORD % DWORD, byteOffset / CHUNK % DWORD;
      CounterStarts(high, low, byteOffset);
      var left: nat, pos: nat := length, at;
      ghost var p: nat, before := byteOffset, buffer[..];
      NothingDeciphered(before, at, byteOffset);
      while left >= CHUNK
        invariant left % CHUNK == 0 && left <= length
        invariant pos == at + (length - left) && p == byteOffset + (length - left)
        invariant CounterAt(high, low, p)
        invariant Deciphered(keystream, before, buffer[..], at, byteOffset, length - left)
      {
        ghost var now := buffer[..];
        XorChunk(buffer, pos, high, low, p);
        DecipheredMore(keystream, before, now, buffer[..], at, byteOffset, length - left, CHUNK);
        CounterCarries(high, low, p);
        low := (low + 1) % DWORD;
        if low == 0 {
          high := (high + 1) % DWORD;
        }
        pos, left, p := pos + CHUNK, left - CHUNK, p + CHUNK;
      }
      DecipheredPiece(keystream, before, buffer[..], at, byteOffset, length);
      assert buffer[at..at + length] == buffer[..][at..at + length] &&
        before[at..at + length] == old(buffer[at..at + length]);
      assert buffer[..at] == buffer[..][..at] && buffer[at + length..] == buffer[..][at + length..];
    }

    lemma NothingDeciphered(data: seq<bv8>, at: nat, offset: nat)
      requires (forall h, l :: |keystream(h, l)| == CHUNK) && at <= |data|
      ensures Deciphered(keystream, data, data, at, offset, 0)
    {
    }

    /** The two words of the number of the chunk at stream position `p`. */
    ghost predicate CounterAt(high: nat, low: nat, p: nat) {
      p % CHUNK == 0 && high == p / CHUNK / DWORD % DWORD && low == p / CHUNK % DWORD
    }

    lemma CounterStarts(high: nat, low: nat, p: nat)
      requires p % CHUNK == 0 && high == p / CHUNK / DWORD % DWORD && low == p / CHUNK % DWORD
      ensures CounterAt(high, low, p)
    {
    }

    /** The carry out of the low word keeps the two words equal to the number of the chunk. */
    lemma CounterCarries(high: nat, low: nat, p: nat)
      requires CounterAt(high, low, p) && p < DWORD * DWORD
      ensures var next := (low + 1) % DWORD; CounterAt(if next == 0 then (high + 1) % DWORD else high, next, p + CHUNK)
    {
      assert (p + CHUNK) / CHUNK == p / CHUNK + 1;
    }

    /** One chunk at stream position `p`, whose number has the words `high` and `low`. */
    method XorChunk(buffer: array<bv8>, pos: nat, high: nat, low: nat, ghost p: nat)
      requires forall h, l :: |keystream(h, l)| == CHUNK
      requires pos + CHUNK <= buffer.Length && CounterAt(high, low, p) && p + CHUNK <= DWORD * DWORD
      modifies buffer
      ensures Deciphered(keystream, old(buffer[..]), buffer[..], pos, p, CHUNK)
    {
      hide Xor;
      var key := keystream(high, low);
      forall k | 0 <= k < CHUNK {
        buffer[pos + k] := buffer[pos + k] ^ key[k];
      }
      forall k | 0 <= k < CHUNK
        ensures key[k] == KeyByte(keystream, k + p) && buffer[pos + k] == Xor(old(buffer[pos + k]), key[k])
      {
        SameChunk(p, p + k);
        XorIsSum(old(buffer[pos + k]), key[k]);
      }
    }

    lemma SameChunk(start: nat, p: nat)
      requires start % CHUNK == 0 && start <= p < start + CHUNK && p < DWORD * DWORD
      ensures p / CHUNK == start / CHUNK && p % CHUNK == p - start
      ensures start / CHUNK / DWORD % DWORD == p / CHUNK / DWORD
    {
    }

    /** Reads the range as it is and decrypts it, rounded up to whole chunks, in the buffer. */
    method EncryptedRead(start: nat, end: nat, buffer: array<bv8>, at: nat)
      requires Valid() && kind == Encrypted && start < end <= streamSize && Aligned(start, blockSize)
      requires at + RoundUp(end - start, blockSize) <= buffer.Length && at <= start && Filled(buffer, at, start - at)
      modifies buffer
      ensures Filled(buffer, at + (end - start), start - at)
    {
      hide Mirror.Coherent, Mirror.Shaped, Decrypted, KeyByte, RoundUp;
      Facts();
      EncryptedContent(State());
      DecryptedPiece(keystream, file, start, end);
      var n := end - start;
      var whole := RoundUp(n, CHUNK);
      var ok := BaseRead(start, n, buffer, at);
      ghost var raw := buffer[at..at + whole];
      Shorter(buffer, at, whole, n);
      DecryptFileChunk(buffer, at, start, whole);
      DecryptedPrefix(raw, n, start);
      Shorter(buffer, at, whole, n);
      FilledFurther(buffer, at, n, start);
    }

    lemma Shorter(buffer: array<bv8>, at: nat, n: nat, k: nat)
      requires at + n <= buffer.Length && k <= n
      ensures buffer[at..at + n][..k] == buffer[at..at + k]
    {
    }

    lemma DecryptedPrefix(data: seq<bv8>, n: nat, offset: nat)
      requires (forall h, l :: |keystream(h, l)| == CHUNK) && n <= |data|
      ensures Decrypted(keystream, data, offset)[..n] == Decrypted(keystream, data[..n], offset)
    {
      hide Xor, KeyByte;
    }

    // ----- Runs of any kind -----

    /** Stores a run in whichever mirror there is. */
    method StoreRun(start: nat, end: nat, data: seq<bv8>)
      requires Valid() && kind != Encrypted && State().WholeBlocks(start, end) && State().RunIs(start, end, false)
      requires data == content[start..end]
      modifies this`file, this`isModified, this`bitmap, this`blockMap
      ensures Valid() && Gains(old(State()), State(), start, end) && |file| <= |old(file)| + (end - start)
      ensures State().Shaped() && streamSize == |content| && start < end <= streamSize
      ensures old(CanStore(end - start)) ==> State().RunIs(start, end, true)
      ensures Follows(old(Stored()), Stored(), kind)
    {
      hide Mirror.Coherent, Mirror.AvailableAt, Mirror.Shaped, Mirror.RunIs, Valid, Gains, Follows;
      Facts();
      match kind {
        case Flat => FlatStore(start, end, data);
        case Part => PartStore(start, end, data);
      }
      Facts();
    }

    /** Loads a run that is not available from the master and stores it in the mirror. */
    method FetchRun(start: nat, end: nat, buffer: array<bv8>, at: nat) returns (ok: bool)
      requires Valid() && kind != Encrypted && State().WholeBlocks(start, end) && State().RunIs(start, end, false)
      requires at + (end - start) <= buffer.Length && at <= start && Filled(buffer, at, start - at)
      modifies this`masterReads, this`file, this`isModified, this`bitmap, this`blockMap, buffer
      ensures Valid() && Gains(old(State()), State(), start, end)
      ensures State().Shaped() && |file| <= |old(file)| + (end - start)
      ensures (ok && old(CanStore(end - start)) ==> State().RunIs(start, end, true))
      ensures ok <==> master.Some? && masterUp(old(masterReads))
      ensures masterReads == old(masterReads) + if master.Some? then 1 else 0
      ensures Filled(buffer, at + if ok then end - start else 0, start - at)
      ensures Kept(old(buffer[..]), buffer[..], at + (end - start))
      ensures !ok ==> State() == old(State()) && file == old(file)
      ensures Follows(old(Stored()), Stored(), kind)
    {
      hide Mirror.Coherent, Mirror.AvailableAt, Mirror.Shaped, Mirror.RunIs, Valid, Gains, Follows;
      Facts();
      FollowsItself(Stored(), kind);
      Unchanged(State(), start, end);
      if master.None? {
        return false;
      }
      ok := MasterRead(start, end, buffer, at);
      if !ok {
        return;
      }
      FilledFurther(buffer, at, end - start, start);
      StoreRun(start, end, buffer[at..at + (end - start)]);
    }

    /** Reads a run of equal availability into the buffer. Only a run that is not available can fail. */
    method BlockRead(start: nat, end: nat, buffer: array<bv8>, at: nat, needed: nat, available: bool) returns (ok: bool)
      requires Valid() && start < end <= streamSize && Aligned(start, blockSize)
      requires State().RunIs(start, end, available)
      requires !available ==> State().WholeBlocks(start, end)
      requires RoundDown(end - 1, blockSize) < start + needed
      requires at + RoundUp(end - start, blockSize) <= buffer.Length && at <= start && Filled(buffer, at, start - at)
      modifies this`masterReads, this`file, this`isModified, this`bitmap, this`blockMap, buffer
      ensures Valid() && Gains(old(State()), State(), start, end)
      ensures State().Shaped() && |file| <= |old(file)| + (end - start)
      ensures (ok && old(CanStore(end - start)) ==> State().RunIs(start, end, true))
      ensures ok <==> available || (master.Some? && masterUp(old(masterReads)))
      ensures masterReads == old(masterReads) + if !available && master.Some? then 1 else 0
      ensures Filled(buffer, at + if ok then Min(needed, end - start) else 0, start - at)
      ensures kind != Encrypted ==> Kept(old(buffer[..]), buffer[..], at + (end - start))
      ensures !ok ==> State() == old(State()) && file == old(file)
      ensures Follows(old(Stored()), Stored(), kind)
    {
      hide Mirror.Coherent, Mirror.AvailableAt, Mirror.Shaped, Mirror.RunIs, Mirror.WholeBlocks, Valid, Gains, RoundUp,
        RoundDown, State, Aligned, Filled, Follows;
      Facts();
      FollowsItself(Stored(), kind);
      Unchanged(State(), start, end);
      if kind == Encrypted { NeverMissing(State(), start, end, available); }
      if !available {
        ok := FetchRun(start, end, buffer, at);
        if ok {
          FilledLess(buffer, at + (end - start), at + Min(needed, end - start), start - at);
        }
        return;
      }
      match kind {
        case Flat => FlatRead(start, end, buffer, at, needed);
        case Part => PartRead(start, end, buffer, at, needed);
        case Encrypted =>
          EncryptedRead(start, end, buffer, at);
          FilledLess(buffer, at + (end - start), at + Min(needed, end - start), start - at);
      }
      ok := true;
    }

    lemma NeverMissing(m: Mirror, start: nat, end: nat, available: bool)
      requires m.Coherent() && start < end <= |m.content| && m.RunIs(start, end, available) && m.kind == Encrypted
      ensures available
    {
      assert m.AvailableAt(start);
    }

    // ----- Reading -----

    /** Every attempt to read the master since the `from`-th has succeeded. */
    ghost predicate AttemptsUp(from: nat)
      reads this`masterReads
    {
      forall k :: from <= k < masterReads ==> masterUp(k)
    }

    /** The runs of a scan up to `from` are loaded, which took as many reads of the master as there were
        missing ones, from the `k`-th on; all of them succeeded. */
    ghost predicate Asked(m: Mirror, first: nat, from: nat, k: nat, attempts: nat)
      requires m.Shaped() && first <= from < |m.content|
    {
      if master.Some? then attempts == k + RunsClosed(m, first, from) && forall j :: k <= j < attempts ==> masterUp(j)
      else attempts == k
    }

    lemma AskedNothing(m: Mirror, first: nat, k: nat)
      requires m.Shaped() && first < |m.content|
      ensures Asked(m, first, first, k, k)
    {
    }

    /** A run more is loaded. */
    lemma AskedMore(before: Mirror, now: Mirror, first: nat, from: nat, offset: nat, end: nat, available: bool, k: nat,
                    attempts: nat)
      requires Scanning(before, now, first, from, offset, end, available)
      requires from <= offset < end && now.Shaped() && before.Shaped()
      requires now.AvailableAt(offset) <==> !available
      requires Asked(before, first, from, k, attempts) && (available || (master.Some? && masterUp(attempts)))
      ensures Asked(before, first, offset, k, attempts + if available then 0 else 1)
    {
      hide Mirror.AvailableAt, Mirror.Shaped, RunsClosed, Scanning;
      ScanCounts(before, now, first, from, offset, end, available);
    }

    /** How a read of the blocks from `first` to `end` of the stream `m` comes out, told by the attempts to
        read the master from the `k`-th on: it succeeds if every run is loaded, each in one attempt, and also
        if it is cut short, when it is complete only up to `loaded`. */
    ghost predicate Outcome(m: Mirror, first: nat, end: nat, k: nat, ok: bool, loaded: nat, attempts: nat)
      requires m.Shaped() && first < end <= |m.content|
    {
      if master.None? then (ok <==> m.RunIs(first, end, true)) && (ok ==> end <= loaded) && attempts == k
      else
        && (ok <==> AllLoad(m, first, end, masterUp, k) || CutShort(m, first, end, masterUp, k))
        && (ok && !CutShort(m, first, end, masterUp, k) ==> end <= loaded && attempts == k + MissingRuns(m, first, end))
        && (ok && CutShort(m, first, end, masterUp, k) ==>
            CutAt(m, first, end, masterUp, k, loaded) && attempts == k + RunsClosed(m, first, loaded) + 1)
    }

    /** The last run, or once more the one that failed. */
    lemma OutcomeOfScan(before: Mirror, now: Mirror, first: nat, from: nat, offset: nat, end: nat, available: bool,
                        k: nat, attempts: nat, ok: bool)
      requires Scanning(before, now, first, from, offset, end, available) && from < offset && before.Shaped()
      requires Asked(before, first, from, k, attempts)
      requires offset < end ==> !available && before.AvailableAt(offset) && (master.Some? ==> !masterUp(attempts))
      requires var retry := attempts + if offset < end then 1 else 0; ok <==>
        available || (master.Some? && masterUp(retry))
      requires master.None? && offset >= end ==> (before.RunIs(first, end, true) <==> available)
      requires master.None? && offset < end ==> !before.RunIs(first, end, true)
      ensures first < end <= |before.content|
      ensures var after := if offset < end && master.Some? then attempts + 1 else attempts;
        Outcome(before, first, end, k, ok, Min(offset, |before.content|),
          after + if !available && master.Some? then 1 else 0)
    {
      hide Mirror.AvailableAt, Mirror.Shaped, Mirror.RunIs, RunsClosed, MissingRuns, AllLoad, CutShort, CutAt, Scanning;
      ScanBounds(before, now, first, from, offset, end, available);
      if master.Some? {
        ScanOutcome(before, now, first, from, offset, end, available, masterUp, k);
      }
    }

    lemma AllThereOutcome(m: Mirror, first: nat, end: nat, k: nat)
      requires m.Shaped() && first < end <= |m.content| && m.RunIs(first, end, true)
      ensures Outcome(m, first, end, k, true, end, k)
    {
      hide Mirror.AvailableAt, Mirror.Shaped, MissingRuns, AllLoad, CutShort;
      AllThereLoads(m, first, end, masterUp, k);
    }

    lemma RunWithin(m: Mirror, first: nat, end: nat, from: nat, to: nat, available: bool)
      requires m.Shaped() && first <= from <= to <= end <= |m.content| && m.RunIs(first, end, available)
      ensures m.RunIs(from, to, available)
    {
      hide Mirror.AvailableAt, Mirror.Shaped;
    }

    lemma AlwaysUpOutcome(m: Mirror, first: nat, end: nat, k: nat, ok: bool, loaded: nat, attempts: nat)
      requires m.Shaped() && first < end <= |m.content| && Outcome(m, first, end, k, ok, loaded, attempts)
      requires master.Some? && forall j :: masterUp(j)
      ensures ok && end <= loaded
    {
      hide Mirror.AvailableAt, Mirror.Shaped, CutShort, MissingRuns;
      SteadyNeverCuts(m, first, end, masterUp, k);
    }

    /** A single missing run takes one attempt. */
    lemma MissingRunLoads(m: Mirror, first: nat, end: nat, k: nat, ok: bool, loaded: nat, attempts: nat)
      requires m.Shaped() && first < end <= |m.content| && m.RunIs(first, end, false)
      requires Outcome(m, first, end, k, ok, loaded, attempts) && master.Some? && masterUp(k)
      ensures ok && end <= loaded && attempts == k + 1
    {
      hide Mirror.AvailableAt, Mirror.Shaped, AllLoad, CutShort, MissingRuns;
      ScanCameThrough(m, first, first, end, false, masterUp, k);
    }

    /** If the first block is missing, the second is not, and the master fails once, only the first is loaded. */
    lemma FirstBlockOnly(m: Mirror, end: nat, k: nat, ok: bool, loaded: nat, attempts: nat)
      requires m.Shaped() && m.blockSize < end <= |m.content|
      requires m.RunIs(0, m.blockSize, false) && m.AvailableAt(m.blockSize)
      requires master.Some? && !masterUp(k) && masterUp(k + 1)
      requires Outcome(m, 0, end, k, ok, loaded, attempts)
      ensures ok && loaded == m.blockSize
    {
      hide Mirror.AvailableAt, Mirror.Shaped, AllLoad, CutAt, MissingRuns, RunsClosed;
      CutAfterFirstBlock(m, end, masterUp, k);
      CutOnce(m, 0, end, masterUp, k, m.blockSize, loaded);
    }

    lemma SteadyOutcome(m: Mirror, first: nat, end: nat, k: nat, loaded: nat, attempts: nat)
      requires m.Shaped() && first < end <= |m.content|
      requires Outcome(m, first, end, k, true, loaded, attempts) && forall j :: masterUp(j) == masterUp(0)
      ensures end <= loaded
    {
      hide Mirror.AvailableAt, Mirror.Shaped, AllLoad, CutShort;
      SteadyNeverCuts(m, first, end, masterUp, k);
    }

    /** Loads the run that a scan has found. */
    method LoadRun(ghost before: Mirror, first: nat, from: nat, offset: nat, end: nat,
                   transfer: array<bv8>, at: nat, needed: nat, available: bool) returns (ok: bool)
      requires Valid() && kind != Encrypted && end <= streamSize
      requires Scanning(before, State(), first, from, offset, end, available) && first <= from < offset && from < end
      requires transfer.Length == RoundUp(end - first, blockSize)
      requires at == from - first && needed == end - from && Filled(transfer, at, first)
      modifies this`masterReads, this`file, this`isModified, this`bitmap, this`blockMap, transfer
      ensures Valid() && Gains(old(State()), State(), from, Min(offset, streamSize))
      ensures State().Shaped() && State().content == content && streamSize == |content|
      ensures from <= Min(offset, streamSize) <= first + transfer.Length
      ensures |file| <= |old(file)| + (Min(offset, streamSize) - from)
      ensures ok && old(CanStore(Min(offset, streamSize) - from)) ==> State().RunIs(from, Min(offset, streamSize), true)
      ensures !ok ==> State() == old(State()) && file == old(file)
      ensures Follows(old(Stored()), Stored(), kind)
      ensures ok <==> available || (master.Some? && masterUp(old(masterReads)))
      ensures masterReads == old(masterReads) + if !available && master.Some? then 1 else 0
      ensures Filled(transfer, if ok then Min(offset, end) - first else at, first)
      ensures Kept(old(transfer[..]), transfer[..], Min(offset, streamSize) - first)
    {
      hide Mirror.Coherent, Mirror.AvailableAt, Mirror.Shaped, Mirror.RunIs, Mirror.WholeBlocks, Valid, Gains, RoundUp,
        RoundDown, State, Aligned, Filled, Scanning, Follows;
      Facts();
      ScanRun(before, State(), first, from, offset, end, available);
      var stop := Min(offset, streamSize);
      ok := BlockRead(from, stop, transfer, at, needed, available);
      Facts();
    }

    /** The runs of a scan up to `from` are loaded, and stored if that is possible. */
    ghost predicate Loaded(before: Mirror, first: nat, from: nat, end: nat, storing: bool, room: nat)
      reads this
    {
      && Valid() && State().Shaped() && State().content == content && before.Shaped() && streamSize == |content|
      && first <= from < end <= |before.content| && from <= |content|
      && (master.None? ==> before.RunIs(first, from, true))
      && |file| <= room + (from - first) && (storing ==> State().RunIs(first, from, true))
    }

    /** Loads the run that ends at `offset`, where the availability changes. */
    method LoadTurn(ghost before: Mirror, first: nat, from: nat, offset: nat, end: nat, transfer: array<bv8>,
                    at: nat, needed: nat, available: bool, ghost k: nat, ghost storing: bool, ghost room: nat)
      returns (ok: bool)
      requires Loaded(before, first, from, end, storing, room)
      requires kind != Encrypted && from <= offset < end <= streamSize
      requires Scanning(before, State(), first, from, offset, end, available)
      requires (State().AvailableAt(offset) <==> !available)
      requires transfer.Length == RoundUp(end - first, blockSize)
      requires at == from - first && needed == end - from && Filled(transfer, at, first)
      requires Asked(before, first, from, k, masterReads)
      requires storing ==> writesComplete && (kind == Part ==> room + transfer.Length <= MAX_FILE)
      modifies this`masterReads, this`file, this`isModified, this`bitmap, this`blockMap, transfer
      ensures Kept(old(transfer[..]), transfer[..], offset - first) && from < offset
      ensures Follows(old(Stored()), Stored(), kind)
      ensures ok ==> Filled(transfer, offset - first, first) && Loaded(before, first, offset, end, storing, room)
      ensures ok ==> Scanning(before, State(), first, offset, offset, end, !available)
      ensures ok ==> Asked(before, first, offset, k, masterReads)
      ensures !ok ==> !available && before.AvailableAt(offset) && Filled(transfer, at, first)
      ensures !ok ==> Loaded(before, first, from, end, storing, room)
      ensures !ok ==> Scanning(before, State(), first, from, offset, end, available)
      ensures !ok ==> var attempts := old(masterReads);
        && Asked(before, first, from, k, attempts) && masterReads == attempts + (if master.Some? then 1 else 0)
        && (master.Some? ==> !masterUp(attempts))
    {
      hide Mirror.Coherent, Mirror.AvailableAt, Mirror.Shaped, Mirror.RunIs, Valid, Gains, RoundUp, RoundDown, State,
        Aligned, Filled, Scanning, Asked, Kept, RunsClosed, Follows;
      ghost var now := State();
      Facts();
      ScanCounts(before, now, first, from, offset, end, available);
      ok := LoadRun(before, first, from, offset, end, transfer, at, needed, available);
      if ok {
        AskedMore(before, now, first, from, offset, end, available, k, old(masterReads));
        if storing { ScanCaches(now, State(), first, from, offset, offset); }
        ScanTurns(before, now, State(), first, from, offset, end, available);
      }
    }

    /** Loads the blocks from `first` on, run by run, up to the last run before `end`, or up to a run that fails. */
    method LoadRuns(first: nat, end: nat, transfer: array<bv8>)
      returns (ok: bool, from: nat, offset: nat, at: nat, needed: nat, available: bool)
      requires Valid() && kind != Encrypted && first < end <= streamSize && Aligned(first, blockSize)
      requires transfer.Length == RoundUp(end - first, blockSize)
      modifies this`masterReads, this`file, this`isModified, this`bitmap, this`blockMap, transfer
      ensures Loaded(old(State()), first, from, end, old(CanStore(transfer.Length)), |old(file)|)
      ensures Scanning(old(State()), State(), first, from, offset, end, available)
      ensures from < offset && (ok <==> offset >= end)
      ensures at == from - first && needed == end - from && Filled(transfer, at, first)
      ensures var attempts := if ok || master.None? then masterReads else masterReads - 1;
        && attempts >= 0 && Asked(old(State()), first, from, old(masterReads), attempts)
        && (!ok && master.Some? ==> !masterUp(attempts))
      ensures !ok ==> !available && old(State()).AvailableAt(offset)
      ensures Kept(old(transfer[..]), transfer[..], Min(offset, streamSize) - first)
      ensures Follows(old(Stored()), Stored(), kind)
    {
      hide Mirror.Coherent, Mirror.AvailableAt, Mirror.Shaped, Mirror.RunIs, Valid, Gains, RoundUp, RoundDown, State,
        Aligned, Filled, Scanning, Asked, Kept, RunsClosed, Follows;
      Facts();
      ghost var before, storing, room := State(), CanStore(transfer.Length), |file|;
      from, offset, at, needed := first, first, 0, end - first;
      available := BlockCheck(first);
      ScanStarts(before, first, end, available);
      FilledNothing(transfer, first);
      AskedNothing(before, first, masterReads);
      KeptAll(transfer[..]);
      FollowsItself(Stored(), kind);
      while offset < end
        invariant Loaded(before, first, from, end, storing, room)
        invariant Scanning(before, State(), first, from, offset, end, available)
        invariant first <= from <= offset && from < end && Follows(old(Stored()), Stored(), kind)
        invariant at == from - first && needed == end - from && Filled(transfer, at, first)
        invariant Asked(before, first, from, old(masterReads), masterReads) && Kept(old(transfer[..]), transfer[..], at)
      {
        ScanSees(before, State(), first, from, offset, end, available);
        Facts();
        var next := BlockCheck(offset);
        if next != available {
          ghost var buffer, stored := transfer[..], Stored();
          ok := LoadTurn(before, first, from, offset, end, transfer, at, needed, available, old(masterReads), storing,
            room);
          KeptFurther(old(transfer[..]), buffer, transfer[..], at, offset - first);
          FollowsOn(old(Stored()), stored, Stored(), kind);
          if !ok {
            return;
          }
          at := at + (offset - from);
          needed := needed - (offset - from);
          available := next;
          from := offset;
          ScanSees(before, State(), first, from, offset, end, available);
        }
        ScanJoins(before, State(), first, from, offset, end, available);
        offset := offset + blockSize;
      }
      KeptFurther(old(transfer[..]), transfer[..], transfer[..], at, Min(offset, streamSize) - first);
      ok := true;
    }

    /** Whether all attempts succeeded is told by those counted, and by the one that failed if there is one. */
    lemma AskedUp(m: Mirror, first: nat, from: nat, k: nat, attempts: nat)
      requires m.Shaped() && first <= from < |m.content| && Asked(m, first, from, k, attempts)
      ensures k <= attempts && (master.None? ==> attempts == k) && forall j :: k <= j < attempts ==> masterUp(j)
    {
    }

    /** The blocks from `first` that cover the stream up to `end`, grouped into runs of equal
        availability. A run that fails is tried once more before the whole read fails. */
    method LoadBlocks(first: nat, end: nat, transfer: array<bv8>) returns (ok: bool, ghost loaded: nat)
      requires Valid() && kind != Encrypted && first < end <= streamSize && Aligned(first, blockSize)
      requires transfer.Length == RoundUp(end - first, blockSize)
      modifies this`masterReads, this`file, this`isModified, this`bitmap, this`blockMap, transfer
      ensures Valid() && Gains(old(State()), State(), first, Min(first + transfer.Length, streamSize))
      ensures State().Shaped() && State().content == content && old(State()).Shaped() && old(State()).content == content
      ensures streamSize == |content| && masterReads >= old(masterReads)
      ensures Outcome(old(State()), first, end, old(masterReads), ok, loaded, masterReads)
      ensures ok ==> (loaded >= end <==>
        AttemptsUp(old(masterReads))) && Min(first + blockSize, end) <= loaded <= streamSize
      ensures ok ==> Filled(transfer, Min(loaded, end) - first, first)
      ensures ok ==> Kept(old(transfer[..]), transfer[..], loaded - first)
      ensures ok && old(CanStore(transfer.Length)) ==> State().RunIs(first, Min(loaded, end), true)
      ensures Follows(old(Stored()), Stored(), kind)
    {
      hide Mirror.Coherent, Mirror.AvailableAt, Mirror.Shaped, Mirror.RunIs, Valid, Gains, RoundUp, RoundDown, State,
        Aligned, Filled, Scanning, RunsClosed, Asked, Outcome, Kept, Follows;
      Facts();
      ghost var before, storing := State(), CanStore(transfer.Length);
      var done, from, offset, at, needed, available := LoadRuns(first, end, transfer);
      Facts();
      ghost var now, buffer, stored := State(), transfer[..], Stored();
      ghost var attempts: nat := if done || master.None? then masterReads else masterReads - 1;
      AskedUp(before, first, from, old(masterReads), attempts);
      ok := LoadRun(before, first, from, offset, end, transfer, at, needed, available);
      Facts();
      loaded := Min(offset, streamSize);
      FollowsOn(old(Stored()), stored, Stored(), kind);
      KeptFurther(old(transfer[..]), buffer, transfer[..], loaded - first, loaded - first);
      ScanDone(before, now, State(), first, from, offset, end, available);
      ScanGoesOn(before, now, first, from, offset, end, available);
      OutcomeOfScan(before, now, first, from, offset, end, available, old(masterReads), attempts, ok);
      if storing && ok {
        ScanCaches(now, State(), first, from, loaded, Min(loaded, end));
      }
    }

    /** Everything is there already: one read of the whole range. */
    method LoadComplete(first: nat, end: nat, transfer: array<bv8>)
      requires Valid() && isComplete && first < end <= streamSize && Aligned(first, blockSize)
      requires transfer.Length == RoundUp(end - first, blockSize)
      modifies this`masterReads, this`file, this`isModified, this`bitmap, this`blockMap, transfer
      ensures Valid() && Gains(old(State()), State(), first, end) && masterReads == old(masterReads)
      ensures State().Shaped() && State().content == content
      ensures old(State()).RunIs(first, end, true)
      ensures State().RunIs(first, end, true) && Filled(transfer, end - first, first)
      ensures Follows(old(Stored()), Stored(), kind)
    {
      hide Mirror.Coherent, Mirror.AvailableAt, Mirror.Shaped, Mirror.RunIs, Mirror.WholeBlocks, Valid, Gains, RoundUp,
        RoundDown, State, Aligned, Filled, Follows;
      Facts();
      AllThere(first, end);
      FilledNothing(transfer, first);
      var ok := BlockRead(first, end, transfer, 0, end - first, true);
      Facts();
      AllThere(first, end);
    }

    lemma AllThere(start: nat, end: nat)
      requires Valid() && isComplete && start <= end <= streamSize
      ensures State().Shaped() && streamSize == |content| && State().RunIs(start, end, true)
    {
      hide Mirror.AvailableAt;
    }

    /** The range of whole blocks that covers the bytes from `start` to `end`. */
    ghost function CoverEnd(start: nat, end: nat): nat
      requires blockSize > 0 && start < end
    {
      Min(RoundDown(start, blockSize) + RoundUp(end - RoundDown(start, blockSize), blockSize), streamSize)
    }

    /** Loads the blocks that cover the bytes from `start` to `end`. */
    method LoadCover(start: nat, end: nat, transfer: array<bv8>) returns (ok: bool, ghost loaded: nat)
      requires Valid() && start < end <= streamSize && blockSize > 0
      requires transfer.Length == RoundUp(end - RoundDown(start, blockSize), blockSize)
      modifies this`masterReads, this`file, this`isModified, this`bitmap, this`blockMap, transfer
      ensures Valid() && State().Shaped() && State().content == content
      ensures old(State()).Shaped() && old(State()).content == content && streamSize == |content|
      ensures Follows(old(Stored()), Stored(), kind)
      ensures var first := RoundDown(start, blockSize);
        && Gains(old(State()), State(), first, CoverEnd(start, end))
        && Outcome(old(State()), first, end, old(masterReads), ok, loaded, masterReads)
        && (ok ==> start < loaded && Filled(transfer, Min(loaded, end) - first, first))
        && (ok ==> (loaded >= end <==> AttemptsUp(old(masterReads))))
        && (ok && old(CanStore(transfer.Length)) ==> State().RunIs(first, Min(loaded, end), true))
    {
      hide Mirror.Coherent, Mirror.AvailableAt, Mirror.Shaped, Mirror.RunIs, Valid, Gains, RoundUp, RoundDown, State,
        Aligned, Filled, Outcome, Kept, Follows;
      Facts();
      ghost var before := State();
      var first := RoundDown(start, blockSize);
      if isComplete {
        LoadComplete(first, end, transfer);
        Widened(before, State(), first, end, CoverEnd(start, end));
        AllThereOutcome(before, first, end, masterReads);
        ok, loaded := true, end;
      } else {
        ok, loaded := LoadBlocks(first, end, transfer);
      }
    }

    /** Reads `length` bytes, from the given position or from the current one. When it succeeds, the bytes up
        to `loaded` are those of the content; that is all of them unless the read was cut short. */
    method Read(position: Option<nat>, length: nat) returns (ok: bool, data: seq<bv8>, ghost loaded: nat)
      requires Valid() && length + 2 * blockSize <= DWORD
      modifies this
      ensures Valid() && State().Shaped() && State().content == content
      ensures old(State()).Shaped() && old(State()).content == content && streamSize == |content|
      ensures |data| == (if ok then length else 0)
      ensures streamPos == if ok && length > 0 then position.GetOr(old(streamPos)) + length else old(streamPos)
      ensures length == 0 ==> ok && State() == old(State())
      ensures length > 0 && position.GetOr(old(streamPos)) + length > streamSize ==> !ok && State() == old(State())
      ensures var start := position.GetOr(old(streamPos));
        var first, end := RoundDown(start, blockSize), start + length;
        0 < length && end <= streamSize ==>
        && first < end && Gains(old(State()), State(), first, CoverEnd(start, end))
        && Outcome(old(State()), first, end, old(masterReads), ok, loaded, masterReads)
        && (ok ==> start < loaded && data[..Min(loaded, end) - start] == content[start..Min(loaded, end)])
        && (ok ==> (loaded >= end <==> AttemptsUp(old(masterReads))) && (loaded >= end ==> data == content[start..end]))
        && (ok && old(CanStore(length + 2 * blockSize)) ==> State().RunIs(first, Min(loaded, end), true))
      ensures Follows(old(Stored()), Stored(), kind)
      ensures ok && (forall k :: masterUp(k) == masterUp(0)) ==> var start := position.GetOr(old(streamPos));
        length > 0 ==> start + length <= streamSize && data == content[start..start + length]
    {
      hide Mirror.Coherent, Mirror.AvailableAt, Mirror.Shaped, Mirror.RunIs, Valid, Gains, RoundUp, RoundDown, State,
        Aligned, Filled,
        Outcome, Kept, Follows;
      Facts();
      FollowsItself(Stored(), kind);
      if length == 0 {
        return true, [], 0;
      }
      var start := position.GetOr(streamPos);
      var end := start + length;
      if end > streamSize {
        return false, [], 0;
      }
      ghost var before, storing := State(), CanStore(length + 2 * blockSize);
      var first := RoundDown(start, blockSize);
      var transfer := new bv8[RoundUp(end - first, blockSize)];
      assert storing ==> CanStore(transfer.Length);
      ok, loaded := LoadCover(start, end, transfer);
      if !ok {
        return false, [], loaded;
      }
      data := transfer[start - first..][..length];
      Piece(transfer, first, start, length, Min(loaded, end));
      if forall k :: masterUp(k) == masterUp(0) {
        SteadyOutcome(before, first, end, old(masterReads), loaded, masterReads);
      }
      Advance(end);
    }

    lemma Piece(transfer: array<bv8>, first: nat, start: nat, length: nat, loaded: nat)
      requires first <= start < loaded <= start + length && start - first + length <= transfer.Length
      requires Filled(transfer, loaded - first, first)
      ensures |transfer[start - first..][..length]| == length
      ensures loaded <= |content| && transfer[start - first..][..length][..loaded - start] == content[start..loaded]
    {
      var n := loaded - first;
      assert transfer[start - first..][..length][..loaded - start] == transfer[..n][start - first..];
      assert content[first..first + n][start - first..] == content[start..loaded];
    }

    method Advance(position: nat)
      requires Valid() && position <= streamSize
      modifies this`streamPos
      ensures Valid() && State() == old(State()) && Stored() == old(Stored()) && streamPos == position
    {
      hide Mirror.Coherent, Mirror.RunIs, Mirror.Shaped;
      streamPos := position;
    }

    // ----- Closing -----

    /** Writes the bitmap or the map, if it has changed. If the system completes its writes, and there is room,
        all of it is written; and however much is, no cached block is lost. */
    method Close() returns (ghost written: bool)
      requires Valid() && kind != Encrypted
      modifies this`file
      ensures Valid() && State() == old(State()).(file := file)
      ensures written ==> isModified
      ensures !isModified ==> file == old(file)
      ensures isModified && writesComplete && (kind == Flat ==> streamSize + |bitmap| + FOOTER_SIZE <= MAX_FILE) ==>
        written
      ensures written ==>
        file == if kind == Flat then FlatClosed(old(State()), buildNumber) else PartClosed(old(State()), buildNumber)
    {
      hide Mirror.Coherent, Mirror.AvailableAt, FlatClosed, PartClosed;
      Facts();
      if !isModified {
        return false;
      }
      match kind
      case Flat => written := WriteBitmap();
      case Part => written := WriteMap();
    }

    method WriteBitmap() returns (ghost written: bool)
      requires Valid() && kind == Flat
      modifies this`file
      ensures Valid() && State() == old(State()).(file := file)
      ensures writesComplete && streamSize + |bitmap| + FOOTER_SIZE <= MAX_FILE ==> written
      ensures |content| <= |old(file)| && (written ==> file == FlatClosed(old(State()), buildNumber))
    {
      hide Mirror.Coherent, Mirror.AvailableAt, Mirror.Shaped, Valid, Gains, Overwrite, Footer;
      Facts();
      ghost var before, footer := State(), Footer(buildNumber, streamSize, blockSize);
      var ok, n := BaseWrite(streamSize, bitmap);
      var last, k := BaseWrite(streamSize + n, Footer(buildNumber, streamSize, blockSize));
      written := ok && last;
      TwoWrites(before.file, streamSize, bitmap, n, footer, k);
      if written {
        assert bitmap[..n] == bitmap && footer[..k] == footer;
        assert before.content == content && before.bits == bitmap && before.blockSize == blockSize;
        assert file == Overwrite(Overwrite(before.file, streamSize, bitmap), streamSize + |bitmap|, footer);
      }
      KeepsData(before, file);
      StillValid(before, 0, 0);
    }

    method WriteMap() returns (ghost written: bool)
      requires Valid() && kind == Part
      modifies this`file
      ensures Valid() && State() == old(State()).(file := file) && (writesComplete ==> written)
      ensures old(State()).DataStart() <= |old(file)| && (written ==> file == PartClosed(old(State()), buildNumber))
    {
      hide Mirror.Coherent, Mirror.AvailableAt, Mirror.Shaped, Valid, Gains, Overwrite, PartHeader, MapWords;
      Facts();
      ghost var before, header, map_ := State(), PartHeader(buildNumber, streamSize, blockSize),
        Dwords(MapWords(blockMap));
      var ok, n := BaseWrite(0, PartHeader(buildNumber, streamSize, blockSize));
      var last, k := BaseWrite(n, Dwords(MapWords(blockMap)));
      written := ok && last;
      TwoWrites(before.file, 0, header, n, map_, k);
      assert header[..|header|] == header && map_[..|map_|] == map_;
      KeepsBlocks(before, file);
      StillValid(before, 0, 0);
    }
  }

  // ----- From opening to opening again -----

  /** Closes a flat mirror of which something was stored, and opens it again for its master. */
  method ReopenFlat(stream: Stream, useBitmap: bool, masterUp: nat -> bool) returns (again: Stream)
    requires stream.Valid() && stream.Closable() && stream.kind == Flat && stream.master.Some?
    requires stream.blockSize == DEFAULT_BLOCK_SIZE && FlatSize(stream.streamSize) <= MAX_FILE
    requires stream.isModified && stream.writesComplete
    modifies stream`file
    ensures fresh(again) && again.Valid() && again.kind == Flat && again.content == stream.content
    ensures useBitmap ==> SameCached(old(stream.State()), again.State())
    ensures !useBitmap ==> again.State().RunIs(0, |stream.content|, false)
  {
    hide Mirror.Coherent, Mirror.AvailableAt, Stream.Valid, LoadBits, FlatClosed, AllSet, Opened;
    stream.Facts();
    ghost var m := stream.State();
    FlatReopensForMaster(m, stream.buildNumber, useBitmap);
    FlatReopens(m, stream.buildNumber);
    var written := stream.Close();
    stream.Facts();
    OpenedAgain(m, stream.file, FlatFound(stream.file, |m.content|, useBitmap));
    again := new Stream.CreateFlat(stream.master.value, stream.file, useBitmap, masterUp, true);
    again.Facts();
  }

  /** From end to end: what a new mirror has read is cached when it has been closed and opened again. */
  method ReadAndReopen(master: seq<bv8>, start: nat, length: nat) returns (again: Stream)
    requires 0 < length && start + length <= |master| && length + 2 * DEFAULT_BLOCK_SIZE <= DWORD
    requires FlatSize(|master|) <= MAX_FILE && BlockCount(|master|, DEFAULT_BLOCK_SIZE) + 7 < DWORD
    ensures fresh(again) && again.Valid() && again.content == master && again.State().Shaped()
    ensures again.State().RunIs(RoundDown(start, DEFAULT_BLOCK_SIZE), start + length, true)
  {
    hide Mirror.Coherent, Mirror.AvailableAt, Mirror.Shaped, Mirror.RunIs, Stream.Valid, Stream.Closable, Stream.State,
      Stream.Outcome, Gains, RoundDown, RoundUp, Opened, BlockCount, SameCached, FlatFound;
    NoFile(|master|);
    var stream := new Stream.CreateFlat(master, [], true, (k: nat) => true, true);
    stream.Facts();
    ghost var first, end, empty := RoundDown(start, DEFAULT_BLOCK_SIZE), start + length, stream.State();
    ghost var loaded;
    var ok, data;
    label before:
    ok, data, loaded := stream.Read(Some(start), length);
    stream.AlwaysUpOutcome(empty, first, end, 0, ok, loaded, stream.masterReads);
    stream.StillClosable@before();
    stream.Facts();
    ghost var half := stream.State();
    again := ReopenFlat(stream, true, (k: nat) => true);
    again.Facts();
    RunAgain(half, again.State(), first, end);
  }

  lemma NoFile(masterSize: nat)
    requires masterSize > 0
    ensures FlatFound([], masterSize, true) == NotLoaded
  {
  }

  lemma RunAgain(a: Mirror, b: Mirror, start: nat, end: nat)
    requires SameCached(a, b) && start <= end <= |a.content|
    ensures a.Shaped() && b.Shaped() && end <= |b.content| && (a.RunIs(start, end, true) ==> b.RunIs(start, end, true))
  {
    hide Mirror.AvailableAt, Mirror.Shaped;
  }

  /** The same for a part mirror, which is found again if it stores whole blocks, or as much as the master has. */
  method ReopenPart(stream: Stream, masterUp: nat -> bool) returns (again: Stream)
    requires stream.Valid() && stream.Closable() && stream.kind == Part && stream.master.Some?
    requires stream.blockSize == DEFAULT_BLOCK_SIZE && PartStart(stream.streamSize) < DWORD
    requires stream.isModified && stream.writesComplete
    modifies stream`file
    ensures fresh(again) && again.Valid() && again.kind == Part && again.content == stream.content
    ensures old(stream.State()).DataStart() <= |old(stream.file)|
    ensures var stored := |old(stream.file)| - old(stream.State()).DataStart();
      if stream.buildNumber >= 100 && stored > 0 && (stored % DEFAULT_BLOCK_SIZE == 0 || stored == |stream.content|)
      then SameCached(old(stream.State()), again.State())
      else again.State().RunIs(0, |stream.content|, false)
  {
    hide Mirror.Coherent, Mirror.AvailableAt, Stream.Valid, LoadMap, PartClosed, Opened, AllPresent, Decimal;
    stream.Facts();
    ghost var m := stream.State();
    PartReopensForMaster(m, stream.buildNumber);
    PartReopens(m, stream.buildNumber);
    var written := stream.Close();
    stream.Facts();
    OpenedAgain(m, stream.file, PartFound(stream.file, |m.content|));
    again := new Stream.CreatePart(stream.master.value, stream.file, masterUp, true);
    again.Facts();
  }

  /** Two blocks, of which the second is read and cached; of the reads of the master the next one will fail. */
  method ReadSecondBlock(content: seq<bv8>) returns (stream: Stream)
    requires |content| == 2 * DEFAULT_BLOCK_SIZE
    ensures fresh(stream) && stream.Valid() && stream.content == content && stream.blockSize == DEFAULT_BLOCK_SIZE
    ensures stream.masterReads == 1 && stream.master.Some? && stream.streamSize == |content|
    ensures !stream.masterUp(1) && stream.masterUp(2)
    ensures stream.State().Shaped() && stream.State().content == content
    ensures stream.State().blockSize == DEFAULT_BLOCK_SIZE
    ensures stream.State().RunIs(0, DEFAULT_BLOCK_SIZE, false)
    ensures stream.State().RunIs(DEFAULT_BLOCK_SIZE, 2 * DEFAULT_BLOCK_SIZE, true)
  {
    hide Mirror.Coherent, Mirror.AvailableAt, Mirror.Shaped, Mirror.RunIs, Stream.Valid, Stream.State, Stream.Outcome,
      Gains, RoundDown,
      RoundUp, BlockCount, Opened;
    TwoBlocks(DEFAULT_BLOCK_SIZE);
    stream := new Stream.CreateFlat(content, [], false, (k: nat) => k != 1, true);
    ghost var empty := stream.State();
    stream.Facts();
    stream.RunWithin(empty, 0, 2 * DEFAULT_BLOCK_SIZE, DEFAULT_BLOCK_SIZE, 2 * DEFAULT_BLOCK_SIZE, false);
    stream.RunWithin(empty, 0, 2 * DEFAULT_BLOCK_SIZE, 0, DEFAULT_BLOCK_SIZE, false);
    ghost var loaded;
    var ok, data;
    ok, data, loaded := stream.Read(Some(DEFAULT_BLOCK_SIZE), DEFAULT_BLOCK_SIZE);
    stream.MissingRunLoads(empty, DEFAULT_BLOCK_SIZE, 2 * DEFAULT_BLOCK_SIZE, 0, ok, loaded, stream.masterReads);
    stream.Facts();
    GainsInFront(empty, stream.State(), DEFAULT_BLOCK_SIZE, stream.CoverEnd(DEFAULT_BLOCK_SIZE, 2 * DEFAULT_BLOCK_SIZE),
      0, DEFAULT_BLOCK_SIZE, false);
  }

  /** A read that is cut short: now both blocks are to be read, the first attempt to load the missing one fails,
      and the second one succeeds. The read succeeds too, but only the first block was put into the buffer. */
  method ReadCutShort(content: seq<bv8>) returns (ok: bool, data: seq<bv8>, ghost loaded: nat)
    requires |content| == 2 * DEFAULT_BLOCK_SIZE
    ensures ok && |data| == 2 * DEFAULT_BLOCK_SIZE && loaded == DEFAULT_BLOCK_SIZE
    ensures data[..loaded] == content[..loaded]
  {
    hide Mirror.Coherent, Mirror.AvailableAt, Mirror.Shaped, Stream.Valid, Stream.State, Stream.Outcome, Gains,
      RoundDown,
      RoundUp, BlockCount, Opened;
    TwoBlocks(DEFAULT_BLOCK_SIZE);
    var stream := ReadSecondBlock(content);
    ghost var half := stream.State();
    ok, data, loaded := stream.Read(Some(0), 2 * DEFAULT_BLOCK_SIZE);
    stream.FirstBlockOnly(half, 2 * DEFAULT_BLOCK_SIZE, 1, ok, loaded, stream.masterReads);
  }

  lemma TwoBlocks(size: nat)
    requires size > 0
    ensures BlockCount(2 * size, size) == 2 && RoundDown(size, size) == size && RoundDown(0, size) == 0
  {
    hide RoundDown;
    QuotientIsUnique(3 * size - 1, size, 2, size - 1);
    if RoundDown(size, size) < size {
      AlignedGap(RoundDown(size, size), size, size) by { QuotientIsUnique(size, size, 1, 0); }
    }
  }
}
