/** The state of a block-oriented stream as a value: which bytes of its content the file holds, and
    where. The operations of the stream are proved to keep `Coherent`. */
module Mirror {
  import opened Bitmap
  import opened Bytes
  import opened Division

  datatype Kind = Flat | Part | Encrypted

  /** The largest size of a file on disk. */
  const MAX_FILE := 0x7FFF_FFFF_FFFF_FFFF
  const PART_HEADER_SIZE := 52
  const MAP_ENTRY_SIZE := 20
  const CHUNK := 64

  /** An entry of the part map: where a present block is stored. */
  datatype MapEntry = MapEntry(flags: nat, offsetLow: nat, offsetHigh: nat) {
    predicate Present() { flags % 4 != 0 }
    function Offset(): nat { offsetHigh * DWORD + offsetLow }
  }

  datatype Mirror = Mirror(
    kind: Kind,
    blockSize: nat,
    content: seq<bv8>,
    keystream: (nat, nat) -> seq<bv8>,
    file: seq<bv8>,
    bits: seq<bv8>,
    entries: seq<MapEntry>)
  {
    function Blocks(): nat
      requires blockSize > 0
    {
      BlockCount(|content|, blockSize)
    }

    ghost predicate Shaped() {
      && blockSize > 0 && 0 < |content| <= MAX_FILE && |file| <= MAX_FILE
      && match kind
         case Flat => Blocks() <= 8 * |bits| && |content| <= |file|
         case Part => Blocks() == |entries| && DataStart() <= |file|
         case Encrypted => blockSize == CHUNK && |file| == |content| && forall h, l :: |keystream(h, l)| == CHUNK
    }

    predicate Available(b: nat)
      requires Shaped() && b < Blocks()
    {
      match kind
      case Flat => BitSet(bits, b)
      case Part => entries[b].Present()
      case Encrypted => true
    }

    ghost predicate AvailableAt(p: nat)
      requires Shaped() && p < |content|
    {
      InSomeBlock(p, |content|, blockSize);
      Available(BlockOf(p, blockSize))
    }

    /** The position of content byte `p` in the file. */
    ghost function Where(p: nat): nat
      requires Shaped() && p < |content|
    {
      InSomeBlock(p, |content|, blockSize);
      if kind == Part then entries[BlockOf(p, blockSize)].Offset() + PlaceOf(p, blockSize) else p
    }

    ghost function Key(p: nat): bv8
      requires Shaped()
    {
      if kind == Encrypted then KeyByte(keystream, p) else 0
    }

    /** Where the data of a mirror starts: behind the header and the block map. */
    function DataStart(): nat {
      if kind == Part then PART_HEADER_SIZE + MAP_ENTRY_SIZE * |entries| else 0
    }

    /** The byte of the content at `p` as the file has it. */
    ghost predicate Holds(p: nat)
      requires Shaped() && p < |content|
    {
      DataStart() <= Where(p) < |file| && content[p] == Xor(file[Where(p)], Key(p))
    }

    /** Every available byte is in the file, in a place of its own. */
    ghost predicate Coherent() {
      && Shaped()
      && (forall p :: 0 <= p < |content| && AvailableAt(p) ==> Holds(p))
      && (forall p, q :: 0 <= p < q < |content| && AvailableAt(p) && AvailableAt(q) ==> Where(p) != Where(q))
    }

    /** A range that begins with a block and ends with one, or with the stream. */
    predicate WholeBlocks(start: nat, end: nat) {
      start < end <= |content| && Aligned(start, blockSize) && (Aligned(end, blockSize) || end == |content|)
    }

    ghost predicate RunIs(start: nat, end: nat, available: bool)
      requires Shaped() && start <= end <= |content|
    {
      forall p :: start <= p < end ==> (AvailableAt(p) <==> available)
    }
  }

  /** The key byte at `p`: the two words of the chunk number select 64 bytes. */
  function KeyByte(keystream: (nat, nat) -> seq<bv8>, p: nat): bv8
    requires forall h, l :: |keystream(h, l)| == CHUNK
  {
    keystream(p / CHUNK / DWORD, p / CHUNK % DWORD)[p % CHUNK]
  }

  /** `next` is the same stream with nothing lost and nothing but `start` to `end` gained. */
  ghost predicate Gains(m: Mirror, next: Mirror, start: nat, end: nat) {
    && m.Coherent() && next.Coherent() && next == m.(file := next.file, bits := next.bits, entries := next.entries)
    && forall p :: 0 <= p < |m.content| ==>
      && (m.AvailableAt(p) ==> next.AvailableAt(p))
      && (!(start <= p < end) ==> (next.AvailableAt(p) <==> m.AvailableAt(p)))
  }

  lemma GainsChain(a: Mirror, b: Mirror, c: Mirror, start: nat, mid: nat, end: nat)
    requires start <= mid <= end && Gains(a, b, start, mid) && Gains(b, c, mid, end)
    ensures Gains(a, c, start, end)
  {
    hide Mirror.Coherent, Mirror.AvailableAt;
  }

  /** What lies outside the gained range is as it was. */
  lemma GainsOutside(m: Mirror, next: Mirror, start: nat, end: nat, from: nat, to: nat, available: bool)
    requires Gains(m, next, start, end) && end <= from <= to <= |m.content|
    ensures m.Shaped() && next.Shaped()
    ensures next.RunIs(from, to, available) <==> m.RunIs(from, to, available)
  {
    hide Mirror.AvailableAt;
  }

  lemma GainsInFront(m: Mirror, next: Mirror, start: nat, end: nat, from: nat, to: nat, available: bool)
    requires Gains(m, next, start, end) && from <= to <= start && to <= |m.content|
    ensures m.Shaped() && next.Shaped() && next.content == m.content && next.blockSize == m.blockSize
    ensures next.RunIs(from, to, available) <==> m.RunIs(from, to, available)
  {
    hide Mirror.AvailableAt;
  }

  /** All of a block is as available as its first byte. */
  lemma RunExtends(m: Mirror, start: nat, offset: nat, available: bool)
    requires m.Shaped() && start <= offset < |m.content| && Aligned(offset, m.blockSize)
    requires m.RunIs(start, offset, available) && (m.AvailableAt(offset) <==> available)
    ensures m.RunIs(start, Min(offset + m.blockSize, |m.content|), available)
  {
    forall p | offset <= p < Min(offset + m.blockSize, |m.content|) ensures m.AvailableAt(p) <==> available {
      SameBlock(offset, p, m.blockSize);
      hide Mirror.Shaped, Mirror.Available;
    }
    hide Mirror.AvailableAt, Mirror.Shaped;
  }

  // ----- A scan by runs of equal availability -----

  /** A scan for the blocks from `first` that cover `end`: those up to `from` are loaded, and those from
      `from` to `offset` are a run. Runs are told by the state `before`, since a scan gains nothing ahead. */
  ghost predicate Scanning(before: Mirror, now: Mirror, first: nat, from: nat, offset: nat, end: nat, available: bool) {
    && Gains(before, now, first, from)
    && first <= from <= offset < end + before.blockSize && from < end <= |before.content|
    && Aligned(first, before.blockSize) && Aligned(from, before.blockSize) && Aligned(offset, before.blockSize)
    && before.RunIs(from, Min(offset, |before.content|), available)
    && (before.AvailableAt(from) <==> available)
  }

  lemma ScanStarts(m: Mirror, first: nat, end: nat, available: bool)
    requires m.Coherent() && first < end <= |m.content|
    requires Aligned(first, m.blockSize) && (m.AvailableAt(first) <==> available)
    ensures Scanning(m, m, first, first, first, end, available) && m.RunIs(first, first, true)
  {
    hide Mirror.AvailableAt;
  }

  lemma ScanSees(before: Mirror, now: Mirror, first: nat, from: nat, offset: nat, end: nat, available: bool)
    requires Scanning(before, now, first, from, offset, end, available) && offset < end
    ensures before.Shaped() && now.Shaped() && Aligned(offset, before.blockSize) && end <= |before.content|
    ensures now.blockSize == before.blockSize && now.content == before.content
    ensures from == offset ==> (now.AvailableAt(offset) <==> available)
  {
    hide Mirror.AvailableAt;
  }

  /** The block at `offset` is as available as the run, which it joins. */
  lemma ScanJoins(before: Mirror, now: Mirror, first: nat, from: nat, offset: nat, end: nat, available: bool)
    requires Scanning(before, now, first, from, offset, end, available) && offset < end && now.Shaped()
    requires now.AvailableAt(offset) <==> available
    ensures Scanning(before, now, first, from, offset + before.blockSize, end, available)
  {
    hide Mirror.AvailableAt;
    RunExtends(before, from, offset, available);
    NextAligned(offset, before.blockSize);
  }

  /** The block at `offset` starts a new run, now that the run before it is loaded. */
  lemma ScanTurns(before: Mirror, now: Mirror, next: Mirror, first: nat, from: nat, offset: nat, end: nat,
                  available: bool)
    requires Scanning(before, now, first, from, offset, end, available) && offset < end && now.Shaped()
    requires now.AvailableAt(offset) <==> !available
    requires Gains(now, next, from, offset)
    ensures from < offset && Scanning(before, next, first, offset, offset, end, !available)
    ensures before.RunIs(first, from, true) && available ==> before.RunIs(first, offset, true)
  {
    GainsChain(before, now, next, first, from, offset);
    hide Mirror.AvailableAt;
  }

  /** What a scan may ask of its next run. */
  lemma ScanRun(before: Mirror, now: Mirror, first: nat, from: nat, offset: nat, end: nat, available: bool)
    requires Scanning(before, now, first, from, offset, end, available) && from < offset
    ensures var stop, size := Min(offset, |now.content|), now.blockSize;
      && now.Coherent() && from < stop && Aligned(from, size) && now.RunIs(from, stop, available) &&
        now.WholeBlocks(from, stop)
      && RoundDown(stop - 1, size) < end && from - first + RoundUp(stop - from, size) <= RoundUp(end - first, size)
      && stop - from <= RoundUp(stop - from, size)
  {
    var stop, size := Min(offset, |now.content|), now.blockSize;
    RunFits(first, from, offset, end, stop - from, size);
    BlockEndsBefore(stop - 1, offset, size);
    GainsOutside(before, now, first, from, from, stop, available);
    hide Mirror.AvailableAt, RoundUp, RoundDown;
  }

  /** A run that has been cached joins those cached before. */
  lemma ScanCaches(now: Mirror, next: Mirror, first: nat, from: nat, stop: nat, end: nat)
    requires Gains(now, next, from, stop) && first <= from <= stop <= |now.content| && first <= end <= stop
    requires now.RunIs(first, from, true) && next.RunIs(from, stop, true)
    ensures next.RunIs(first, end, true)
  {
    hide Mirror.AvailableAt;
  }

  /** The last run of a scan covers its end, and the scan has gained nothing behind whole blocks. */
  lemma ScanDone(before: Mirror, now: Mirror, next: Mirror, first: nat, from: nat, offset: nat, end: nat,
                 available: bool)
    requires Scanning(before, now, first, from, offset, end, available) && from < offset
    requires Gains(now, next, from, Min(offset, |now.content|))
    ensures Gains(before, next, first, Min(first + RoundUp(end - first, before.blockSize), |before.content|))
    ensures offset >= end && before.RunIs(first, from, true) ==> (before.RunIs(first, end, true) <==> available)
    ensures !available ==> !before.RunIs(first, end, true)
  {
    RunFits(first, from, offset, end, 0, before.blockSize);
    hide RoundUp, Mirror.AvailableAt;
    GainsChain(before, now, next, first, from, Min(offset, |now.content|));
  }

  // ----- How often a scan asks the master, told before it begins -----

  /** How many missing runs end behind `first` and no later than `p`: each is followed by an available byte. */
  ghost function RunsClosed(m: Mirror, first: nat, p: nat): nat
    requires m.Shaped() && first <= p < |m.content|
    decreases p
  {
    if p == first then 0
    else RunsClosed(m, first, p - 1) + if !m.AvailableAt(p - 1) && m.AvailableAt(p) then 1 else 0
  }

  /** A missing run ends at `p`, where it is followed by an available one. */
  ghost predicate RunEnds(m: Mirror, first: nat, p: nat)
    requires m.Shaped() && first <= p < |m.content|
  {
    first < p && !m.AvailableAt(p - 1) && m.AvailableAt(p)
  }

  /** How many missing runs there are up to `end`: the last one need not be followed by an available one. */
  ghost function MissingRuns(m: Mirror, first: nat, end: nat): nat
    requires m.Shaped() && first < end <= |m.content|
  {
    RunsClosed(m, first, end - 1) + if m.AvailableAt(end - 1) then 0 else 1
  }

  /** No missing run up to `end` fails, with attempts counted from `k`. */
  ghost predicate AllLoad(m: Mirror, first: nat, end: nat, up: nat -> bool, k: nat)
    requires m.Shaped() && first < end <= |m.content|
  {
    forall j :: k <= j < k + MissingRuns(m, first, end) ==> up(j)
  }

  /** The read is cut short at `p`: the first attempt that fails is for the missing run that ends there, in
      front of an available one, and the attempt after that succeeds. */
  ghost predicate CutAt(m: Mirror, first: nat, end: nat, up: nat -> bool, k: nat, p: nat)
    requires m.Shaped() && first < end <= |m.content|
  {
    first < p < end && RunEnds(m, first, p) &&
    var j := k + RunsClosed(m, first, p);
    (forall i :: k <= i < j - 1 ==> up(i)) && (j > k ==> !up(j - 1)) && up(j)
  }

  ghost predicate CutShort(m: Mirror, first: nat, end: nat, up: nat -> bool, k: nat)
    requires m.Shaped() && first < end <= |m.content|
  {
    exists p: nat :: CutAt(m, first, end, up, k, p)
  }

  lemma {:induction false} RunsClosedGrow(m: Mirror, first: nat, p: nat, q: nat)
    requires m.Shaped() && first <= p <= q < |m.content|
    ensures RunsClosed(m, first, p) <= RunsClosed(m, first, q)
    ensures p < q && RunEnds(m, first, q) ==> RunsClosed(m, first, p) < RunsClosed(m, first, q)
    decreases q
  {
    hide Mirror.AvailableAt, Mirror.Shaped;
    if p < q {
      RunsClosedGrow(m, first, p, q - 1);
    }
  }

  /** No missing run ends inside a run. */
  lemma {:induction false} RunsClosedInRun(m: Mirror, first: nat, from: nat, p: nat, available: bool)
    requires m.Shaped() && first <= from <= p < |m.content| && m.RunIs(from, p + 1, available)
    ensures RunsClosed(m, first, p) == RunsClosed(m, first, from)
    decreases p
  {
    hide Mirror.AvailableAt, Mirror.Shaped;
    if from < p {
      RunsClosedInRun(m, first, from, p - 1, available);
    }
  }

  /** Where a run ends, a missing one is counted. */
  lemma RunsClosedAtTurn(m: Mirror, first: nat, from: nat, p: nat, available: bool)
    requires m.Shaped() && first <= from < p < |m.content| && m.RunIs(from, p, available)
    requires m.AvailableAt(p) <==> !available
    ensures RunsClosed(m, first, p) == RunsClosed(m, first, from) + if available then 0 else 1
    ensures !available ==> RunEnds(m, first, p)
  {
    hide Mirror.AvailableAt, Mirror.Shaped;
    RunsClosedInRun(m, first, from, p - 1, available);
  }

  lemma EndsAreCounted(m: Mirror, first: nat, p: nat)
    requires m.Shaped() && first <= p < |m.content| && RunEnds(m, first, p)
    ensures RunsClosed(m, first, p) > 0
  {
  }

  /** A read is cut short in one place only. */
  lemma CutOnce(m: Mirror, first: nat, end: nat, up: nat -> bool, k: nat, p: nat, q: nat)
    requires m.Shaped() && first < end <= |m.content|
    requires CutAt(m, first, end, up, k, p) && CutAt(m, first, end, up, k, q)
    ensures p == q
  {
    hide Mirror.AvailableAt, Mirror.Shaped, RunEnds, RunsClosed;
    EndsAreCounted(m, first, p);
    EndsAreCounted(m, first, q);
    if p < q {
      RunsClosedGrow(m, first, p, q);
      assert false;
    } else if q < p {
      RunsClosedGrow(m, first, q, p);
      assert false;
    }
  }

  /** When the scan came to its last run, no read was cut short, and what is left to load is the last run. */
  lemma ScanCameThrough(m: Mirror, first: nat, from: nat, end: nat, available: bool, up: nat -> bool, k: nat)
    requires m.Shaped() && first <= from < end <= |m.content| && m.RunIs(from, end, available)
    requires forall j :: k <= j < k + RunsClosed(m, first, from) ==> up(j)
    ensures !CutShort(m, first, end, up, k)
    ensures AllLoad(m, first, end, up, k) <==> available || up(k + RunsClosed(m, first, from))
    ensures MissingRuns(m, first, end) == RunsClosed(m, first, from) + if available then 0 else 1
  {
    hide Mirror.AvailableAt, Mirror.Shaped, RunEnds, RunsClosed;
    RunsClosedInRun(m, first, from, end - 1, available);
    if p: nat :| CutAt(m, first, end, up, k, p) {
      RunsClosedGrow(m, first, p, end - 1);
      EndsAreCounted(m, first, p);
      assert false;
    }
    assert m.AvailableAt(end - 1) <==> available;
  }

  lemma MissingOrClosed(m: Mirror, first: nat, end: nat)
    requires m.Shaped() && first < end <= |m.content|
    ensures MissingRuns(m, first, end) >= RunsClosed(m, first, end - 1)
  {
  }

  /** When the scan broke off at a run that failed, it all depends on the attempt after that. */
  lemma ScanBroke(m: Mirror, first: nat, from: nat, offset: nat, end: nat, up: nat -> bool, k: nat)
    requires m.Shaped() && first <= from < offset < end <= |m.content|
    requires m.RunIs(from, offset, false) && m.AvailableAt(offset)
    requires forall j :: k <= j < k + RunsClosed(m, first, from) ==> up(j)
    requires !up(k + RunsClosed(m, first, from))
    ensures !AllLoad(m, first, end, up, k) && RunsClosed(m, first, offset) == RunsClosed(m, first, from) + 1
    ensures CutAt(m, first, end, up, k, offset) <==> up(k + RunsClosed(m, first, from) + 1)
    ensures CutShort(m, first, end, up, k) <==> up(k + RunsClosed(m, first, from) + 1)
  {
    hide Mirror.AvailableAt, Mirror.Shaped, RunEnds, RunsClosed, MissingRuns, CutAt;
    RunsClosedAtTurn(m, first, from, offset, false);
    RunsClosedGrow(m, first, offset, end - 1);
    MissingOrClosed(m, first, end);
    var j := k + RunsClosed(m, first, from);
    assert !up(j) && j < k + MissingRuns(m, first, end);
    CutHere(m, first, end, up, k, offset);
    forall p: nat | CutAt(m, first, end, up, k, p) ensures up(j + 1) {
      CutAtFirstFailure(m, first, end, up, k, p, j);
    }
  }

  lemma CutHere(m: Mirror, first: nat, end: nat, up: nat -> bool, k: nat, p: nat)
    requires m.Shaped() && first < p < end <= |m.content| && RunEnds(m, first, p) && RunsClosed(m, first, p) > 0
    requires forall i :: k <= i < k + RunsClosed(m, first, p) - 1 ==> up(i)
    requires !up(k + RunsClosed(m, first, p) - 1)
    ensures CutAt(m, first, end, up, k, p) <==> up(k + RunsClosed(m, first, p))
  {
    hide Mirror.AvailableAt, Mirror.Shaped, RunEnds, RunsClosed;
  }

  /** A read is cut short at the first attempt that fails. */
  lemma CutAtFirstFailure(m: Mirror, first: nat, end: nat, up: nat -> bool, k: nat, p: nat, j: nat)
    requires m.Shaped() && first < end <= |m.content| && CutAt(m, first, end, up, k, p)
    requires k <= j && !up(j) && forall i :: k <= i < j ==> up(i)
    ensures up(j + 1)
  {
    hide Mirror.AvailableAt, Mirror.Shaped, RunEnds, RunsClosed;
    EndsAreCounted(m, first, p);
    assert !up(k + RunsClosed(m, first, p) - 1);
  }

  /** With everything available the master is not asked. */
  lemma AllThereLoads(m: Mirror, first: nat, end: nat, up: nat -> bool, k: nat)
    requires m.Shaped() && first < end <= |m.content| && m.RunIs(first, end, true)
    ensures AllLoad(m, first, end, up, k) && !CutShort(m, first, end, up, k) && MissingRuns(m, first, end) == 0
  {
    hide Mirror.AvailableAt, Mirror.Shaped;
    ScanCameThrough(m, first, first, end, true, up, k);
  }

  /** For instance: the first block is missing, the second is not, and the master fails once. */
  lemma CutAfterFirstBlock(m: Mirror, end: nat, up: nat -> bool, k: nat)
    requires m.Shaped() && m.blockSize < end <= |m.content|
    requires m.RunIs(0, m.blockSize, false) && m.AvailableAt(m.blockSize) && !up(k) && up(k + 1)
    ensures CutAt(m, 0, end, up, k, m.blockSize)
  {
    hide Mirror.AvailableAt;
    RunsClosedAtTurn(m, 0, 0, m.blockSize, false);
  }

  /** Who never fails, or always, cuts no read short. */
  lemma SteadyNeverCuts(m: Mirror, first: nat, end: nat, up: nat -> bool, k: nat)
    requires m.Shaped() && first < end <= |m.content| && forall j :: up(j) == up(0)
    ensures !CutShort(m, first, end, up, k)
  {
    hide Mirror.AvailableAt, Mirror.Shaped, RunEnds, RunsClosed;
    if p: nat :| CutAt(m, first, end, up, k, p) {
      EndsAreCounted(m, first, p);
      assert false;
    }
  }

  /** What the place where a scan stopped says about the read. */
  lemma ScanOutcome(before: Mirror, now: Mirror, first: nat, from: nat, offset: nat, end: nat, available: bool,
                    up: nat -> bool, k: nat)
    requires Scanning(before, now, first, from, offset, end, available) && from < offset && before.Shaped()
    requires forall j :: k <= j < k + RunsClosed(before, first, from) ==> up(j)
    requires offset < end ==> !available && before.AvailableAt(offset) && !up(k + RunsClosed(before, first, from))
    ensures var next := k + RunsClosed(before, first, from);
      if offset >= end
      then
        && !CutShort(before, first, end, up, k) && (AllLoad(before, first, end, up, k) <==> available || up(next))
        && MissingRuns(before, first, end) == RunsClosed(before, first, from) + if available then 0 else 1
      else
        && RunsClosed(before, first, offset) == RunsClosed(before, first, from) + 1
        && !AllLoad(before, first, end, up, k)
        && (CutAt(before, first, end, up, k, offset) <==> up(next + 1)) &&
          (CutShort(before, first, end, up, k) <==> up(next + 1))
  {
    hide Mirror.AvailableAt, Mirror.Shaped, Gains, Aligned;
    if offset >= end {
      hide RunsClosed;
      ScanCameThrough(before, first, from, end, available, up, k);
    } else {
      hide RunsClosed;
      ScanBroke(before, first, from, offset, end, up, k);
    }
  }

  /** The run that the block at `offset` ends, if it is missing, is counted. */
  lemma ScanCounts(before: Mirror, now: Mirror, first: nat, from: nat, offset: nat, end: nat, available: bool)
    requires Scanning(before, now, first, from, offset, end, available) && from <= offset < end && now.Shaped()
    requires now.AvailableAt(offset) <==> !available
    ensures before.Shaped() && from < offset && (before.AvailableAt(offset) <==> !available)
    ensures RunsClosed(before, first, offset) == RunsClosed(before, first, from) + if available then 0 else 1
  {
    hide Mirror.AvailableAt, RunsClosed;
    RunsClosedAtTurn(before, first, from, offset, available);
  }

  lemma ScanBounds(before: Mirror, now: Mirror, first: nat, from: nat, offset: nat, end: nat, available: bool)
    requires Scanning(before, now, first, from, offset, end, available)
    ensures first <= from < end <= |before.content|
  {
  }

  /** A scan stops no earlier than a block behind its start. */
  lemma ScanGoesOn(before: Mirror, now: Mirror, first: nat, from: nat, offset: nat, end: nat, available: bool)
    requires Scanning(before, now, first, from, offset, end, available) && from < offset
    ensures first + before.blockSize <= offset
  {
    hide Gains, Mirror.Shaped, Mirror.AvailableAt, Mirror.RunIs;
    AlignedGap(first, offset, before.blockSize);
  }

  function Xor(a: bv8, b: bv8): bv8 { a ^ b }

  lemma XorIsSum(a: bv8, b: bv8)
    ensures a ^ b == Xor(a, b)
  {
  }

  lemma XorZero(b: bv8)
    ensures Xor(b, 0) == b
  {
  }

  /** The file after `data` was written at `offset`, which is at most its size. */
  function Overwrite(file: seq<bv8>, offset: nat, data: seq<bv8>): (r: seq<bv8>)
    requires offset <= |file|
    ensures |r| == if offset + |data| < |file| then |file| else offset + |data|
    ensures forall p :: 0 <= p < |r| ==> r[p] == if offset <= p < offset + |data| then data[p - offset] else file[p]
  {
    if offset + |data| < |file| then file[..offset] + data + file[offset + |data|..] else file[..offset] + data
  }

  /** One write behind another, either of which may be cut short. */
  lemma TwoWrites(file: seq<bv8>, offset: nat, a: seq<bv8>, n: nat, b: seq<bv8>, k: nat)
    requires offset <= |file| && n <= |a| && k <= |b|
    ensures var r := Overwrite(Overwrite(file, offset, a[..n]), offset + n, b[..k]);
      && |file| <= |r| && (offset + n + k <= |file| ==> |r| == |file|)
      && r[..offset] == file[..offset]
      && forall end :: offset + n + k <= end <= |file| ==> r[end..|file|] == file[end..]
  {
  }

  // ----- Flat mirrors -----

  /** The bitmap after the blocks `first` to `last` were marked. */
  ghost predicate Marked(bits: seq<bv8>, marked: seq<bv8>, first: nat, last: nat) {
    |marked| == |bits| && forall b :: 0 <= b < 8 * |bits| ==>
      (BitSet(marked, b) <==> BitSet(bits, b) || first <= b < last)
  }

  lemma MarkedLength(bits: seq<bv8>, marked: seq<bv8>, first: nat, last: nat)
    requires Marked(bits, marked, first, last)
    ensures |marked| == |bits|
  {
  }

  lemma MarkNothing(bits: seq<bv8>, first: nat)
    ensures Marked(bits, bits, first, first)
  {
  }

  lemma MarkOne(bits: seq<bv8>, marked: seq<bv8>, first: nat, b: nat)
    requires first <= b < 8 * |bits| && Marked(bits, marked, first, b)
    ensures Marked(bits, marked[b / 8 := Or(marked[b / 8], Mask(b % 8))], first, b + 1)
  {
    hide Mask, Or, HasBit;
    var next := marked[b / 8 := Or(marked[b / 8], Mask(b % 8))];
    forall j | 0 <= j < 8 * |bits| ensures BitSet(next, j) <==> BitSet(marked, j) || j == b {
      if j / 8 == b / 8 {
        OrSetsOne(marked[b / 8], b % 8, j % 8);
      }
    }
  }

  lemma MarkedPositions(m: Mirror, start: nat, end: nat, marked: seq<bv8>, p: nat)
    requires m.Shaped() && m.kind == Flat && m.WholeBlocks(start, end) && p < |m.content|
    requires Marked(m.bits, marked, BlockOf(start, m.blockSize), BlockCount(end, m.blockSize))
    ensures m.(bits := marked).AvailableAt(p) <==> m.AvailableAt(p) || start <= p < end
  {
    hide BlockCount, BitSet;
    InSomeBlock(p, |m.content|, m.blockSize);
    BlocksOfRange(start, end, |m.content|, p, m.blockSize);
  }

  lemma FlatHolds(m: Mirror, p: nat)
    requires m.Shaped() && m.kind == Flat && p < |m.content|
    ensures m.Holds(p) <==> m.content[p] == m.file[p]
  {
    hide Xor;
    XorZero(m.file[p]);
  }

  /** Writing any part of a run that is not yet available keeps a flat mirror coherent. */
  lemma FlatWritten(m: Mirror, start: nat, end: nat, n: nat)
    requires m.Coherent() && m.kind == Flat && start < end <= |m.content|
    requires m.RunIs(start, end, false) && n <= end - start
    ensures m.(file := Overwrite(m.file, start, m.content[start..start + n])).Coherent()
  {
    hide Mirror.AvailableAt, Mirror.Holds;
    var next := m.(file := Overwrite(m.file, start, m.content[start..start + n]));
    forall p | 0 <= p < |m.content| ensures next.AvailableAt(p) <==> m.AvailableAt(p) {
      SameAvailability(m, next, p);
    }
    forall p | 0 <= p < |m.content| && next.AvailableAt(p) ensures next.Holds(p) {
      FlatHolds(m, p);
      FlatHolds(next, p);
    }
  }

  lemma SameAvailability(m: Mirror, next: Mirror, p: nat)
    requires m.Shaped() && next.Shaped() && p < |m.content|
    requires next == m.(file := next.file)
    ensures next.AvailableAt(p) <==> m.AvailableAt(p)
    ensures next.Where(p) == m.Where(p) && next.Key(p) == m.Key(p)
  {
  }

  /** Marking a run whose bytes are all in the file keeps a flat mirror coherent. */
  lemma FlatMarked(m: Mirror, start: nat, end: nat, marked: seq<bv8>)
    requires m.Coherent() && m.kind == Flat && m.WholeBlocks(start, end)
    requires m.file[start..end] == m.content[start..end]
    requires Marked(m.bits, marked, BlockOf(start, m.blockSize), BlockCount(end, m.blockSize))
    ensures m.(bits := marked).Coherent()
  {
    hide Mirror.AvailableAt, Mirror.Holds;
    var next := m.(bits := marked);
    forall p | 0 <= p < |m.content| && next.AvailableAt(p) ensures next.Holds(p) {
      MarkedPositions(m, start, end, marked, p);
      FlatHolds(m, p);
      FlatHolds(next, p);
      if start <= p < end {
        assert m.file[p] == m.file[start..end][p - start];
      }
    }
  }

  /** A fetched run that was stored, wholly or in part, and marked only if wholly. */
  lemma FlatFetched(m: Mirror, start: nat, end: nat, n: nat, marked: seq<bv8>)
    requires m.Coherent() && m.kind == Flat && m.WholeBlocks(start, end)
    requires m.RunIs(start, end, false) && n <= end - start
    requires if n == end - start then Marked(m.bits, marked, BlockOf(start, m.blockSize), BlockCount(end, m.blockSize))
      else marked == m.bits
    ensures var next := m.(file := Overwrite(m.file, start, m.content[start..start + n]), bits := marked);
      Gains(m, next, start, end) && (n == end - start ==> next.RunIs(start, end, true))
  {
    hide Mirror.AvailableAt, Mirror.Holds, Marked;
    var written := m.(file := Overwrite(m.file, start, m.content[start..start + n]));
    FlatWritten(m, start, end, n);
    forall p | 0 <= p < |m.content| ensures written.AvailableAt(p) <==> m.AvailableAt(p) {
      SameAvailability(m, written, p);
    }
    if n == end - start {
      assert written.file[start..end] == m.content[start..end];
      FlatMarked(written, start, end, marked);
      forall p | 0 <= p < |m.content|
        ensures written.(bits := marked).AvailableAt(p) <==> m.AvailableAt(p) || start <= p < end
      {
        MarkedPositions(written, start, end, marked, p);
      }
    } else {
      assert written.(bits := marked) == written;
    }
  }

  /** In an available run of a flat mirror the file is the content. */
  lemma FlatRun(m: Mirror, start: nat, end: nat)
    requires m.Coherent() && m.kind == Flat && start <= end <= |m.content| && m.RunIs(start, end, true)
    ensures m.file[start..end] == m.content[start..end]
  {
    hide Mirror.AvailableAt, Mirror.Holds;
    forall p | start <= p < end ensures m.file[p] == m.content[p] {
      FlatHolds(m, p);
    }
  }

  // ----- Part mirrors -----

  /** The map after the blocks `first` to `last` of a run from `start` were stored in a row from `base` on. */
  ghost predicate Mapped(entries: seq<MapEntry>, marked: seq<MapEntry>, first: nat, last: nat, size: nat, start: nat,
                         base: nat) {
    |marked| == |entries| && forall b :: 0 <= b < |entries| ==>
      if first <= b < last then marked[b].Present() && marked[b].Offset() + start == base + b * size
      else marked[b] == entries[b]
  }

  /** The entry of a block stored at `offset`, in two words. */
  function EntryAt(offset: nat): (e: MapEntry)
    ensures e.Present() && e.Offset() == offset
  {
    MapEntry(3, offset % DWORD, offset / DWORD)
  }

  /** Whatever is appended, a part mirror stays coherent. */
  lemma PartWritten(m: Mirror, data: seq<bv8>)
    requires m.Coherent() && m.kind == Part && |m.file| + |data| <= MAX_FILE
    ensures m.(file := m.file + data).Coherent()
  {
    hide Mirror.AvailableAt, Mirror.Where, Mirror.Key, Xor;
    var next := m.(file := m.file + data);
    forall p | 0 <= p < |m.content|
      ensures next.AvailableAt(p) <==> m.AvailableAt(p)
      ensures next.Where(p) == m.Where(p)
      ensures next.AvailableAt(p) ==> next.Holds(p)
    {
      SameAvailability(m, next, p);
    }
  }

  lemma MappedPositions(m: Mirror, start: nat, end: nat, base: nat, marked: seq<MapEntry>, p: nat)
    requires m.Shaped() && m.kind == Part && m.WholeBlocks(start, end) && p < |m.content|
    requires Mapped(m.entries, marked, BlockOf(start, m.blockSize), BlockCount(end, m.blockSize), m.blockSize, start,
      base)
    ensures m.(entries := marked).AvailableAt(p) <==> m.AvailableAt(p) || start <= p < end
    ensures start <= p < end ==> m.(entries := marked).Where(p) == base + p - start
    ensures !(start <= p < end) ==> m.(entries := marked).Where(p) == m.Where(p)
  {
    hide BlockCount;
    InSomeBlock(p, |m.content|, m.blockSize);
    Quotient(p, m.blockSize);
    BlocksOfRange(start, end, |m.content|, p, m.blockSize);
  }

  /** Mapping a run to fresh room that holds its bytes keeps a part mirror coherent: the new places
      lie behind all the old ones. */
  lemma PartMapped(m: Mirror, start: nat, end: nat, base: nat, marked: seq<MapEntry>)
    requires m.Coherent() && m.kind == Part && m.WholeBlocks(start, end)
    requires m.DataStart() <= base && base + (end - start) <= |m.file|
    requires m.file[base..base + (end - start)] == m.content[start..end]
    requires forall p :: 0 <= p < |m.content| && m.AvailableAt(p) ==> m.Where(p) < base
    requires Mapped(m.entries, marked, BlockOf(start, m.blockSize), BlockCount(end, m.blockSize), m.blockSize, start,
      base)
    ensures m.(entries := marked).Coherent()
  {
    hide Mirror.AvailableAt, Mirror.Where, Xor;
    var next := m.(entries := marked);
    forall p | 0 <= p < |m.content| && next.AvailableAt(p)
      ensures next.Holds(p)
      ensures if start <= p < end then next.Where(p) == base + p - start
        else m.AvailableAt(p) && next.Where(p) == m.Where(p)
    {
      MappedPositions(m, start, end, base, marked, p);
      if start <= p < end {
        assert m.file[base + p - start] == m.file[base..base + (end - start)][p - start];
        XorZero(m.content[p]);
      }
    }
  }

  /** A fetched run that was appended, wholly or in part, and mapped only if wholly. */
  lemma PartFetched(m: Mirror, start: nat, end: nat, n: nat, marked: seq<MapEntry>)
    requires m.Coherent() && m.kind == Part && m.WholeBlocks(start, end)
    requires m.RunIs(start, end, false) && n <= end - start
    requires |m.file| + n <= MAX_FILE
    requires
      if n != end - start then marked == m.entries
      else
        Mapped(m.entries, marked, BlockOf(start, m.blockSize), BlockCount(end, m.blockSize), m.blockSize, start,
               |m.file|)
    ensures var next := m.(file := Overwrite(m.file, |m.file|, m.content[start..start + n]), entries := marked);
      Gains(m, next, start, end) && (n == end - start ==> next.RunIs(start, end, true))
  {
    hide Mirror.AvailableAt, Mirror.Where, Mapped, Xor;
    var data := m.content[start..start + n];
    var written := m.(file := m.file + data);
    assert written.file == Overwrite(m.file, |m.file|, data);
    PartWritten(m, data);
    forall p | 0 <= p < |m.content|
      ensures (written.AvailableAt(p) <==> m.AvailableAt(p)) && written.Where(p) == m.Where(p)
    {
      SameAvailability(m, written, p);
    }
    if n == end - start {
      assert written.file[|m.file|..|m.file| + n] == data;
      PartMapped(written, start, end, |m.file|, marked);
      forall p | 0 <= p < |m.content|
        ensures written.(entries := marked).AvailableAt(p) <==> m.AvailableAt(p) || start <= p < end
      {
        MappedPositions(written, start, end, |m.file|, marked, p);
      }
    } else {
      assert written.(entries := marked) == written;
    }
  }

  lemma PartByte(m: Mirror, offset: nat, b: nat, p: nat)
    requires m.Coherent() && m.kind == Part && StartsBlock(offset, b, m.blockSize)
    requires offset <= p < offset + m.blockSize && p < |m.content| && m.AvailableAt(p)
    ensures b < |m.entries| && m.entries[b].Offset() + (p - offset) < |m.file|
    ensures m.content[p] == m.file[m.entries[b].Offset() + (p - offset)]
  {
    InSomeBlock(offset, |m.content|, m.blockSize);
    SameBlock(offset, p, m.blockSize);
    assert m.Holds(p);
    assert m.Where(p) == m.entries[b].Offset() + (p - offset);
    hide *;
    XorZero(m.file[m.entries[b].Offset() + (p - offset)]);
  }

  /** An available block of a part mirror is where its entry points. */
  lemma PartBlock(m: Mirror, offset: nat, b: nat, n: nat)
    requires m.Coherent() && m.kind == Part && StartsBlock(offset, b, m.blockSize)
    requires 0 < n <= m.blockSize && offset + n <= |m.content| && m.RunIs(offset, offset + n, true)
    ensures b < |m.entries| && m.entries[b].Offset() + n <= |m.file|
    ensures m.file[m.entries[b].Offset()..m.entries[b].Offset() + n] == m.content[offset..offset + n]
  {
    hide Mirror.Coherent, Mirror.AvailableAt, StartsBlock;
    PartByte(m, offset, b, offset);
    PartByte(m, offset, b, offset + n - 1);
    var place := m.entries[b].Offset();
    forall p | offset <= p < offset + n ensures m.content[p] == m.file[place + (p - offset)] {
      PartByte(m, offset, b, p);
    }
  }

  // ----- Encrypted files -----

  /** A piece of an encrypted file that lies at `offset`, with its key bytes taken off. */
  function Decrypted(keystream: (nat, nat) -> seq<bv8>, data: seq<bv8>, offset: nat): seq<bv8>
    requires forall h, l :: |keystream(h, l)| == CHUNK
  {
    seq(|data|, k requires 0 <= k < |data| => Xor(data[k], KeyByte(keystream, offset + k)))
  }

  /** `now` is `before` with the key bytes taken off `n` bytes from `at` on, which lie at `offset` in the stream. */
  ghost predicate Deciphered(keystream: (nat, nat) -> seq<bv8>, before: seq<bv8>, now: seq<bv8>, at: nat, offset: nat,
                             n: nat)
    requires forall h, l :: |keystream(h, l)| == CHUNK
  {
    |now| == |before| && at + n <= |now| &&
    forall k :: 0 <= k < |now| ==>
      now[k] == if at <= k < at + n then Xor(before[k], KeyByte(keystream, k - at + offset)) else before[k]
  }

  lemma DecipheredMore(keystream: (nat, nat) -> seq<bv8>, before: seq<bv8>, now: seq<bv8>, next: seq<bv8>, at: nat,
                       offset: nat, n: nat, m: nat)
    requires forall h, l :: |keystream(h, l)| == CHUNK
    requires Deciphered(keystream, before, now, at, offset, n)
    requires Deciphered(keystream, now, next, at + n, offset + n, m)
    ensures Deciphered(keystream, before, next, at, offset, n + m)
  {
    hide Xor, KeyByte;
  }

  lemma DecipheredPiece(keystream: (nat, nat) -> seq<bv8>, before: seq<bv8>, now: seq<bv8>, at: nat, offset: nat,
                        n: nat)
    requires forall h, l :: |keystream(h, l)| == CHUNK
    requires Deciphered(keystream, before, now, at, offset, n)
    ensures now[at..at + n] == Decrypted(keystream, before[at..at + n], offset)
    ensures now[..at] == before[..at] && now[at + n..] == before[at + n..]
  {
    hide Xor, KeyByte;
  }

  lemma XorTwice(a: bv8, b: bv8)
    ensures Xor(Xor(a, b), b) == a
  {
  }

  /** Decrypting twice at the same offset restores the data. */
  lemma DecryptedTwice(keystream: (nat, nat) -> seq<bv8>, data: seq<bv8>, offset: nat)
    requires forall h, l :: |keystream(h, l)| == CHUNK
    ensures Decrypted(keystream, Decrypted(keystream, data, offset), offset) == data
  {
    hide Xor, KeyByte;
    forall k | 0 <= k < |data| ensures Xor(Xor(data[k], KeyByte(keystream, offset + k)),
      KeyByte(keystream, offset + k)) == data[k] {
      XorTwice(data[k], KeyByte(keystream, offset + k));
    }
  }

  /** Random access: a piece of the file decrypts to that piece of the whole file's decryption. */
  lemma DecryptedPiece(keystream: (nat, nat) -> seq<bv8>, file: seq<bv8>, start: nat, end: nat)
    requires forall h, l :: |keystream(h, l)| == CHUNK
    requires start <= end <= |file|
    ensures Decrypted(keystream, file[start..end], start) == Decrypted(keystream, file, 0)[start..end]
  {
    hide Xor, KeyByte;
  }

  /** The content of a coherent encrypted stream is the decryption of its whole file. */
  lemma EncryptedContent(m: Mirror)
    requires m.Shaped() && m.kind == Encrypted
    ensures m.Coherent() <==> m.content == Decrypted(m.keystream, m.file, 0)
  {
    hide Xor, KeyByte;
    var d := Decrypted(m.keystream, m.file, 0);
    forall p | 0 <= p < |m.content| ensures m.Holds(p) <==> m.content[p] == d[p] {
    }
    if m.Coherent() {
      forall p | 0 <= p < |m.content| ensures m.content[p] == d[p] {
        assert m.AvailableAt(p);
      }
    }
  }
}
