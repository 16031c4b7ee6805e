/** Division by a variable size: positions, blocks and block starts. */
module Division {

  function Min(a: nat, b: nat): nat { if a < b then a else b }

  lemma Quotient(p: nat, size: nat)
    requires size > 0
    ensures p == p / size * size + p % size && p % size < size
  {
  }

  lemma Grows(a: nat, b: nat, size: nat)
    requires a < b
    ensures a * size + size <= b * size
  {
    Product(b - a - 1, size);
    assert b * size == a * size + size + (b - a - 1) * size;
  }

  lemma Product(a: nat, b: nat)
    ensures a * b >= 0
  {
  }

  lemma QuotientIsUnique(p: nat, size: nat, q: nat, r: nat)
    requires p == q * size + r && r < size
    ensures p / size == q && p % size == r
  {
    Quotient(p, size);
    if p / size < q {
      Grows(p / size, q, size);
    } else if q < p / size {
      Grows(q, p / size, size);
    }
  }

  /** The index of the block that holds `p`, and the place of `p` in it. */
  function BlockOf(p: nat, size: nat): nat
    requires size > 0
  {
    Quotient(p, size);
    p / size
  }

  function PlaceOf(p: nat, size: nat): (r: nat)
    requires size > 0
    ensures r < size
  {
    Quotient(p, size);
    p % size
  }

  /** The start of a block. */
  predicate Aligned(p: nat, size: nat) { size > 0 && p % size == 0 }

  /** The start of the block that holds `p`. */
  function RoundDown(p: nat, size: nat): (r: nat)
    requires size > 0
    ensures r <= p < r + size && Aligned(r, size)
  {
    Quotient(p, size);
    QuotientIsUnique(p - p % size, size, p / size, 0);
    p - p % size
  }

  /** All positions of the block that starts at `q` have its index. */
  lemma SameBlock(q: nat, p: nat, size: nat)
    requires Aligned(q, size) && q <= p < q + size
    ensures p / size == q / size && p % size == p - q
  {
    Quotient(q, size);
    QuotientIsUnique(p, size, q / size, p - q);
  }

  lemma NextBlock(q: nat, size: nat)
    requires Aligned(q, size)
    ensures Aligned(q + size, size) && (q + size) / size == q / size + 1
  {
    Quotient(q, size);
    QuotientIsUnique(q + size, size, q / size + 1, 0);
  }

  lemma BlocksInOrder(p: nat, q: nat, size: nat)
    requires size > 0 && p <= q
    ensures p / size <= q / size
  {
    Quotient(p, size);
    Quotient(q, size);
    if q / size < p / size {
      Grows(q / size, p / size, size);
    }
  }

  function BlockCount(total: nat, size: nat): nat
    requires size > 0
  {
    (total + size - 1) / size
  }

  /** Every position of the stream falls into one of its blocks. */
  lemma InSomeBlock(p: nat, total: nat, size: nat)
    requires size > 0 && p < total
    ensures p / size < BlockCount(total, size)
  {
    BlocksInOrder(p, total - 1, size);
    Quotient(total - 1, size);
    QuotientIsUnique(total - 1 + size, size, (total - 1) / size + 1, (total - 1) % size);
  }

  lemma CountByLast(total: nat, size: nat)
    requires size > 0 && total > 0
    ensures BlockOf(total - 1, size) + 1 == BlockCount(total, size)
  {
    Quotient(total - 1, size);
    QuotientIsUnique(total - 1 + size, size, (total - 1) / size + 1, (total - 1) % size);
  }

  /** The last block starts inside the stream. */
  lemma BlockStartsInside(b: nat, total: nat, size: nat)
    requires size > 0 && b < BlockCount(total, size)
    ensures b * size < total
  {
    Quotient(total + size - 1, size);
    if b + 1 < BlockCount(total, size) {
      Grows(b + 1, BlockCount(total, size), size);
    }
    assert (b + 1) * size == b * size + size;
  }

  /** The blocks of an aligned range are those of its positions, and no others. */
  lemma BlocksOfRange(start: nat, end: nat, total: nat, p: nat, size: nat)
    requires Aligned(start, size) && start <= end <= total && (Aligned(end, size) || end == total) && p < total
    ensures start / size <= p / size < BlockCount(end, size) <==> start <= p < end
  {
    Quotient(p, size);
    Quotient(start, size);
    if start <= p < end {
      BlocksInOrder(start, p, size);
      InSomeBlock(p, end, size);
    }
    if p < start && start / size <= p / size {
      BlocksInOrder(p, start, size);
    }
    if end <= p && end % size == 0 && p / size < BlockCount(end, size) {
      BlocksInOrder(end, p, size);
      Quotient(end, size);
      QuotientIsUnique(end + size - 1, size, end / size, size - 1);
    }
  }

  /** `offset` is the first position of block `b`. */
  predicate StartsBlock(offset: nat, b: nat, size: nat) {
    Aligned(offset, size) && offset / size == b
  }

  /** One step of a scan by blocks. */
  lemma ScanBlock(offset: nat, b: nat, total: nat, size: nat)
    requires StartsBlock(offset, b, size) && offset < total
    ensures b < BlockCount(total, size) && StartsBlock(offset + size, b + 1, size)
  {
    InSomeBlock(offset, total, size);
    NextBlock(offset, size);
  }

  /** A scan by blocks that has just passed `end` has seen exactly the blocks up to `end`. */
  lemma ScanEnds(end: nat, offset: nat, b: nat, size: nat)
    requires StartsBlock(offset, b, size) && end <= offset < end + size
    ensures BlockCount(end, size) == b
  {
    Quotient(offset, size);
    QuotientIsUnique(end + size - 1, size, offset / size, end + size - 1 - offset);
  }

  /** The room for whole blocks that `n` bytes need. */
  function RoundUp(n: nat, size: nat): (r: nat)
    requires size > 0
    ensures n <= r < n + size && Aligned(r, size)
  {
    Quotient(n + size - 1, size);
    QuotientIsUnique(BlockCount(n, size) * size, size, BlockCount(n, size), 0);
    BlockCount(n, size) * size
  }

  lemma NextAligned(p: nat, size: nat)
    requires Aligned(p, size)
    ensures Aligned(p + size, size)
  {
    NextBlock(p, size);
  }

  /** Between two aligned offsets there is room for a whole block. */
  lemma AlignedGap(p: nat, q: nat, size: nat)
    requires Aligned(p, size) && Aligned(q, size) && p < q
    ensures p + size <= q
  {
    Quotient(p, size);
    Quotient(q, size);
    BlocksInOrder(p, q, size);
    if p / size < q / size {
      Grows(p / size, q / size, size);
    }
  }

  /** A run of blocks from `from` to `to`, both inside the whole blocks from `first` that cover `end`, fits there. */
  lemma RunFits(first: nat, from: nat, to: nat, end: nat, n: nat, size: nat)
    requires Aligned(first, size) && Aligned(from, size) && Aligned(to, size)
    requires first <= from < to < end + size && first < end && n <= to - from
    ensures from - first + RoundUp(n, size) <= RoundUp(end - first, size)
    ensures to - first <= RoundUp(end - first, size)
  {
    hide RoundUp;
    AlignedDifference(first, from, size);
    AlignedDifference(from, to, size);
    AlignedDifference(first, to, size);
    if to - from < RoundUp(n, size) {
      AlignedGap(to - from, RoundUp(n, size), size);
    }
    if RoundUp(end - first, size) < to - first {
      AlignedGap(RoundUp(end - first, size), to - first, size);
    }
  }

  lemma AlignedDifference(p: nat, q: nat, size: nat)
    requires Aligned(p, size) && Aligned(q, size) && p <= q
    ensures Aligned(q - p, size)
  {
    Quotient(p, size);
    Quotient(q, size);
    BlocksInOrder(p, q, size);
    assert q - p == (q / size - p / size) * size;
    QuotientIsUnique(q - p, size, q / size - p / size, 0);
  }

  /** What lies before an aligned position has its whole block before it. */
  lemma BlockEndsBefore(p: nat, q: nat, size: nat)
    requires Aligned(q, size) && p < q
    ensures RoundDown(p, size) + size <= q
  {
    hide RoundDown;
    AlignedGap(RoundDown(p, size), q, size);
  }
}
