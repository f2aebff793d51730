/** Sizes, addresses and list indices of the allocator in snap_malloc. */
module Layout {
  const HEADER: int := 32          // sizeof(Header)
  const ALLOC_HEADER: int := 16    // the part of a Header that an allocated block keeps
  const ARENA: int := 1024
  const N_LISTS: int := 59
  const NULL: int := 0
  const TWO_TO_THE_64: int := 0x1_0000_0000_0000_0000

  // The sentinels are an array of Headers below all memory handed out by sbrk.
  const TABLE: int := 64
  const HEAP_BASE: int := TABLE + N_LISTS * HEADER

  /** size_to_index */
  function SizeToIndex(size: int): (i: int)
    requires size >= 24
    ensures 0 <= i < N_LISTS
  {
    var i := (size - ALLOC_HEADER) / 8 - 1;
    if i >= N_LISTS then N_LISTS - 1 else i
  }

  /** The list index used by get_freelist_sentinel; `size | 7` sets the low three bits. */
  function SentinelIndex(size: int): int
    requires size >= 24
  {
    var i := (size - size % 8 + 7 - ALLOC_HEADER) / 8;
    if i >= N_LISTS then N_LISTS - 1 else i - 1
  }

  /** The bitmap and the lists are indexed by two formulas; they agree. */
  lemma IndexFormulasAgree(size: int)
    requires size >= 24
    ensures SentinelIndex(size) == SizeToIndex(size)
  {
    var q := size / 8;
    assert size == 8 * q + size % 8;
  }

  /** The block size for a request of raw bytes, computed in 64-bit unsigned arithmetic. */
  function RequestSize(raw: nat): (size: int)
    ensures size >= HEADER && size % 8 == 0
  {
    var t := (raw + ALLOC_HEADER + 7) % TWO_TO_THE_64;
    var size := t - t % 8;
    if size < HEADER then HEADER else size
  }

  /** A block of the computed size has room for the request exactly when the sum does not wrap;
      it is then the smallest legal block with that room. */
  lemma RequestSizeExact(raw: nat)
    requires raw < TWO_TO_THE_64
    ensures RequestSize(raw) >= HEADER && RequestSize(raw) % 8 == 0
    ensures RequestSize(raw) - ALLOC_HEADER >= raw <==> raw + ALLOC_HEADER + 7 < TWO_TO_THE_64
    ensures raw + ALLOC_HEADER + 7 < TWO_TO_THE_64 ==>
              forall s :: s >= HEADER && s % 8 == 0 && s - ALLOC_HEADER >= raw ==> s >= RequestSize(raw)
  {
    var t := (raw + ALLOC_HEADER + 7) % TWO_TO_THE_64;
    if raw + ALLOC_HEADER + 7 < TWO_TO_THE_64 {
      assert t == raw + ALLOC_HEADER + 7;
    } else {
      assert t == raw + ALLOC_HEADER + 7 - TWO_TO_THE_64;
    }
  }

  lemma MultiplesOfEight(a: int, b: int)
    requires a % 8 == 0 && b % 8 == 0
    ensures (a + b) % 8 == 0 && (a - b) % 8 == 0
  {
    assert a == 8 * (a / 8) && b == 8 * (b / 8);
    assert a + b == 8 * (a / 8 + b / 8) && a - b == 8 * (a / 8 - b / 8);
  }
}
