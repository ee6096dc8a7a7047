/**
 * The preheader word kept in front of every piece of memory (src/runtime/gc.c).
 * The three low bits are status bits; the rest is the size, a multiple of 8.
 * Words are unsigned, so bit tests and masks are written with `%` and `/`.
 */
module Header {
  /** The words of memory, by byte address. */
  type Memory = map<int, int>

  const GC_HEAD := 4
  const MEMALIGN := 8
  const GC_BLOCKSIZE := 4096
  const GC_REGIONSIZE := 2 * 1024 * 1024

  const MARK_BIT := 1
  const FREE_BIT := 2
  const PREV_BIT := 4

  /** h & ~SIZE_MASK: the three status bits. */
  function Bits(h: int): int { h % 8 }

  /** h & SIZE_MASK */
  function Size(h: int): int { h - Bits(h) }

  /** h & MARK_BIT */
  predicate Marked(h: int) { Bits(h) == 1 || Bits(h) == 3 || Bits(h) == 5 || Bits(h) == 7 }

  /** h & FREE_BIT */
  predicate Free(h: int) { Bits(h) == 2 || Bits(h) == 3 || Bits(h) == 6 || Bits(h) == 7 }

  /** h & PREV_BIT */
  predicate PrevInUse(h: int) { Bits(h) >= 4 }

  /** h | MARK_BIT */
  function SetMark(h: int): int { if Marked(h) then h else h + MARK_BIT }

  /** h & ~MARK_BIT */
  function ClearMark(h: int): int { if Marked(h) then h - MARK_BIT else h }

  /** h | PREV_BIT */
  function SetPrev(h: int): int { if PrevInUse(h) then h else h + PREV_BIT }

  /** h & ~PREV_BIT */
  function ClearPrev(h: int): int { if PrevInUse(h) then h - PREV_BIT else h }

  /** memset(p, 0, size), on the words of memory. */
  function Zeroed(m: Memory, p: int, size: int): Memory
  {
    m + map x: int | p <= x < p + size && x % 4 == 0 :: 0
  }

  /** Setting and clearing the mark bit changes that bit and nothing else. */
  lemma MarkBitOnly(h: int)
    ensures Marked(SetMark(h)) && !Marked(ClearMark(h))
    ensures Size(SetMark(h)) == Size(ClearMark(h)) == Size(h)
    ensures Free(SetMark(h)) == Free(ClearMark(h)) == Free(h)
    ensures PrevInUse(SetMark(h)) == PrevInUse(ClearMark(h)) == PrevInUse(h)
    ensures !Marked(h) ==> ClearMark(SetMark(h)) == h
  {
  }

  /** Likewise for the bit that says whether the preceding lump is in use. */
  lemma PrevBitOnly(h: int)
    ensures PrevInUse(SetPrev(h)) && !PrevInUse(ClearPrev(h))
    ensures Size(SetPrev(h)) == Size(ClearPrev(h)) == Size(h)
    ensures Marked(SetPrev(h)) == Marked(ClearPrev(h)) == Marked(h)
  {
  }
}
