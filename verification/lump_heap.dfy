/**
 * The manual memory manager (src/runtime/gc.c): allocation, release, resizing and
 * expansion of a heap of lumps.  Every operation keeps the boundary tags, the tiling
 * of the regions and the free lists in agreement.
 */
module LumpHeap {
  import opened Options
  import opened Header
  import opened SizeClasses
  import opened Lumps
  import opened FreeLists

  /** The free lumps and their sizes. */
  ghost function FreeOf(ls: LumpMap): map<int, int> { map p | p in ls && ls[p].kind == Free :: ls[p].size }

  lemma FreeOfTake(ls: LumpMap, p: int)
    requires IsFree(ls, p)
    ensures FreeOf(Take(ls, p)) == FreeOf(ls) - {p}
  {
  }

  lemma FreeOfCarve(ls: LumpMap, p: int, size: int)
    requires Shape(ls) && Splits(ls, p, size)
    ensures FreeOf(Carve(ls, p, size)) == (FreeOf(ls) - {p})[p + size := ls[p].size - size]
    ensures p + size !in FreeOf(ls) - {p}
  {
    CarveNew(ls, p, size);
  }

  lemma FreeOfJoin(ls: LumpMap, q: int, p: int)
    requires Joins(ls, q, p)
    ensures FreeOf(Join(ls, q, p)) == FreeOf(ls) - {q}
  {
  }

  lemma FreeOfRelease(ls: LumpMap, p: int)
    requires IsUsed(ls, p) && ls[p].size != 0
    ensures var n := p + ls[p].size;
            FreeOf(Release(ls, p)) == (FreeOf(ls) - {n})[p := ReleasedSize(ls, p)] && p !in FreeOf(ls) - {n}
    ensures !IsFree(ls, p + ls[p].size) ==> FreeOf(ls) - {p + ls[p].size} == FreeOf(ls)
  {
  }

  lemma FreeOfExpand(ls: LumpMap, s: Span)
    requires Shape(ls) && Fresh(ls, s) && SpanOk(s)
    ensures FreeOf(Expand(ls, s)) == FreeOf(ls)[s.first := s.last - s.first] && s.first !in FreeOf(ls)
  {
    ExpandNew(ls, s);
  }

  lemma FreeHeaded(m: Memory, ls: LumpMap)
    requires Valid(m, ls)
    ensures Headed(m, FreeOf(ls))
  {
    forall p | p in FreeOf(ls)
      ensures p - GC_HEAD in m && Size(m[p - GC_HEAD]) == FreeOf(ls)[p]
    {
      assert TagsOk(m, ls, p);
    }
  }

  // ---------------------------------------------------------------------------
  // What the owners of used lumps see
  // ---------------------------------------------------------------------------

  /** Lump q of the given size keeps its contents, its size and its mark bit. */
  ghost predicate KeepsLump(m: Memory, m': Memory, q: int, size: int)
  {
    && Agree(m, m', q, q + size - GC_HEAD)
    && q - GC_HEAD in m && q - GC_HEAD in m'
    && Size(m'[q - GC_HEAD]) == Size(m[q - GC_HEAD]) && Marked(m'[q - GC_HEAD]) == Marked(m[q - GC_HEAD])
  }

  /** Apart from `ex`, the used lumps of ls are those of ls', as they were. */
  ghost predicate OthersKept(m: Memory, ls: LumpMap, m': Memory, ls': LumpMap, ex: set<int>)
  {
    && (forall q :: q !in ex ==> (IsUsed(ls, q) <==> IsUsed(ls', q)))
    && (forall q :: q !in ex && IsUsed(ls, q) ==> ls'[q] == ls[q] && KeepsLump(m, m', q, ls[q].size))
  }

  /** Byte x lies in one of the regions. */
  ghost predicate InSpans(spans: set<Span>, x: int)
  {
    exists s :: s in spans && s.first - GC_HEAD <= x < s.last - GC_HEAD + END_SIZE
  }

  /** Words that were not in memory before lie in the regions. */
  ghost predicate WritesInside(m: Memory, m': Memory, spans: set<Span>)
  {
    forall x :: x in m' ==> x in m || InSpans(spans, x)
  }

  lemma FootInside(m: Memory, ls: LumpMap, spans: set<Span>, p: int)
    requires Valid(m, ls) && Tiling(ls, spans) && p in ls
    ensures InSpans(spans, Foot(p, ls[p].size))
  {
    assert Housed(ls, spans, p) && SizeOk(ls[p]);
    var s :| s in spans && Inside(ls, s, p);
  }

  lemma ReleaseInside(m: Memory, ls: LumpMap, b: int, spans: set<Span>)
    requires Valid(m, ls) && Tiling(ls, spans) && Releases(ls, b)
    ensures var s := ReleasedSize(ls, b);
            b - GC_HEAD in m && b + s - GC_HEAD in m && WritesInside(m, ReleaseMem(m, b, s), spans)
  {
    NextTags(m, ls, b, spans);
    var s := ReleasedSize(ls, b);
    FootInside(ReleaseMem(m, b, s), Release(ls, b), spans, b);
    assert Release(ls, b)[b].size == s;
  }

  lemma WritesTrans(m: Memory, m1: Memory, m2: Memory, spans: set<Span>)
    requires WritesInside(m, m1, spans) && WritesInside(m1, m2, spans)
    ensures WritesInside(m, m2, spans)
  {
  }

  lemma WritesNone(m: Memory, spans: set<Span>)
    ensures WritesInside(m, m, spans)
  {
  }

  lemma KeptTrans(m: Memory, ls: LumpMap, m1: Memory, ls1: LumpMap, m2: Memory, ls2: LumpMap, ex: set<int>)
    requires OthersKept(m, ls, m1, ls1, ex) && OthersKept(m1, ls1, m2, ls2, ex)
    ensures OthersKept(m, ls, m2, ls2, ex)
  {
    forall q | q !in ex && IsUsed(ls, q) ensures ls2[q] == ls[q] && KeepsLump(m, m2, q, ls[q].size) {
      assert IsUsed(ls1, q);
    }
  }

  lemma KeptWeaken(m: Memory, ls: LumpMap, m': Memory, ls': LumpMap, ex: set<int>, more: set<int>)
    requires OthersKept(m, ls, m', ls', ex) && ex <= more
    ensures OthersKept(m, ls, m', ls', more)
  {
    hide KeepsLump, IsUsed;
  }

  /** A lump freshly handed out: its contents are zero. */
  ghost predicate Cleared(m: Memory, p: int, size: int)
  {
    forall x :: p <= x < p + size - GC_HEAD && x % 4 == 0 ==> x in m && m[x] == 0
  }

  /** The contents of lump t, of the given size, are zero from byte `from` on. */
  ghost predicate ZeroFrom(m: Memory, t: int, size: int, from: int)
  {
    forall x :: t + from <= x < t + size - GC_HEAD && x % 4 == 0 ==> x in m && m[x] == 0
  }

  lemma ZeroKept(m: Memory, m': Memory, t: int, size: int, from: int)
    requires ZeroFrom(m, t, size, from) && Agree(m, m', t, t + size - GC_HEAD) && from >= 0
    ensures ZeroFrom(m', t, size, from)
  {
  }

  lemma TakeKeeps(m: Memory, ls: LumpMap, p: int)
    requires Valid(m, ls) && IsFree(ls, p) && p + ls[p].size - GC_HEAD in m
    ensures OthersKept(m, ls, TakeMem(m, p, ls[p].size), Take(ls, p), {p})
    ensures Cleared(TakeMem(m, p, ls[p].size), p, ls[p].size)
  {
    var m', ls', n := TakeMem(m, p, ls[p].size), Take(ls, p), p + ls[p].size;
    assert SizeOk(ls[p]) && NextOk(ls, p);
    forall q | q != p && IsUsed(ls, q) ensures KeepsLump(m, m', q, ls[q].size) {
      assert TagsOk(m, ls, q) && SizeOk(ls[q]);
      ApartOf(ls, p, q);
      if q != n { ApartOf(ls, q, n); }
      PrevBitOnly(m[n - GC_HEAD]);
    }
  }

  lemma CarveKeeps(m: Memory, ls: LumpMap, p: int, size: int)
    requires Valid(m, ls) && Splits(ls, p, size) && p - GC_HEAD in m
    ensures var m' := CarveMem(m, p, size, ls[p].size);
            OthersKept(m, ls, m', Carve(ls, p, size), {p}) && Cleared(m', p, size)
  {
    var m', ls' := CarveMem(m, p, size, ls[p].size), Carve(ls, p, size);
    CarveNew(ls, p, size);
    forall q | q != p && IsUsed(ls, q) ensures KeepsLump(m, m', q, ls[q].size) {
      assert TagsOk(m, ls, q) && SizeOk(ls[q]);
      ApartOf(ls, p, q);
      CarveAgree(m, p, size, ls[p].size, q - GC_HEAD, q - GC_HEAD + ls[q].size);
    }
  }

  lemma JoinKeeps(m: Memory, ls: LumpMap, q: int, p: int)
    requires Valid(m, ls) && Joins(ls, q, p) && q - GC_HEAD in m
    ensures OthersKept(m, ls, Resized(m, q, ls[q].size + ls[p].size), Join(ls, q, p), {q, p})
  {
    var m' := Resized(m, q, ls[q].size + ls[p].size);
    forall r | r != p && IsUsed(ls, r) ensures KeepsLump(m, m', r, ls[r].size) {
      assert TagsOk(m, ls, r) && SizeOk(ls[r]) && SizeOk(ls[q]);
      ApartOf(ls, q, r);
    }
  }

  lemma ReleaseKeeps(m: Memory, ls: LumpMap, p: int)
    requires Valid(m, ls) && Releases(ls, p) && p - GC_HEAD in m && p + ReleasedSize(ls, p) - GC_HEAD in m
    ensures OthersKept(m, ls, ReleaseMem(m, p, ReleasedSize(ls, p)), Release(ls, p), {p})
  {
    var s := ReleasedSize(ls, p);
    var m', ls' := ReleaseMem(m, p, s), Release(ls, p);
    ReleasedSizeOk(ls, p);
    ReleaseWords(m, p, s);
    forall q | q != p && IsUsed(ls, q) ensures KeepsLump(m, m', q, ls[q].size) {
      assert TagsOk(m, ls, q) && SizeOk(ls[q]);
      ReleaseOther(ls, p, q);
      ClearPrevOnly(m[p + s - GC_HEAD]);
    }
  }

  lemma ClearPrevOnly(h: int)
    ensures Size(ClearPrev(h)) == Size(h) && Marked(ClearPrev(h)) == Marked(h)
  {
    PrevBitOnly(h);
  }

  // ---------------------------------------------------------------------------
  // The heap
  // ---------------------------------------------------------------------------

  /** Sizes are rounded up to twice the alignment, header included; `pad` is the translator's extra padding. */
  function Rounded(size: int, pad: int): int { (size + pad + GC_HEAD + 15) / 16 * 16 }

  lemma RoundedOk(size: int, pad: int)
    requires size >= 0 && pad >= 0
    ensures var r := Rounded(size, pad); r > 0 && r % STEP == 0 && size + pad + GC_HEAD <= r < size + pad + GC_HEAD + 16
  {
  }

  /** ROUNDUPREGIONSIZE */
  function RoundRegion(v: int): int { (v + GC_REGIONSIZE - 1) / GC_REGIONSIZE * GC_REGIONSIZE }

  /** The lumps of a new region for a request of the given size. */
  function RegionSpan(start: int, want: int): Span
  {
    var first := start + 2 * MEMALIGN;
    Span(first, first + RoundRegion(want + 6 * MEMALIGN) - 6 * MEMALIGN)
  }

  /** What rounding a region up to its unit leaves over. */
  function Leftover(want: int): int { (0 - (want + 6 * MEMALIGN)) % GC_REGIONSIZE }

  predicate RetryWorks(want: int, pad: int) { Leftover(want) >= pad + GC_HEAD }

  lemma RoundRegionIs(v: int)
    ensures RoundRegion(v) == v + (0 - v) % GC_REGIONSIZE && RoundRegion(v) % GC_REGIONSIZE == 0
  {
  }

  lemma RegionSpanOk(start: int, want: int)
    requires want >= 0
    ensures SpanOk(RegionSpan(start, want))
  {
    RoundRegionIs(want + 6 * MEMALIGN);
  }

  /**
   * The new lumps, with the headers in front of them, lie in the region, and what is asked for
   * fits but for the header.
   */
  lemma SpanInRegion(start: int, want: int)
    requires want >= 0
    ensures var s, size := RegionSpan(start, want), RoundRegion(want + 6 * MEMALIGN);
            && size % GC_REGIONSIZE == 0 && size - GC_REGIONSIZE < want + 48 <= size
            && start <= s.first - GC_HEAD && s.last + END_SIZE <= start + size && s.last - s.first >= want
            && (start % 16 == 0 ==> s.first % 16 == 0)
  {
    RoundRegionIs(want + 6 * MEMALIGN);
  }

  /** The new lump is large enough exactly if the leftover holds the header and the padding. */
  lemma RetryExact(want: int, pad: int, start: int)
    requires want >= 0 && pad >= 0
    ensures var s := RegionSpan(start, want); s.last - s.first >= Rounded(want, pad) <==> RetryWorks(want, pad)
  {
    RoundRegionIs(want + 6 * MEMALIGN);
    RoundedOk(want, pad);
  }

  /** The assertion after expanding can fail: a request that fills its region to the last byte. */
  lemma RetryCanFail()
    ensures !RetryWorks(GC_REGIONSIZE - 6 * MEMALIGN, 0)
  {
    assert Leftover(GC_REGIONSIZE - 6 * MEMALIGN) == 0;
  }

  class Heap {
    const pad: int                  // MEMALIGN under the translator, otherwise 0
    var mem: Memory
    var lists: seq<seq<int>>        // segregated free lists
    var size: int                   // statistics
    var alloc: int
    ghost var ls: LumpMap
    ghost var spans: set<Span>

    ghost predicate Valid()
      reads this
    {
      pad >= 0 && Lumps.Valid(mem, ls) && Tiling(ls, spans) && ListsOk(lists, FreeOf(ls))
    }

    /** mem_init */
    constructor (mem: Memory, pad: int)
      requires pad >= 0
      ensures Valid() && ls == map[] && spans == {} && this.mem == mem && this.pad == pad
    {
      this.pad, this.mem, this.size, this.alloc := pad, mem, 0, 0;
      lists := seq(SIZE_CLASSES, c => []);
      ls, spans := map[], {};
    }

    /** Split lump p if it is too large, mark it as used and clear it. */
    method UseLump(p: int, want: int)
      requires Valid() && IsFree(ls, p) && 0 < want <= ls[p].size && want % STEP == 0
      modifies `mem, `lists, `ls
      ensures Valid() && IsUsed(ls, p) && ls[p].size == want
      ensures OthersKept(old(mem), old(ls), mem, ls, {p}) && Cleared(mem, p, want)
    {
      hide Lumps.Valid, Tiling, ListsOk, Carve, Take, CarveMem, TakeMem, OthersKept, Cleared;
      LumpTags(mem, ls, p);
      var whole := Size(mem[p - GC_HEAD]);
      lists := RemoveFreelump(lists, p, whole, FreeOf(ls));
      if whole > want {
        SplitKeeps(mem, ls, p, want, spans);
        mem := CarveMem(mem, p, want, whole);
        lists := InsertFreelump(mem, lists, p + want, whole - want, FreeOf(ls) - {p});
        ls := Carve(ls, p, want);
      } else {
        WholeKeeps(mem, ls, p, spans);
        mem := TakeMem(mem, p, whole);
        ls := Take(ls, p);
      }
    }

    /** mem_allocate: a best fit, cut to size; fails only if no free lump is large enough. */
    method MemAllocate(want: int) returns (found: bool, p: int)
      requires Valid() && want >= 0
      modifies `mem, `lists, `ls, `alloc
      ensures Valid()
      ensures !found ==> mem == old(mem) && ls == old(ls) && NoFit(old(FreeOf(ls)), Rounded(want, pad))
      ensures found ==> BestFit(old(FreeOf(ls)), Rounded(want, pad), p)
      ensures found ==> !old(IsUsed(ls, p)) && IsUsed(ls, p) && ls[p].size == Rounded(want, pad) &&
                          Cleared(mem, p, ls[p].size)
      ensures found ==> OthersKept(old(mem), old(ls), mem, ls, {p})
      ensures alloc == old(alloc) + if found then Rounded(want, pad) else 0
    {
      hide Lumps.Valid, Tiling, ListsOk, Carve, Take, OthersKept, Cleared, Rounded, SizeClass;
      RoundedOk(want, pad);
      var r := Rounded(want, pad);
      var c := ComputeSizeClass(r);
      FreeHeaded(mem, ls);
      found, p := FindFreelump(mem, lists, r, c, FreeOf(ls));
      if found {
        UseLump(p, r);
        alloc := alloc + r;
      }
    }

    /** mem_expand, when the system provides a region that starts at `supply`, or none. */
    method MemExpand(want: int, supply: Option<int>) returns (ok: bool)
      requires Valid() && want >= 0 && (supply.Some? ==> Fresh(ls, RegionSpan(supply.value, want)))
      modifies `mem, `lists, `ls, `spans, `size
      ensures Valid() && ok == supply.Some? && (!ok ==> mem == old(mem) && ls == old(ls) && spans == old(spans))
      ensures ok ==> var s := RegionSpan(supply.value, want);
                spans == old(spans) + {s} && FreeOf(ls) == old(FreeOf(ls))[s.first := s.last - s.first]
      ensures OthersKept(old(mem), old(ls), mem, ls, {})
      ensures size == old(size) + if ok then RoundRegion(want + 6 * MEMALIGN) else 0
    {
      hide Lumps.Valid, Tiling, ListsOk, Fresh, OthersKept, Expand, FreeOf;
      ok := supply.Some?;
      if !ok {
        KeptAll(mem, ls, {});
        return;
      }
      var rsize := RoundRegion(want + 6 * MEMALIGN);
      ghost var s := RegionSpan(supply.value, want);
      RegionSpanOk(supply.value, want);
      ExpandKeeps(mem, ls, s, spans);
      var space, p := rsize - 6 * MEMALIGN, supply.value + 2 * MEMALIGN;
      mem := mem[p - GC_HEAD := space + PREV_BIT][Foot(p, space) := space];
      mem := mem[p + space - GC_HEAD := MEMALIGN][p + space + MEMALIGN - GC_HEAD := PREV_BIT];
      ghost var free := FreeOf(ls);
      ls := Expand(ls, s);
      lists := InsertFreelump(mem, lists, p, space, free);
      spans := spans + {s};
      size := size + rsize;
    }

    /**
     * gc_malloc_fixed: allocate, or expand and try again.  The code asserts that the second
     * attempt succeeds; it does exactly if the rounding of the region leaves room for the
     * header and the padding.
     */
    method MallocFixed(want: int, supply: Option<int>) returns (found: bool, expanded: bool, p: int)
      requires Valid() && want >= 0 && (supply.Some? ==> Fresh(ls, RegionSpan(supply.value, want)))
      modifies this
      ensures Valid() && (expanded <==> NoFit(old(FreeOf(ls)), Rounded(want, pad)) && supply.Some?)
      ensures found <==> (exists q :: q in old(FreeOf(ls)) && old(FreeOf(ls))[q] >= Rounded(want, pad)) ||
                           (supply.Some? && RetryWorks(want, pad))
      ensures found && !expanded ==> BestFit(old(FreeOf(ls)), Rounded(want, pad), p)
      ensures found && expanded ==> p == RegionSpan(supply.value, want).first
      ensures spans == old(spans) + if expanded then {RegionSpan(supply.value, want)} else {}
      ensures alloc == old(alloc) + if found then Rounded(want, pad) else 0
      ensures size == old(size) + if expanded then RoundRegion(want + 6 * MEMALIGN) else 0
      ensures found ==> !old(IsUsed(ls, p)) && IsUsed(ls, p) && ls[p].size == Rounded(want, pad)
      ensures found ==> p - GC_HEAD in mem && Marked(mem[p - GC_HEAD]) && Cleared(mem, p, ls[p].size)
      ensures OthersKept(old(mem), old(ls), mem, ls, if found then {p} else {})
    {
      hide Lumps.Valid, Tiling, ListsOk, Fresh, OthersKept, Rounded, Cleared, RetryWorks;
      expanded := false;
      found, p := MemAllocate(want);
      if !found {
        KeptAll(mem, ls, {});
        expanded := MemExpand(want, supply);
        if !expanded { return; }
        ghost var m1, l1 := mem, ls;
        RetryExact(want, pad, supply.value);
        ghost var s := RegionSpan(supply.value, want);
        assert s.first in FreeOf(ls) && FreeOf(ls)[s.first] == s.last - s.first;
        found, p := MemAllocate(want);
        if found {
          KeptWeaken(old(mem), old(ls), m1, l1, {}, {p});
          KeptTrans(old(mem), old(ls), m1, l1, mem, ls, {p});
          KeptUsed(old(mem), old(ls), m1, l1, p);
        } else {
          return;
        }
      }
      ghost var m2 := mem;
      PutMark(p, true);
      KeptTrans(old(mem), old(ls), m2, ls, mem, ls, {p});
      ClearedKeeps(m2, p, ls[p].size, mem[p - GC_HEAD]);
    }

    /**
     * mem_resize: a new lump with the contents of the old one as far as both reach, and the old
     * one is freed; on failure nothing changes.  Without an old lump it is mem_allocate.
     */
    method MemResize(p: int, want: int) returns (found: bool, t: int)
      requires Valid() && want >= 0 && (p == 0 || IsUsed(ls, p))
      modifies `mem, `lists, `ls, `alloc
      ensures Valid() && (!found ==> mem == old(mem) && ls == old(ls))
      ensures found <==> !NoFit(old(FreeOf(ls)), Rounded(want, pad))
      ensures found ==> BestFit(old(FreeOf(ls)), Rounded(want, pad), t)
      ensures alloc == old(alloc) + (if found then Rounded(want, pad) else 0) + (if found && p != 0 then want else 0)
      ensures found ==> !old(IsUsed(ls, t)) && IsUsed(ls, t) && ls[t].size == Rounded(want, pad) &&
                          (p != 0 ==> t != p && !IsUsed(ls, p))
      ensures found ==> OthersKept(old(mem), old(ls), mem, ls, {p, t})
      ensures found && p == 0 ==> Cleared(mem, t, ls[t].size)
      ensures found && p != 0 ==> CopiedOver(old(mem), p, old(ls)[p].size, mem, t, want)
      ensures found && p != 0 ==> ZeroFrom(mem, t, ls[t].size, Min(want, old(ls)[p].size - GC_HEAD))
    {
      hide Lumps.Valid, Tiling, ListsOk, OthersKept, Rounded, Cleared, CopiedOver, ZeroFrom;
      found, t := MemAllocate(want);
      if !found { return; }
      KeptWeaken(old(mem), old(ls), mem, ls, {t}, {p, t});
      if p == 0 { return; }
      ghost var m1, l1 := mem, ls;
      KeptLump(old(mem), old(ls), m1, l1, t, p);
      RoundedOk(want, pad);
      CopyContents(p, t, want);
      ghost var m2 := mem;
      MemFree(p);
      KeptWeaken(m1, l1, m2, l1, {t}, {p, t});
      KeptWeaken(m2, l1, mem, ls, {p}, {p, t});
      KeptTrans(old(mem), old(ls), m1, l1, m2, l1, {p, t});
      KeptTrans(old(mem), old(ls), m2, l1, mem, ls, {p, t});
      KeptLump(m2, l1, mem, ls, p, t);
      ZeroKept(m2, mem, t, ls[t].size, Min(want, old(ls)[p].size - GC_HEAD));
      CopyKept(old(mem), m1, m2, mem, p, t, old(ls)[p].size, ls[t].size, want);
      alloc := alloc + want;
    }

    /** memcpy(t, p, min(want, size of p's contents)) */
    method CopyContents(p: int, t: int, want: int)
      requires Valid() && IsUsed(ls, p) && IsUsed(ls, t) && p != t && want >= 0 && ls[t].size >= want + GC_HEAD
      requires Cleared(mem, t, ls[t].size)
      modifies `mem
      ensures Min(want, ls[p].size - GC_HEAD) >= 0 && ZeroFrom(mem, t, ls[t].size, Min(want, ls[p].size - GC_HEAD))
      ensures Valid() && OthersKept(old(mem), ls, mem, ls, {t}) && CopiedOver(old(mem), p, ls[p].size, mem, t, want)
    {
      hide Lumps.Valid, Tiling, ListsOk, OthersKept, Copied, Cleared, ZeroFrom;
      LumpTags(mem, ls, p);
      var n := if want > Size(mem[p - GC_HEAD]) - GC_HEAD then Size(mem[p - GC_HEAD]) - GC_HEAD else want;
      CopyKeeps(mem, ls, t, p, n);
      CopyZero(mem, t, p, n, ls[t].size);
      mem := Copied(mem, t, p, n);
      assert n == Min(want, ls[p].size - GC_HEAD);
    }

    /** Set or clear the mark bit in the header of a used lump. */
    method PutMark(p: int, on: bool)
      requires Valid() && IsUsed(ls, p)
      modifies `mem
      ensures Valid() && p - GC_HEAD in old(mem) && p - GC_HEAD in mem
      ensures mem == old(mem)[p - GC_HEAD := mem[p - GC_HEAD]] &&
               OthersKept(old(mem), ls, mem, ls, {p})
      ensures Marked(mem[p - GC_HEAD]) == on && Size(mem[p - GC_HEAD]) == old(Size(mem[p - GC_HEAD]))
    {
      hide Lumps.Valid, Tiling, ListsOk, OthersKept;
      LumpTags(mem, ls, p);
      var h := mem[p - GC_HEAD];
      MarkBitOnly(h);
      RetagKeeps(mem, ls, p, SetMark(h));
      RetagKeeps(mem, ls, p, ClearMark(h));
      mem := mem[p - GC_HEAD := if on then SetMark(h) else ClearMark(h)];
    }

    /** Coalesce with the following lump, if it is free, and put the result on the free list. */
    method AbsorbNext(b: int)
      requires Valid() && Releases(ls, b)
      modifies `mem, `lists, `ls
      ensures Valid() && IsFree(ls, b) && OthersKept(old(mem), old(ls), mem, ls, {b})
      ensures WritesInside(old(mem), mem, spans)
    {
      hide Lumps.Valid, Tiling, ListsOk, FreeBefore, OthersKept, Release, ReleaseMem, FreeOf, WritesInside;
      ghost var l := ls;
      NextTags(mem, ls, b, spans);
      ReleaseInside(mem, ls, b, spans);
      var size := Size(mem[b - GC_HEAD]);
      var n := b + size;
      var nn := n + Size(mem[n - GC_HEAD]);
      ghost var rest := FreeOf(ls) - {n};
      if !PrevInUse(mem[nn - GC_HEAD]) {
        lists := RemoveFreelump(lists, n, Size(mem[n - GC_HEAD]), FreeOf(ls));
        size := size + Size(mem[n - GC_HEAD]);
        mem := Resized(mem, b, size);
      }
      ReleaseSteps(old(mem), mem, b, size);
      mem := mem[Foot(b, size) := size];
      mem := mem[b + size - GC_HEAD := ClearPrev(mem[b + size - GC_HEAD])];
      ls := Release(ls, b);
      lists := InsertFreelump(mem, lists, b, size, rest);
    }

    /** mem_free */
    method MemFree(p: int)
      requires Valid() && (p == 0 || IsUsed(ls, p))
      modifies `mem, `lists, `ls
      ensures Valid() && (p != 0 ==> !IsUsed(ls, p)) && OthersKept(old(mem), old(ls), mem, ls, {p})
      ensures WritesInside(old(mem), mem, spans)
    {
      hide Lumps.Valid, Tiling, ListsOk, FreeBefore, KeepsLump;
      if p == 0 {
        KeptAll(mem, ls, {p});
        return;
      }
      var b := AbsorbPrev(p);
      ghost var m1, l1 := mem, ls;
      AbsorbNext(b);
      KeptWeaken(m1, l1, mem, ls, {b}, {b, p});
      KeptTrans(old(mem), old(ls), m1, l1, mem, ls, {b, p});
      assert b != p ==> !IsUsed(l1, p);
    }

    /** Coalesce with the preceding lump, if it is free; returns the lump to go on with. */
    method AbsorbPrev(p: int) returns (b: int)
      requires Valid() && IsUsed(ls, p)
      modifies `mem, `lists, `ls
      ensures Valid() && Releases(ls, b) && (b != p ==> !old(IsUsed(ls, b)) && !IsUsed(ls, p))
      ensures OthersKept(old(mem), old(ls), mem, ls, {b, p}) && mem.Keys == old(mem).Keys
    {
      hide Lumps.Valid, Tiling, ListsOk, FreeBefore, OthersKept;
      LumpTags(mem, ls, p);
      PrevTag(mem, ls, p);
      if PrevInUse(mem[p - GC_HEAD]) {
        b := p;
        KeptAll(mem, ls, {b, p});
      } else {
        b := p - mem[p - 2 * GC_HEAD];
        LumpTags(mem, ls, b);
        lists := RemoveFreelump(lists, b, Size(mem[b - GC_HEAD]), FreeOf(ls));
        PrevKeeps(mem, ls, b, p, spans);
        mem := Resized(mem, b, Size(mem[b - GC_HEAD]) + Size(mem[p - GC_HEAD]));
        ls := Join(ls, b, p);
      }
    }
  }

  lemma LumpTags(m: Memory, ls: LumpMap, p: int)
    requires Valid(m, ls) && p in ls && ls[p].kind != End
    ensures p - GC_HEAD in m && Size(m[p - GC_HEAD]) == ls[p].size && p + ls[p].size - GC_HEAD in m && SizeOk(ls[p])
  {
    assert TagsOk(m, ls, p) && NextOk(ls, p) && TagsOk(m, ls, p + ls[p].size);
  }

  lemma SplitKeeps(m: Memory, ls: LumpMap, p: int, size: int, spans: set<Span>)
    requires Valid(m, ls) && Tiling(ls, spans) && Splits(ls, p, size)
    ensures p - GC_HEAD in m
    ensures var m', ls' := CarveMem(m, p, size, ls[p].size), Carve(ls, p, size);
            && Valid(m', ls') && Tiling(ls', spans) && OthersKept(m, ls, m', ls', {p}) && Cleared(m', p, size)
            && IsUsed(ls', p) && ls'[p].size == size
            && FreeOf(ls') == (FreeOf(ls) - {p})[p + size := ls[p].size - size] && p + size !in FreeOf(ls) - {p}
            && Headed(m', FreeOf(ls) - {p})
  {
    CarveValid(m, ls, p, size);
    CarveTiling(ls, p, size, spans);
    CarveKeeps(m, ls, p, size);
    FreeOfCarve(ls, p, size);
    CarveNew(ls, p, size);
    FreeHeaded(CarveMem(m, p, size, ls[p].size), Carve(ls, p, size));
    HeadedLess(CarveMem(m, p, size, ls[p].size), FreeOf(ls) - {p}, p + size, ls[p].size - size);
  }

  lemma HeadedLess(m: Memory, free: FreeMap, t: int, s: int)
    requires Headed(m, free[t := s]) && t !in free
    ensures Headed(m, free)
  {
    forall p | p in free ensures p - GC_HEAD in m && Size(m[p - GC_HEAD]) == free[p] { assert p in free[t := s]; }
  }

  lemma WholeKeeps(m: Memory, ls: LumpMap, p: int, spans: set<Span>)
    requires Valid(m, ls) && Tiling(ls, spans) && IsFree(ls, p)
    ensures p + ls[p].size - GC_HEAD in m
    ensures var m', ls' := TakeMem(m, p, ls[p].size), Take(ls, p);
            && Valid(m', ls') && Tiling(ls', spans) && OthersKept(m, ls, m', ls', {p}) && Cleared(m', p, ls[p].size)
            && IsUsed(ls', p) && ls'[p].size == ls[p].size && FreeOf(ls') == FreeOf(ls) - {p}
  {
    TakeValid(m, ls, p);
    TakeTiling(ls, p, spans);
    TakeKeeps(m, ls, p);
    FreeOfTake(ls, p);
  }

  /** What the PREV_BIT of lump p says. */
  lemma PrevTag(m: Memory, ls: LumpMap, p: int)
    requires Valid(m, ls) && IsUsed(ls, p) && p - GC_HEAD in m
    ensures PrevInUse(m[p - GC_HEAD]) <==> !FreeBefore(ls, p)
    ensures !PrevInUse(m[p - GC_HEAD]) ==> p - 2 * GC_HEAD in m && Joins(ls, p - m[p - 2 * GC_HEAD], p)
  {
    assert TagsOk(m, ls, p);
    if !PrevInUse(m[p - GC_HEAD]) { PrevFree(m, ls, p); }
  }

  lemma KeptAll(m: Memory, ls: LumpMap, ex: set<int>)
    requires Valid(m, ls)
    ensures OthersKept(m, ls, m, ls, ex)
  {
    forall q | IsUsed(ls, q) ensures KeepsLump(m, m, q, ls[q].size) { assert TagsOk(m, ls, q); }
  }

  lemma PrevKeeps(m: Memory, ls: LumpMap, b: int, p: int, spans: set<Span>)
    requires Valid(m, ls) && Tiling(ls, spans) && Joins(ls, b, p)
    ensures b - GC_HEAD in m
    ensures var m', ls' := Resized(m, b, ls[b].size + ls[p].size), Join(ls, b, p);
            && Valid(m', ls') && Tiling(ls', spans) && FreeOf(ls') == FreeOf(ls) - {b} && Releases(ls', b)
            && !IsUsed(ls', p)
            && OthersKept(m, ls, m', ls', {b, p})
  {
    JoinValid(m, ls, b, p);
    JoinTiling(ls, b, p, spans);
    JoinKeeps(m, ls, b, p);
    FreeOfJoin(ls, b, p);
    JoinBefore(ls, b, p, b);
    NoFreeBefore(ls, b);
    assert SizeOk(ls[b]);
  }

  /** Nothing free ends where a free lump starts. */
  lemma NoFreeBefore(ls: LumpMap, b: int)
    requires Shape(ls) && IsFree(ls, b)
    ensures !FreeBefore(ls, b)
  {
    if FreeBefore(ls, b) {
      var q :| q in ls && ls[q].kind == Free && q + ls[q].size == b;
      NotFreeNext(ls, q);
    }
  }

  lemma NotFreeNext(ls: LumpMap, q: int)
    requires Shape(ls) && IsFree(ls, q)
    ensures !IsFree(ls, q + ls[q].size)
  {
    assert NextOk(ls, q);
  }

  lemma ReleaseSteps(m: Memory, m1: Memory, b: int, size: int)
    requires b - GC_HEAD in m && b + size - GC_HEAD in m && size >= 2 * MEMALIGN
    requires m1 == Resized(m, b, size) || (m1 == m && Size(m[b - GC_HEAD]) == size)
    ensures b + size - GC_HEAD in m1
    ensures m1[Foot(b, size) := size][b + size - GC_HEAD := ClearPrev(m1[b + size - GC_HEAD])] == ReleaseMem(m, b, size)
  {
    if m1 == m { assert m[b - GC_HEAD := m[b - GC_HEAD]] == m; }
  }

  /** Everything mem_free relies on once the preceding lump is in use. */
  lemma NextTags(m: Memory, ls: LumpMap, b: int, spans: set<Span>)
    requires Valid(m, ls) && Tiling(ls, spans) && Releases(ls, b)
    ensures b - GC_HEAD in m && Size(m[b - GC_HEAD]) == ls[b].size > 0
    ensures var n := b + ls[b].size;
            && n - GC_HEAD in m && var nn := n + Size(m[n - GC_HEAD]);
            && nn - GC_HEAD in m && (PrevInUse(m[nn - GC_HEAD]) <==> !IsFree(ls, n))
            && (IsFree(ls, n) ==> n in FreeOf(ls) && Size(m[n - GC_HEAD]) == FreeOf(ls)[n])
            && (IsFree(ls, n) ==> ReleasedSize(ls, b) == ls[b].size + Size(m[n - GC_HEAD]))
            && (!IsFree(ls, n) ==> FreeOf(ls) - {n} == FreeOf(ls) && ReleasedSize(ls, b) == ls[b].size)
    ensures var s := ReleasedSize(ls, b);
            && s >= STEP && s % STEP == 0 && b + s - GC_HEAD in m
            && var m', ls' := ReleaseMem(m, b, s), Release(ls, b);
               && Valid(m', ls') && Tiling(ls', spans) && IsFree(ls', b) && OthersKept(m, ls, m', ls', {b})
               && FreeOf(ls') == (FreeOf(ls) - {b + ls[b].size})[b := s] && b !in FreeOf(ls) - {b + ls[b].size}
               && Headed(m', FreeOf(ls) - {b + ls[b].size})
  {
    var n, s := b + ls[b].size, ReleasedSize(ls, b);
    LumpTags(m, ls, b);
    NextFree(m, ls, b);
    if IsFree(ls, n) { LumpTags(m, ls, n); }
    ReleasedSizeOk(ls, b);
    ReleaseValid(m, ls, b);
    ReleaseTiling(ls, b, spans);
    ReleaseKeeps(m, ls, b);
    FreeOfRelease(ls, b);
    FreeHeaded(ReleaseMem(m, b, s), Release(ls, b));
    HeadedLess(ReleaseMem(m, b, s), FreeOf(ls) - {n}, b, s);
  }

  lemma ExpandKeeps(m: Memory, ls: LumpMap, s: Span, spans: set<Span>)
    requires Valid(m, ls) && Tiling(ls, spans) && Fresh(ls, s) && SpanOk(s)
    ensures var m', ls' := ExpandMem(m, s), Expand(ls, s);
            && Valid(m', ls') && Tiling(ls', spans + {s}) && OthersKept(m, ls, m', ls', {})
            && FreeOf(ls') == FreeOf(ls)[s.first := s.last - s.first] && s.first !in FreeOf(ls)
            && Headed(m', FreeOf(ls))
  {
    hide Shape, AllTags, Tiling, OthersKept, FreeOf, Headed, ExpandMem, Expand, Fresh, SpanOk;
    ExpandValid(m, ls, s);
    ExpandTiling(ls, spans, s);
    FreeOfExpand(ls, s);
    FreeHeaded(ExpandMem(m, s), Expand(ls, s));
    HeadedLess(ExpandMem(m, s), FreeOf(ls), s.first, s.last - s.first);
    ExpandOthers(m, ls, s);
  }

  lemma ExpandOthers(m: Memory, ls: LumpMap, s: Span)
    requires Valid(m, ls) && Fresh(ls, s) && SpanOk(s)
    ensures OthersKept(m, ls, ExpandMem(m, s), Expand(ls, s), {})
  {
    var m' := ExpandMem(m, s);
    ExpandNew(ls, s);
    forall q | IsUsed(ls, q) ensures KeepsLump(m, m', q, ls[q].size) {
      assert TagsOk(m, ls, q) && SizeOk(ls[q]);
    }
  }

  lemma KeptUsed(m: Memory, ls: LumpMap, m': Memory, ls': LumpMap, p: int)
    requires OthersKept(m, ls, m', ls', {})
    ensures IsUsed(ls, p) <==> IsUsed(ls', p)
  {
  }

  lemma ClearedKeeps(m: Memory, p: int, size: int, h: int)
    requires Cleared(m, p, size)
    ensures Cleared(m[p - GC_HEAD := h], p, size)
  {
  }

  /** A header word may be replaced by one with the same size and PREV_BIT. */
  lemma RetagKeeps(m: Memory, ls: LumpMap, p: int, h: int)
    requires Valid(m, ls) && IsUsed(ls, p) && p - GC_HEAD in m
    requires Size(h) == Size(m[p - GC_HEAD]) && PrevInUse(h) == PrevInUse(m[p - GC_HEAD])
    ensures Valid(m[p - GC_HEAD := h], ls) && OthersKept(m, ls, m[p - GC_HEAD := h], ls, {p})
  {
    var m' := m[p - GC_HEAD := h];
    forall q | q in ls ensures TagsOk(m', ls, q) && (q != p && IsUsed(ls, q) ==> KeepsLump(m, m', q, ls[q].size)) {
      assert TagsOk(m, ls, q) && SizeOk(ls[q]) && SizeOk(ls[p]);
      if q != p { ApartOf(ls, p, q); }
    }
  }

  /** The words of lump p of m, as far as `want` bytes reach, are those of lump t of m'. */
  ghost predicate CopiedOver(m: Memory, p: int, size: int, m': Memory, t: int, want: int)
  {
    forall y :: 0 <= y && y + 4 <= size - GC_HEAD && y + 4 <= want && y % 4 == 0 && p + y in m ==>
        t + y in m' && m'[t + y] == m[p + y]
  }

  lemma CopyKept(m0: Memory, m1: Memory, m2: Memory, m3: Memory, p: int, t: int, psize: int, tsize: int, want: int)
    requires Agree(m0, m1, p, p + psize - GC_HEAD) && CopiedOver(m1, p, psize, m2, t, want)
    requires Agree(m2, m3, t, t + tsize - GC_HEAD) && tsize >= want + GC_HEAD
    ensures CopiedOver(m0, p, psize, m3, t, want)
  {
  }

  /** memcpy(t, p, n), on whole words. */
  function Copied(m: Memory, t: int, p: int, n: int): Memory
  {
    m + map x: int | t <= x && x + 4 <= t + n && (x - t) % 4 == 0 && Source(x, t, p) in m :: m[Source(x, t, p)]
  }

  lemma CopyZero(m: Memory, t: int, p: int, n: int, size: int)
    requires Cleared(m, t, size) && n >= 0
    ensures ZeroFrom(Copied(m, t, p, n), t, size, n)
  {
  }

  function Min(a: int, b: int): int { if a < b then a else b }

  /** Where the word copied to x comes from. */
  function Source(x: int, t: int, p: int): int { p + (x - t) }

  lemma KeptLump(m: Memory, ls: LumpMap, m': Memory, ls': LumpMap, ex: int, q: int)
    requires OthersKept(m, ls, m', ls', {ex}) && q != ex && IsUsed(ls, q)
    ensures IsUsed(ls', q) && ls'[q] == ls[q] && Agree(m, m', q, q + ls[q].size - GC_HEAD)
  {
    assert KeepsLump(m, m', q, ls[q].size);
  }

  lemma CopyKeeps(m: Memory, ls: LumpMap, t: int, p: int, n: int)
    requires Valid(m, ls) && IsUsed(ls, t) && IsUsed(ls, p) && t != p && n <= ls[t].size - GC_HEAD
    requires n <= ls[p].size - GC_HEAD
    ensures Valid(Copied(m, t, p, n), ls) && OthersKept(m, ls, Copied(m, t, p, n), ls, {t})
    ensures forall y :: 0 <= y && y + 4 <= n && y % 4 == 0 && p + y in m ==>
              t + y in Copied(m, t, p, n) && Copied(m, t, p, n)[t + y] == m[p + y]
  {
    var m' := Copied(m, t, p, n);
    CopyOutside(m, t, p, n);
    forall y | 0 <= y && y + 4 <= n && y % 4 == 0 && p + y in m ensures t + y in m' && m'[t + y] == m[p + y] {
      assert Source(t + y, t, p) == p + y;
    }
    hide Copied;
    InsideWrite(m, m', ls, t);
  }

  lemma CopyOutside(m: Memory, t: int, p: int, n: int)
    ensures forall x :: x < t || t + n <= x ==>
              (x in m <==> x in Copied(m, t, p, n)) && (x in m ==> Copied(m, t, p, n)[x] == m[x])
  {
  }

  /** Whatever is written inside a used lump leaves all tags, and all other lumps, alone. */
  lemma InsideWrite(m: Memory, m': Memory, ls: LumpMap, t: int)
    requires Valid(m, ls) && IsUsed(ls, t)
    requires forall x :: x < t || t + ls[t].size - GC_HEAD <= x ==> (x in m <==> x in m') && (x in m ==> m'[x] == m[x])
    ensures Valid(m', ls) && OthersKept(m, ls, m', ls, {t})
  {
    forall q | q in ls ensures TagsOk(m', ls, q) && (q != t && IsUsed(ls, q) ==> KeepsLump(m, m', q, ls[q].size)) {
      assert TagsOk(m, ls, q) && SizeOk(ls[q]) && SizeOk(ls[t]);
      if q != t { ApartOf(ls, t, q); }
    }
  }
}
