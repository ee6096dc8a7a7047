/**
 * The lumps of the manual memory manager (src/runtime/gc.c): boundary tags in memory,
 * and the steps by which lumps are split and joined.
 *
 * Lump p owns the bytes from its header at p-4 up to the next lump's header.  Bit
 * PREV_BIT of a header tells whether the preceding lump is in use, and a free lump
 * repeats its size in its last word.  A region ends with two dummy headers, which
 * count here as one lump of their own.
 */
module Lumps {
  import opened Header

  datatype Kind = Free | Used | End
  datatype Lump = Lump(size: int, kind: Kind)

  /** A region: its first lump and its end lump. */
  datatype Span = Span(first: int, last: int)

  type LumpMap = map<int, Lump>

  const END_SIZE := 2 * MEMALIGN

  // ---------------------------------------------------------------------------
  // How lumps lie
  // ---------------------------------------------------------------------------

  ghost predicate SizeOk(l: Lump)
  {
    l.size >= 2 * MEMALIGN && l.size % (2 * MEMALIGN) == 0 && (l.kind == End ==> l.size == END_SIZE)
  }

  /** Two lumps are apart. */
  ghost predicate Apart(ls: LumpMap, p: int, q: int)
    requires p in ls && q in ls
  {
    p + ls[p].size <= q || q + ls[q].size <= p
  }

  ghost predicate AllApart(ls: LumpMap)
  {
    forall p, q {:trigger Apart(ls, p, q)} :: p in ls && q in ls && p != q ==> Apart(ls, p, q)
  }

  /** A lump is followed by another, and two free ones are never adjacent. */
  ghost predicate NextOk(ls: LumpMap, p: int)
    requires p in ls
  {
    ls[p].kind == End || (p + ls[p].size in ls && (ls[p].kind == Free ==> ls[p + ls[p].size].kind != Free))
  }

  /** Byte x belongs to lump p. */
  ghost predicate Owns(ls: LumpMap, p: int, x: int) { p in ls && p - GC_HEAD <= x < p - GC_HEAD + ls[p].size }

  /** Every byte of a region belongs to a lump, and a lump lies in one region. */
  ghost predicate Covered(ls: LumpMap, x: int) { exists p :: Owns(ls, p, x) }
  ghost predicate AllCovered(ls: LumpMap, spans: set<Span>)
  {
    forall s, x {:trigger s in spans, Covered(ls, x)} ::
      s in spans && s.first - GC_HEAD <= x < s.last - GC_HEAD + END_SIZE ==> Covered(ls, x)
  }
  ghost predicate Inside(ls: LumpMap, s: Span, p: int)
    requires p in ls
  {
    s.first <= p && p + ls[p].size <= s.last + END_SIZE
  }
  ghost predicate Housed(ls: LumpMap, spans: set<Span>, p: int)
  {
    p in ls && exists s :: s in spans && Inside(ls, s, p)
  }
  ghost predicate AllInside(ls: LumpMap, spans: set<Span>)
  {
    forall p {:trigger Housed(ls, spans, p)} :: p in ls ==> Housed(ls, spans, p)
  }

  ghost predicate Shape(ls: LumpMap)
  {
    && (forall p {:trigger ls[p]} :: p in ls ==> SizeOk(ls[p]))
    && (forall p {:trigger NextOk(ls, p)} :: p in ls ==> NextOk(ls, p))
    && AllApart(ls)
  }

  // ---------------------------------------------------------------------------
  // Tags in memory
  // ---------------------------------------------------------------------------

  /** A free lump ends where p starts. */
  ghost predicate FreeBefore(ls: LumpMap, p: int) { exists q :: q in ls && ls[q].kind == Free && q + ls[q].size == p }

  /** The tags of lump p. */
  ghost predicate TagsOk(m: Memory, ls: LumpMap, p: int)
    requires p in ls
  {
    && p - GC_HEAD in m
    && (PrevInUse(m[p - GC_HEAD]) <==> !FreeBefore(ls, p))
    && SizeTag(m, p, ls[p])
  }

  ghost predicate SizeTag(m: Memory, p: int, l: Lump)
    requires p - GC_HEAD in m
  {
    match l.kind
    case Used => Size(m[p - GC_HEAD]) == l.size
    case Free => Size(m[p - GC_HEAD]) == l.size && Foot(p, l.size) in m && m[Foot(p, l.size)] == l.size
    case End => Size(m[p - GC_HEAD]) == MEMALIGN && p + MEMALIGN - GC_HEAD in m && PrevInUse(m[p + MEMALIGN - GC_HEAD])
  }

  /** FOOTER(p, size) */
  function Foot(p: int, size: int): int { p + size - 2 * GC_HEAD }

  ghost predicate AllTags(m: Memory, ls: LumpMap)
  {
    forall p {:trigger TagsOk(m, ls, p)} :: p in ls ==> TagsOk(m, ls, p)
  }

  ghost predicate Valid(m: Memory, ls: LumpMap) { Shape(ls) && AllTags(m, ls) }

  /** If lump q ends where p starts, q's kind is what p's tag tells. */
  lemma FreeBeforeIs(ls: LumpMap, q: int, p: int)
    requires Shape(ls) && q in ls && q + ls[q].size == p
    ensures FreeBefore(ls, p) <==> ls[q].kind == Free
  {
    forall r | r in ls && r + ls[r].size == p ensures r == q {
      assert SizeOk(ls[r]) && SizeOk(ls[q]);
      assert r != q ==> Apart(ls, r, q);
    }
  }

  lemma ApartOf(ls: LumpMap, p: int, q: int)
    requires Shape(ls) && p in ls && q in ls && p != q
    ensures p + ls[p].size <= q || q + ls[q].size <= p
  {
    assert Apart(ls, p, q);
  }

  /** NEXT_LUMP(NEXT_LUMP(p)) has PREV_BIT set exactly if the lump after p is not free. */
  lemma NextFree(m: Memory, ls: LumpMap, p: int)
    requires Valid(m, ls) && p in ls && ls[p].kind != End
    ensures var n := p + ls[p].size;
            && n in ls && n - GC_HEAD in m
            && var nn := n + Size(m[n - GC_HEAD]);
               nn - GC_HEAD in m && (PrevInUse(m[nn - GC_HEAD]) <==> ls[n].kind != Free)
  {
    var n := p + ls[p].size;
    assert NextOk(ls, p) && TagsOk(m, ls, n);
    if ls[n].kind != End {
      assert NextOk(ls, n) && TagsOk(m, ls, n + ls[n].size);
      FreeBeforeIs(ls, n, n + ls[n].size);
    }
  }

  /** PREV_LUMP(p), for a lump whose PREV_BIT is clear, is the free lump before it. */
  lemma PrevFree(m: Memory, ls: LumpMap, p: int)
    requires Valid(m, ls) && p in ls && TagsOk(m, ls, p) && !PrevInUse(m[p - GC_HEAD])
    ensures p - 2 * GC_HEAD in m
    ensures var q := p - m[p - 2 * GC_HEAD]; q in ls && ls[q].kind == Free && q + ls[q].size == p
  {
    assert TagsOk(m, ls, p);
    var q :| q in ls && ls[q].kind == Free && q + ls[q].size == p;
    assert TagsOk(m, ls, q);
  }

  // ---------------------------------------------------------------------------
  // What does not change
  // ---------------------------------------------------------------------------

  /** Memory agrees on the bytes from lo up to hi. */
  ghost predicate Agree(m: Memory, m': Memory, lo: int, hi: int)
  {
    forall x {:trigger m'[x]} {:trigger x in m'} {:trigger m[x]} :: lo <= x < hi ==>
        (x in m <==> x in m') && (x in m ==> m[x] == m'[x])
  }

  lemma SizeTagFrame(m: Memory, m': Memory, p: int, l: Lump)
    requires SizeOk(l) && p - GC_HEAD in m && SizeTag(m, p, l) && Agree(m, m', p - GC_HEAD, p - GC_HEAD + l.size)
    ensures p - GC_HEAD in m' && SizeTag(m', p, l) && m'[p - GC_HEAD] == m[p - GC_HEAD]
  {
  }

  /** A lump whose bytes and whose predecessor are as before keeps its tags. */
  lemma TagsFrame(m: Memory, m': Memory, ls: LumpMap, ls': LumpMap, p: int)
    requires Valid(m, ls) && p in ls && p in ls' && ls'[p] == ls[p] && (FreeBefore(ls', p) <==> FreeBefore(ls, p))
    requires Agree(m, m', p - GC_HEAD, p - GC_HEAD + ls[p].size)
    ensures TagsOk(m', ls', p)
  {
    assert TagsOk(m, ls, p);
    SizeTagFrame(m, m', p, ls[p]);
  }

  lemma FreeBeforeFrame(ls: LumpMap, ls': LumpMap, p: int)
    requires forall q :: (q in ls && ls[q].kind == Free && q + ls[q].size == p) <==>
               (q in ls' && ls'[q].kind == Free && q + ls'[q].size == p)
    ensures FreeBefore(ls', p) <==> FreeBefore(ls, p)
  {
  }

  // ---------------------------------------------------------------------------
  // A free lump is taken as a whole
  // ---------------------------------------------------------------------------

  ghost predicate IsFree(ls: LumpMap, p: int) { p in ls && ls[p].kind == Free }
  ghost predicate IsUsed(ls: LumpMap, p: int) { p in ls && ls[p].kind == Used }

  ghost function Take(ls: LumpMap, p: int): LumpMap
    requires p in ls
  {
    ls[p := Lump(ls[p].size, Used)]
  }

  /** The memory after lump p of the given size is marked as used and cleared. */
  function TakeMem(m: Memory, p: int, size: int): Memory
    requires p + size - GC_HEAD in m
  {
    Zeroed(m[p + size - GC_HEAD := SetPrev(m[p + size - GC_HEAD])], p, size - GC_HEAD)
  }

  lemma TakeShape(ls: LumpMap, p: int)
    requires Shape(ls) && IsFree(ls, p)
    ensures Shape(Take(ls, p))
  {
    var ls' := Take(ls, p);
    forall q | q in ls' ensures NextOk(ls', q) { assert NextOk(ls, q); }
    forall q, r | q in ls' && r in ls' && q != r ensures Apart(ls', q, r) { assert Apart(ls, q, r); }
  }

  lemma TakeTags(m: Memory, ls: LumpMap, p: int, q: int)
    requires Valid(m, ls) && IsFree(ls, p) && q in ls && p + ls[p].size - GC_HEAD in m
    ensures TagsOk(TakeMem(m, p, ls[p].size), Take(ls, p), q)
  {
    var m', ls', n := TakeMem(m, p, ls[p].size), Take(ls, p), p + ls[p].size;
    assert NextOk(ls, p) && SizeOk(ls[p]) && TagsOk(m, ls, q);
    TakeShape(ls, p);
    if q == n {
      FreeBeforeIs(ls', p, n);
      PrevBitOnly(m[n - GC_HEAD]);
    } else {
      assert q != p ==> Apart(ls, p, q) && Apart(ls, q, n);
      FreeBeforeFrame(ls, ls', q);
    }
  }

  lemma TakeValid(m: Memory, ls: LumpMap, p: int)
    requires Valid(m, ls) && IsFree(ls, p)
    ensures p + ls[p].size - GC_HEAD in m && Valid(TakeMem(m, p, ls[p].size), Take(ls, p))
  {
    assert NextOk(ls, p) && TagsOk(m, ls, p + ls[p].size);
    TakeShape(ls, p);
    forall q | q in Take(ls, p) ensures TagsOk(TakeMem(m, p, ls[p].size), Take(ls, p), q) { TakeTags(m, ls, p, q); }
  }

  // ---------------------------------------------------------------------------
  // A free lump is split
  // ---------------------------------------------------------------------------

  ghost predicate Splits(ls: LumpMap, p: int, size: int)
  {
    IsFree(ls, p) && 0 < size < ls[p].size && size % (2 * MEMALIGN) == 0
  }

  ghost function Carve(ls: LumpMap, p: int, size: int): LumpMap
    requires p in ls
  {
    ls[p := Lump(size, Used)][p + size := Lump(ls[p].size - size, Free)]
  }

  /**
   * The memory after the first `size` bytes of lump p, whose size is `whole`, are cut off,
   * marked as used and cleared.
   */
  function CarveMem(m: Memory, p: int, size: int, whole: int): Memory
    requires p - GC_HEAD in m
  {
    var t, s := p + size, whole - size;
    var cut := m[t - GC_HEAD := s + PREV_BIT][Foot(t, s) := s][p - GC_HEAD := size + Bits(m[p - GC_HEAD])];
    Zeroed(cut, p, size - GC_HEAD)
  }

  lemma CarveNew(ls: LumpMap, p: int, size: int)
    requires Shape(ls) && Splits(ls, p, size)
    ensures p + size !in ls && SizeOk(Lump(size, Used)) && SizeOk(Lump(ls[p].size - size, Free))
  {
    assert SizeOk(ls[p]);
    if p + size in ls { ApartOf(ls, p, p + size); }
  }

  lemma CarveShape(ls: LumpMap, p: int, size: int)
    requires Shape(ls) && Splits(ls, p, size)
    ensures Shape(Carve(ls, p, size))
  {
    CarveNew(ls, p, size);
    var ls', t := Carve(ls, p, size), p + size;
    forall q | q in ls' ensures NextOk(ls', q) {
      if q == t || q == p { assert NextOk(ls, p); } else { assert NextOk(ls, q); CarveNext(ls, p, size, q); }
    }
    forall q, r | q in ls' && r in ls' && q != r ensures Apart(ls', q, r) {
      var q0, r0 := if q == t then p else q, if r == t then p else r;
      assert q0 != r0 ==> Apart(ls, q0, r0);
    }
  }

  /** No other lump ends inside a lump. */
  lemma CarveNext(ls: LumpMap, p: int, size: int, q: int)
    requires Shape(ls) && Splits(ls, p, size) && q in ls && q != p
    ensures q + ls[q].size != p + size
  {
    assert Apart(ls, q, p) && SizeOk(ls[q]);
  }

  lemma CarveTagsHead(m: Memory, ls: LumpMap, p: int, size: int)
    requires Valid(m, ls) && Splits(ls, p, size) && p - GC_HEAD in m
    ensures TagsOk(CarveMem(m, p, size, ls[p].size), Carve(ls, p, size), p)
  {
    CarveNew(ls, p, size);
    assert TagsOk(m, ls, p) && SizeOk(ls[p]);
    CarveBefore(ls, p, size, p);
    CarveWords(m, p, size, ls[p].size);
    Retag(size, m[p - GC_HEAD]);
    hide CarveMem, FreeBefore, Size, Bits, PrevInUse;
  }

  /** A header with a new size keeps its status bits. */
  lemma Retag(size: int, h: int)
    requires size % (2 * MEMALIGN) == 0
    ensures Size(size + Bits(h)) == size && (PrevInUse(size + Bits(h)) <==> PrevInUse(h))
    ensures (Marked(size + Bits(h)) <==> Marked(h))
    ensures Size(size + PREV_BIT) == size && PrevInUse(size + PREV_BIT)
  {
    BitsOnTop(2 * (size / 16), Bits(h));
    BitsOnTop(2 * (size / 16), PREV_BIT);
  }

  lemma BitsOnTop(z: int, b: int)
    requires 0 <= b < 8
    ensures Bits(8 * z + b) == b
  {
  }

  lemma CarveWords(m: Memory, p: int, size: int, whole: int)
    requires p - GC_HEAD in m && size >= 2 * MEMALIGN && whole - size >= 2 * MEMALIGN
    ensures var m', t, s := CarveMem(m, p, size, whole), p + size, whole - size;
            && p - GC_HEAD in m' && m'[p - GC_HEAD] == size + Bits(m[p - GC_HEAD])
            && t - GC_HEAD in m' && m'[t - GC_HEAD] == s + PREV_BIT && Foot(t, s) in m' && m'[Foot(t, s)] == s
  {
    hide Bits;
  }

  lemma CarveTagsRest(m: Memory, ls: LumpMap, p: int, size: int)
    requires Valid(m, ls) && Splits(ls, p, size) && p - GC_HEAD in m
    ensures TagsOk(CarveMem(m, p, size, ls[p].size), Carve(ls, p, size), p + size)
  {
    CarveNew(ls, p, size);
    CarveShape(ls, p, size);
    FreeBeforeIs(Carve(ls, p, size), p, p + size);
    CarveWords(m, p, size, ls[p].size);
    Retag(ls[p].size - size, m[p - GC_HEAD]);
    hide CarveMem, FreeBefore, Size, Bits, PrevInUse, Foot;
  }

  /** Which lumps have a free one before them, apart from the new one. */
  lemma CarveBefore(ls: LumpMap, p: int, size: int, q: int)
    requires Shape(ls) && Splits(ls, p, size) && q in ls
    ensures FreeBefore(Carve(ls, p, size), q) <==> FreeBefore(ls, q)
  {
    var ls', t, n := Carve(ls, p, size), p + size, p + ls[p].size;
    CarveNew(ls, p, size);
    if q == n {
      CarveShape(ls, p, size);
      FreeBeforeIs(ls, p, n);
      FreeBeforeIs(ls', t, n);
    } else {
      assert SizeOk(ls[p]);
      FreeBeforeFrame(ls, ls', q);
    }
  }

  lemma CarveAgree(m: Memory, p: int, size: int, whole: int, lo: int, hi: int)
    requires p - GC_HEAD in m && 2 * GC_HEAD <= size < whole - GC_HEAD
    requires (hi <= p - GC_HEAD || p - GC_HEAD + whole <= lo)
    ensures Agree(m, CarveMem(m, p, size, whole), lo, hi)
  {
  }

  lemma CarveTags(m: Memory, ls: LumpMap, p: int, size: int, q: int)
    requires Valid(m, ls) && Splits(ls, p, size) && p - GC_HEAD in m && q in Carve(ls, p, size)
    ensures TagsOk(CarveMem(m, p, size, ls[p].size), Carve(ls, p, size), q)
  {
    hide TagsOk, SizeTag, FreeBefore, NextOk;
    if q == p + size {
      CarveTagsRest(m, ls, p, size);
    } else if q == p {
      CarveTagsHead(m, ls, p, size);
    } else {
      CarveNew(ls, p, size);
      ApartOf(ls, p, q);
      CarveBefore(ls, p, size, q);
      CarveAgree(m, p, size, ls[p].size, q - GC_HEAD, q - GC_HEAD + ls[q].size);
      TagsFrame(m, CarveMem(m, p, size, ls[p].size), ls, Carve(ls, p, size), q);
    }
  }

  lemma CarveValid(m: Memory, ls: LumpMap, p: int, size: int)
    requires Valid(m, ls) && Splits(ls, p, size)
    ensures p - GC_HEAD in m && Valid(CarveMem(m, p, size, ls[p].size), Carve(ls, p, size))
  {
    assert TagsOk(m, ls, p);
    CarveShape(ls, p, size);
    forall q | q in Carve(ls, p, size)
      ensures TagsOk(CarveMem(m, p, size, ls[p].size), Carve(ls, p, size), q)
    {
      CarveTags(m, ls, p, size, q);
    }
  }

  // ---------------------------------------------------------------------------
  // A used lump absorbs the free lump before it
  // ---------------------------------------------------------------------------

  ghost predicate Joins(ls: LumpMap, q: int, p: int) { IsFree(ls, q) && IsUsed(ls, p) && q + ls[q].size == p }

  ghost function Join(ls: LumpMap, q: int, p: int): LumpMap
    requires p in ls && q in ls
  {
    (ls - {p})[q := Lump(ls[q].size + ls[p].size, Used)]
  }

  /** The memory after header p has been given a new size. */
  function Resized(m: Memory, p: int, size: int): Memory
    requires p - GC_HEAD in m
  {
    m[p - GC_HEAD := size + Bits(m[p - GC_HEAD])]
  }

  lemma JoinShape(ls: LumpMap, q: int, p: int)
    requires Shape(ls) && Joins(ls, q, p)
    ensures Shape(Join(ls, q, p))
  {
    var ls' := Join(ls, q, p);
    assert NextOk(ls, p) && SizeOk(ls[p]) && SizeOk(ls[q]);
    SizesAdd(ls[q].size, ls[p].size, Used);
    hide SizeOk;
    forall r | r in ls' ensures NextOk(ls', r) {
      if r != q {
        JoinOther(ls, q, p, r);
        assert NextOk(ls, r);
      }
    }
    forall r, s | r in ls' && s in ls' && r != s ensures Apart(ls', r, s) {
      if r == q { JoinOther(ls, q, p, s); } else if s == q { JoinOther(ls, q, p, r); } else { assert Apart(ls, r, s); }
    }
  }

  lemma SizesAdd(a: int, b: int, kind: Kind)
    requires SizeOk(Lump(a, Used)) && SizeOk(Lump(b, Used)) && kind != End
    ensures SizeOk(Lump(a + b, kind))
  {
  }

  lemma JoinOther(ls: LumpMap, q: int, p: int, r: int)
    requires Shape(ls) && Joins(ls, q, p) && r in Join(ls, q, p) && r != q
    ensures r in ls && Join(ls, q, p)[r] == ls[r] && r + ls[r].size != p
    ensures p + ls[p].size <= r || r + ls[r].size <= q
  {
    assert SizeOk(ls[p]) && SizeOk(ls[q]) && SizeOk(ls[r]);
    ApartOf(ls, r, q);
    ApartOf(ls, r, p);
  }

  lemma JoinTags(m: Memory, ls: LumpMap, q: int, p: int, r: int)
    requires Valid(m, ls) && Joins(ls, q, p) && q - GC_HEAD in m && r in Join(ls, q, p)
    ensures TagsOk(Resized(m, q, ls[q].size + ls[p].size), Join(ls, q, p), r)
  {
    var m', ls', n := Resized(m, q, ls[q].size + ls[p].size), Join(ls, q, p), p + ls[p].size;
    assert SizeOk(ls[p]) && SizeOk(ls[q]) && TagsOk(m, ls, r);
    Retag(ls[q].size + ls[p].size, m[q - GC_HEAD]);
    JoinBefore(ls, q, p, r);
    if r != q {
      ApartOf(ls, q, r);
      hide TagsOk, FreeBefore, Shape, AllTags, Bits;
      TagsFrame(m, m', ls, ls', r);
    }
  }

  lemma JoinBefore(ls: LumpMap, q: int, p: int, r: int)
    requires Shape(ls) && Joins(ls, q, p) && r in Join(ls, q, p)
    ensures FreeBefore(Join(ls, q, p), r) <==> FreeBefore(ls, r)
  {
    FreeBeforeFrame(ls, Join(ls, q, p), r);
  }

  lemma JoinValid(m: Memory, ls: LumpMap, q: int, p: int)
    requires Valid(m, ls) && Joins(ls, q, p)
    ensures q - GC_HEAD in m && Valid(Resized(m, q, ls[q].size + ls[p].size), Join(ls, q, p))
  {
    assert TagsOk(m, ls, q);
    JoinShape(ls, q, p);
    forall r | r in Join(ls, q, p)
      ensures TagsOk(Resized(m, q, ls[q].size + ls[p].size), Join(ls, q, p), r)
    {
      JoinTags(m, ls, q, p, r);
    }
  }

  // ---------------------------------------------------------------------------
  // A used lump is freed, together with the free lump after it
  // ---------------------------------------------------------------------------

  /** The size of the lump that freeing p makes. */
  ghost function ReleasedSize(ls: LumpMap, p: int): int
    requires p in ls
  {
    var n := p + ls[p].size;
    if IsFree(ls, n) then ls[p].size + ls[n].size else ls[p].size
  }

  ghost function Release(ls: LumpMap, p: int): LumpMap
    requires p in ls
  {
    var n := p + ls[p].size;
    (if IsFree(ls, n) then ls - {n} else ls)[p := Lump(ReleasedSize(ls, p), Free)]
  }

  /** The memory after that: header, footer, and the bit in the next header. */
  function ReleaseMem(m: Memory, p: int, size: int): Memory
    requires p - GC_HEAD in m && p + size - GC_HEAD in m
  {
    Resized(m, p, size)[Foot(p, size) := size][p + size - GC_HEAD := ClearPrev(m[p + size - GC_HEAD])]
  }

  ghost predicate Releases(ls: LumpMap, p: int) { IsUsed(ls, p) && !FreeBefore(ls, p) }

  lemma ReleasedSizeOk(ls: LumpMap, p: int)
    requires Shape(ls) && Releases(ls, p)
    ensures var s := ReleasedSize(ls, p);
            SizeOk(Lump(s, Free)) && s >= ls[p].size && p + s in ls && p + s != p && ls[p + s].kind != Free &&
                p + s in Release(ls, p)
  {
    assert SizeOk(ls[p]) && NextOk(ls, p);
    var n := p + ls[p].size;
    if IsFree(ls, n) { assert SizeOk(ls[n]) && NextOk(ls, n); }
  }

  /** What is left of the other lumps: all but the one absorbed, and none of them reaches into p. */
  lemma ReleaseOther(ls: LumpMap, p: int, q: int)
    requires Shape(ls) && Releases(ls, p) && q in Release(ls, p) && q != p
    ensures q in ls && Release(ls, p)[q] == ls[q] && q + ls[q].size != p + ls[p].size
    ensures p + ReleasedSize(ls, p) <= q || q + ls[q].size <= p
    ensures q + ls[q].size == p ==> ls[q].kind != Free
  {
    assert SizeOk(ls[p]) && SizeOk(ls[q]);
    ApartOf(ls, p, q);
    var n := p + ls[p].size;
    if IsFree(ls, n) && q != n { ApartOf(ls, n, q); }
  }

  lemma ReleaseShape(ls: LumpMap, p: int)
    requires Shape(ls) && Releases(ls, p)
    ensures Shape(Release(ls, p))
  {
    var ls' := Release(ls, p);
    ReleasedSizeOk(ls, p);
    forall q | q in ls' ensures NextOk(ls', q) {
      if q != p {
        ReleaseOther(ls, p, q);
        assert NextOk(ls, q);
      }
    }
    forall q, r | q in ls' && r in ls' && q != r ensures Apart(ls', q, r) {
      if q == p { ReleaseOther(ls, p, r); } else if r == p { ReleaseOther(ls, p, q); } else { assert Apart(ls, q, r); }
    }
  }

  lemma ReleaseWords(m: Memory, p: int, size: int)
    requires p - GC_HEAD in m && p + size - GC_HEAD in m && size >= 2 * MEMALIGN
    ensures var m' := ReleaseMem(m, p, size);
            && p - GC_HEAD in m' && m'[p - GC_HEAD] == size + Bits(m[p - GC_HEAD])
            && Foot(p, size) in m' && m'[Foot(p, size)] == size
            && p + size - GC_HEAD in m' && m'[p + size - GC_HEAD] == ClearPrev(m[p + size - GC_HEAD])
            && forall x :: x != p - GC_HEAD && x != Foot(p, size) && x != p + size - GC_HEAD ==>
                 (x in m <==> x in m') && (x in m ==> m[x] == m'[x])
  {
    hide Bits, ClearPrev;
  }

  lemma ReleaseBefore(ls: LumpMap, p: int, q: int)
    requires Shape(ls) && Releases(ls, p) && q in Release(ls, p)
    ensures FreeBefore(Release(ls, p), q) <==> (if q == p + ReleasedSize(ls, p) then true else FreeBefore(ls, q))
  {
    var ls', end := Release(ls, p), p + ReleasedSize(ls, p);
    ReleasedSizeOk(ls, p);
    if q == end {
      ReleaseShape(ls, p);
      FreeBeforeIs(ls', p, end);
    } else {
      FreeBeforeFrame(ls, ls', q);
    }
  }

  lemma ReleaseTags(m: Memory, ls: LumpMap, p: int, q: int)
    requires Valid(m, ls) && Releases(ls, p) && q in Release(ls, p) && p - GC_HEAD in m
    requires p + ReleasedSize(ls, p) - GC_HEAD in m
    ensures TagsOk(ReleaseMem(m, p, ReleasedSize(ls, p)), Release(ls, p), q)
  {
    var s := ReleasedSize(ls, p);
    var m', ls' := ReleaseMem(m, p, s), Release(ls, p);
    ReleasedSizeOk(ls, p);
    ReleaseBefore(ls, p, q);
    ReleaseWords(m, p, s);
    if q == p {
      assert TagsOk(m, ls, p);
      Retag(s, m[p - GC_HEAD]);
      hide FreeBefore, ReleaseMem, Release, Bits, PrevInUse, Size;
    } else {
      ReleaseOther(ls, p, q);
      assert TagsOk(m, ls, q) && SizeOk(ls[q]);
      PrevBitOnly(m[p + s - GC_HEAD]);
      hide FreeBefore, ReleaseMem, Release, Bits, PrevInUse, Size, ClearPrev;
    }
  }

  lemma ReleaseValid(m: Memory, ls: LumpMap, p: int)
    requires Valid(m, ls) && Releases(ls, p)
    ensures p - GC_HEAD in m && p + ReleasedSize(ls, p) - GC_HEAD in m
    ensures Valid(ReleaseMem(m, p, ReleasedSize(ls, p)), Release(ls, p))
  {
    ReleasedSizeOk(ls, p);
    assert TagsOk(m, ls, p) && TagsOk(m, ls, p + ReleasedSize(ls, p));
    ReleaseShape(ls, p);
    forall q | q in Release(ls, p)
      ensures TagsOk(ReleaseMem(m, p, ReleasedSize(ls, p)), Release(ls, p), q)
    {
      ReleaseTags(m, ls, p, q);
    }
  }

  // ---------------------------------------------------------------------------
  // A new region
  // ---------------------------------------------------------------------------

  /** The region from first - 4 up to last + 12 is apart from all lumps. */
  ghost predicate Fresh(ls: LumpMap, s: Span)
  {
    forall p :: p in ls ==> p + ls[p].size <= s.first || s.last + END_SIZE <= p
  }

  ghost predicate SpanOk(s: Span) { s.last - s.first >= 2 * MEMALIGN && (s.last - s.first) % (2 * MEMALIGN) == 0 }

  ghost function Expand(ls: LumpMap, s: Span): LumpMap
  {
    ls[s.first := Lump(s.last - s.first, Free)][s.last := Lump(END_SIZE, End)]
  }

  function ExpandMem(m: Memory, s: Span): Memory
  {
    var size := s.last - s.first;
    var lump := m[s.first - GC_HEAD := size + PREV_BIT][Foot(s.first, size) := size];
    lump[s.last - GC_HEAD := MEMALIGN][s.last + MEMALIGN - GC_HEAD := PREV_BIT]
  }

  lemma ExpandNew(ls: LumpMap, s: Span)
    requires Shape(ls) && Fresh(ls, s) && SpanOk(s)
    ensures s.first !in ls && s.last !in ls
    ensures forall p :: p in ls ==> p + ls[p].size != s.last
  {
    assert forall p :: p in ls ==> SizeOk(ls[p]);
  }

  lemma ExpandShape(ls: LumpMap, s: Span)
    requires Shape(ls) && Fresh(ls, s) && SpanOk(s)
    ensures Shape(Expand(ls, s))
  {
    ExpandNew(ls, s);
    var ls' := Expand(ls, s);
    forall p | p in ls' ensures NextOk(ls', p) {
      if p in ls { assert NextOk(ls, p); }
    }
    forall p, q | p in ls' && q in ls' && p != q ensures Apart(ls', p, q) {
      if p in ls && q in ls { assert Apart(ls, p, q); }
    }
  }

  lemma ExpandTags(m: Memory, ls: LumpMap, s: Span, p: int)
    requires Valid(m, ls) && Fresh(ls, s) && SpanOk(s) && p in Expand(ls, s)
    ensures TagsOk(ExpandMem(m, s), Expand(ls, s), p)
  {
    var m', ls' := ExpandMem(m, s), Expand(ls, s);
    ExpandNew(ls, s);
    ExpandShape(ls, s);
    if p == s.last {
      FreeBeforeIs(ls', s.first, s.last);
    } else if p == s.first {
      ExpandFirst(ls, s);
      Retag(s.last - s.first, 0);
    } else {
      assert SizeOk(ls[p]);
      FreeBeforeFrame(ls, ls', p);
      hide FreeBefore, Size, Bits, PrevInUse;
      TagsFrame(m, m', ls, ls', p);
    }
  }

  /** Nothing in a lump map ends where a new region starts but a dummy. */
  lemma ExpandFirst(ls: LumpMap, s: Span)
    requires Shape(ls) && Fresh(ls, s) && SpanOk(s)
    ensures !FreeBefore(Expand(ls, s), s.first)
  {
    ExpandNew(ls, s);
    if FreeBefore(Expand(ls, s), s.first) {
      var q :| q in Expand(ls, s) && Expand(ls, s)[q].kind == Free && q + Expand(ls, s)[q].size == s.first;
      NextIn(ls, q);
    }
  }

  lemma NextIn(ls: LumpMap, p: int)
    requires Shape(ls) && p in ls && ls[p].kind != End
    ensures p + ls[p].size in ls
  {
    assert NextOk(ls, p);
  }

  lemma ExpandValid(m: Memory, ls: LumpMap, s: Span)
    requires Valid(m, ls) && Fresh(ls, s) && SpanOk(s)
    ensures Valid(ExpandMem(m, s), Expand(ls, s))
  {
    ExpandShape(ls, s);
    forall p | p in Expand(ls, s) ensures TagsOk(ExpandMem(m, s), Expand(ls, s), p) { ExpandTags(m, ls, s, p); }
  }

  // ---------------------------------------------------------------------------
  // The lumps tile the regions
  // ---------------------------------------------------------------------------

  ghost predicate Tiling(ls: LumpMap, spans: set<Span>)
  {
    && AllCovered(ls, spans) && AllInside(ls, spans)
    && (forall s :: s in spans ==> s.last in ls && ls[s.last].kind == End)
  }

  lemma CoveredAgain(ls: LumpMap, ls': LumpMap, spans: set<Span>)
    requires AllCovered(ls, spans) && forall p, x :: Owns(ls, p, x) ==> Covered(ls', x)
    ensures AllCovered(ls', spans)
  {
    forall s, x | s in spans && s.first - GC_HEAD <= x < s.last - GC_HEAD + END_SIZE ensures Covered(ls', x) {
      assert Covered(ls, x);
      var p :| Owns(ls, p, x);
    }
  }

  lemma TakeTiling(ls: LumpMap, p: int, spans: set<Span>)
    requires Tiling(ls, spans) && IsFree(ls, p)
    ensures Tiling(Take(ls, p), spans)
  {
    var ls' := Take(ls, p);
    forall q, x | Owns(ls, q, x) ensures Covered(ls', x) { assert Owns(ls', q, x); }
    CoveredAgain(ls, ls', spans);
    hide AllCovered, Covered;
    forall q | q in ls' ensures Housed(ls', spans, q) {
      assert Housed(ls, spans, q);
      var s :| s in spans && Inside(ls, s, q);
      assert Inside(ls', s, q);
    }
  }

  lemma CarveTiling(ls: LumpMap, p: int, size: int, spans: set<Span>)
    requires Shape(ls) && Tiling(ls, spans) && Splits(ls, p, size)
    ensures Tiling(Carve(ls, p, size), spans)
  {
    var ls', t := Carve(ls, p, size), p + size;
    CarveNew(ls, p, size);
    forall q, x | Owns(ls, q, x) ensures Covered(ls', x) { assert Owns(ls', q, x) || Owns(ls', t, x); }
    CoveredAgain(ls, ls', spans);
    hide AllCovered, Covered;
    forall q | q in ls' ensures Housed(ls', spans, q) {
      var q0 := if q == t then p else q;
      assert Housed(ls, spans, q0);
      var s :| s in spans && Inside(ls, s, q0);
      assert Inside(ls', s, q);
    }
  }

  lemma JoinTiling(ls: LumpMap, q: int, p: int, spans: set<Span>)
    requires Shape(ls) && Tiling(ls, spans) && Joins(ls, q, p)
    ensures Tiling(Join(ls, q, p), spans)
  {
    var ls' := Join(ls, q, p);
    assert SizeOk(ls[p]) && SizeOk(ls[q]);
    forall r, x | Owns(ls, r, x) ensures Covered(ls', x) { assert Owns(ls', r, x) || Owns(ls', q, x); }
    CoveredAgain(ls, ls', spans);
    hide AllCovered, Covered;
    forall r | r in ls' ensures Housed(ls', spans, r) {
      if r == q {
        var s := SameSpan(ls, q, p, spans);
        assert Inside(ls', s, q);
      } else {
        assert Housed(ls, spans, r);
        var s :| s in spans && Inside(ls, s, r);
        assert Inside(ls', s, r);
      }
    }
  }

  /** Regions do not touch, so adjacent lumps are in the same one. */
  lemma SameSpan(ls: LumpMap, q: int, p: int, spans: set<Span>) returns (s: Span)
    requires Shape(ls) && Tiling(ls, spans) && q in ls && p in ls && q + ls[q].size == p && ls[q].kind != End
    requires ls[p].kind != End
    ensures s in spans && Inside(ls, s, q) && Inside(ls, s, p)
  {
    assert Housed(ls, spans, q);
    s :| s in spans && Inside(ls, s, q);
    assert SizeOk(ls[q]) && SizeOk(ls[p]);
    ApartOf(ls, q, s.last);
    ApartOf(ls, p, s.last);
  }

  lemma ReleaseTiling(ls: LumpMap, p: int, spans: set<Span>)
    requires Shape(ls) && Tiling(ls, spans) && Releases(ls, p)
    ensures Tiling(Release(ls, p), spans)
  {
    var ls', n := Release(ls, p), p + ls[p].size;
    assert SizeOk(ls[p]);
    if IsFree(ls, n) { assert SizeOk(ls[n]); }
    forall r, x | Owns(ls, r, x) ensures Covered(ls', x) { assert Owns(ls', r, x) || Owns(ls', p, x); }
    CoveredAgain(ls, ls', spans);
    hide AllCovered, Covered;
    forall r | r in ls' ensures Housed(ls', spans, r) {
      if r == p && IsFree(ls, n) {
        var s := SameSpan(ls, p, n, spans);
        assert Inside(ls', s, p);
      } else {
        assert Housed(ls, spans, r);
        var s :| s in spans && Inside(ls, s, r);
        assert Inside(ls', s, r);
      }
    }
  }

  lemma ExpandTiling(ls: LumpMap, spans: set<Span>, s: Span)
    requires Shape(ls) && Tiling(ls, spans) && Fresh(ls, s) && SpanOk(s)
    ensures Tiling(Expand(ls, s), spans + {s})
  {
    var ls' := Expand(ls, s);
    ExpandNew(ls, s);
    forall r, x | Owns(ls, r, x) ensures Covered(ls', x) { assert Owns(ls', r, x); }
    CoveredAgain(ls, ls', spans);
    hide AllCovered, Covered;
    forall x | s.first - GC_HEAD <= x < s.last - GC_HEAD + END_SIZE ensures Covered(ls', x) {
      assert Owns(ls', s.first, x) || Owns(ls', s.last, x);
    }
    forall p | p in ls' ensures Housed(ls', spans + {s}, p) {
      if p in ls {
        assert Housed(ls, spans, p);
        var t :| t in spans && Inside(ls, t, p);
        assert Inside(ls', t, p);
      } else {
        assert Inside(ls', s, p);
      }
    }
  }

  /** Every byte of a region belongs to exactly one lump. */
  lemma OneOwner(ls: LumpMap, spans: set<Span>, s: Span, x: int) returns (p: int)
    requires Shape(ls) && Tiling(ls, spans) && s in spans && s.first - GC_HEAD <= x < s.last - GC_HEAD + END_SIZE
    ensures Owns(ls, p, x) && forall q :: Owns(ls, q, x) ==> q == p
  {
    assert Covered(ls, x);
    p :| Owns(ls, p, x);
    forall q | Owns(ls, q, x) ensures q == p {
      if q != p { ApartOf(ls, p, q); }
    }
  }
}
