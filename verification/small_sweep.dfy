/**
 * The two sweepers of the small object area (src/runtime/gc.c): one visits the
 * sorted live objects and frees what lies between them, the other walks every
 * header of every used block.  Both leave the free lists and the memory that
 * FreeSpace derives from the live objects.
 */
module SmallSweep {
  import opened Header
  import opened FreeSpace
  import opened ChunkIndex
  import opened SweepSteps

  /** The address of an offset in a block. */
  function Addr(k: int, off: int): int { GC_BLOCKSIZE * k + off }

  lemma AddrParts(k: int, off: int)
    requires 0 <= off < GC_BLOCKSIZE
    ensures Addr(k, off) / GC_BLOCKSIZE == k && Addr(k, off) % GC_BLOCKSIZE == off
  {
  }

  lemma AddrApart(k: int, off: int, j: int, x: int)
    requires 0 <= off < GC_BLOCKSIZE && 0 <= x < GC_BLOCKSIZE && (k != j || off != x)
    ensures Addr(k, off) != Addr(j, x)
  {
    AddrParts(k, off);
    AddrParts(j, x);
  }

  // ---------------------------------------------------------------------------
  // What a sweep writes
  // ---------------------------------------------------------------------------

  /** The header of each live object, without its mark bit. */
  ghost function MarkWrites(m: Memory, objs: seq<Object>): Memory
  {
    if objs == [] then map[]
    else
      var o := objs[|objs| - 1];
      var a := Addr(o.block, o.off);
      MarkWrites(m, objs[..|objs| - 1])[a := if a in m then ClearMark(m[a]) else 0]
  }

  /** The header of each free chunk. */
  ghost function ChunkWrites(cs: seq<Chunk>): Memory
  {
    if cs == [] then map[]
    else
      var c := cs[|cs| - 1];
      ChunkWrites(cs[..|cs| - 1])[Addr(c.block, c.off) := c.size + FREE_BIT]
  }

  /** The size in the first word of each run of free blocks. */
  ghost function GroupWrites(gs: seq<Group>): Memory
  {
    if gs == [] then map[]
    else
      var g := gs[|gs| - 1];
      GroupWrites(gs[..|gs| - 1])[Addr(g.block, 0) := GC_BLOCKSIZE * g.count]
  }

  /** Memory `m` after a sweep that kept `objs` and freed `cs` and `gs`. */
  ghost function SweptMem(m: Memory, objs: seq<Object>, cs: seq<Chunk>, gs: seq<Group>): Memory
  {
    m + MarkWrites(m, objs) + ChunkWrites(cs) + GroupWrites(gs)
  }

  ghost predicate ChunkFits(c: Chunk) { FIRST <= c.off && 0 < c.size && c.off + c.size <= LAST }

  /** Offset off of block k has not been written as the place of an object, a chunk or a run of blocks. */
  ghost predicate Untouched(objs: seq<Object>, cs: seq<Chunk>, gs: seq<Group>, k: int, off: int)
  {
    && (forall i :: 0 <= i < |objs| ==> objs[i].block != k || objs[i].off != off)
    && (forall i :: 0 <= i < |cs| ==> cs[i].block != k || cs[i].off != off)
    && (off == 0 ==> forall i :: 0 <= i < |gs| ==> gs[i].block != k)
  }

  ghost predicate AllFit(objs: seq<Object>, cs: seq<Chunk>)
  {
    (forall i :: 0 <= i < |objs| ==> Fits(objs[i])) && (forall i :: 0 <= i < |cs| ==> ChunkFits(cs[i]))
  }

  lemma {:induction false} MarkWritesAvoid(m: Memory, objs: seq<Object>, k: int, off: int)
    requires forall i :: 0 <= i < |objs| ==> Fits(objs[i]) && (objs[i].block != k || objs[i].off != off)
    requires 0 <= off < GC_BLOCKSIZE
    ensures Addr(k, off) !in MarkWrites(m, objs)
    decreases |objs|
  {
    if objs != [] {
      var o := objs[|objs| - 1];
      MarkWritesAvoid(m, objs[..|objs| - 1], k, off);
      AddrApart(o.block, o.off, k, off);
    }
  }

  lemma {:induction false} ChunkWritesAvoid(cs: seq<Chunk>, k: int, off: int)
    requires forall i :: 0 <= i < |cs| ==> ChunkFits(cs[i]) && (cs[i].block != k || cs[i].off != off)
    requires 0 <= off < GC_BLOCKSIZE
    ensures Addr(k, off) !in ChunkWrites(cs)
    decreases |cs|
  {
    if cs != [] {
      var c := cs[|cs| - 1];
      ChunkWritesAvoid(cs[..|cs| - 1], k, off);
      AddrApart(c.block, c.off, k, off);
    }
  }

  lemma {:induction false} GroupWritesAvoid(gs: seq<Group>, k: int, off: int)
    requires off == 0 ==> forall i :: 0 <= i < |gs| ==> gs[i].block != k
    requires 0 <= off < GC_BLOCKSIZE
    ensures Addr(k, off) !in GroupWrites(gs)
    decreases |gs|
  {
    if gs != [] {
      var g := gs[|gs| - 1];
      GroupWritesAvoid(gs[..|gs| - 1], k, off);
      AddrApart(g.block, 0, k, off);
    }
  }

  lemma {:induction false} GroupWritesAt(gs: seq<Group>, i: nat)
    requires i < |gs| && forall j :: i < j < |gs| ==> gs[j].block != gs[i].block
    ensures Addr(gs[i].block, 0) in GroupWrites(gs)
    ensures GroupWrites(gs)[Addr(gs[i].block, 0)] == GC_BLOCKSIZE * gs[i].count
    decreases |gs|
  {
    if i < |gs| - 1 {
      var init, last := gs[..|gs| - 1], gs[|gs| - 1];
      GroupWritesAt(init, i);
      assert init[i] == gs[i];
      AddrApart(last.block, 0, gs[i].block, 0);
    }
  }

  lemma {:induction false} MarkWritesAt(m: Memory, objs: seq<Object>, i: nat)
    requires i < |objs| && forall j :: 0 <= j < |objs| ==> Fits(objs[j])
    requires forall j :: i < j < |objs| ==> objs[j].block != objs[i].block || objs[j].off != objs[i].off
    requires Addr(objs[i].block, objs[i].off) in m
    ensures var a := Addr(objs[i].block, objs[i].off);
            a in MarkWrites(m, objs) && MarkWrites(m, objs)[a] == ClearMark(m[a])
    decreases |objs|
  {
    if i < |objs| - 1 {
      var init, last := objs[..|objs| - 1], objs[|objs| - 1];
      MarkWritesAt(m, init, i);
      assert init[i] == objs[i];
      AddrApart(last.block, last.off, objs[i].block, objs[i].off);
    }
  }

  /** The header of a live object that no chunk has been laid over. */
  lemma SweptHeader(m: Memory, objs: seq<Object>, cs: seq<Chunk>, gs: seq<Group>, i: nat)
    requires AllFit(objs, cs) && i < |objs| && Addr(objs[i].block, objs[i].off) in m
    requires forall j :: i < j < |objs| ==> objs[j].block != objs[i].block || objs[j].off != objs[i].off
    requires forall j :: 0 <= j < |cs| ==> cs[j].block != objs[i].block || cs[j].off != objs[i].off
    ensures var a := Addr(objs[i].block, objs[i].off);
            a in SweptMem(m, objs, cs, gs) && SweptMem(m, objs, cs, gs)[a] == ClearMark(m[a])
  {
    MarkWritesAt(m, objs, i);
    ChunkWritesAvoid(cs, objs[i].block, objs[i].off);
    GroupWritesAvoid(gs, objs[i].block, objs[i].off);
  }

  /** Untouched memory is as it was. */
  lemma UntouchedIsOld(m: Memory, objs: seq<Object>, cs: seq<Chunk>, gs: seq<Group>, k: int, off: int)
    requires AllFit(objs, cs) && 0 <= off < GC_BLOCKSIZE && Untouched(objs, cs, gs, k, off)
    ensures Addr(k, off) in SweptMem(m, objs, cs, gs) <==> Addr(k, off) in m
    ensures Addr(k, off) in m ==> SweptMem(m, objs, cs, gs)[Addr(k, off)] == m[Addr(k, off)]
  {
    MarkWritesAvoid(m, objs, k, off);
    ChunkWritesAvoid(cs, k, off);
    GroupWritesAvoid(gs, k, off);
  }

  /** Writing one more place adds it to what the sweep has written. */
  lemma WriteObject(m: Memory, objs: seq<Object>, cs: seq<Chunk>, gs: seq<Group>, o: Object)
    requires AllFit(objs, cs) && Fits(o) && Untouched(objs, cs, gs, o.block, o.off) && Addr(o.block, o.off) in m
    ensures var a := Addr(o.block, o.off);
            var was := SweptMem(m, objs, cs, gs);
            a in was && was[a] == m[a] && SweptMem(m, objs + [o], cs, gs) == was[a := ClearMark(was[a])]
  {
    UntouchedIsOld(m, objs, cs, gs, o.block, o.off);
    ChunkWritesAvoid(cs, o.block, o.off);
    GroupWritesAvoid(gs, o.block, o.off);
    assert (objs + [o])[..|objs|] == objs;
  }

  lemma WriteChunk(m: Memory, objs: seq<Object>, cs: seq<Chunk>, gs: seq<Group>, c: Chunk)
    requires ChunkFits(c)
    ensures SweptMem(m, objs, cs + [c], gs) == SweptMem(m, objs, cs, gs)[Addr(c.block, c.off) := c.size + FREE_BIT]
  {
    GroupWritesAvoid(gs, c.block, c.off);
    assert (cs + [c])[..|cs|] == cs;
  }

  lemma WriteGroup(m: Memory, objs: seq<Object>, cs: seq<Chunk>, gs: seq<Group>, g: Group)
    ensures SweptMem(m, objs, cs, gs + [g]) == SweptMem(m, objs, cs, gs)[Addr(g.block, 0) := GC_BLOCKSIZE * g.count]
  {
    assert (gs + [g])[..|gs|] == gs;
  }

  // ---------------------------------------------------------------------------
  // insert_freemem: cutting a range into a first chunk, whole blocks and a last chunk
  // ---------------------------------------------------------------------------

  function RoundDown(a: int): int { a - a % GC_BLOCKSIZE }
  function RoundUp(a: int): int { RoundDown(a + GC_BLOCKSIZE - 1) }

  /** Move a boundary that is adjacent to a block boundary onto it. */
  function Snap(a: int): int
  {
    if a % GC_BLOCKSIZE == MEMALIGN - GC_HEAD then a - (MEMALIGN - GC_HEAD)
    else if a % GC_BLOCKSIZE == GC_BLOCKSIZE - GC_HEAD then a + GC_HEAD
    else a
  }

  lemma SnapAt(k: int, off: int)
    requires FIRST <= off <= LAST
    ensures Snap(Addr(k, off)) ==
            (if off == FIRST then Addr(k, 0) else if off == LAST then Addr(k + 1, 0) else Addr(k, off))
  {
    AddrParts(k, off);
  }

  lemma RoundAt(k: int, off: int)
    requires 0 <= off < GC_BLOCKSIZE
    ensures RoundDown(Addr(k, off)) == Addr(k, 0)
    ensures RoundUp(Addr(k, off)) == if off == 0 then Addr(k, 0) else Addr(k + 1, 0)
    ensures Addr(k, off) % GC_BLOCKSIZE == off
  {
    AddrParts(k, off);
    if off == 0 {
      AddrParts(k, GC_BLOCKSIZE - 1);
    } else {
      AddrParts(k + 1, off - 1);
    }
  }

  /** The chunk of a range in its first block, the blocks it covers, and its chunk in its last block. */
  ghost function FirstPart(ka: int, oa: int, kb: int, ob: int): seq<Chunk>
  {
    if oa == FIRST || oa == LAST then [] else Between(ka, oa, if ka == kb then ob else LAST)
  }

  ghost function LastPart(ka: int, oa: int, kb: int, ob: int): seq<Chunk>
  {
    if ob == FIRST || ob == LAST || (ka == kb && oa != FIRST) then [] else Between(kb, FIRST, ob)
  }

  lemma RangeParts(ka: int, oa: int, kb: int, ob: int)
    requires FIRST <= oa <= LAST && FIRST <= ob <= LAST && (ka < kb || (ka == kb && oa < ob))
    ensures RangeChunks(ka, oa, kb, ob) == FirstPart(ka, oa, kb, ob) + LastPart(ka, oa, kb, ob)
    ensures forall i :: 0 <= i < |FirstPart(ka, oa, kb, ob)| ==> ChunkFits(FirstPart(ka, oa, kb, ob)[i])
    ensures forall i :: 0 <= i < |LastPart(ka, oa, kb, ob)| ==> ChunkFits(LastPart(ka, oa, kb, ob)[i])
  {
  }

  /** [a, b) is the memory of the chunk in cs, or empty. */
  ghost predicate IsChunk(a: int, b: int, cs: seq<Chunk>)
  {
    if cs == [] then a == b == 0 else |cs| == 1 && a == Addr(cs[0].block, cs[0].off) && a < b == a + cs[0].size
  }

  ghost predicate IsGroup(a: int, b: int, gs: seq<Group>)
  {
    if gs == [] then a == b == 0 else |gs| == 1 && a == Addr(gs[0].block, 0) && a < b == a + GC_BLOCKSIZE * gs[0].count
  }

  /** The three parts of a free range; an absent part is (0, 0). */
  method SplitRange(start: int, end: int, ghost ka: int, ghost oa: int, ghost kb: int, ghost ob: int)
    returns (f0: int, f1: int, m0: int, m1: int, l0: int, l1: int)
    requires start == Addr(ka, oa) && end == Addr(kb, ob)
    requires FIRST <= oa <= LAST && FIRST <= ob <= LAST && (ka < kb || (ka == kb && oa < ob))
    ensures IsChunk(f0, f1, FirstPart(ka, oa, kb, ob))
    ensures IsGroup(m0, m1, RangeGroups(ka, oa, kb, ob))
    ensures IsChunk(l0, l1, LastPart(ka, oa, kb, ob))
  {
    SnapAt(ka, oa);
    SnapAt(kb, ob);
    var s, e := Snap(start), Snap(end);
    f0, f1, m0, m1, l0, l1 := 0, 0, 0, 0, 0, 0;
    if s == e {
      return;
    }
    RoundAt(ka, if oa == LAST then 0 else oa);
    RoundAt(ka, 0);
    RoundAt(ka + 1, 0);
    RoundAt(kb, if ob == FIRST || ob == LAST then 0 else ob);
    RoundAt(kb + 1, 0);
    var cursor := s;
    if cursor % GC_BLOCKSIZE != 0 {
      var blockEnd := RoundUp(cursor);
      f0 := cursor;
      f1 := if e < blockEnd then e else blockEnd - GC_HEAD;
      cursor := blockEnd;
    }
    if cursor < RoundDown(e) {
      m0 := cursor;
      m1 := RoundDown(e);
      cursor := m1;
    }
    if cursor < e {
      l0 := cursor + GC_HEAD;
      l1 := e;
    }
  }

  // ---------------------------------------------------------------------------
  // Header walks
  // ---------------------------------------------------------------------------

  /** From offset off on, the headers of block k lead exactly to its last object boundary. */
  ghost predicate Tiled(m: Memory, k: int, off: int)
    decreases LAST - off
  {
    off == LAST ||
    (off < LAST && Addr(k, off) in m && 0 < Size(m[Addr(k, off)]) <= LAST - off &&
        Tiled(m, k, off + Size(m[Addr(k, off)])))
  }

  /** The marked objects such a walk meets. */
  ghost function MarkedFrom(m: Memory, k: int, off: int): seq<Object>
    requires Tiled(m, k, off)
    decreases LAST - off
  {
    if off == LAST then []
    else
      var h := m[Addr(k, off)];
      (if Marked(h) then [Object(k, off, Size(h))] else []) + MarkedFrom(m, k, off + Size(h))
  }

  /** The used blocks from k up to end are tiled. */
  ghost predicate BlocksTiled(m: Memory, used: set<int>, k: int, end: int)
  {
    forall j :: k <= j < end && j in used ==> Tiled(m, j, FIRST)
  }

  /** The marked objects of the used blocks from k up to end. */
  ghost function MarkedIn(m: Memory, used: set<int>, k: int, end: int): seq<Object>
    requires BlocksTiled(m, used, k, end)
    decreases end - k
  {
    if k >= end then []
    else (if k in used then MarkedFrom(m, k, FIRST) else []) + MarkedIn(m, used, k + 1, end)
  }

  lemma NoneWithin(m: Memory, k: int)
    ensures Within([], k, k + 1) && HeadersIn(m, [])
  {
  }

  /** One more object in front of those of its block. */
  lemma HeadedCons(m: Memory, o: Object, rest: seq<Object>)
    requires Within(rest, o.block, o.block + 1) && HeadersIn(m, rest) && Fits(o) && HeaderIn(m, o)
    requires forall i :: 0 <= i < |rest| ==> rest[i].off >= o.End()
    ensures Within([o] + rest, o.block, o.block + 1) && HeadersIn(m, [o] + rest)
    ensures forall i :: 0 <= i < |[o] + rest| ==> ([o] + rest)[i].off >= o.off
  {
    hide HeaderIn;
    forall i | 0 <= i < |rest| ensures Before(o, rest[i]) { assert rest[i].block == o.block; }
    WithinCons(o, rest, o.block, o.block + 1);
  }

  lemma {:induction false} MarkedFromWithin(m: Memory, k: int, off: int)
    requires Tiled(m, k, off) && FIRST <= off
    ensures Within(MarkedFrom(m, k, off), k, k + 1)
    ensures forall i :: 0 <= i < |MarkedFrom(m, k, off)| ==> MarkedFrom(m, k, off)[i].off >= off
    ensures HeadersIn(m, MarkedFrom(m, k, off))
    decreases LAST - off
  {
    hide Marked, Addr, Size, Within, HeadersIn;
    NoneWithin(m, k);
    if off < LAST {
      var h := m[Addr(k, off)];
      var rest := MarkedFrom(m, k, off + Size(h));
      MarkedFromWithin(m, k, off + Size(h));
      if Marked(h) {
        var o := Object(k, off, Size(h));
        assert MarkedFrom(m, k, off) == [o] + rest;
        HeadedCons(m, o, rest);
      } else {
        assert MarkedFrom(m, k, off) == [] + rest == rest;
      }
    }
  }

  lemma WithinCons(o: Object, rest: seq<Object>, k: int, end: int)
    requires Within(rest, k, end) && Fits(o) && k <= o.block < end && forall i :: 0 <= i < |rest| ==> Before(o, rest[i])
    ensures Within([o] + rest, k, end)
  {
  }

  lemma {:induction false} MarkedInWithin(m: Memory, used: set<int>, k: int, end: int)
    requires BlocksTiled(m, used, k, end)
    ensures Within(MarkedIn(m, used, k, end), k, end)
    ensures HeadersIn(m, MarkedIn(m, used, k, end))
    decreases end - k
  {
    if k < end {
      MarkedInWithin(m, used, k + 1, end);
      var here, rest := if k in used then MarkedFrom(m, k, FIRST) else [], MarkedIn(m, used, k + 1, end);
      if k in used { MarkedFromWithin(m, k, FIRST); }
      WithinAppend(here, rest, k, end);
    }
  }

  lemma WithinAppend(here: seq<Object>, rest: seq<Object>, k: int, end: int)
    requires Within(here, k, k + 1) && Within(rest, k + 1, end) && k < end
    ensures Within(here + rest, k, end) && Leading(here + rest, k + 1) == |here|
  {
    var all := here + rest;
    forall i, j | 0 <= i < j < |all| ensures Before(all[i], all[j]) {
      if i < |here| <= j { assert all[i].block == k && all[j].block >= k + 1; }
    }
    LeadingExact(k + 1, all);
    var n := Leading(all, k + 1);
    assert n < |all| ==> !(all[n].block < k + 1);
    assert n > 0 ==> all[n - 1].block < k + 1;
  }

  // ---------------------------------------------------------------------------
  // The sweepers
  // ---------------------------------------------------------------------------

  /** A region of the small object area, as a range of blocks. */
  datatype Region = Region(first: int, end: int)

  /** Everything noted so far lies below offset off of block k. */
  ghost predicate Below(objs: seq<Object>, cs: seq<Chunk>, k: int, off: int)
  {
    && (forall i :: 0 <= i < |objs| ==> objs[i].block < k || (objs[i].block == k && objs[i].off < off))
    && (forall i :: 0 <= i < |cs| ==> cs[i].block < k || (cs[i].block == k && cs[i].off < off))
  }

  lemma RangeFits(ka: int, oa: int, kb: int, ob: int)
    requires FIRST <= oa <= LAST && FIRST <= ob <= LAST && (ka < kb || (ka == kb && oa <= ob))
    ensures forall i :: 0 <= i < |RangeChunks(ka, oa, kb, ob)| ==>
              var c := RangeChunks(ka, oa, kb, ob)[i];
              ChunkFits(c) && (c.block < kb || (c.block == kb && c.off < ob))
  {
  }

  lemma BelowIsUntouched(objs: seq<Object>, cs: seq<Chunk>, gs: seq<Group>, k: int, off: int, j: int, x: int)
    requires Below(objs, cs, k, off) && (k < j || (k == j && off <= x)) && x > 0
    ensures Untouched(objs, cs, gs, j, x)
  {
  }

  lemma BelowNextEnd(objs: seq<Object>, cs: seq<Chunk>, o: Object)
    requires Below(objs, cs, o.block, o.off) && Fits(o)
    ensures Below(objs + [o], cs, o.block, o.End())
  {
  }

  /** The address by which the program knows an object. */
  function Pointer(o: Object): int { Addr(o.block, o.off) + GC_HEAD }

  lemma Snoc<T>(s: seq<T>, n: nat)
    requires n < |s|
    ensures s[..n + 1] == s[..n] + [s[n]]
  {
  }

  /** The objects of a region, as the sweep finds them in the sorted array of live objects from `lo` on. */
  ghost predicate Listed(ptrs: seq<int>, lo: nat, objs: seq<Object>, end: int)
  {
    && lo + |objs| < |ptrs|
    && (forall i :: lo <= i < lo + |objs| ==> ptrs[i] == Pointer(objs[i - lo]))
    && ptrs[lo + |objs|] > Addr(end, 0)
  }

  ghost predicate HeaderIn(m: Memory, o: Object)
  {
    Addr(o.block, o.off) in m && Size(m[Addr(o.block, o.off)]) == o.size
  }

  ghost predicate HeadersIn(m: Memory, objs: seq<Object>) { forall i :: 0 <= i < |objs| ==> HeaderIn(m, objs[i]) }

  /** Everything up to the end of objs[j] is swept: what FreeSpace says follows it completes the lists. */
  ghost predicate SweptTo(end: int, objs: seq<Object>, j: int, d0: seq<Object>, allC: seq<Chunk>, allG: seq<Group>,
                          done: seq<Object>, chunks: seq<Chunk>, blocks: seq<Group>)
  {
    && 0 <= j < |objs|
    && done == d0 + objs[..j] + [objs[j]]
    && chunks + ChunksAfter(objs[j], objs[j + 1..], end) == allC
    && blocks + GroupsAfter(objs[j], objs[j + 1..], end) == allG
    && Below(d0 + objs[..j], chunks, objs[j].block, objs[j].off)
  }

  lemma BelowMore(objs: seq<Object>, cs: seq<Chunk>, ka: int, oa: int, kb: int, ob: int)
    requires Below(objs, cs, ka, oa) && FIRST <= oa <= LAST && FIRST <= ob <= LAST
    requires (ka < kb || (ka == kb && oa <= ob))
    ensures Below(objs, cs + RangeChunks(ka, oa, kb, ob), kb, ob)
  {
    RangeFits(ka, oa, kb, ob);
  }

  lemma ToFirst(r: Region, objs: seq<Object>, done: seq<Object>, chunks: seq<Chunk>, blocks: seq<Group>)
    requires objs != [] && Within(objs, r.first, r.end) && Below(done, chunks, r.first, FIRST)
    ensures var o := objs[0];
            && Fits(o) && r.first <= o.block && Untouched(done, chunks, blocks, o.block, o.off)
            && SweptTo(r.end, objs, 0, done, chunks + Chunks(r.first, r.end, objs),
                 blocks + Groups(r.first, r.end, 0, objs),
                       done + [o], chunks + RangeChunks(r.first, FIRST, o.block, o.off),
                       blocks + RangeGroups(r.first, FIRST, o.block, o.off))
  {
    var o, rest := objs[0], objs[1..];
    assert Fits(o) && r.first <= o.block < r.end;
    assert objs == [o] + rest && done + objs[..0] == done;
    BelowIsUntouched(done, chunks, blocks, r.first, FIRST, o.block, o.off);
    SweepFirst(o, rest, r.first, r.end);
    Regroup(chunks, RangeChunks(r.first, FIRST, o.block, o.off), ChunksAfter(o, rest, r.end));
    Regroup(blocks, RangeGroups(r.first, FIRST, o.block, o.off), GroupsAfter(o, rest, r.end));
    BelowMore(done, chunks, r.first, FIRST, o.block, o.off);
  }

  lemma NextLists(o: Object, p: Object, rest: seq<Object>, end: int, cs: seq<Chunk>, allC: seq<Chunk>, gs: seq<Group>,
                  allG: seq<Group>)
    requires Fits(o) && Fits(p) && Before(o, p) && p.block < end
    requires cs + ChunksAfter(o, [p] + rest, end) == allC && gs + GroupsAfter(o, [p] + rest, end) == allG
    ensures cs + RangeChunks(o.block, o.End(), p.block, p.off) + ChunksAfter(p, rest, end) == allC
    ensures gs + RangeGroups(o.block, o.End(), p.block, p.off) + GroupsAfter(p, rest, end) == allG
  {
    SweepNext(o, p, rest, end);
    Regroup(cs, RangeChunks(o.block, o.End(), p.block, p.off), ChunksAfter(p, rest, end));
    Regroup(gs, RangeGroups(o.block, o.End(), p.block, p.off), GroupsAfter(p, rest, end));
  }

  lemma ToNext(end: int, objs: seq<Object>, j: nat, d0: seq<Object>, allC: seq<Chunk>, allG: seq<Group>,
               done: seq<Object>, chunks: seq<Chunk>, blocks: seq<Group>)
    requires SweptTo(end, objs, j, d0, allC, allG, done, chunks, blocks) && j + 1 < |objs|
    requires Fits(objs[j]) && Fits(objs[j + 1]) && Before(objs[j], objs[j + 1]) && objs[j + 1].block < end
    ensures var o, p := objs[j], objs[j + 1];
            && Untouched(done, chunks, blocks, p.block, p.off)
            && |done| > 0 && done[|done| - 1] == o && Below([], chunks, o.block, o.off)
            && SweptTo(end, objs, j + 1, d0, allC, allG, done + [p],
                       chunks + RangeChunks(o.block, o.End(), p.block, p.off),
                           blocks + RangeGroups(o.block, o.End(), p.block, p.off))
  {
    var o, p, rest := objs[j], objs[j + 1], objs[j + 2..];
    assert objs[j + 1..] == [p] + rest;
    Snoc(objs, j);
    Regroup(d0, objs[..j], [o]);
    BelowNextEnd(d0 + objs[..j], chunks, o);
    BelowIsUntouched(done, chunks, blocks, o.block, o.End(), p.block, p.off);
    BelowMore(done, chunks, o.block, o.End(), p.block, p.off);
    NextLists(o, p, rest, end, chunks, allC, blocks, allG);
  }

  lemma EndLists(o: Object, end: int, cs: seq<Chunk>, allC: seq<Chunk>, gs: seq<Group>, allG: seq<Group>)
    requires Fits(o) && o.block < end && cs + ChunksAfter(o, [], end) == allC && gs + GroupsAfter(o, [], end) == allG
    ensures cs + RangeChunks(o.block, o.End(), end - 1, LAST) == allC
    ensures gs + RangeGroups(o.block, o.End(), end - 1, LAST) == allG
  {
    SweepLast(o, end);
  }

  lemma ToEnd(end: int, objs: seq<Object>, d0: seq<Object>, allC: seq<Chunk>, allG: seq<Group>, done: seq<Object>,
              chunks: seq<Chunk>, blocks: seq<Group>)
    requires objs != [] && SweptTo(end, objs, |objs| - 1, d0, allC, allG, done, chunks, blocks)
    requires Fits(objs[|objs| - 1]) && objs[|objs| - 1].block < end
    ensures var o := objs[|objs| - 1];
            && |done| > 0 && done[|done| - 1] == o && Below([], chunks, o.block, o.off) && done == d0 + objs
            && chunks + RangeChunks(o.block, o.End(), end - 1, LAST) == allC
            && blocks + RangeGroups(o.block, o.End(), end - 1, LAST) == allG
            && Below(done, allC, end, FIRST)
  {
    var n := |objs| - 1;
    var o := objs[n];
    assert objs[n + 1..] == [] && objs[..n] + [o] == objs;
    Regroup(d0, objs[..n], [o]);
    BelowNextEnd(d0 + objs[..n], chunks, o);
    BelowMore(done, chunks, o.block, o.End(), end - 1, LAST);
    EndLists(o, end, chunks, allC, blocks, allG);
  }

  /**
   * What the sweep knows of the i-th entry of the sorted array, from the region's first object
   * to the one after its last.
   */
  lemma ElementAt(ptrs: seq<int>, lo: nat, objs: seq<Object>, r: Region, m: Memory, i: nat)
    requires Listed(ptrs, lo, objs, r.end) && Within(objs, r.first, r.end) && HeadersIn(m, objs)
    requires lo <= i <= lo + |objs|
    ensures lo + |objs| < |ptrs|
    ensures i == lo + |objs| ==> ptrs[i] > Addr(r.end, 0)
    ensures i < lo + |objs| ==>
              var o := objs[i - lo];
              && ptrs[i] == Pointer(o) && Fits(o) && HeaderIn(m, o) && r.first <= o.block < r.end
              && Addr(r.first, 0) <= ptrs[i] < Addr(r.end, 0)
              && (i + 1 < lo + |objs| ==> Before(o, objs[i + 1 - lo]))
  {
    if i < lo + |objs| {
      var o := objs[i - lo];
      assert Fits(o) && r.first <= o.block <= r.end - 1;
    }
  }

  // ---------------------------------------------------------------------------
  // From header to header, and from block to block: the traditional sweep
  // ---------------------------------------------------------------------------

  /**
   * Inside block k the headers before offset off are swept, and `so` is where the
   * current slack starts: what the rest of the walk finds completes the lists.
   */
  ghost predicate WalkedTo(m: Memory, k: int, off: int, so: int, d0: seq<Object>, c0: seq<Chunk>, allC: seq<Chunk>,
                           done: seq<Object>, chunks: seq<Chunk>)
  {
    && Tiled(m, k, off) && FIRST <= so <= off && Tiled(m, k, FIRST)
    && chunks + Gaps(k, so, MarkedFrom(m, k, off), LAST) == allC
    && done + MarkedFrom(m, k, off) == d0 + MarkedFrom(m, k, FIRST)
    && Below(done, chunks, k, off)
    && |d0| <= |done| && (so == FIRST <==> done == d0) && (so == FIRST ==> chunks == c0)
  }

  lemma WalkBegins(m: Memory, k: int, d0: seq<Object>, c0: seq<Chunk>)
    requires Tiled(m, k, FIRST) && Below(d0, c0, k, FIRST)
    ensures WalkedTo(m, k, FIRST, FIRST, d0, c0, c0 + Gaps(k, FIRST, MarkedFrom(m, k, FIRST), LAST), d0, c0)
  {
  }

  lemma WalkedBelow(m: Memory, k: int, off: int, so: int, d0: seq<Object>, c0: seq<Chunk>, allC: seq<Chunk>,
                    done: seq<Object>, chunks: seq<Chunk>)
    requires WalkedTo(m, k, off, so, d0, c0, allC, done, chunks) && off < LAST
    ensures Below(done, chunks, k, off) && Addr(k, off) in m
    ensures var size := Size(m[Addr(k, off)]); 0 < size <= LAST - off && Tiled(m, k, off + size)
  {
  }

  lemma WalkMarked(m: Memory, k: int, off: int, so: int, d0: seq<Object>, c0: seq<Chunk>, allC: seq<Chunk>,
                   done: seq<Object>, chunks: seq<Chunk>, blocks: seq<Group>)
    requires WalkedTo(m, k, off, so, d0, c0, allC, done, chunks) && off < LAST && Marked(m[Addr(k, off)])
    ensures var o := Object(k, off, Size(m[Addr(k, off)]));
            && Fits(o) && Untouched(done, chunks + Between(k, so, off), blocks, k, off)
            && WalkedTo(m, k, o.End(), o.End(), d0, c0, allC, done + [o], chunks + Between(k, so, off))
  {
    var o := Object(k, off, Size(m[Addr(k, off)]));
    var rest := MarkedFrom(m, k, o.End());
    assert MarkedFrom(m, k, off) == [o] + rest;
    GapsCons(k, so, o, rest, LAST);
    Regroup(chunks, Between(k, so, off), Gaps(k, o.End(), rest, LAST));
    Regroup(done, [o], rest);
    BelowNextEnd(done, chunks, o);
    BelowChunk(done + [o], chunks, k, so, off, o.End());
    BelowIsUntouched(done, chunks, blocks, k, off, k, off);
  }

  lemma BelowChunk(objs: seq<Object>, cs: seq<Chunk>, k: int, so: int, off: int, to: int)
    requires Below(objs, cs, k, to) && so <= off < to
    ensures Below(objs, cs + Between(k, so, off), k, to)
  {
  }

  lemma WalkUnmarked(m: Memory, k: int, off: int, so: int, d0: seq<Object>, c0: seq<Chunk>, allC: seq<Chunk>,
                     done: seq<Object>, chunks: seq<Chunk>)
    requires WalkedTo(m, k, off, so, d0, c0, allC, done, chunks) && off < LAST && !Marked(m[Addr(k, off)])
    ensures WalkedTo(m, k, off + Size(m[Addr(k, off)]), so, d0, c0, allC, done, chunks)
  {
    var rest := MarkedFrom(m, k, off + Size(m[Addr(k, off)]));
    assert MarkedFrom(m, k, off) == [] + rest == rest;
  }

  /** The end of a block's walk: either nothing is marked, or the last slack completes its chunks. */
  lemma WalkEnds(m: Memory, k: int, so: int, d0: seq<Object>, c0: seq<Chunk>, allC: seq<Chunk>, done: seq<Object>,
                 chunks: seq<Chunk>)
    requires WalkedTo(m, k, LAST, so, d0, c0, allC, done, chunks)
    ensures MarkedFrom(m, k, FIRST) == [] <==> so == FIRST
    ensures so == FIRST ==> done == d0 && chunks == c0 && Below(done, chunks, k + 1, FIRST)
    ensures so != FIRST ==> done == d0 + MarkedFrom(m, k, FIRST) && chunks + Between(k, so, LAST) == allC
                            && Below(done, chunks + Between(k, so, LAST), k + 1, FIRST)
  {
    var here := MarkedFrom(m, k, FIRST);
    assert done + [] == done && done == d0 + here;
    if here == [] {
      assert d0 + here == d0;
    } else {
      assert |d0 + here| > |d0|;
    }
  }

  /**
   * The blocks of a region before k are swept, and the `run` blocks just before k are free:
   * what the rest of the walk finds completes the lists.
   */
  ghost predicate BlocksTo(m: Memory, used: set<int>, k: int, run: int, end: int, allD: seq<Object>, allC: seq<Chunk>,
                           allG: seq<Group>, done: seq<Object>, chunks: seq<Chunk>, blocks: seq<Group>)
  {
    && BlocksTiled(m, used, k, end)
    && done + MarkedIn(m, used, k, end) == allD
    && chunks + Chunks(k, end, MarkedIn(m, used, k, end)) == allC
    && blocks + Groups(k, end, run, MarkedIn(m, used, k, end)) == allG
    && Below(done, chunks, k, FIRST)
  }

  /** The next block has no marked object. */
  lemma {:induction false} FreeBlockStep(m: Memory, used: set<int>, k: int, run: int, end: int, allD: seq<Object>,
                                         allC: seq<Chunk>, allG: seq<Group>, done: seq<Object>, chunks: seq<Chunk>,
                                         blocks: seq<Group>)
    requires k < end && BlocksTo(m, used, k, run, end, allD, allC, allG, done, chunks, blocks)
    requires k in used ==> MarkedFrom(m, k, FIRST) == []
    ensures BlocksTo(m, used, k + 1, run + 1, end, allD, allC, allG, done, chunks, blocks)
  {
    hide Chunks, Groups, MarkedIn, MarkedFrom, BlocksTiled, Below;
    NothingMarked(m, used, k, end);
    var rest := MarkedIn(m, used, k + 1, end);
    SkipChunks(k, k + 1, end, rest);
    SkipGroups(k, k + 1, end, run, rest);
    BelowNextBlock(done, chunks, k);
  }

  lemma {:induction false} NothingMarked(m: Memory, used: set<int>, k: int, end: int)
    requires k < end && BlocksTiled(m, used, k, end) && (k in used ==> MarkedFrom(m, k, FIRST) == [])
    ensures BlocksTiled(m, used, k + 1, end) && MarkedIn(m, used, k, end) == MarkedIn(m, used, k + 1, end)
    ensures var rest := MarkedIn(m, used, k + 1, end);
            rest != [] ==> rest[0].block >= k + 1
  {
    hide MarkedFrom, HeadersIn;
    MarkedInWithin(m, used, k + 1, end);
    assert [] + MarkedIn(m, used, k + 1, end) == MarkedIn(m, used, k + 1, end);
  }

  lemma BelowNextBlock(objs: seq<Object>, cs: seq<Chunk>, k: int)
    requires Below(objs, cs, k, FIRST)
    ensures Below(objs, cs, k + 1, FIRST)
  {
  }

  /** The next block has some. */
  lemma UsedBlockStep(m: Memory, used: set<int>, k: int, run: int, end: int, allD: seq<Object>, allC: seq<Chunk>,
                      allG: seq<Group>, done: seq<Object>, chunks: seq<Chunk>, blocks: seq<Group>)
    requires k < end && BlocksTo(m, used, k, run, end, allD, allC, allG, done, chunks, blocks)
    requires k in used && MarkedFrom(m, k, FIRST) != []
    requires Below(done + MarkedFrom(m, k, FIRST), chunks + Gaps(k, FIRST, MarkedFrom(m, k, FIRST), LAST), k + 1, FIRST)
    ensures var here := MarkedFrom(m, k, FIRST);
            BlocksTo(m, used, k + 1, 0, end, allD, allC, allG, done + here,
                     chunks + Gaps(k, FIRST, here, LAST), blocks + Run(k - run, run))
  {
    var here, rest := MarkedFrom(m, k, FIRST), MarkedIn(m, used, k + 1, end);
    MarkedFromWithin(m, k, FIRST);
    MarkedInWithin(m, used, k + 1, end);
    WithinAppend(here, rest, k, end);
    assert (here + rest)[..|here|] == here && (here + rest)[|here|..] == rest;
    Regroup(done, here, rest);
    Regroup(chunks, Gaps(k, FIRST, here, LAST), Chunks(k + 1, end, rest));
    Regroup(blocks, Run(k - run, run), Groups(k + 1, end, 0, rest));
  }

  lemma BlocksBegin(m: Memory, used: set<int>, r: Region, done: seq<Object>, chunks: seq<Chunk>, blocks: seq<Group>)
    requires BlocksTiled(m, used, r.first, r.end) && Below(done, chunks, r.first, FIRST)
    ensures var objs := MarkedIn(m, used, r.first, r.end);
            BlocksTo(m, used, r.first, 0, r.end, done + objs, chunks + Chunks(r.first, r.end, objs),
                     blocks + Groups(r.first, r.end, 0, objs), done, chunks, blocks)
  {
  }

  lemma BlocksBelow(m: Memory, used: set<int>, k: int, run: int, end: int, allD: seq<Object>, allC: seq<Chunk>,
                    allG: seq<Group>, done: seq<Object>, chunks: seq<Chunk>, blocks: seq<Group>)
    requires BlocksTo(m, used, k, run, end, allD, allC, allG, done, chunks, blocks) && k < end
    ensures Below(done, chunks, k, FIRST) && (k in used ==> Tiled(m, k, FIRST))
  {
  }

  lemma BlocksEnd(m: Memory, used: set<int>, run: int, end: int, allD: seq<Object>, allC: seq<Chunk>, allG: seq<Group>,
                  done: seq<Object>, chunks: seq<Chunk>, blocks: seq<Group>)
    requires BlocksTo(m, used, end, run, end, allD, allC, allG, done, chunks, blocks)
    ensures done == allD && chunks == allC && blocks + Run(end - run, run) == allG && Below(done, chunks, end, FIRST)
  {
    assert done + [] == done && chunks + [] == chunks;
  }

  /** Skip the objects that appear before the region. */
  method SkipTo(ptrs: seq<int>, i0: nat, start: int, ghost lo: nat) returns (i: nat)
    requires i0 <= lo < |ptrs| && ptrs[lo] >= start && forall k :: i0 <= k < lo ==> ptrs[k] < start
    ensures i == lo
  {
    i := i0;
    while ptrs[i] < start
      invariant i0 <= i <= lo
      decreases lo - i
    {
      i := i + 1;
    }
  }

  class Sweeper {
    ghost const before: Memory      // memory when the sweep begins
    var mem: Memory
    var index: seq<seq<Chunk>>      // the free chunk index
    var blocks: seq<Group>          // the free blocks list, up to its tail
    ghost var done: seq<Object>     // live objects unmarked so far
    ghost var chunks: seq<Chunk>    // chunks inserted so far

    ghost predicate Tied()
      reads this
    {
      && Indexes(index, chunks) && AllFit(done, chunks)
      && mem == SweptMem(before, done, chunks, blocks)
    }

    constructor (m: Memory)
      ensures Tied() && before == m == mem && done == [] && chunks == [] && blocks == []
    {
      before, mem, blocks, done, chunks := m, m, [], [], [];
      new;
      index := InitFreeindex();
      assert mem == SweptMem(before, [], [], []);
    }

    /** Clear the mark bit in the header of a live object. */
    method Unmark(h: int, ghost o: Object)
      requires Tied() && Fits(o) && h == Addr(o.block, o.off) && h in before
      requires Untouched(done, chunks, blocks, o.block, o.off)
      modifies `mem, `done
      ensures Tied() && done == old(done) + [o]
    {
      WriteObject(before, done, chunks, blocks, o);
      mem := mem[h := ClearMark(mem[h])];
      done := done + [o];
    }

    /** insert_freechunk */
    method InsertFreechunk(at: int, size: int, ghost c: Chunk)
      requires Tied() && ChunkFits(c) && at == Addr(c.block, c.off) && size == c.size
      modifies `mem, `index, `chunks
      ensures Tied() && chunks == old(chunks) + [c]
    {
      AddrParts(c.block, c.off);
      var node := Chunk(at / GC_BLOCKSIZE, at % GC_BLOCKSIZE, size);
      index := Insert(index, node, chunks);
      WriteChunk(before, done, chunks, blocks, c);
      mem := mem[at := size + FREE_BIT];
      chunks := chunks + [c];
    }

    /** Append a run of free blocks to the free blocks list. */
    method AppendBlocks(at: int, size: int, ghost g: Group)
      requires Tied() && at == Addr(g.block, 0) && size == GC_BLOCKSIZE * g.count
      modifies `mem, `blocks
      ensures Tied() && blocks == old(blocks) + [g]
    {
      AddrParts(g.block, 0);
      AddrParts(g.count, 0);
      WriteGroup(before, done, chunks, blocks, g);
      mem := mem[at := size];
      blocks := blocks + [Group(at / GC_BLOCKSIZE, size / GC_BLOCKSIZE)];
    }

    method FreeChunk(a: int, b: int, ghost cs: seq<Chunk>)
      requires Tied() && IsChunk(a, b, cs) && forall i :: 0 <= i < |cs| ==> ChunkFits(cs[i])
      modifies `mem, `index, `chunks
      ensures Tied() && chunks == old(chunks) + cs
    {
      if a < b {
        assert cs == [cs[0]];
        InsertFreechunk(a, b - a, cs[0]);
      }
    }

    method FreeBlocks(a: int, b: int, ghost gs: seq<Group>)
      requires Tied() && IsGroup(a, b, gs)
      modifies `mem, `blocks
      ensures Tied() && blocks == old(blocks) + gs
    {
      if a < b {
        assert gs == [gs[0]];
        AppendBlocks(a, b - a, gs[0]);
      }
    }

    method FreeParts(f0: int, f1: int, m0: int, m1: int, l0: int, l1: int, ghost first: seq<Chunk>,
                     ghost middle: seq<Group>, ghost last: seq<Chunk>)
      requires Tied() && IsChunk(f0, f1, first) && IsGroup(m0, m1, middle) && IsChunk(l0, l1, last)
      requires forall i :: 0 <= i < |first| ==> ChunkFits(first[i])
      requires forall i :: 0 <= i < |last| ==> ChunkFits(last[i])
      modifies `mem, `index, `blocks, `chunks
      ensures Tied() && chunks == old(chunks) + (first + last) && blocks == old(blocks) + middle
    {
      FreeChunk(f0, f1, first);
      FreeBlocks(m0, m1, middle);
      FreeChunk(l0, l1, last);
      Regroup(old(chunks), first, last);
    }

    /** insert_freemem */
    method InsertFreemem(start: int, end: int, ghost ka: int, ghost oa: int, ghost kb: int, ghost ob: int)
      requires Tied() && start == Addr(ka, oa) && end == Addr(kb, ob)
      requires FIRST <= oa <= LAST && FIRST <= ob <= LAST && (ka < kb || (ka == kb && oa < ob))
      modifies `mem, `index, `blocks, `chunks
      ensures Tied() && chunks == old(chunks) + RangeChunks(ka, oa, kb, ob)
      ensures blocks == old(blocks) + RangeGroups(ka, oa, kb, ob)
    {
      var f0, f1, m0, m1, l0, l1 := SplitRange(start, end, ka, oa, kb, ob);
      RangeParts(ka, oa, kb, ob);
      FreeParts(f0, f1, m0, m1, l0, l1, FirstPart(ka, oa, kb, ob), RangeGroups(ka, oa, kb, ob),
                LastPart(ka, oa, kb, ob));
    }

    /** insert_freemem, for a range that may be empty. */
    method FreeRange(start: int, end: int, ghost ka: int, ghost oa: int, ghost kb: int, ghost ob: int)
      requires Tied() && start == Addr(ka, oa) && end == Addr(kb, ob)
      requires FIRST <= oa <= LAST && FIRST <= ob <= LAST && (ka < kb || (ka == kb && oa <= ob))
      modifies `mem, `index, `blocks, `chunks
      ensures Tied() && chunks == old(chunks) + RangeChunks(ka, oa, kb, ob)
      ensures blocks == old(blocks) + RangeGroups(ka, oa, kb, ob)
    {
      if start < end {
        InsertFreemem(start, end, ka, oa, kb, ob);
      }
    }

    /** SIZE(o), when o and then p have just been unmarked. */
    method SizeOf(ptr: int, ghost o: Object, ghost p: Object) returns (size: int)
      requires Tied() && |done| >= 2 && done[|done| - 2] == o && done[|done| - 1] == p && Before(o, p)
      requires ptr == Pointer(o) && HeaderIn(before, o) && Below([], chunks, o.block, o.off)
      ensures size == o.size
    {
      SweptHeader(before, done, chunks, blocks, |done| - 2);
      MarkBitOnly(before[ptr - GC_HEAD]);
      size := Size(mem[ptr - GC_HEAD]);
    }

    function SizeOfLast(ptr: int, ghost o: Object): (size: int)
      requires Tied() && |done| >= 1 && done[|done| - 1] == o
      requires ptr == Pointer(o) && HeaderIn(before, o) && Below([], chunks, o.block, o.off)
      reads this
      ensures size == o.size
    {
      SweptHeader(before, done, chunks, blocks, |done| - 1);
      MarkBitOnly(before[ptr - GC_HEAD]);
      Size(mem[ptr - GC_HEAD])
    }

    /** Up to and including the first live object of a region. */
    method SweepToFirst(ptr: int, r: Region, ghost objs: seq<Object>)
      requires Tied() && objs != [] && Within(objs, r.first, r.end) && HeadersIn(before, objs)
      requires ptr == Pointer(objs[0]) && Below(done, chunks, r.first, FIRST)
      modifies `mem, `index, `blocks, `chunks, `done
      ensures Tied() && SweptTo(r.end, objs, 0, old(done), old(chunks) + Chunks(r.first, r.end, objs),
                                old(blocks) + Groups(r.first, r.end, 0, objs), done, chunks, blocks)
    {
      hide Tied, Untouched, Below, SweptTo, Chunks, Groups, ChunksAfter, GroupsAfter, RangeChunks, RangeGroups, Within;
      ghost var o := objs[0];
      assert HeaderIn(before, o);
      ToFirst(r, objs, done, chunks, blocks);
      Unmark(ptr - GC_HEAD, o);
      FreeRange(Addr(r.first, FIRST), ptr - GC_HEAD, r.first, FIRST, o.block, o.off);
    }

    /** From one live object to the next. */
    method SweepToNext(ptr: int, next: int, ghost end: int, ghost objs: seq<Object>, ghost j: nat,
                       ghost d0: seq<Object>, ghost allC: seq<Chunk>, ghost allG: seq<Group>)
      requires Tied() && SweptTo(end, objs, j, d0, allC, allG, done, chunks, blocks) && j + 1 < |objs|
      requires Fits(objs[j]) && Fits(objs[j + 1]) && Before(objs[j], objs[j + 1]) && objs[j + 1].block < end
      requires HeaderIn(before, objs[j]) && HeaderIn(before, objs[j + 1])
      requires ptr == Pointer(objs[j]) && next == Pointer(objs[j + 1])
      modifies `mem, `index, `blocks, `chunks, `done
      ensures Tied() && SweptTo(end, objs, j + 1, d0, allC, allG, done, chunks, blocks)
    {
      hide Tied, Untouched, Below, SweptTo, Chunks, Groups, ChunksAfter, GroupsAfter, RangeChunks, RangeGroups, Within;
      ghost var o, p := objs[j], objs[j + 1];
      ToNext(end, objs, j, d0, allC, allG, done, chunks, blocks);
      Unmark(next - GC_HEAD, p);
      var size := SizeOf(ptr, o, p);
      FreeRange(ptr - GC_HEAD + size, next - GC_HEAD, o.block, o.End(), p.block, p.off);
    }

    /** After the last live object of a region. */
    method SweepTail(ptr: int, end: int, ghost objs: seq<Object>, ghost d0: seq<Object>, ghost allC: seq<Chunk>,
                     ghost allG: seq<Group>)
      requires Tied() && objs != [] && SweptTo(end, objs, |objs| - 1, d0, allC, allG, done, chunks, blocks)
      requires Fits(objs[|objs| - 1]) && objs[|objs| - 1].block < end && HeaderIn(before, objs[|objs| - 1])
      requires ptr == Pointer(objs[|objs| - 1])
      modifies `mem, `index, `blocks, `chunks
      ensures Tied() && done == d0 + objs && chunks == allC && blocks == allG && Below(done, chunks, end, FIRST)
    {
      hide Tied, Untouched, Below, SweptTo, Chunks, Groups, ChunksAfter, GroupsAfter, RangeChunks, RangeGroups, Within;
      ghost var o := objs[|objs| - 1];
      ToEnd(end, objs, d0, allC, allG, done, chunks, blocks);
      var from := ptr - GC_HEAD + SizeOfLast(ptr, o);
      FreeRange(from, Addr(end, 0) - GC_HEAD, o.block, o.End(), end - 1, LAST);
    }

    /**
     * sweep_small_selective, for one region: free what lies between its live objects.
     * Returns the index of the region's last live object, where the next region starts looking.
     */
    method SweepRegionSelective(ptrs: seq<int>, i0: nat, r: Region, ghost lo: nat, ghost objs: seq<Object>)
      returns (i: nat)
      requires Tied() && r.first < r.end && Within(objs, r.first, r.end) && HeadersIn(before, objs)
      requires i0 <= lo && Listed(ptrs, lo, objs, r.end) && forall k :: i0 <= k < lo ==> ptrs[k] < Addr(r.first, 0)
      requires Below(done, chunks, r.first, FIRST)
      modifies `mem, `index, `blocks, `chunks, `done
      ensures Tied() && done == old(done) + objs
      ensures chunks == old(chunks) + Chunks(r.first, r.end, objs)
      ensures blocks == old(blocks) + Groups(r.first, r.end, 0, objs)
      ensures Below(done, chunks, r.end, FIRST)
      ensures i == if objs == [] then lo else lo + |objs| - 1
    {
      ElementAt(ptrs, lo, objs, r, before, lo);
      i := SkipTo(ptrs, i0, Addr(r.first, 0), lo);
      if ptrs[i] > Addr(r.end, 0) {
        SweepWhole(r);
      } else {
        i := SweepObjects(ptrs, i, r, objs);
      }
    }

    /** A region without live objects becomes one run of free blocks. */
    method SweepWhole(r: Region)
      requires Tied() && r.first < r.end && Below(done, chunks, r.first, FIRST)
      modifies `mem, `blocks
      ensures Tied() && chunks == old(chunks) + Chunks(r.first, r.end, [])
      ensures blocks == old(blocks) + Groups(r.first, r.end, 0, []) && Below(done, chunks, r.end, FIRST)
    {
      SweepEmpty(r.first, r.end);
      AppendBlocks(Addr(r.first, 0), Addr(r.end, 0) - Addr(r.first, 0), Group(r.first, r.end - r.first));
    }

    /** A region with live objects, the first of them at ptrs[lo]. */
    method SweepObjects(ptrs: seq<int>, lo: nat, r: Region, ghost objs: seq<Object>) returns (i: nat)
      requires Tied() && objs != [] && Within(objs, r.first, r.end) && HeadersIn(before, objs)
      requires Listed(ptrs, lo, objs, r.end) && Below(done, chunks, r.first, FIRST)
      modifies `mem, `index, `blocks, `chunks, `done
      ensures Tied() && done == old(done) + objs
      ensures chunks == old(chunks) + Chunks(r.first, r.end, objs)
      ensures blocks == old(blocks) + Groups(r.first, r.end, 0, objs)
      ensures Below(done, chunks, r.end, FIRST) && i == lo + |objs| - 1
    {
      hide *;
      ghost var allC, allG := chunks + Chunks(r.first, r.end, objs), blocks + Groups(r.first, r.end, 0, objs);
      i := lo;
      ElementAt(ptrs, lo, objs, r, before, lo);
      SweepToFirst(ptrs[i], r, objs);
      while ptrs[i + 1] < Addr(r.end, 0)
        invariant lo <= i < lo + |objs| < |ptrs|
        invariant Tied() && SweptTo(r.end, objs, i - lo, old(done), allC, allG, done, chunks, blocks)
        decreases lo + |objs| - i
      {
        ElementAt(ptrs, lo, objs, r, before, i);
        ElementAt(ptrs, lo, objs, r, before, i + 1);
        SweepToNext(ptrs[i], ptrs[i + 1], r.end, objs, i - lo, old(done), allC, allG);
        i := i + 1;
      }
      ElementAt(ptrs, lo, objs, r, before, i);
      ElementAt(ptrs, lo, objs, r, before, i + 1);
      SweepTail(ptrs[i], r.end, objs, old(done), allC, allG);
    }

    /** Read a header that this sweep has not written yet. */
    function HeaderAt(h: int, ghost k: int, ghost off: int): (w: int)
      requires Tied() && h == Addr(k, off) && h in before && 0 < off < GC_BLOCKSIZE && Below(done, chunks, k, off)
      reads this
      ensures w == before[h]
    {
      BelowIsUntouched(done, chunks, blocks, k, off, k, off);
      UntouchedIsOld(before, done, chunks, blocks, k, off);
      mem[h]
    }

    /** Insert the slack in front of a marked object, or at the end of a block, if there is any. */
    method InsertSlack(slack: int, slackSize: int, ghost k: int, ghost so: int, ghost to: int)
      requires Tied() && slack == Addr(k, so) && slackSize == to - so && FIRST <= so <= to <= LAST
      modifies `mem, `index, `chunks
      ensures Tied() && chunks == old(chunks) + Between(k, so, to)
    {
      if slackSize > 0 {
        InsertFreechunk(slack, slackSize, Chunk(k, so, to - so));
      }
    }

    /**
     * sweep_small_normal, for one used block: walk its headers.  Returns whether the
     * entire block is free; if it is not, its gaps have been inserted.
     */
    method SweepBlock(k: int) returns (whole: bool)
      requires Tied() && Tiled(before, k, FIRST) && Below(done, chunks, k, FIRST)
      modifies `mem, `index, `chunks, `done
      ensures Tied() && (whole <==> MarkedFrom(before, k, FIRST) == [])
      ensures done == old(done) + MarkedFrom(before, k, FIRST)
      ensures whole ==> chunks == old(chunks)
      ensures !whole ==> chunks == old(chunks) + Gaps(k, FIRST, MarkedFrom(before, k, FIRST), LAST)
      ensures Below(done, chunks, k + 1, FIRST)
    {
      hide Tied, Below, WalkedTo, Gaps, MarkedFrom, Between;
      ghost var allC := chunks + Gaps(k, FIRST, MarkedFrom(before, k, FIRST), LAST);
      var header, slack, bound, slackSize := Addr(k, FIRST), Addr(k, FIRST), Addr(k, LAST), 0;
      ghost var off, so := FIRST, FIRST;
      WalkBegins(before, k, done, chunks);
      while header < bound
        invariant header == Addr(k, off) && slack == Addr(k, so) && slackSize == off - so
        invariant FIRST <= so <= off <= LAST && Tiled(before, k, off)
        invariant Tied() && WalkedTo(before, k, off, so, old(done), old(chunks), allC, done, chunks)
        decreases LAST - off
      {
        WalkedBelow(before, k, off, so, old(done), old(chunks), allC, done, chunks);
        var h := HeaderAt(header, k, off);
        var size := Size(h);
        if Marked(h) {
          WalkMarked(before, k, off, so, old(done), old(chunks), allC, done, chunks, blocks);
          InsertSlack(slack, slackSize, k, so, off);
          slackSize := 0;
          Unmark(header, Object(k, off, size));
          slack := header + size;
          so := off + size;
        } else {
          WalkUnmarked(before, k, off, so, old(done), old(chunks), allC, done, chunks);
          slackSize := slackSize + size;
        }
        header := header + size;
        off := off + size;
      }
      WalkEnds(before, k, so, old(done), old(chunks), allC, done, chunks);
      if slackSize > 0 && slack == Addr(k, FIRST) {
        whole := true;
      } else {
        InsertSlack(slack, slackSize, k, so, LAST);
        whole := false;
      }
    }

    /** Insert the slack block into the free blocks list, if there is one. */
    method InsertSlackBlock(slackBlock: int, slackSize: int, ghost k: int, ghost run: int)
      requires Tied() && run >= 0 && slackBlock == Addr(k, 0) && slackSize == GC_BLOCKSIZE * run
      modifies `mem, `blocks
      ensures Tied() && blocks == old(blocks) + Run(k, run)
    {
      if slackSize > 0 {
        AppendBlocks(slackBlock, slackSize, Group(k, run));
      }
    }

    /** sweep_small_normal, for one region: walk the headers of every used block. */
    method SweepRegionNormal(r: Region, used: set<int>)
      requires Tied() && r.first <= r.end && BlocksTiled(before, used, r.first, r.end)
      requires Below(done, chunks, r.first, FIRST)
      modifies `mem, `index, `blocks, `chunks, `done
      ensures Tied() && Below(done, chunks, r.end, FIRST)
      ensures done == old(done) + MarkedIn(before, used, r.first, r.end)
      ensures chunks == old(chunks) + Chunks(r.first, r.end, MarkedIn(before, used, r.first, r.end))
      ensures blocks == old(blocks) + Groups(r.first, r.end, 0, MarkedIn(before, used, r.first, r.end))
    {
      hide Tied, Below, BlocksTo, Gaps, MarkedFrom, MarkedIn, Chunks, Groups, Run, Tiled;
      ghost var objs := MarkedIn(before, used, r.first, r.end);
      ghost var allD, allC, allG := done + objs, chunks + Chunks(r.first, r.end, objs),
              blocks + Groups(r.first, r.end, 0, objs);
      BlocksBegin(before, used, r, done, chunks, blocks);
      var k, slackBlock, slackSize := r.first, Addr(r.first, 0), 0;
      ghost var run := 0;
      while k < r.end
        invariant r.first <= k <= r.end && run >= 0
        invariant slackBlock == Addr(k - run, 0) && slackSize == GC_BLOCKSIZE * run
        invariant Tied() && BlocksTo(before, used, k, run, r.end, allD, allC, allG, done, chunks, blocks)
        decreases r.end - k
      {
        BlocksBelow(before, used, k, run, r.end, allD, allC, allG, done, chunks, blocks);
        var whole := true;
        if k in used {
          ghost var d, c := done, chunks;
          whole := SweepBlock(k);
          if !whole {
            UsedBlockStep(before, used, k, run, r.end, allD, allC, allG, d, c, blocks);
            InsertSlackBlock(slackBlock, slackSize, k - run, run);
            slackSize, slackBlock, run := 0, Addr(k + 1, 0), 0;
          } else {
            FreeBlockStep(before, used, k, run, r.end, allD, allC, allG, d, c, blocks);
            assert done == d;
          }
        } else {
          FreeBlockStep(before, used, k, run, r.end, allD, allC, allG, done, chunks, blocks);
        }
        if whole {
          slackSize, run := slackSize + GC_BLOCKSIZE, run + 1;
        }
        k := k + 1;
      }
      BlocksEnd(before, used, run, r.end, allD, allC, allG, done, chunks, blocks);
      InsertSlackBlock(slackBlock, slackSize, r.end - run, run);
    }
  }
}
