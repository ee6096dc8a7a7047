/**
 * What a sweep of the small object area frees, counted byte by byte (src/runtime/gc.c):
 * after a collection every byte of the area that belongs to no object is on the free chunk
 * list or on the free blocks list, and it is there once.
 */
module Conservation {
  import opened Header
  import opened FreeSpace
  import opened ChunkIndex
  import opened SmallSweep
  import opened SweepArea
  import opened HeapWalk
  import opened SmallArea
  import opened MarkPhase
  import opened AfterSweep
  import opened CollectedArea

  // ---------------------------------------------------------------------------
  // Merging the chunk index keeps the bytes
  // ---------------------------------------------------------------------------

  ghost predicate Hits(c: Chunk, j: int, x: int) { c.block == j && c.off <= x < c.off + c.size }

  /** How many of the chunks in slots 1 to i contain offset x of block j. */
  ghost function HitsUpTo(cs: seq<Chunk>, i: int, j: int, x: int): nat
  {
    if cs == [] then 0
    else HitsUpTo(cs[..|cs| - 1], i, j, x) +
         var c := cs[|cs| - 1]; if Hits(c, j, x) && 1 <= Slot(c) <= i then 1 else 0
  }

  lemma {:induction false} HitsInSlot(cs: seq<Chunk>, i: int, j: int, x: int)
    requires i >= 1
    ensures HitsUpTo(cs, i, j, x) == HitsUpTo(cs, i - 1, j, x) + InChunks(InSlot(cs, i), j, x)
    decreases |cs|
  {
    if cs != [] {
      var init, c := cs[..|cs| - 1], cs[|cs| - 1];
      HitsInSlot(init, i, j, x);
      if Slot(c) == i {
        assert (InSlot(init, i) + [c])[..|InSlot(init, i)|] == InSlot(init, i);
      } else {
        assert InSlot(cs, i) == InSlot(init, i);
      }
    }
  }

  lemma {:induction false} HitsNone(cs: seq<Chunk>, j: int, x: int)
    ensures HitsUpTo(cs, 0, j, x) == 0
    decreases |cs|
  {
    if cs != [] { HitsNone(cs[..|cs| - 1], j, x); }
  }

  lemma {:induction false} HitsMerged(cs: seq<Chunk>, i: int, j: int, x: int)
    requires i >= 0
    ensures InChunks(Merged(cs, i), j, x) == HitsUpTo(cs, i, j, x)
    decreases i
  {
    if i == 0 {
      HitsNone(cs, j, x);
    } else {
      HitsMerged(cs, i - 1, j, x);
      HitsInSlot(cs, i, j, x);
      InChunksAppend(InSlot(cs, i), Merged(cs, i - 1), j, x);
    }
  }

  lemma {:induction false} HitsAll(cs: seq<Chunk>, top: int, j: int, x: int)
    requires forall i :: 0 <= i < |cs| ==> 1 <= Slot(cs[i]) <= top
    ensures HitsUpTo(cs, top, j, x) == InChunks(cs, j, x)
    decreases |cs|
  {
    if cs != [] {
      HitsAll(cs[..|cs| - 1], top, j, x);
      assert 1 <= Slot(cs[|cs| - 1]) <= top;
    }
  }

  // ---------------------------------------------------------------------------
  // All regions together
  // ---------------------------------------------------------------------------

  /** How often a sweep of the first n regions keeps or frees offset x of block j. */
  ghost function Covered(m: Memory, used: set<int>, regions: seq<Region>, n: nat, j: int, x: int): nat
    requires n <= |regions| && AreaTiled(m, used, regions)
  {
    InChunks(FreedChunks(m, used, regions, n), j, x) + InGroups(FreedBlocks(m, used, regions, n), j) +
    InObjects(Kept(m, used, regions, n), j, x)
  }

  lemma {:induction false} AreaPartition(m: Memory, used: set<int>, regions: seq<Region>, n: nat, j: int, x: int)
    requires n <= |regions| && AreaTiled(m, used, regions) && RegionsOrdered(regions) && FIRST <= x < LAST
    ensures Covered(m, used, regions, n, j, x) == if InRegions(regions, n, j) then 1 else 0
    decreases n
  {
    hide InRegions, RegionsOrdered, AreaTiled, Covered;
    if n == 0 {
      NoRegion(m, used, regions, j, x);
    } else {
      AreaPartition(m, used, regions, n - 1, j, x);
      CoveredStep(m, used, regions, n, j, x);
      LastRegion(regions, n, j);
    }
  }

  lemma NoRegion(m: Memory, used: set<int>, regions: seq<Region>, j: int, x: int)
    requires AreaTiled(m, used, regions)
    ensures Covered(m, used, regions, 0, j, x) == 0 && !InRegions(regions, 0, j)
  {
  }

  lemma CoveredStep(m: Memory, used: set<int>, regions: seq<Region>, n: nat, j: int, x: int)
    requires 0 < n <= |regions| && AreaTiled(m, used, regions) && RegionsOrdered(regions) && FIRST <= x < LAST
    ensures Covered(m, used, regions, n, j, x)
            == Covered(m, used, regions, n - 1, j, x) + if regions[n - 1].first <= j < regions[n - 1].end then 1 else 0
  {
    hide Chunks, Groups, InChunks, InGroups, InObjects, MarkedIn, BlocksTiled;
    var r := regions[n - 1];
    var objs := RegionObjects(m, used, r);
    MarkedInWithin(m, used, r.first, r.end);
    SpacePartition(r.first, r.end, 0, objs, j, x);
    InChunksAppend(FreedChunks(m, used, regions, n - 1), Chunks(r.first, r.end, objs), j, x);
    InGroupsAppend(FreedBlocks(m, used, regions, n - 1), Groups(r.first, r.end, 0, objs), j);
    InObjectsAppend(Kept(m, used, regions, n - 1), objs, j, x);
  }

  lemma LastRegion(regions: seq<Region>, n: nat, j: int)
    requires RegionsOrdered(regions) && 0 < n <= |regions|
    ensures InRegions(regions, n, j) <==> InRegions(regions, n - 1, j) || regions[n - 1].first <= j < regions[n - 1].end
    ensures InRegions(regions, n - 1, j) ==> j < regions[n - 1].first
  {
  }

  lemma {:induction false} InObjectsMember(objs: seq<Object>, j: int, x: int)
    ensures InObjects(objs, j, x) > 0 <==> exists o :: o in objs && o.block == j && o.off <= x < o.End()
    decreases |objs|
  {
    if objs != [] {
      InObjectsMember(objs[1..], j, x);
      assert objs == [objs[0]] + objs[1..];
    }
  }

  // ---------------------------------------------------------------------------
  // After a collection
  // ---------------------------------------------------------------------------

  /** Offset x of block k belongs to an allocated object. */
  ghost predicate InObject(a: Area, k: int, x: int)
  {
    exists o :: HasObject(a, o) && o.block == k && o.off <= x < o.End()
  }

  /** How many entries of the two free lists contain offset x of block k. */
  ghost function TimesFree(a: Area, k: int, x: int): nat { InChunks(a.chunks, k, x) + InGroups(a.groups, k) }

  /**
   * Every byte of the area is in an object, or exactly once on the free lists, and blocks
   * without an object are free blocks.
   */
  ghost predicate Conserved(a: Area)
  {
    && (forall k :: InRegions(a.regions, |a.regions|, k) && InGroups(a.groups, k) == 0 ==>
          exists o :: HasObject(a, o) && o.block == k)
    && forall k, x {:trigger TimesFree(a, k, x)} :: InRegions(a.regions, |a.regions|, k) && FIRST <= x < LAST ==>
      TimesFree(a, k, x) == if InObject(a, k, x) then 0 else 1
  }

  /** The objects that a sweep keeps are those of the area afterwards. */
  lemma KeptObject(a: Area, used: set<int>, live: set<int>, top: int, b: Area, o: Object)
    requires Collection(a, used, live, top, b)
    ensures o in Kept(Stamp(a.mem, live), used, a.regions, |a.regions|) <==> HasObject(b, o)
  {
    var m, n := Stamp(a.mem, live), |a.regions|;
    CollectionReady(a, used, live, top, b);
    AfterObject(a, used, live, top, b, o);
    LiveBlock(a, used, live, o.block, o);
    KeptOf(m, used, a.regions, n);
    if o in BlockObjects(m, used, o.block) { InUseRegion(a, used, live, o.block); }
  }

  lemma AfterByte(a: Area, used: set<int>, live: set<int>, top: int, b: Area, k: int, x: int)
    requires Collection(a, used, live, top, b) && InRegions(b.regions, |b.regions|, k) && FIRST <= x < LAST
    ensures TimesFree(b, k, x) == if InObject(b, k, x) then 0 else 1
  {
    var m, n := Stamp(a.mem, live), |a.regions|;
    var cs, objs := FreedChunks(m, used, a.regions, n), Kept(m, used, a.regions, n);
    CollectionReady(a, used, live, top, b);
    AreaPartition(m, used, a.regions, n, k, x);
    ChunksMerged(a, used, live, top, b, k, x);
    InObjectsMember(objs, k, x);
    hide HasObject, InChunks, InGroups, InObjects, Kept, FreedChunks, FreedBlocks, Merged, SweptMem;
    forall o ensures o in objs <==> HasObject(b, o) { KeptObject(a, used, live, top, b, o); }
  }

  lemma ChunksMerged(a: Area, used: set<int>, live: set<int>, top: int, b: Area, k: int, x: int)
    requires Collection(a, used, live, top, b)
    ensures InChunks(b.chunks, k, x) == InChunks(FreedChunks(Stamp(a.mem, live), used, a.regions, |a.regions|), k, x)
  {
    var m, n := Stamp(a.mem, live), |a.regions|;
    var cs := FreedChunks(m, used, a.regions, n);
    CollectionReady(a, used, live, top, b);
    FreedChunksOf(m, used, a.regions, n);
    forall i | 0 <= i < |cs| ensures 1 <= Slot(cs[i]) <= top { FreedSlot(a, used, live, top, cs[i]); }
    HitsMerged(cs, top, k, x);
    HitsAll(cs, top, k, x);
  }

  lemma UsedHolds(a: Area, used: set<int>, live: set<int>, top: int, b: Area, k: int)
    requires Collection(a, used, live, top, b) && InUse(b, k)
    ensures exists o :: HasObject(b, o) && o.block == k
  {
    hide Collection, HasObject;
    CollectionReady(a, used, live, top, b);
    AfterUse(a, used, live, top, b, k);
    var o := Here(a, used, live, k)[0];
    LiveBlock(a, used, live, k, o);
    AfterObject(a, used, live, top, b, o);
  }

  /** A collection leaves no byte behind. */
  lemma AfterConserved(a: Area, used: set<int>, live: set<int>, top: int, b: Area)
    requires Collection(a, used, live, top, b)
    ensures Conserved(b)
  {
    hide Collection, TimesFree, InObject, InRegions, HasObject;
    forall k | InRegions(b.regions, |b.regions|, k) && InGroups(b.groups, k) == 0
      ensures exists o :: HasObject(b, o) && o.block == k
    {
      UsedHolds(a, used, live, top, b, k);
    }
    forall k, x | InRegions(b.regions, |b.regions|, k) && FIRST <= x < LAST
      ensures TimesFree(b, k, x) == if InObject(b, k, x) then 0 else 1
    {
      AfterByte(a, used, live, top, b, k, x);
    }
  }

  /** The bytes of an object that does not survive are on the free lists, each exactly once. */
  lemma FreedOnce(a: Area, b: Area, o: Object, x: int)
    requires Conserved(b) && b.regions == a.regions && (forall p :: HasObject(b, p) ==> HasObject(a, p))
    requires HasObject(a, o) && !HasObject(b, o) && o.off <= x < o.End()
    ensures TimesFree(b, o.block, x) == 1
  {
    ObjectFits(a, o);
    hide HasObject, Conserved, TimesFree;
    if p :| HasObject(b, p) && p.block == o.block && p.off <= x < p.End() { ObjectsApart(a, o, p); }
    ByteCount(b, o.block, x);
  }

  lemma ByteCount(b: Area, k: int, x: int)
    requires Conserved(b) && InRegions(b.regions, |b.regions|, k) && FIRST <= x < LAST
    ensures TimesFree(b, k, x) == if InObject(b, k, x) then 0 else 1
  {
  }

  // ---------------------------------------------------------------------------
  // A sweep writes inside the area
  // ---------------------------------------------------------------------------

  /** Address x lies in one of the regions. */
  ghost predicate InArea(regions: seq<Region>, x: int)
  {
    exists i :: 0 <= i < |regions| && Addr(regions[i].first, 0) <= x < Addr(regions[i].end, 0)
  }

  lemma PlaceInArea(regions: seq<Region>, k: int, off: int)
    requires InRegions(regions, |regions|, k) && 0 <= off < GC_BLOCKSIZE
    ensures InArea(regions, Addr(k, off))
  {
    var i :| 0 <= i < |regions| && regions[i].first <= k < regions[i].end;
    assert Addr(regions[i].first, 0) <= Addr(k, off) < Addr(regions[i].end, 0);
  }

  lemma {:induction false} MarkWritesWhere(m: Memory, objs: seq<Object>, x: int)
    requires x in MarkWrites(m, objs)
    ensures exists o :: o in objs && x == Addr(o.block, o.off)
    decreases |objs|
  {
    var o := objs[|objs| - 1];
    if x != Addr(o.block, o.off) { MarkWritesWhere(m, objs[..|objs| - 1], x); }
  }

  lemma {:induction false} ChunkWritesWhere(cs: seq<Chunk>, x: int)
    requires x in ChunkWrites(cs)
    ensures exists c :: c in cs && x == Addr(c.block, c.off)
    decreases |cs|
  {
    var c := cs[|cs| - 1];
    if x != Addr(c.block, c.off) { ChunkWritesWhere(cs[..|cs| - 1], x); }
  }

  lemma {:induction false} GroupWritesWhere(gs: seq<Group>, x: int)
    requires x in GroupWrites(gs)
    ensures exists g :: g in gs && x == Addr(g.block, 0)
    decreases |gs|
  {
    var g := gs[|gs| - 1];
    if x != Addr(g.block, 0) { GroupWritesWhere(gs[..|gs| - 1], x); }
  }

  /** Words that were not in memory before lie in the area. */
  lemma AfterInside(a: Area, used: set<int>, live: set<int>, top: int, b: Area, x: int)
    requires Collection(a, used, live, top, b) && x in b.mem
    ensures x in a.mem || InArea(a.regions, x)
  {
    var m, n := Stamp(a.mem, live), |a.regions|;
    var objs, cs, gs := Kept(m, used, a.regions, n), FreedChunks(m, used, a.regions, n),
        FreedBlocks(m, used, a.regions, n);
    CollectionReady(a, used, live, top, b);
    KeptOf(m, used, a.regions, n);
    FreedChunksOf(m, used, a.regions, n);
    FreedBlocksOk(m, used, a.regions, n);
    assert b.mem == SweptMem(m, objs, cs, gs);
    hide Kept, FreedChunks, FreedBlocks, MarkWrites, ChunkWrites, GroupWrites, InArea, BlockObjects, BlockChunks, Addr;
    if x in MarkWrites(m, objs) {
      MarkWritesWhere(m, objs, x);
      var o :| o in objs && x == Addr(o.block, o.off);
      PlaceInArea(a.regions, o.block, o.off);
    } else if x in ChunkWrites(cs) {
      ChunkWritesWhere(cs, x);
      var c :| c in cs && x == Addr(c.block, c.off);
      PlaceInArea(a.regions, c.block, c.off);
    } else if x in GroupWrites(gs) {
      GroupWritesWhere(gs, x);
      var g :| g in gs && x == Addr(g.block, 0);
      GroupInRegion(gs, a.regions, g);
      PlaceInArea(a.regions, g.block, 0);
    }
  }

  lemma GroupInRegion(gs: seq<Group>, regions: seq<Region>, g: Group)
    requires GroupsOk(gs, regions) && g in gs
    ensures InRegions(regions, |regions|, g.block)
  {
    var j :| 0 <= j < |gs| && gs[j] == g;
    assert InOneRegion(gs[j], regions);
  }
}
