/**
 * What a collection does to the small object area (src/runtime/gc.c): the live
 * objects stay where and as they are, unmarked; everything else is free again, and
 * the area is ready for allocation.
 */
module CollectedArea {
  import opened Header
  import opened FreeSpace
  import opened ChunkIndex
  import opened SmallSweep
  import opened SweepArea
  import opened HeapWalk
  import opened SmallArea
  import opened MarkPhase
  import opened AfterSweep

  /** The area after a collection; `top` is the last slot of the free chunk index. */
  ghost function After(a: Area, used: set<int>, live: set<int>, top: int): Area
    requires AreaTiled(Stamp(a.mem, live), used, a.regions)
  {
    var s := Outcome(Stamp(a.mem, live), used, a.regions, top);
    a.(mem := s.mem, chunks := s.chunks, groups := s.blocks)
  }

  /** A collection for which the lists and the memory are those of the sweep. */
  ghost predicate Collection(a: Area, used: set<int>, live: set<int>, top: int, b: Area)
  {
    && Ready(a, used, live) && AreaTiled(Stamp(a.mem, live), used, a.regions)
    && b == After(a, used, live, top) && top == SMALL_CHUNKS_LIST_INDEX_SIZE - 1
  }

  /** The objects kept in block k, and its gaps. */
  ghost function Here(a: Area, used: set<int>, live: set<int>, k: int): seq<Object>
  {
    BlockObjects(Stamp(a.mem, live), used, k)
  }
  ghost function Freed(a: Area, used: set<int>, live: set<int>, k: int): seq<Chunk>
  {
    BlockChunks(Stamp(a.mem, live), used, k)
  }

  /** A block is in use afterwards exactly if it holds a live object. */
  lemma AfterUse(a: Area, used: set<int>, live: set<int>, top: int, b: Area, k: int)
    requires Collection(a, used, live, top, b)
    ensures InUse(b, k) <==> Here(a, used, live, k) != []
  {
    FreedBlocksOf(Stamp(a.mem, live), used, a.regions, |a.regions|, k);
    assert k in used <==> InUse(a, k);
  }

  lemma InUseRegion(a: Area, used: set<int>, live: set<int>, k: int)
    requires Ready(a, used, live) && Here(a, used, live, k) != []
    ensures InRegions(a.regions, |a.regions|, k) && InUse(a, k)
  {
    assert k in used <==> InUse(a, k);
  }

  /** The header of a live object is what it was before marking. */
  lemma AfterHeader(a: Area, used: set<int>, live: set<int>, top: int, b: Area, k: int, o: Object)
    requires Collection(a, used, live, top, b) && o in Here(a, used, live, k)
    ensures var h := Addr(k, o.off);
            && o.block == k && HasObject(a, o) && h in a.mem && h in b.mem && b.mem[h] == a.mem[h]
            && Size(b.mem[h]) == o.size && !Free(b.mem[h]) && !Marked(b.mem[h])
  {
    var m, n := Stamp(a.mem, live), |a.regions|;
    LiveBlock(a, used, live, k, o);
    InUseRegion(a, used, live, k);
    ObjectHeader(a, o);
    SweepClean(m, used, a.regions);
    KeptOf(m, used, a.regions, n);
    var h := Addr(k, o.off);
    assert o in Kept(m, used, a.regions, n);
    CleanHeader(m, Kept(m, used, a.regions, n), FreedChunks(m, used, a.regions, n), FreedBlocks(m, used, a.regions, n),
                o);
    MarkBitOnly(a.mem[h]);
  }

  lemma ObjectHeader(a: Area, o: Object)
    requires Valid(a) && a.co == a.bo && HasObject(a, o)
    ensures var h := Addr(o.block, o.off);
            h in a.mem && Size(a.mem[h]) == o.size && !Free(a.mem[h]) && !Marked(a.mem[h])
  {
    var t :| IsTileOf(View(a), o.block, t, o);
    assert BlockOk(View(a), o.block);
    TileFacts(View(a), o.block, FIRST, t);
  }

  lemma AfterGap(a: Area, used: set<int>, live: set<int>, top: int, b: Area, k: int, c: Chunk)
    requires Collection(a, used, live, top, b) && c in Freed(a, used, live, k)
    ensures var h := Addr(k, c.off);
            h in b.mem && b.mem[h] == c.size + FREE_BIT && c.block == k && ChunkFits(c)
  {
    var m, n := Stamp(a.mem, live), |a.regions|;
    BlockChunksFacts(m, used, k);
    InUseRegion(a, used, live, k);
    SweepClean(m, used, a.regions);
    FreedChunksOf(m, used, a.regions, n);
    assert c in FreedChunks(m, used, a.regions, n);
    CleanChunk(m, Kept(m, used, a.regions, n), FreedChunks(m, used, a.regions, n), FreedBlocks(m, used, a.regions, n),
               c);
  }

  /** A block in use afterwards is tiled by its live objects and its gaps. */
  lemma AfterTiles(a: Area, used: set<int>, live: set<int>, top: int, b: Area, k: int)
    requires Collection(a, used, live, top, b) && Here(a, used, live, k) != []
    ensures Tiled(b.mem, k, FIRST)
    ensures forall t :: t in Tiles(b.mem, k, FIRST) <==>
              TileOf(b.mem, k, Here(a, used, live, k), Freed(a, used, live, k), t)
  {
    var objs, gaps := Here(a, used, live, k), Freed(a, used, live, k);
    assert gaps == Gaps(k, FIRST, objs, LAST);
    BlockChunksFacts(Stamp(a.mem, live), used, k);
    assert forall i :: 0 <= i < |objs| ==> Fits(objs[i]);
    hide *;
    forall i | 0 <= i < |objs| ensures HeaderIn(b.mem, objs[i]) && objs[i].off % 8 == 4 && objs[i].size % 8 == 0 {
      AfterObjectLaid(a, used, live, top, b, k, objs[i]);
    }
    forall i | 0 <= i < |gaps|
      ensures Addr(k, gaps[i].off) in b.mem && b.mem[Addr(k, gaps[i].off)] == gaps[i].size + FREE_BIT
    {
      AfterGap(a, used, live, top, b, k, gaps[i]);
    }
    LaidGaps(b.mem, k, objs, gaps);
    GapsTiles(b.mem, k, FIRST, objs);
  }

  lemma AfterObjectLaid(a: Area, used: set<int>, live: set<int>, top: int, b: Area, k: int, o: Object)
    requires Collection(a, used, live, top, b) && o in Here(a, used, live, k)
    ensures HeaderIn(b.mem, o) && o.off % 8 == 4 && o.size % 8 == 0
  {
    AfterHeader(a, used, live, top, b, k, o);
    ObjectFits(a, o);
  }

  lemma LaidGaps(m: Memory, k: int, objs: seq<Object>, gaps: seq<Chunk>)
    requires forall i :: 0 <= i < |objs| ==> HeaderIn(m, objs[i]) && objs[i].off % 8 == 4 && objs[i].size % 8 == 0
    requires forall i :: 0 <= i < |gaps| ==>
               Addr(k, gaps[i].off) in m && m[Addr(k, gaps[i].off)] == gaps[i].size + FREE_BIT
    ensures Laid(m, k, objs, gaps)
  {
  }

  // ---------------------------------------------------------------------------
  // The invariant holds again
  // ---------------------------------------------------------------------------

  lemma {:induction false} GapsAligned(k: int, from: int, objs: seq<Object>)
    requires from % 8 == 4 && forall i :: 0 <= i < |objs| ==> objs[i].off % 8 == 4 && objs[i].size % 8 == 0
    ensures forall i :: 0 <= i < |Gaps(k, from, objs, LAST)| ==> Gaps(k, from, objs, LAST)[i].size % 8 == 0
    decreases |objs|
  {
    if objs != [] {
      var o, rest := objs[0], objs[1..];
      AlignedStep(o.off, o.size);
      GapsAligned(k, o.End(), rest);
      BetweenAligned(k, from, o.off);
    } else {
      BetweenAligned(k, from, LAST);
    }
  }

  lemma AlignedStep(off: int, size: int)
    requires off % 8 == 4 && size % 8 == 0
    ensures (off + size) % 8 == 4
  {
  }

  lemma BetweenAligned(k: int, from: int, to: int)
    requires from % 8 == 4 && to % 8 == 4
    ensures forall i :: 0 <= i < |Between(k, from, to)| ==> Between(k, from, to)[i].size % 8 == 0
  {
  }

  lemma FreedAligned(a: Area, used: set<int>, live: set<int>, k: int, c: Chunk)
    requires Ready(a, used, live) && c in Freed(a, used, live, k)
    ensures c.size % 8 == 0
  {
    var objs := Here(a, used, live, k);
    assert Freed(a, used, live, k) == Gaps(k, FIRST, objs, LAST);
    forall i | 0 <= i < |objs| ensures objs[i].off % 8 == 4 && objs[i].size % 8 == 0 {
      LiveBlock(a, used, live, k, objs[i]);
      ObjectFits(a, objs[i]);
    }
    GapsAligned(k, FIRST, objs);
  }

  lemma AfterBlockOk(a: Area, used: set<int>, live: set<int>, top: int, b: Area, k: int)
    requires Collection(a, used, live, top, b) && InUse(b, k)
    ensures BlockOk(b.mem, k)
  {
    AfterUse(a, used, live, top, b, k);
    AfterTiles(a, used, live, top, b, k);
    hide Tiled, Tiles, Collection, Here, Freed, Marked;
    forall t | t in Tiles(b.mem, k, FIRST) ensures !Marked(t.header) {
      AfterTileUnmarked(a, used, live, top, b, k, t);
    }
  }

  lemma AfterTileUnmarked(a: Area, used: set<int>, live: set<int>, top: int, b: Area, k: int, t: Tile)
    requires Collection(a, used, live, top, b) && TileOf(b.mem, k, Here(a, used, live, k), Freed(a, used, live, k), t)
    ensures !Marked(t.header)
  {
    hide Collection, Here, Freed, Marked;
    var objs, gaps := Here(a, used, live, k), Freed(a, used, live, k);
    if i :| 0 <= i < |objs| && t.off == objs[i].off && Addr(k, t.off) in b.mem && t.header == b.mem[Addr(k, t.off)] {
      AfterHeader(a, used, live, top, b, k, objs[i]);
    } else {
      var i :| 0 <= i < |gaps| && t == FreeTile(gaps[i].off, gaps[i].size);
      CollectionReady(a, used, live, top, b);
      FreedAligned(a, used, live, k, gaps[i]);
      FreeTileFacts(gaps[i].off, gaps[i].size);
    }
  }

  lemma CollectionReady(a: Area, used: set<int>, live: set<int>, top: int, b: Area)
    requires Collection(a, used, live, top, b)
    ensures Ready(a, used, live) && a.co == a.bo == b.co == b.bo && View(b) == b.mem && b.regions == a.regions
  {
  }

  /** Exactly the live objects are left. */
  lemma AfterObject(a: Area, used: set<int>, live: set<int>, top: int, b: Area, o: Object)
    requires Collection(a, used, live, top, b)
    ensures HasObject(b, o) <==> HasObject(a, o) && Pointer(o) in live
  {
    CollectionReady(a, used, live, top, b);
    LiveBlock(a, used, live, o.block, o);
    assert o in Here(a, used, live, o.block) <==> HasObject(a, o) && Pointer(o) in live;
    hide Collection, Here, Freed, InUse, HasObject, Ready;
    if o in Here(a, used, live, o.block) { AfterKept(a, used, live, top, b, o); }
    if HasObject(b, o) { AfterOnlyKept(a, used, live, top, b, o); }
  }

  lemma AfterKept(a: Area, used: set<int>, live: set<int>, top: int, b: Area, o: Object)
    requires Collection(a, used, live, top, b) && o in Here(a, used, live, o.block)
    ensures HasObject(b, o)
  {
    var objs, k := Here(a, used, live, o.block), o.block;
    AfterUse(a, used, live, top, b, k);
    AfterHeader(a, used, live, top, b, k, o);
    AfterTiles(a, used, live, top, b, k);
    CollectionReady(a, used, live, top, b);
    hide Collection, Here, Freed, InUse, Tiles, Tiled, Size, Free, View;
    var t := Tile(o.off, b.mem[Addr(k, o.off)]);
    var i :| 0 <= i < |objs| && objs[i] == o;
    assert TileOf(b.mem, k, objs, Freed(a, used, live, k), t);
    assert IsTileOf(View(b), k, t, o);
  }

  lemma AfterOnlyKept(a: Area, used: set<int>, live: set<int>, top: int, b: Area, o: Object)
    requires Collection(a, used, live, top, b) && HasObject(b, o)
    ensures o in Here(a, used, live, o.block)
  {
    var k := o.block;
    var objs, gaps := Here(a, used, live, k), Freed(a, used, live, k);
    CollectionReady(a, used, live, top, b);
    AfterUse(a, used, live, top, b, k);
    AfterTiles(a, used, live, top, b, k);
    hide Collection, Here, Freed, InUse, Tiles, Tiled, Size, Free, View, Ready, Marked;
    var t :| IsTileOf(View(b), k, t, o);
    assert TileOf(b.mem, k, objs, gaps, t);
    if i :| 0 <= i < |gaps| && t == FreeTile(gaps[i].off, gaps[i].size) {
      FreedAligned(a, used, live, k, gaps[i]);
      FreeTileFacts(gaps[i].off, gaps[i].size);
    } else {
      var i :| 0 <= i < |objs| && t.off == objs[i].off && Addr(k, t.off) in b.mem && t.header == b.mem[Addr(k, t.off)];
      AfterHeader(a, used, live, top, b, k, objs[i]);
    }
  }

  /** The free chunk list holds the gaps of the blocks in use, each once. */
  lemma AfterChunkList(a: Area, used: set<int>, live: set<int>, top: int, b: Area)
    requires Collection(a, used, live, top, b)
    ensures forall c :: c in b.chunks <==> c in Freed(a, used, live, c.block)
    ensures forall i, j :: 0 <= i < j < |b.chunks| ==> b.chunks[i] != b.chunks[j]
    ensures SlotsDecrease(b.chunks)
  {
    var m, n := Stamp(a.mem, live), |a.regions|;
    FreedChunksOf(m, used, a.regions, n);
    var cs := FreedChunks(m, used, a.regions, n);
    assert b.chunks == Merged(cs, top);
    MergedDecreases(cs, top);
    forall i | 0 <= i < |cs| ensures 1 <= Slot(cs[i]) <= top { FreedSlot(a, used, live, top, cs[i]); }
    forall i, j | 0 <= i < j < |cs| ensures cs[i] != cs[j] { assert ChunkBefore(cs[i], cs[j]) && ChunkFits(cs[i]); }
    MergedSet(cs, top);
    forall c ensures c in cs <==> c in Freed(a, used, live, c.block) {
      FreedBlock(a, used, live, c.block);
    }
  }

  lemma FreedSlot(a: Area, used: set<int>, live: set<int>, top: int, c: Chunk)
    requires Ready(a, used, live) && c in Freed(a, used, live, c.block) && ChunkFits(c)
    requires top == SMALL_CHUNKS_LIST_INDEX_SIZE - 1
    ensures 1 <= Slot(c) <= top
  {
    FreedAligned(a, used, live, c.block, c);
  }

  lemma FreedBlock(a: Area, used: set<int>, live: set<int>, k: int)
    requires Ready(a, used, live)
    ensures Freed(a, used, live, k) != [] ==> InRegions(a.regions, |a.regions|, k)
  {
    assert k in used <==> InUse(a, k);
  }

  lemma AfterChunk(a: Area, used: set<int>, live: set<int>, top: int, b: Area, c: Chunk)
    requires Collection(a, used, live, top, b) && c in Freed(a, used, live, c.block)
    ensures InUse(b, c.block) && HasFreeTile(b.mem, c.block, c.off, c.size) && ChunkFits(c)
  {
    var k := c.block;
    var gaps := Freed(a, used, live, k);
    assert Here(a, used, live, k) != [];
    AfterUse(a, used, live, top, b, k);
    AfterTiles(a, used, live, top, b, k);
    AfterGap(a, used, live, top, b, k, c);
    CollectionReady(a, used, live, top, b);
    FreedAligned(a, used, live, k, c);
    hide Collection, Here, Freed, InUse, Tiles, Tiled;
    var i :| 0 <= i < |gaps| && gaps[i] == c;
    assert TileOf(b.mem, k, Here(a, used, live, k), gaps, FreeTile(c.off, c.size));
  }

  /** Two gaps in the same place are the same gap. */
  lemma FreedPlace(a: Area, used: set<int>, live: set<int>, c: Chunk, d: Chunk)
    requires c in Freed(a, used, live, c.block) && d in Freed(a, used, live, d.block) && SamePlace(c, d.block, d.off)
    ensures c == d
  {
    var gaps := Freed(a, used, live, c.block);
    BlockChunksFacts(Stamp(a.mem, live), used, c.block);
    var i :| 0 <= i < |gaps| && gaps[i] == c;
    var j :| 0 <= j < |gaps| && gaps[j] == d;
    assert ChunkFits(gaps[i]) && ChunkFits(gaps[j]);
  }

  lemma AfterChunksOk(a: Area, used: set<int>, live: set<int>, top: int, b: Area)
    requires Collection(a, used, live, top, b)
    ensures ChunksOk(b)
  {
    hide Collection, Freed, InUse, HasFreeTile, View, SlotsDecrease, SamePlace;
    AfterChunkList(a, used, live, top, b);
    CollectionReady(a, used, live, top, b);
    forall i | 0 <= i < |b.chunks|
      ensures InUse(b, b.chunks[i].block) && HasFreeTile(View(b), b.chunks[i].block, b.chunks[i].off, b.chunks[i].size)
    {
      assert b.chunks[i] in b.chunks;
      AfterChunk(a, used, live, top, b, b.chunks[i]);
    }
    forall i, j | 0 <= i < j < |b.chunks| ensures !SamePlace(b.chunks[i], b.chunks[j].block, b.chunks[j].off) {
      assert b.chunks[i] in b.chunks && b.chunks[j] in b.chunks;
      if SamePlace(b.chunks[i], b.chunks[j].block, b.chunks[j].off) {
        FreedPlace(a, used, live, b.chunks[i], b.chunks[j]);
      }
    }
  }

  /** The sweep leaves the size of each run of free blocks in its first word. */
  lemma AfterSized(a: Area, used: set<int>, live: set<int>, top: int, b: Area)
    requires Collection(a, used, live, top, b)
    requires GroupsOk(b.groups, b.regions)
    ensures Sized(View(b), b.groups)
  {
    forall i | 0 <= i < |b.groups|
      ensures var h := Addr(b.groups[i].block, 0); h in b.mem && b.mem[h] == GC_BLOCKSIZE * b.groups[i].count
    {
      GroupWritesAt(b.groups, i);
    }
  }

  /** A collection keeps the invariant of the area. */
  lemma AfterValid(a: Area, used: set<int>, live: set<int>, top: int, b: Area)
    requires Collection(a, used, live, top, b)
    ensures Valid(b) && RegionsOrdered(b.regions)
  {
    FreedBlocksOk(Stamp(a.mem, live), used, a.regions, |a.regions|);
    AfterChunksOk(a, used, live, top, b);
    AfterSized(a, used, live, top, b);
    CollectionReady(a, used, live, top, b);
    assert RegionsOrdered(a.regions) && GroupsOk(b.groups, b.regions);
    hide Sized, Collection, Ready, ChunksOk, InUse, BlockOk, GroupsOk, View, HasFreeTile;
    forall k | InUse(b, k) ensures BlockOk(View(b), k) { AfterBlockOk(a, used, live, top, b, k); }
  }

  /** The words of a live object, header and payload, are as before the collection. */
  lemma AfterBytes(a: Area, used: set<int>, live: set<int>, top: int, b: Area, o: Object, x: int)
    requires Collection(a, used, live, top, b) && HasObject(a, o) && Pointer(o) in live && o.off <= x < o.End()
    ensures Addr(o.block, x) in b.mem <==> Addr(o.block, x) in a.mem
    ensures Addr(o.block, x) in a.mem ==> b.mem[Addr(o.block, x)] == a.mem[Addr(o.block, x)]
  {
    hide Collection, Ready, HasObject, Addr, BlockObjects;
    CollectionReady(a, used, live, top, b);
    LiveBlock(a, used, live, o.block, o);
    if x == o.off {
      AfterHeader(a, used, live, top, b, o.block, o);
    } else {
      NotAPointer(a, used, live, o, x);
      AfterPayload(a, used, live, top, b, o, x);
      assert Addr(o.block, x) in Stamp(a.mem, live) <==> Addr(o.block, x) in a.mem;
    }
  }

  lemma AfterPayload(a: Area, used: set<int>, live: set<int>, top: int, b: Area, o: Object, x: int)
    requires Collection(a, used, live, top, b) && o in Here(a, used, live, o.block) && o.off < x < o.End()
    ensures var h, m := Addr(o.block, x), Stamp(a.mem, live); (h in b.mem <==> h in m) && (h in m ==> b.mem[h] == m[h])
  {
    var m, n := Stamp(a.mem, live), |a.regions|;
    InUseRegion(a, used, live, o.block);
    SweepClean(m, used, a.regions);
    KeptOf(m, used, a.regions, n);
    assert o in Kept(m, used, a.regions, n);
    CleanPayload(m, Kept(m, used, a.regions, n), FreedChunks(m, used, a.regions, n), FreedBlocks(m, used, a.regions, n),
                 o, x);
  }

  /** Marking does not touch the inside of an object. */
  lemma NotAPointer(a: Area, used: set<int>, live: set<int>, o: Object, x: int)
    requires Ready(a, used, live) && HasObject(a, o) && o.off < x < o.End()
    ensures Addr(o.block, x) + GC_HEAD !in live
  {
    ObjectFits(a, o);
    if Addr(o.block, x) + GC_HEAD in live {
      var p :| HasObject(a, p) && Pointer(p) == Addr(o.block, x) + GC_HEAD;
      ObjectFits(a, p);
      AddrParts(p.block, p.off);
      AddrParts(o.block, x);
      ObjectsApart(a, o, p);
    }
  }
}
