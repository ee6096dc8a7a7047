/**
 * The small object allocator (src/runtime/gc.c): pointer increments inside the
 * current free area, then the largest free chunk, then a free block, then a new
 * region or a collection.  Every call keeps the invariant of SmallArea and adds one
 * object that overlaps no other.
 */
module SmallAlloc {
  import opened Options
  import opened Header
  import opened FreeSpace
  import opened ChunkIndex
  import opened SmallSweep
  import opened SweepArea
  import opened HeapWalk
  import opened SmallArea
  import opened MarkPhase
  import opened AfterSweep
  import opened CollectedArea
  import opened Conservation

  const REGION_BLOCKS := GC_REGIONSIZE / GC_BLOCKSIZE

  // ---------------------------------------------------------------------------
  // A new region
  // ---------------------------------------------------------------------------

  /** Region r has no block in common with the others. */
  ghost predicate Apart(regions: seq<Region>, r: Region)
  {
    r.first < r.end && forall i :: 0 <= i < |regions| ==> regions[i].end <= r.first || r.end <= regions[i].first
  }

  /** Insert a region, searching from the tail of the region list. */
  method InsertRegion(regions: seq<Region>, r: Region) returns (rs: seq<Region>)
    requires RegionsOrdered(regions) && Apart(regions, r)
    ensures RegionsOrdered(rs) && |rs| == |regions| + 1 && forall q :: q in rs <==> q in regions || q == r
  {
    var i := |regions|;
    while i > 0 && regions[i - 1].first >= r.first
      invariant 0 <= i <= |regions|
      invariant forall j :: i <= j < |regions| ==> r.end <= regions[j].first
    {
      i := i - 1;
    }
    rs := regions[..i] + [r] + regions[i..];
    assert i > 0 ==> forall j :: 0 <= j < i ==> regions[j].first <= regions[i - 1].first;
    forall q ensures q in rs <==> q in regions || q == r {
      assert regions == regions[..i] + regions[i..];
    }
    OrderedInsert(regions, i, r);
  }

  lemma OrderedInsert(regions: seq<Region>, i: nat, r: Region)
    requires RegionsOrdered(regions) && r.first < r.end && i <= |regions|
    requires forall j :: 0 <= j < i ==> regions[j].end <= r.first
    requires forall j :: i <= j < |regions| ==> r.end <= regions[j].first
    ensures RegionsOrdered(regions[..i] + [r] + regions[i..])
  {
  }

  /** The area with a new region, all of it free; the free blocks list was empty. */
  ghost function Expanded(a: Area, regions: seq<Region>, r: Region): Area
  {
    a.(regions := regions, groups := [Group(r.first, r.end - r.first)],
        mem := a.mem[Addr(r.first, 0) := GC_BLOCKSIZE * (r.end - r.first)])
  }

  ghost predicate Expands(a: Area, regions: seq<Region>, r: Region)
  {
    && Valid(a) && a.groups == [] && Apart(a.regions, r)
    && RegionsOrdered(regions) && (forall q :: q in regions <==> q in a.regions || q == r)
  }

  lemma ExpandedUse(a: Area, regions: seq<Region>, r: Region, k: int)
    requires Expands(a, regions, r)
    ensures InUse(Expanded(a, regions, r), k) <==> InUse(a, k)
  {
    var gs := Expanded(a, regions, r).groups;
    assert gs[..0] == [];
    if InRegions(a.regions, |a.regions|, k) {
      var i :| 0 <= i < |a.regions| && a.regions[i].first <= k < a.regions[i].end;
      assert a.regions[i] in regions;
      var j :| 0 <= j < |regions| && regions[j] == a.regions[i];
      assert InRegions(regions, |regions|, k);
    }
    if InRegions(regions, |regions|, k) {
      var i :| 0 <= i < |regions| && regions[i].first <= k < regions[i].end;
      assert regions[i] in regions;
      if regions[i] != r {
        var j :| 0 <= j < |a.regions| && a.regions[j] == regions[i];
        assert InRegions(a.regions, |a.regions|, k);
      }
    }
  }

  lemma ExpandedTiles(a: Area, regions: seq<Region>, r: Region, k: int)
    requires Tiled(View(a), k, FIRST) && (a.co < a.bo ==> 0 < a.co < GC_BLOCKSIZE)
    ensures var m' := View(Expanded(a, regions, r));
            Tiled(m', k, FIRST) && Tiles(m', k, FIRST) == Tiles(View(a), k, FIRST)
  {
    var m, m' := View(a), View(Expanded(a, regions, r));
    forall t | t in Tiles(m, k, FIRST) ensures Addr(k, t.off) in m' && m'[Addr(k, t.off)] == t.header {
      TileFacts(m, k, FIRST, t);
      AddrApart(k, t.off, r.first, 0);
    }
    TilesFrame(m, m', k, FIRST);
  }

  lemma SlackInside(a: Area)
    requires Valid(a)
    ensures a.co < a.bo ==> FIRST <= a.co < a.bo <= LAST
  {
    if a.co < a.bo {
      FreeTileFacts(a.co, a.bo - a.co);
      TileFacts(View(a), a.ck, FIRST, FreeTile(a.co, a.bo - a.co));
    }
  }

  lemma ExpandedGroup(a: Area, regions: seq<Region>, r: Region)
    requires Expands(a, regions, r)
    ensures GroupsOk([Group(r.first, r.end - r.first)], regions)
  {
    assert r in regions;
    var j :| 0 <= j < |regions| && regions[j] == r;
    assert InOneRegion(Group(r.first, r.end - r.first), regions);
  }

  lemma ExpandedFreeTile(a: Area, regions: seq<Region>, r: Region, k: int, off: int, size: int)
    requires Expands(a, regions, r) && InUse(a, k) && HasFreeTile(View(a), k, off, size)
    ensures InUse(Expanded(a, regions, r), k) && HasFreeTile(View(Expanded(a, regions, r)), k, off, size)
  {
    SlackInside(a);
    ExpandedUse(a, regions, r, k);
    ExpandedTiles(a, regions, r, k);
  }

  lemma ExpandedSized(a: Area, regions: seq<Region>, r: Region)
    requires Valid(a)
    ensures Sized(View(Expanded(a, regions, r)), [Group(r.first, r.end - r.first)])
  {
    SlackInside(a);
    if a.co < a.bo { AddrApart(a.ck, a.co, r.first, 0); }
  }

  lemma ExpandedValid(a: Area, regions: seq<Region>, r: Region)
    requires Expands(a, regions, r)
    ensures Valid(Expanded(a, regions, r))
  {
    var b := Expanded(a, regions, r);
    SlackInside(a);
    ExpandedGroup(a, regions, r);
    ExpandedSized(a, regions, r);
    hide Sized, InUse, HasFreeTile, View, GroupsOk, SlotsDecrease, Tiled, Tiles, SamePlace, Apart;
    forall i | 0 <= i < |a.chunks|
      ensures InUse(b, a.chunks[i].block) && HasFreeTile(View(b), a.chunks[i].block, a.chunks[i].off, a.chunks[i].size)
    {
      assert InUse(a, a.chunks[i].block);
      ExpandedFreeTile(a, regions, r, a.chunks[i].block, a.chunks[i].off, a.chunks[i].size);
    }
    if a.co < a.bo { ExpandedFreeTile(a, regions, r, a.ck, a.co, a.bo - a.co); }
    forall k | InUse(b, k) ensures BlockOk(View(b), k) {
      ExpandedUse(a, regions, r, k);
      assert BlockOk(View(a), k);
      ExpandedTiles(a, regions, r, k);
    }
  }

  lemma ExpandedSame(a: Area, regions: seq<Region>, r: Region)
    requires Expands(a, regions, r)
    ensures SameObjects(a, Expanded(a, regions, r)) && Keeps(a, Expanded(a, regions, r))
  {
    var b := Expanded(a, regions, r);
    SlackInside(a);
    forall o ensures HasObject(a, o) <==> HasObject(b, o) {
      ExpandedUse(a, regions, r, o.block);
      if InUse(a, o.block) {
        assert BlockOk(View(a), o.block);
        ExpandedTiles(a, regions, r, o.block);
        assert forall t :: IsTileOf(View(a), o.block, t, o) <==> IsTileOf(View(b), o.block, t, o);
      }
    }
    hide Expands, HasObject, InUse;
    forall o, x | HasObject(a, o) && o.off <= x < o.End() ensures SameWord(a.mem, b.mem, Addr(o.block, x)) {
      ObjectFits(a, o);
      AddrApart(o.block, x, r.first, 0);
    }
  }

  // ---------------------------------------------------------------------------
  // The block usage table
  // ---------------------------------------------------------------------------

  /** The runs of free blocks from the g-th on start behind the first n regions. */
  ghost predicate Behind(groups: seq<Group>, g: int, regions: seq<Region>, n: int)
  {
    0 <= g <= |groups| && forall i, j :: g <= i < |groups| && 0 <= j < n && j < |regions| ==>
                            regions[j].end <= groups[i].block
  }

  lemma InGroupsNext(groups: seq<Group>, g: nat, k: int)
    requires g < |groups|
    ensures InGroups(groups[..g + 1], k)
            == InGroups(groups[..g], k) + if groups[g].block <= k < groups[g].block + groups[g].count then 1 else 0
  {
    assert groups[..g + 1][..g] == groups[..g];
  }

  lemma GroupRegion(groups: seq<Group>, g: nat, regions: seq<Region>) returns (i: nat)
    requires GroupsOk(groups, regions) && g < |groups|
    ensures i < |regions| && regions[i].first <= groups[g].block < groups[g].block + groups[g].count <= regions[i].end
  {
    assert InOneRegion(groups[g], regions);
    i :| 0 <= i < |regions| && regions[i].first <= groups[g].block &&
        groups[g].block + groups[g].count <= regions[i].end;
  }

  /** A run of blocks that starts in the n-th region ends in it. */
  lemma GroupInside(groups: seq<Group>, g: nat, regions: seq<Region>, n: nat)
    requires RegionsOrdered(regions) && GroupsOk(groups, regions) && g < |groups| && n < |regions|
    requires regions[n].first <= groups[g].block < regions[n].end
    ensures groups[g].block + groups[g].count <= regions[n].end
  {
    var i := GroupRegion(groups, g, regions);
  }

  /** Once no run of blocks starts in the n-th region, the rest start behind it. */
  lemma BehindNext(groups: seq<Group>, g: nat, regions: seq<Region>, n: nat)
    requires RegionsOrdered(regions) && GroupsOk(groups, regions) && n < |regions| && Behind(groups, g, regions, n)
    requires g < |groups| ==> !(regions[n].first <= groups[g].block < regions[n].end)
    ensures Behind(groups, g, regions, n + 1)
  {
    if g < |groups| {
      var i := GroupRegion(groups, g, regions);
      assert n < i ==> regions[n].end <= regions[i].first;
      assert regions[n].end <= groups[g].block;
      forall h | g <= h < |groups| ensures regions[n].end <= groups[h].block {
        if g < h { assert groups[g].block + groups[g].count <= groups[h].block; }
      }
    }
  }

  /** All runs of blocks have been passed once all regions have. */
  lemma BehindAll(groups: seq<Group>, g: nat, regions: seq<Region>)
    requires GroupsOk(groups, regions) && Behind(groups, g, regions, |regions|)
    ensures g == |groups|
  {
    if g < |groups| { var i := GroupRegion(groups, g, regions); }
  }

  function Blocks(from: int, end: int): (ks: set<int>)
    ensures forall k :: k in ks <==> from <= k < end
    decreases end - from
  {
    if from >= end then {} else {from} + Blocks(from + 1, end)
  }

  /** The blocks used, as far as the first n regions and the first g runs of free blocks say. */
  ghost predicate UsedTo(used: set<int>, regions: seq<Region>, n: int, groups: seq<Group>, g: int)
  {
    0 <= g <= |groups| && forall k :: k in used <==> InRegions(regions, n, k) && InGroups(groups[..g], k) == 0
  }

  lemma RegionUsed(used: set<int>, regions: seq<Region>, n: nat, groups: seq<Group>, g: nat)
    requires RegionsOrdered(regions) && n < |regions| && UsedTo(used, regions, n, groups, g)
    requires forall i :: 0 <= i < g ==> groups[i].block + groups[i].count <= regions[n].first
    ensures UsedTo(used + Blocks(regions[n].first, regions[n].end), regions, n + 1, groups, g)
  {
    var r := regions[n];
    forall k ensures InRegions(regions, n + 1, k) <==> InRegions(regions, n, k) || r.first <= k < r.end {}
    forall k | r.first <= k < r.end ensures InGroups(groups[..g], k) == 0 {
      GroupsBefore(groups[..g], k);
    }
  }

  lemma {:induction false} GroupsBefore(groups: seq<Group>, k: int)
    requires forall i :: 0 <= i < |groups| ==> groups[i].block + groups[i].count <= k
    ensures InGroups(groups, k) == 0
    decreases |groups|
  {
    if groups != [] { GroupsBefore(groups[..|groups| - 1], k); }
  }

  lemma GroupUnused(used: set<int>, regions: seq<Region>, n: int, groups: seq<Group>, g: nat)
    requires UsedTo(used, regions, n, groups, g) && g < |groups|
    ensures UsedTo(used - Blocks(groups[g].block, groups[g].block + groups[g].count), regions, n, groups, g + 1)
  {
    forall k ensures InGroups(groups[..g + 1], k)
                     == InGroups(groups[..g], k) + if groups[g].block <= k < groups[g].block + groups[g].count
                         then 1 else 0 {
      InGroupsNext(groups, g, k);
    }
  }

  /** prepare_gc_small's tables: one pass over the regions and the free blocks list side by side. */
  method UsedBlocks(regions: seq<Region>, groups: seq<Group>) returns (used: set<int>)
    requires RegionsOrdered(regions) && GroupsOk(groups, regions)
    ensures forall k :: k in used <==> InRegions(regions, |regions|, k) && InGroups(groups, k) == 0
  {
    hide GroupsOk, UsedTo, InGroups, Behind;
    used := {};
    var g := 0;
    UsedNone(regions, groups);
    for n := 0 to |regions|
      invariant 0 <= g <= |groups| && Behind(groups, g, regions, n) && UsedTo(used, regions, n, groups, g)
      invariant forall i :: 0 <= i < g && n < |regions| ==> groups[i].block + groups[i].count <= regions[n].first
    {
      var r := regions[n];
      RegionUsed(used, regions, n, groups, g);
      used := used + Blocks(r.first, r.end);
      while g < |groups| && r.first <= groups[g].block < r.end
        invariant 0 <= g <= |groups| && Behind(groups, g, regions, n) && UsedTo(used, regions, n + 1, groups, g)
        invariant forall i :: 0 <= i < g ==> groups[i].block + groups[i].count <= r.end
      {
        var group := groups[g];
        GroupInside(groups, g, regions, n);
        GroupUnused(used, regions, n + 1, groups, g);
        BehindLess(groups, g, regions, n);
        used := used - Blocks(group.block, group.block + group.count);
        g := g + 1;
      }
      BehindNext(groups, g, regions, n);
    }
    BehindAll(groups, g, regions);
    UsedAll(used, regions, groups);
  }

  lemma UsedNone(regions: seq<Region>, groups: seq<Group>)
    ensures UsedTo({}, regions, 0, groups, 0) && Behind(groups, 0, regions, 0)
  {
  }

  lemma UsedAll(used: set<int>, regions: seq<Region>, groups: seq<Group>)
    requires UsedTo(used, regions, |regions|, groups, |groups|)
    ensures forall k :: k in used <==> InRegions(regions, |regions|, k) && InGroups(groups, k) == 0
  {
    assert groups[..|groups|] == groups;
  }

  lemma BehindLess(groups: seq<Group>, g: nat, regions: seq<Region>, n: nat)
    requires Behind(groups, g, regions, n) && g < |groups|
    ensures Behind(groups, g + 1, regions, n)
  {
  }

  // ---------------------------------------------------------------------------
  // The allocator
  // ---------------------------------------------------------------------------

  /** The objects of a are those of b, word for word. */
  ghost predicate Same(a: Area, b: Area) { SameObjects(a, b) && Keeps(a, b) }

  lemma SameTrans(a: Area, b: Area, c: Area)
    requires Same(a, b) && Same(b, c)
    ensures Same(a, c)
  {
    hide HasObject;
  }

  /** Chunks are listed by decreasing size, so the first one decides. */
  lemma LargestFirst(a: Area, size: int, i: nat)
    requires ChunksOk(a) && i < |a.chunks| && size % 8 == 0 && a.chunks[0].size < size
    ensures a.chunks[i].size < size
  {
    hide InUse, View, Tiled, Tiles;
    var c, d := a.chunks[0], a.chunks[i];
    assert HasFreeTile(View(a), d.block, d.off, d.size);
    assert i > 0 ==> Slot(c) >= Slot(d);
  }

  /** The header of the current free area is in memory. */
  ghost predicate Parked(a: Area) { a.mem == View(a) }

  /**
   * The object of the given size at offset off is cut off, but its header is still to be
   * written; v is the area by then.
   */
  ghost predicate Pending(a: Area, off: int, size: int, v: Area)
  {
    Room(a, v.ck, off, size, v.bo) && v == a.(ck := v.ck, co := off + size, bo := v.bo)
  }

  ghost predicate IsSize(size: int) { 0 < size < GC_MAX_SMALL_OBJECT_SIZE && size % MEMALIGN == 0 }

  /** Cutting the object off the first chunk. */
  lemma FromChunk(v: Area, size: int)
    requires Valid(v) && Parked(v) && v.chunks != [] && v.chunks[0].size >= size && IsSize(size)
    ensures var c, a := v.chunks[0], WithoutChunk(Retire(v));
            && Pending(a, c.off, size,
                 v.(chunks := v.chunks[1..], ck := c.block, co := c.off + size, bo := c.off + c.size))
            && Same(v, a)
  {
    hide Valid, ChunksOk, InUse, HasFreeTile, HasObject, BlockOk, View, SameWord;
    RetireKeeps(v);
    RetireSame(v);
    ChunkRoom(Retire(v), size);
    WithoutChunkSame(Retire(v));
    SameTrans(v, Retire(v), WithoutChunk(Retire(v)));
  }

  /** Cutting the object off the first free block. */
  lemma FromBlock(v: Area, size: int)
    requires Valid(v) && Parked(v) && v.groups != [] && IsSize(size)
    ensures var k, a := v.groups[0].block, OpenBlock(Retire(v));
            && Pending(a, FIRST, size, v.(mem := BlockTaken(v.mem, v.groups), groups := WithoutBlock(v.groups), ck := k,
                     co := FIRST + size, bo := LAST))
            && Same(v, a)
  {
    hide Valid, ChunksOk, InUse, HasFreeTile, HasObject, BlockOk, View, SameWord;
    RetireKeeps(v);
    RetireSame(v);
    OpenRoom(Retire(v), size);
    OpenSame(Retire(v));
    SameTrans(v, Retire(v), OpenBlock(Retire(v)));
  }

  /** The objects of a that are in live are the objects of b, word for word. */
  ghost predicate Survived(a: Area, live: set<int>, b: Area)
  {
    && (forall o :: HasObject(b, o) <==> HasObject(a, o) && Pointer(o) in live)
    && (forall o, x :: HasObject(b, o) && o.off <= x < o.End() ==> SameWord(a.mem, b.mem, Addr(o.block, x)))
  }

  /** Every address in live is that of an object. */
  ghost predicate AllObjects(a: Area, live: set<int>)
  {
    forall p :: p in live ==> exists o :: HasObject(a, o) && Pointer(o) == p
  }

  lemma CollectionSurvived(a: Area, used: set<int>, live: set<int>, top: int, b: Area)
    requires Collection(a, used, live, top, b)
    ensures Survived(a, live, b) && Valid(b)
  {
    AfterValid(a, used, live, top, b);
    hide Collection, HasObject, Valid;
    forall o
      ensures HasObject(b, o) <==> HasObject(a, o) && Pointer(o) in live
    {
      AfterObject(a, used, live, top, b, o);
    }
    forall o, x | HasObject(b, o) && o.off <= x < o.End() ensures SameWord(a.mem, b.mem, Addr(o.block, x)) {
      AfterBytes(a, used, live, top, b, o, x);
    }
  }

  lemma SurvivedFrom(a: Area, b: Area, live: set<int>, c: Area)
    requires Same(a, b) && Survived(b, live, c)
    ensures Survived(a, live, c)
  {
    hide HasObject;
  }

  lemma AllObjectsSame(a: Area, b: Area, live: set<int>)
    requires AllObjects(a, live) && Same(a, b)
    ensures AllObjects(b, live)
  {
    hide HasObject;
  }

  // ---------------------------------------------------------------------------
  // Where an allocation takes its memory from
  // ---------------------------------------------------------------------------

  /** No chunk of the area is large enough, and no block is free. */
  ghost predicate Lacks(v: Area, size: int)
  {
    v.groups == [] && forall i :: 0 <= i < |v.chunks| ==> v.chunks[i].size < size
  }

  /** The same regions and free lists. */
  ghost predicate SameLists(v: Area, w: Area) { w.regions == v.regions && w.chunks == v.chunks && w.groups == v.groups }

  /**
   * From area v, `size` bytes at offset `off` of the block that is current in w: from the first
   * chunk if that is large enough, else from the first free block.  The rest is the free area.
   */
  ghost predicate Took(v: Area, size: int, w: Area, off: int)
  {
    && w.regions == v.regions
    && if v.chunks != [] && v.chunks[0].size >= size then
         && w.chunks == v.chunks[1..] && w.groups == v.groups
         && w.ck == v.chunks[0].block && off == v.chunks[0].off && w.bo - w.co == v.chunks[0].size - size
       else
         && w.chunks == v.chunks && v.groups != [] && w.groups == WithoutBlock(v.groups)
         && w.ck == v.groups[0].block && off == FIRST && w.bo - w.co == LAST - FIRST - size
  }

  /** From the first block of a new region that starts at block `first`. */
  ghost predicate TookNew(v: Area, size: int, w: Area, off: int, first: int)
  {
    && (forall r :: r in w.regions <==> r in v.regions || r == Region(first, first + REGION_BLOCKS))
    && w.chunks == v.chunks && w.groups == [Group(first + 1, REGION_BLOCKS - 1)]
    && w.ck == first && off == FIRST && w.bo - w.co == LAST - FIRST - size
  }

  /**
   * What slow_small_allocate makes of area v, once it has decided whether to collect: it takes
   * what is there; if that is not enough it takes a new region; and it fails if it gets none.
   */
  ghost predicate Allocates(v: Area, size: int, supply: Option<int>, ok: bool, w: Area, off: int)
  {
    && (ok <==> !Lacks(v, size) || supply.Some?)
    && (!Lacks(v, size) ==> Took(v, size, w, off))
    && (Lacks(v, size) && supply.Some? ==> TookNew(v, size, w, off, supply.value))
    && (!ok ==> SameLists(v, w))
  }

  lemma AllocatesMem(v: Area, size: int, supply: Option<int>, ok: bool, w: Area, off: int, m: Memory)
    ensures Allocates(v, size, supply, ok, w, off) ==> Allocates(v, size, supply, ok, w.(mem := m), off)
  {
  }

  class SmallHeap {
    var mem: Memory
    var regions: seq<Region>     // in address order
    var chunks: seq<Chunk>       // small_chunks
    var blocks: seq<Group>       // small_blocks
    var cursor: int              // small_cursor
    var bound: int               // small_bound
    var smallSize: int           // gc_stats.small_size
    var smallAlloc: int          // gc_stats.small_alloc
    ghost var ck: int            // the block of the current free area
    ghost var handed: int        // bytes handed out since the last collection
    ghost var debt: int          // slack that failed calls took off smallAlloc although it stayed current

    ghost function Value(): Area
      reads this
    {
      Area(mem, regions, chunks, blocks, ck, cursor - Addr(ck, 0), bound - Addr(ck, 0))
    }

    ghost predicate Valid() reads this { SmallArea.Valid(Value()) }

    /** The statistics are those of the bytes handed out, up to the unused tail of the current free area. */
    ghost predicate Exact() reads this { smallAlloc + debt == handed + (bound - cursor) && debt >= 0 }

    /** No chunk is large enough, and no block is free. */
    ghost predicate Starved(size: int) reads this { Lacks(Value(), size) }

    /**
     * What a failing call takes off the statistics for good: no memory within the limit, and a
     * free area that is too small.
     */
    ghost predicate RunsUpDebt(size: int, limit: int, supply: Option<int>) reads this
    {
      cursor < bound < cursor + size && Starved(size) && smallSize + GC_REGIONSIZE <= limit && supply.None?
    }

    /** The free lists and the size of the current free area. */
    ghost predicate OnlySlack(cs: seq<Chunk>, groups: seq<Group>, slack: int) reads this
    {
      chunks == cs && blocks == groups && bound - cursor == slack
    }

    constructor ()
      ensures Valid() && Exact() && debt == 0 && smallAlloc == 0 && smallSize == 0 && forall o :: !HasObject(Value(), o)
      ensures regions == [] && OnlySlack([], [], 0)
    {
      mem, regions, chunks, blocks := map[], [], [], [];
      cursor, bound, smallSize, smallAlloc := 0, 0, 0, 0;
      ck, handed, debt := 0, 0, 0;
    }

    /** Set up the header of the current free area so that header walks work. */
    method SetSlackHeader()
      requires Valid()
      modifies `mem, `smallAlloc
      ensures Value() == old(Value()).(mem := old(View(Value()))) && Valid() && Parked(Value())
      ensures smallAlloc == old(smallAlloc) - (bound - cursor) && Same(old(Value()), Value())
    {
      ParkKeeps(Value());
      if cursor < bound {
        mem := mem[cursor := bound - cursor + FREE_BIT];
        smallAlloc := smallAlloc - (bound - cursor);
      }
    }

    /** get_small_block */
    method GetSmallBlock() returns (at: int)
      requires blocks != [] && Sized(mem, blocks)
      modifies `mem, `blocks
      ensures at == Addr(old(blocks)[0].block, 0)
      ensures mem == BlockTaken(old(mem), old(blocks)) && blocks == WithoutBlock(old(blocks))
    {
      var g := blocks[0];
      at := Addr(g.block, 0);
      var size := mem[at];
      if size == GC_BLOCKSIZE {
        blocks := blocks[1..];
      } else {
        mem := mem[Addr(g.block + 1, 0) := size - GC_BLOCKSIZE];
        blocks := [Group(g.block + 1, g.count - 1)] + blocks[1..];
      }
    }

    /** get_small_chunk: fails only if no chunk is large enough and no block is free. */
    method GetSmallChunk(size: int) returns (ok: bool, p: int, ghost a: Area, ghost off: int)
      requires Valid() && Parked(Value()) && IsSize(size)
      modifies `mem, `chunks, `blocks, `cursor, `bound, `smallAlloc, `ck
      ensures ok <==> !old(Starved(size))
      ensures !ok ==> Value() == old(Value()) && smallAlloc == old(smallAlloc)
      ensures ok ==> Pending(a, off, size, Value()) && Same(old(Value()), a) && p == Addr(ck, off) && cursor == p + size
      ensures ok ==> smallAlloc == old(smallAlloc) + (bound - p)
      ensures ok ==> Took(old(Value()), size, Value(), off)
    {
      hide Pending, Same, HasFreeTile, InUse, View, BlockOk, HasObject;
      ok, p, a, off := true, 0, Value(), 0;
      if chunks != [] && chunks[0].size >= size {
        FromChunk(Value(), size);
        a := WithoutChunk(Retire(Value()));
        off := chunks[0].off;
        ck := chunks[0].block;
        p := Addr(chunks[0].block, chunks[0].off);
        bound := p + chunks[0].size;
        chunks := chunks[1..];
      } else if blocks != [] {
        FromBlock(Value(), size);
        a := OpenBlock(Retire(Value()));
        off := FIRST;
        ck := blocks[0].block;
        var block := GetSmallBlock();
        bound := block + (GC_BLOCKSIZE - GC_HEAD);
        p := block + (MEMALIGN - GC_HEAD);
      } else {
        ok := false;
        NoneFits(Value(), size);
        return;
      }
      cursor := p + size;
      smallAlloc := smallAlloc + (bound - p);
    }

    /** expand_small_area, when the system provides a region that starts at block `supply`, or none. */
    method ExpandSmallArea(supply: Option<int>)
      requires Valid() && blocks == [] && (supply.Some? ==> NewRegion(regions, supply.value))
      modifies `mem, `regions, `blocks, `smallSize
      ensures Valid() && Same(old(Value()), Value())
      ensures supply.None? ==> Value() == old(Value())
      ensures supply.Some? ==>
              && blocks == [Group(supply.value, REGION_BLOCKS)] && smallSize == old(smallSize) + GC_REGIONSIZE
              && forall r :: r in regions <==>
                   r in old(regions) || r == Region(supply.value, supply.value + REGION_BLOCKS)
      ensures supply.None? ==> smallSize == old(smallSize)
      ensures Parked(old(Value())) ==> Parked(Value())
    {
      hide HasFreeTile, InUse, BlockOk, HasObject, NewRegion, View, ChunksOk, GroupsOk;
      if supply.None? {
        SameRefl(Value());
        return;
      }
      NewRegionApart(regions, supply.value);
      var r := Region(supply.value, supply.value + REGION_BLOCKS);
      var rs := InsertRegion(regions, r);
      ExpandedValid(Value(), rs, r);
      ExpandedSame(Value(), rs, r);
      ExpandedParked(Value(), rs, r);
      regions := rs;
      blocks := [Group(r.first, REGION_BLOCKS)];
      mem := mem[Addr(r.first, 0) := GC_REGIONSIZE];
      smallSize := smallSize + GC_REGIONSIZE;
    }

    /**
     * A collection, as far as the small object area is concerned: prepare_gc_small, the
     * mark bits of the live objects, sweep_small, and the reset of the statistics.
     */
    method Collect(live: set<int>)
      requires Valid() && AllObjects(Value(), live)
      modifies this
      ensures Valid() && Survived(old(Value()), live, Value()) && Conserved(Value()) && cursor == bound == 0
      ensures regions == old(regions) && smallAlloc == handed == debt == 0 && smallSize == old(smallSize)
    {
      hide SmallArea.Valid, Same, Parked, AllObjects, Survived, AreaTiled, Outcome, View, Collection, Ready, Conserved;
      SetSlackHeader();
      ghost var a := DropSlack();
      ghost var v := old(Value()).(mem := old(View(Value())));
      SameTrans(old(Value()), v, a);
      CanCollect(old(Value()), a, live);
      var used := UsedBlocks(regions, blocks);
      ghost var top := SMALL_CHUNKS_LIST_INDEX_SIZE - 1;
      ReadyToCollect(a, used, live);
      StampedTiled(a, used, live);
      var s := SweepNormal(Stamp(mem, live), used, regions, top);
      mem, chunks, blocks := s.mem, s.chunks, s.blocks;
      CollectionIs(a, used, live, top, Value());
      CollectionSurvived(a, used, live, top, Value());
      AfterConserved(a, used, live, top, Value());
      SurvivedFrom(old(Value()), a, live, Value());
      smallAlloc, handed, debt := 0, 0, 0;
    }

    /** gc_stats.small_size grows by a region exactly if one is added. */
    ghost predicate Sizes(v: Area, size: int, supply: Option<int>, before: int) reads this
    {
      smallSize == if Lacks(v, size) && supply.Some? then before + GC_REGIONSIZE else before
    }

    /** The statistics while no free area is accounted for. */
    ghost predicate Flat() reads this { smallAlloc + debt == handed }

    /** The second half of slow_small_allocate: expand and try again. */
    method ExpandAndRetry(size: int, supply: Option<int>) returns (ok: bool, p: int, ghost a: Area, ghost off: int)
      requires Valid() && Parked(Value()) && Flat() && IsSize(size) && Starved(size)
      requires supply.Some? ==> NewRegion(regions, supply.value)
      modifies `mem, `regions, `chunks, `blocks, `cursor, `bound, `smallSize, `smallAlloc, `ck
      ensures !ok ==> Valid() && Same(old(Value()), Value()) && Flat() && cursor == old(cursor) && bound == old(bound)
      ensures ok ==> Pending(a, off, size, Value()) && Same(old(Value()), a) && p == Addr(ck, off) && cursor == p + size
      ensures ok ==> smallAlloc + debt == handed + (bound - p)
      ensures ok <==> supply.Some?
      ensures ok ==> TookNew(old(Value()), size, Value(), off, supply.value) &&
                       smallSize == old(smallSize) + GC_REGIONSIZE
      ensures !ok ==> SameLists(old(Value()), Value()) && smallSize == old(smallSize)
    {
      hide SmallArea.Valid, Same, Parked, Pending, NewRegion;
      ExpandSmallArea(supply);
      ghost var v := Value();
      ok, p, a, off := GetSmallChunk(size);
      if ok { SameTrans(old(Value()), v, a); }
    }

    /** ... or collect first, and expand if that does not help. */
    method CollectAndRetry(size: int, supply: Option<int>, live: Option<set<int>>)
      returns (ok: bool, p: int, ghost mid: Area, ghost a: Area, ghost off: int)
      requires Valid() && Parked(Value()) && Flat() && IsSize(size)
      requires supply.Some? ==> NewRegion(regions, supply.value)
      requires live.Some? ==> AllObjects(Value(), live.value)
      modifies this
      ensures Middle(old(Value()), live, mid)
      ensures handed == (if live.Some? then 0 else old(handed)) && debt == if live.Some? then 0 else old(debt)
      ensures !ok ==> Valid() && Same(mid, Value()) && Flat() && cursor == bound
      ensures ok ==> Pending(a, off, size, Value()) && Same(mid, a) && p == Addr(ck, off) && cursor == p + size
      ensures ok ==> smallAlloc + debt == handed + (bound - p)
      ensures mid.regions == old(regions) && (live.None? ==> SameLists(old(Value()), mid))
      ensures live.Some? ==> Conserved(mid)
      ensures Allocates(mid, size, supply, ok, Value(), off) && Sizes(mid, size, supply, old(smallSize))
    {
      hide SmallArea.Valid, Same, Parked, Pending, NewRegion, AllObjects, Survived, Conserved;
      ghost var d := DropSlack();
      if live.Some? {
        AllObjectsSame(old(Value()), d, live.value);
        Collect(live.value);
        SurvivedFrom(old(Value()), d, live.value, Value());
      }
      mid := Value();
      SetSlackHeader();
      ghost var v := Value();
      ok, p, a, off := GetSmallChunk(size);
      if ok {
        SameTrans(mid, v, a);
      } else {
        ok, p, a, off := ExpandAndRetry(size, supply);
        if ok { SameTrans(mid, v, a); } else { SameTrans(mid, v, Value()); }
      }
    }

    /**
     * slow_small_allocate.  `limit` is what heap_size leaves to the small object area, `supply`
     * the region the system would provide, and `live` what a collection would find live, if
     * the collector is not disabled.
     */
    method SlowSmallAllocate(size: int, limit: int, supply: Option<int>, live: Option<set<int>>)
      returns (ok: bool, p: int, ghost collected: bool, ghost mid: Area, ghost a: Area, ghost off: int)
      requires Valid() && Exact() && IsSize(size)
      requires supply.Some? ==> NewRegion(regions, supply.value)
      requires live.Some? ==> AllObjects(Value(), live.value)
      modifies this
      ensures Middle(old(Value()), if collected then live else None, mid)
      ensures handed == if collected then 0 else old(handed)
      ensures ok ==> debt == if collected then 0 else old(debt)
      ensures !ok ==> Valid() && Same(mid, Value()) && Exact()
      ensures !ok ==> debt == if collected then 0 else old(debt) + (bound - cursor)
      ensures ok ==> Pending(a, off, size, Value()) && Same(mid, a) && p == Addr(ck, off) && cursor == p + size
      ensures ok ==> smallAlloc + debt == handed + (bound - p)
      ensures collected <==> old(Starved(size)) && old(smallSize) + GC_REGIONSIZE > limit && live.Some?
      ensures mid.regions == old(regions) && (if collected then Conserved(mid) else SameLists(old(Value()), mid))
      ensures Allocates(mid, size, supply, ok, Value(), off) && Sizes(mid, size, supply, old(smallSize))
      ensures old(Starved(size)) && old(smallSize) + GC_REGIONSIZE <= limit && supply.None? ==>
              !ok && cursor == old(cursor) && bound == old(bound)
      ensures !(old(Starved(size)) && old(smallSize) + GC_REGIONSIZE <= limit && supply.None?) ==>
              ok || collected || cursor == bound
    {
      hide SmallArea.Valid, Same, Parked, Pending, NewRegion, AllObjects, Survived, View, Conserved;
      SetSlackHeader();
      collected, mid := false, Value();
      ghost var v := Value();
      ok, p, a, off := GetSmallChunk(size);
      if !ok {
        if smallSize + GC_REGIONSIZE <= limit {
          ok, p, a, off := ExpandAndRetry(size, supply);
          if !ok {
            SlackOrdered(Value());
            debt := debt + (bound - cursor);
          }
        } else {
          if live.Some? { AllObjectsSame(old(Value()), v, live.value); }
          ok, p, mid, a, off := CollectAndRetry(size, supply, live);
          collected := live.Some?;
          MiddleFrom(old(Value()), v, live, mid);
        }
      }
    }

    /**
     * gc_malloc_small.  Either the call fails and the objects are those of `mid`, or it returns
     * one new zeroed object that overlaps none of them; `mid` is the area before the call, or
     * what a collection made of it.
     */
    method MallocSmall(size: int, limit: int, supply: Option<int>, live: Option<set<int>>)
      returns (ok: bool, p: int, ghost collected: bool, ghost mid: Area, ghost o: Object)
      requires Valid() && Exact() && IsSize(size)
      requires supply.Some? ==> NewRegion(regions, supply.value)
      requires live.Some? ==> AllObjects(Value(), live.value)
      modifies this
      ensures Valid() && Exact() && Middle(old(Value()), if collected then live else None, mid)
      ensures ok ==> Grew(mid, Value(), o) && p == Pointer(o) && o.size == size
      ensures !ok ==> Same(mid, Value())
      ensures handed == (if collected then 0 else old(handed)) + (if ok then size else 0)
      ensures debt == if collected then 0 else if ok then old(debt) else old(debt) + (bound - cursor)
      ensures debt > old(debt) <==> old(RunsUpDebt(size, limit, supply))
      ensures old(RunsUpDebt(size, limit, supply)) ==> !ok && debt == old(debt) + old(bound - cursor)
      ensures old(cursor) + size <= old(bound) ==>
              && ok && !collected && p == old(cursor) + GC_HEAD && regions == old(regions)
              && OnlySlack(old(chunks), old(blocks), old(bound - cursor) - size)
      ensures old(cursor) + size > old(bound) ==>
              && (collected <==> old(Starved(size)) && old(smallSize) + GC_REGIONSIZE > limit && live.Some?)
              && mid.regions == old(regions) && (if collected then Conserved(mid) else SameLists(old(Value()), mid))
              && Allocates(mid, size, supply, ok, Value(), o.off) && Sizes(mid, size, supply, old(smallSize))
    {
      hide SmallArea.Valid, Same, Parked, Pending, NewRegion, AllObjects, Survived, View, Room, Grew, Allocates,
           SameLists, Conserved, Zeroed, IsSize;
      collected, mid, ok := false, Value(), true;
      ghost var a, off := Value(), Value().co;
      var tmp := cursor;
      cursor := tmp + size;
      if cursor > bound {
        cursor := cursor - size;
        SameRefl(mid);
        ok, tmp, collected, mid, a, off := SlowSmallAllocate(size, limit, supply, live);
        if !ok {
          p, o := 0, Object(0, off, 0);
          return;
        }
      } else {
        SameRefl(mid);
        FromSlack(mid, size, Value());
      }
      o := Object(ck, off, size);
      Finished(mid, a, off, size, Value());
      AllocatesMem(mid, size, supply, ok, Value(), off, Zeroed(mem, tmp, size)[tmp := size]);
      mem := Zeroed(mem, tmp, size)[tmp := size];
      handed := handed + size;
      p := tmp + GC_HEAD;
    }

    /** small_cursor = small_bound = NULL, once the header of the free area is in place. */
    method DropSlack() returns (ghost a: Area)
      requires Valid() && Parked(Value())
      modifies `cursor, `bound
      ensures cursor == bound == 0 && Value() == a && Valid() && Same(old(Value()), a)
    {
      hide SmallArea.Valid, Same, Parked;
      DropKeeps(Value(), 0 - Addr(ck, 0));
      cursor, bound := 0, 0;
      a := Value();
    }
  }

  /**
   * The statistics can go wrong: objects of 1016 bytes fill a region of 512 blocks, four to a
   * block, and the next call finds no memory.  The 24 bytes that the current block has left
   * are then missing from gc_stats.small_alloc.
   */
  method DebtRun() returns (heap: SmallHeap)
    ensures heap.Valid() && heap.Exact() && heap.debt == 24 && heap.smallAlloc == heap.handed
  {
    hide SmallArea.Valid, Grew, Same, Middle, NewRegion, HasObject, AllObjects, WithoutBlock, Run, Conserved;
    heap := new SmallHeap();
    FirstRegion();
    var ok, p, collected, mid, o := heap.MallocSmall(1016, heap.smallSize + GC_REGIONSIZE, Some(1), None);
    var k, j := 1, 1;
    TakeOne(1, REGION_BLOCKS);
    while k < REGION_BLOCKS || j < 4
      invariant 1 <= k <= REGION_BLOCKS && 1 <= j <= 4 && heap.Valid() && heap.Exact() && heap.debt == 0
      invariant heap.OnlySlack([], Run(k + 1, REGION_BLOCKS - k), 4088 - 1016 * j)
      decreases REGION_BLOCKS - k, 4 - j
    {
      if k < REGION_BLOCKS { TakeOne(k + 1, REGION_BLOCKS - k); }
      ok, p, collected, mid, o := heap.MallocSmall(1016, heap.smallSize + GC_REGIONSIZE, None, None);
      if j < 4 { j := j + 1; } else { k, j := k + 1, 1; }
    }
    TakeOne(REGION_BLOCKS, 1);
    ok, p, collected, mid, o := heap.MallocSmall(1016, heap.smallSize + GC_REGIONSIZE, None, None);
  }

  /** A run of blocks after taking the first. */
  lemma TakeOne(k: int, n: int)
    requires n > 0
    ensures Run(k, n) == [Group(k, n)] && WithoutBlock([Group(k, n)]) == Run(k + 1, n - 1) && Run(k + n, 0) == []
    ensures Run(k + 1, n - 1) == if n == 1 then [] else [Group(k + 1, n - 1)]
  {
  }

  lemma FirstRegion()
    ensures NewRegion([], 1)
  {
  }

  /**
   * If a collection was of no use for a call, every block of the area holds an object that is
   * live.
   */
  lemma NoBlockLeft(mid: Area, size: int, k: int)
    requires Conserved(mid) && Lacks(mid, size) && InRegions(mid.regions, |mid.regions|, k)
    ensures exists o :: HasObject(mid, o) && o.block == k
  {
  }

  lemma SlackOrdered(a: Area)
    requires Valid(a)
    ensures a.co <= a.bo
  {
  }

  lemma NoneFits(a: Area, size: int)
    requires ChunksOk(a) && IsSize(size) && (a.chunks != [] ==> a.chunks[0].size < size)
    ensures forall i :: 0 <= i < |a.chunks| ==> a.chunks[i].size < size
  {
    forall i | 0 <= i < |a.chunks| ensures a.chunks[i].size < size { LargestFirst(a, size, i); }
  }

  lemma ParkKeeps(v: Area)
    requires Valid(v)
    ensures var w := v.(mem := View(v)); Valid(w) && Parked(w) && Same(v, w)
  {
    var w := v.(mem := View(v));
    RetireSame(v);
    assert View(w) == View(v) && forall k :: InUse(v, k) <==> InUse(w, k);
    assert forall o :: HasObject(v, o) <==> HasObject(w, o);
  }

  ghost predicate NewRegion(regions: seq<Region>, first: int) { Apart(regions, Region(first, first + REGION_BLOCKS)) }

  lemma NewRegionApart(regions: seq<Region>, first: int)
    requires NewRegion(regions, first)
    ensures Apart(regions, Region(first, first + REGION_BLOCKS))
  {
  }

  lemma SameRefl(a: Area)
    ensures Same(a, a)
  {
  }

  lemma ExpandedParked(a: Area, regions: seq<Region>, r: Region)
    requires Valid(a)
    ensures Parked(a) ==> Parked(Expanded(a, regions, r))
  {
    SlackInside(a);
    if a.co < a.bo { AddrApart(a.ck, a.co, r.first, 0); }
  }

  /** Once its header is in place, the free area need not be current. */
  lemma DropKeeps(a: Area, z: int)
    requires Valid(a) && Parked(a)
    ensures Valid(a.(co := z, bo := z)) && Same(a, a.(co := z, bo := z))
  {
    RetireKeeps(a);
    RetireSame(a);
    var b, c := Retire(a), a.(co := z, bo := z);
    assert View(c) == View(b) && forall k :: InUse(b, k) <==> InUse(c, k);
    assert Valid(c) && forall o :: HasObject(b, o) <==> HasObject(c, o);
    hide Valid, View, InUse, HasObject;
    SameTrans(a, b, c);
  }

  lemma ReadyToCollect(a: Area, used: set<int>, live: set<int>)
    requires Valid(a) && a.co == a.bo && AllObjects(a, live)
    requires forall k :: k in used <==> InRegions(a.regions, |a.regions|, k) && InGroups(a.groups, k) == 0
    ensures Ready(a, used, live)
  {
  }

  lemma CanCollect(a: Area, b: Area, live: set<int>)
    requires Valid(b) && Same(a, b) && AllObjects(a, live)
    ensures AllObjects(b, live) && RegionsOrdered(b.regions) && GroupsOk(b.groups, b.regions)
  {
    AllObjectsSame(a, b, live);
  }

  lemma CollectionIs(a: Area, used: set<int>, live: set<int>, top: int, b: Area)
    requires Ready(a, used, live) && AreaTiled(Stamp(a.mem, live), used, a.regions)
    requires top == SMALL_CHUNKS_LIST_INDEX_SIZE - 1
    requires var s := Outcome(Stamp(a.mem, live), used, a.regions, top);
             b == a.(mem := s.mem, chunks := s.chunks, groups := s.blocks)
    ensures Collection(a, used, live, top, b) && RegionsOrdered(a.regions)
  {
  }

  /** mid is the area a before allocation: collected, if the collector is not disabled. */
  ghost predicate Middle(a: Area, live: Option<set<int>>, mid: Area)
  {
    if live.Some? then Survived(a, live.value, mid) else Same(a, mid)
  }

  lemma MiddleFrom(a: Area, b: Area, live: Option<set<int>>, mid: Area)
    requires Same(a, b) && Middle(b, live, mid)
    ensures Middle(a, live, mid)
  {
    if live.Some? { SurvivedFrom(a, b, live.value, mid); } else { SameTrans(a, b, mid); }
  }

  /** Cutting the object off the current free area. */
  lemma FromSlack(a: Area, size: int, v: Area)
    requires Valid(a) && IsSize(size) && a.co + size <= a.bo && v == a.(co := a.co + size)
    ensures Pending(a, a.co, size, v)
  {
  }

  /** Writing the header and clearing the rest completes the allocation. */
  lemma Finished(mid: Area, a: Area, off: int, size: int, v: Area)
    requires Same(mid, a) && Pending(a, off, size, v)
    ensures var b := v.(mem := Placed(v.mem, v.ck, off, size)); Grew(mid, b, Object(v.ck, off, size)) && Valid(b)
  {
    hide Valid, HasObject, Room, Blank;
    PlaceGrew(a, v.ck, off, size, v.bo);
    GrewFrom(mid, a, Place(a, v.ck, off, size, v.bo), Object(v.ck, off, size));
  }
}
