/**
 * The small object area after a sweep (src/runtime/gc.c): every block that is still
 * in use is tiled exactly by its live objects, now unmarked, and its free chunks.
 */
module AfterSweep {
  import opened Header
  import opened FreeSpace
  import opened ChunkIndex
  import opened SweepSteps
  import opened SmallSweep
  import opened SweepArea
  import opened HeapWalk
  import opened SmallArea
  import opened MarkPhase

  // ---------------------------------------------------------------------------
  // The chunks of a block, of a region and of the whole area
  // ---------------------------------------------------------------------------

  /** c and its successors are apart, in address order. */
  ghost predicate ChunkBefore(c: Chunk, d: Chunk)
  {
    c.block < d.block || (c.block == d.block && c.off + c.size <= d.off)
  }

  ghost predicate Ascending(cs: seq<Chunk>) { forall i, j :: 0 <= i < j < |cs| ==> ChunkBefore(cs[i], cs[j]) }

  ghost predicate Apart(c: Chunk, o: Object) { c.block != o.block || c.off + c.size <= o.off || o.End() <= c.off }

  /** The gaps of a block: ascending, inside the limits, and apart from its objects. */
  lemma {:induction false} GapsFacts(k: int, from: int, objs: seq<Object>, to: int)
    requires Within(objs, k, k + 1) && from <= to
    requires forall i :: 0 <= i < |objs| ==> from <= objs[i].off && objs[i].End() <= to
    ensures var g := Gaps(k, from, objs, to);
            && Ascending(g)
            && (forall i :: 0 <= i < |g| ==>
                  g[i].block == k && from <= g[i].off && 0 < g[i].size && g[i].off + g[i].size <= to)
            && (forall i, j :: 0 <= i < |g| && 0 <= j < |objs| ==> Apart(g[i], objs[j]))
    decreases |objs|
  {
    if objs != [] {
      var o, rest := objs[0], objs[1..];
      assert Fits(o);
      forall i | 0 <= i < |rest| ensures o.End() <= rest[i].off && rest[i].block == k {
        assert Before(objs[0], objs[i + 1]);
      }
      GapsFacts(k, o.End(), rest, to);
      var g, g', b := Gaps(k, from, objs, to), Gaps(k, o.End(), rest, to), Between(k, from, o.off);
      assert g == b + g';
      forall i, j | 0 <= i < |g| && 0 <= j < |objs| ensures Apart(g[i], objs[j]) {
        if i < |b| {
          assert g[i] == Chunk(k, from, o.off - from);
          if j > 0 { assert objs[j] == rest[j - 1]; }
        } else {
          assert g[i] == g'[i - |b|];
          if j > 0 { assert objs[j] == rest[j - 1]; }
        }
      }
      forall i, j | 0 <= i < j < |g| ensures ChunkBefore(g[i], g[j]) {
        assert g[j] == g'[j - |b|];
        if i >= |b| { assert g[i] == g'[i - |b|]; }
      }
    }
  }

  /** The free chunks of block j, when its marked objects are kept. */
  ghost function BlockChunks(m: Memory, used: set<int>, j: int): seq<Chunk>
  {
    if BlockObjects(m, used, j) == [] then [] else Gaps(j, FIRST, BlockObjects(m, used, j), LAST)
  }

  /** The marked objects of block j, if it is in use. */
  ghost function BlockObjects(m: Memory, used: set<int>, j: int): seq<Object>
  {
    if j in used && Tiled(m, j, FIRST) then MarkedFrom(m, j, FIRST) else []
  }

  lemma BlockChunksFacts(m: Memory, used: set<int>, j: int)
    ensures var g, objs := BlockChunks(m, used, j), BlockObjects(m, used, j);
            && Ascending(g) && Within(objs, j, j + 1) && HeadersIn(m, objs)
            && (forall i :: 0 <= i < |g| ==> g[i].block == j && ChunkFits(g[i]))
            && (forall i, l :: 0 <= i < |g| && 0 <= l < |objs| ==> Apart(g[i], objs[l]))
  {
    var here := BlockObjects(m, used, j);
    if here != [] {
      MarkedFromWithin(m, j, FIRST);
      forall i | 0 <= i < |here| ensures FIRST <= here[i].off && here[i].End() <= LAST { assert Fits(here[i]); }
      GapsFacts(j, FIRST, here, LAST);
    }
  }

  lemma MarkedInStep(m: Memory, used: set<int>, k: int, end: int)
    requires BlocksTiled(m, used, k, end) && k < end
    ensures var here, rest := BlockObjects(m, used, k), MarkedIn(m, used, k + 1, end);
            && MarkedIn(m, used, k, end) == here + rest && Leading(here + rest, k + 1) == |here|
            && (here + rest)[..|here|] == here && (here + rest)[|here|..] == rest
            && Within(here, k, k + 1) && Within(rest, k + 1, end)
  {
    MarkedInWithin(m, used, k + 1, end);
    BlockChunksFacts(m, used, k);
    WithinAppend(BlockObjects(m, used, k), MarkedIn(m, used, k + 1, end), k, end);
  }

  lemma ChunksStep(m: Memory, used: set<int>, k: int, end: int)
    requires BlocksTiled(m, used, k, end) && k < end
    ensures Chunks(k, end, MarkedIn(m, used, k, end))
            == BlockChunks(m, used, k) + Chunks(k + 1, end, MarkedIn(m, used, k + 1, end))
  {
    MarkedInStep(m, used, k, end);
  }

  /** cs holds exactly the free chunks of the blocks from k up to end, in address order. */
  ghost predicate ChunksOf(cs: seq<Chunk>, m: Memory, used: set<int>, k: int, end: int)
  {
    && Ascending(cs)
    && (forall i :: 0 <= i < |cs| ==>
          k <= cs[i].block < end && ChunkFits(cs[i]) && cs[i] in BlockChunks(m, used, cs[i].block))
    && (forall j, c :: k <= j < end && c in BlockChunks(m, used, j) ==> c in cs)
  }

  lemma ChunksOfCons(m: Memory, used: set<int>, k: int, end: int, rest: seq<Chunk>)
    requires k < end && ChunksOf(rest, m, used, k + 1, end)
    ensures ChunksOf(BlockChunks(m, used, k) + rest, m, used, k, end)
  {
    BlockChunksFacts(m, used, k);
    hide BlockChunks, BlocksTiled, ChunkFits, Tiled, MarkedFrom, Apart;
    var here := BlockChunks(m, used, k);
    var cs := here + rest;
    forall i, j | 0 <= i < j < |cs| ensures ChunkBefore(cs[i], cs[j]) {
      if i < |here| <= j { assert cs[i].block == k && cs[j] == rest[j - |here|]; }
    }
    forall i | 0 <= i < |cs|
      ensures k <= cs[i].block < end && ChunkFits(cs[i]) && cs[i] in BlockChunks(m, used, cs[i].block)
    {
      if i < |here| { assert cs[i] == here[i]; } else { assert cs[i] == rest[i - |here|]; }
    }
  }

  /** The chunks of a run of blocks, block by block. */
  lemma {:induction false} RegionChunks(m: Memory, used: set<int>, k: int, end: int)
    requires BlocksTiled(m, used, k, end)
    ensures ChunksOf(Chunks(k, end, MarkedIn(m, used, k, end)), m, used, k, end)
    decreases end - k
  {
    if k < end {
      RegionChunks(m, used, k + 1, end);
      ChunksStep(m, used, k, end);
      hide ChunksOf, Chunks, MarkedIn, BlockChunks;
      ChunksOfCons(m, used, k, end, Chunks(k + 1, end, MarkedIn(m, used, k + 1, end)));
    }
  }

  /** cs holds exactly the free chunks of the blocks of the first n regions, in address order. */
  ghost predicate AreaChunks(cs: seq<Chunk>, m: Memory, used: set<int>, regions: seq<Region>, n: nat)
  {
    && Ascending(cs)
    && (forall i :: 0 <= i < |cs| ==>
          InRegions(regions, n, cs[i].block) && ChunkFits(cs[i]) && cs[i] in BlockChunks(m, used, cs[i].block))
    && (forall j, c :: InRegions(regions, n, j) && c in BlockChunks(m, used, j) ==> c in cs)
  }

  lemma {:induction false} FreedChunksOf(m: Memory, used: set<int>, regions: seq<Region>, n: nat)
    requires RegionsOrdered(regions) && AreaTiled(m, used, regions) && n <= |regions|
    ensures AreaChunks(FreedChunks(m, used, regions, n), m, used, regions, n)
    decreases n
  {
    hide AreaChunks, ChunksOf, BlocksTiled, RegionsOrdered;
    if n == 0 {
      NoChunks(m, used, regions);
    } else {
      var r := regions[n - 1];
      FreedChunksOf(m, used, regions, n - 1);
      assert BlocksTiled(m, used, r.first, r.end);
      RegionChunks(m, used, r.first, r.end);
      AreaChunksStep(m, used, regions, n, FreedChunks(m, used, regions, n - 1),
                     Chunks(r.first, r.end, RegionObjects(m, used, r)));
    }
  }

  lemma NoChunks(m: Memory, used: set<int>, regions: seq<Region>)
    ensures AreaChunks([], m, used, regions, 0)
  {
  }

  lemma AreaChunksStep(m: Memory, used: set<int>, regions: seq<Region>, n: nat, cs: seq<Chunk>, ds: seq<Chunk>)
    requires RegionsOrdered(regions) && 0 < n <= |regions|
    requires AreaChunks(cs, m, used, regions, n - 1) && ChunksOf(ds, m, used, regions[n - 1].first, regions[n - 1].end)
    ensures AreaChunks(cs + ds, m, used, regions, n)
  {
    hide ChunkFits, Tiled, MarkedFrom, BlockChunks;
    var all, r := cs + ds, regions[n - 1];
    forall i, j | 0 <= i < j < |all| ensures ChunkBefore(all[i], all[j]) {
      if i < |cs| <= j {
        assert all[i] == cs[i] && all[j] == ds[j - |cs|];
        assert InRegions(regions, n - 1, cs[i].block);
      } else if j < |cs| {
        assert all[i] == cs[i] && all[j] == cs[j];
      } else {
        assert all[i] == ds[i - |cs|] && all[j] == ds[j - |cs|];
      }
    }
    forall i | 0 <= i < |all|
      ensures InRegions(regions, n, all[i].block) && ChunkFits(all[i]) && all[i] in BlockChunks(m, used, all[i].block)
    {
      if i < |cs| { assert all[i] == cs[i]; } else { assert all[i] == ds[i - |cs|]; }
    }
    forall j, c | InRegions(regions, n, j) && c in BlockChunks(m, used, j) ensures c in all {
      if !InRegions(regions, n - 1, j) {
        assert r.first <= j < r.end;
        assert c in ds;
      }
    }
  }

  // ---------------------------------------------------------------------------
  // The objects it keeps and the blocks it frees
  // ---------------------------------------------------------------------------

  ghost predicate Sorted(objs: seq<Object>) { forall i, j :: 0 <= i < j < |objs| ==> Before(objs[i], objs[j]) }

  /** objs holds exactly the marked objects of the blocks from k up to end, in address order. */
  ghost predicate ObjectsOf(objs: seq<Object>, m: Memory, used: set<int>, k: int, end: int)
  {
    && Sorted(objs)
    && (forall i :: 0 <= i < |objs| ==>
          k <= objs[i].block < end && Fits(objs[i]) && objs[i] in BlockObjects(m, used, objs[i].block))
    && (forall j, o :: k <= j < end && o in BlockObjects(m, used, j) ==> o in objs)
  }

  ghost predicate AreaObjects(objs: seq<Object>, m: Memory, used: set<int>, regions: seq<Region>, n: nat)
  {
    && Sorted(objs)
    && (forall i :: 0 <= i < |objs| ==>
          InRegions(regions, n, objs[i].block) && Fits(objs[i]) && objs[i] in BlockObjects(m, used, objs[i].block))
    && (forall j, o :: InRegions(regions, n, j) && o in BlockObjects(m, used, j) ==> o in objs)
  }

  lemma ObjectsOfCons(m: Memory, used: set<int>, k: int, end: int, rest: seq<Object>)
    requires k < end && ObjectsOf(rest, m, used, k + 1, end)
    ensures ObjectsOf(BlockObjects(m, used, k) + rest, m, used, k, end)
  {
    BlockChunksFacts(m, used, k);
    hide BlockChunks, BlockObjects, HeadersIn, Fits;
    var here := BlockObjects(m, used, k);
    var all := here + rest;
    forall i, j | 0 <= i < j < |all| ensures Before(all[i], all[j]) {
      if i < |here| <= j { assert all[i].block == k && all[j] == rest[j - |here|]; }
    }
    forall i | 0 <= i < |all|
      ensures k <= all[i].block < end && Fits(all[i]) && all[i] in BlockObjects(m, used, all[i].block)
    {
      if i < |here| { assert all[i] == here[i]; } else { assert all[i] == rest[i - |here|]; }
    }
  }

  lemma {:induction false} RegionObjectsOf(m: Memory, used: set<int>, k: int, end: int)
    requires BlocksTiled(m, used, k, end)
    ensures ObjectsOf(MarkedIn(m, used, k, end), m, used, k, end)
    decreases end - k
  {
    if k < end {
      RegionObjectsOf(m, used, k + 1, end);
      MarkedInStep(m, used, k, end);
      hide ObjectsOf, MarkedIn, BlockObjects;
      ObjectsOfCons(m, used, k, end, MarkedIn(m, used, k + 1, end));
    }
  }

  lemma {:induction false} KeptOf(m: Memory, used: set<int>, regions: seq<Region>, n: nat)
    requires RegionsOrdered(regions) && AreaTiled(m, used, regions) && n <= |regions|
    ensures AreaObjects(Kept(m, used, regions, n), m, used, regions, n)
    decreases n
  {
    if n > 0 {
      var r := regions[n - 1];
      KeptOf(m, used, regions, n - 1);
      RegionObjectsOf(m, used, r.first, r.end);
      AreaObjectsStep(m, used, regions, n, Kept(m, used, regions, n - 1), RegionObjects(m, used, r));
    }
  }

  lemma AreaObjectsStep(m: Memory, used: set<int>, regions: seq<Region>, n: nat, cs: seq<Object>, ds: seq<Object>)
    requires RegionsOrdered(regions) && 0 < n <= |regions|
    requires AreaObjects(cs, m, used, regions, n - 1)
    requires ObjectsOf(ds, m, used, regions[n - 1].first, regions[n - 1].end)
    ensures AreaObjects(cs + ds, m, used, regions, n)
  {
    hide Fits, BlockObjects;
    var all, r := cs + ds, regions[n - 1];
    forall i, j | 0 <= i < j < |all| ensures Before(all[i], all[j]) {
      if i < |cs| <= j {
        assert all[i] == cs[i] && all[j] == ds[j - |cs|];
        assert InRegions(regions, n - 1, cs[i].block);
      } else if j < |cs| {
        assert all[i] == cs[i] && all[j] == cs[j];
      } else {
        assert all[i] == ds[i - |cs|] && all[j] == ds[j - |cs|];
      }
    }
    forall i | 0 <= i < |all|
      ensures InRegions(regions, n, all[i].block) && Fits(all[i]) && all[i] in BlockObjects(m, used, all[i].block)
    {
      if i < |cs| { assert all[i] == cs[i]; } else { assert all[i] == ds[i - |cs|]; }
    }
    forall j, o | InRegions(regions, n, j) && o in BlockObjects(m, used, j) ensures o in all {
      if !InRegions(regions, n - 1, j) {
        assert r.first <= j < r.end;
        assert o in ds;
      }
    }
  }

  lemma GroupsStep(m: Memory, used: set<int>, k: int, end: int, run: int)
    requires BlocksTiled(m, used, k, end) && k < end
    ensures Groups(k, end, run, MarkedIn(m, used, k, end))
            == if BlockObjects(m, used, k) == [] then Groups(k + 1, end, run + 1, MarkedIn(m, used, k + 1, end))
               else Run(k - run, run) + Groups(k + 1, end, 0, MarkedIn(m, used, k + 1, end))
  {
    MarkedInStep(m, used, k, end);
    hide MarkedIn, BlockObjects, Within, BlocksTiled;
    var here, rest := BlockObjects(m, used, k), MarkedIn(m, used, k + 1, end);
    if here == [] { assert here + rest == rest; }
  }

  /** Block j is freed as a whole exactly if it has no marked object. */
  lemma {:induction false} RegionGroups(m: Memory, used: set<int>, k: int, end: int, run: int, j: int)
    requires BlocksTiled(m, used, k, end) && run >= 0 && k <= end
    ensures InGroups(Groups(k, end, run, MarkedIn(m, used, k, end)), j)
            == if k - run <= j < k || (k <= j < end && BlockObjects(m, used, j) == []) then 1 else 0
    decreases end - k
  {
    hide InGroups, BlockObjects, MarkedIn;
    if k == end {
      InRun(k - run, run, j);
    } else {
      GroupsStep(m, used, k, end, run);
      hide Groups;
      if BlockObjects(m, used, k) == [] {
        RegionGroups(m, used, k + 1, end, run + 1, j);
      } else {
        RegionGroups(m, used, k + 1, end, 0, j);
        InGroupsAppend(Run(k - run, run), Groups(k + 1, end, 0, MarkedIn(m, used, k + 1, end)), j);
        InRun(k - run, run, j);
      }
    }
  }

  lemma {:induction false} FreedBlocksOf(m: Memory, used: set<int>, regions: seq<Region>, n: nat, j: int)
    requires RegionsOrdered(regions) && AreaTiled(m, used, regions) && n <= |regions|
    ensures InGroups(FreedBlocks(m, used, regions, n), j)
            == if InRegions(regions, n, j) && BlockObjects(m, used, j) == [] then 1 else 0
    decreases n
  {
    if n > 0 {
      hide InGroups, BlockObjects, BlocksTiled;
      var r := regions[n - 1];
      FreedBlocksOf(m, used, regions, n - 1, j);
      assert BlocksTiled(m, used, r.first, r.end);
      RegionGroups(m, used, r.first, r.end, 0, j);
      InGroupsAppend(FreedBlocks(m, used, regions, n - 1), Groups(r.first, r.end, 0, RegionObjects(m, used, r)), j);
      if InRegions(regions, n - 1, j) {
        var i :| 0 <= i < n - 1 && regions[i].first <= j < regions[i].end;
        assert regions[i].end <= r.first;
        assert InRegions(regions, n, j);
      }
    }
  }

  // ---------------------------------------------------------------------------
  // The tiles of a block after the sweep
  // ---------------------------------------------------------------------------

  /** A header is in place for each kept object and each gap. */
  ghost predicate Laid(m: Memory, k: int, objs: seq<Object>, gaps: seq<Chunk>)
  {
    && (forall i :: 0 <= i < |objs| ==> HeaderIn(m, objs[i]) && objs[i].off % 8 == 4 && objs[i].size % 8 == 0)
    && (forall i :: 0 <= i < |gaps| ==> Addr(k, gaps[i].off) in m && m[Addr(k, gaps[i].off)] == gaps[i].size + FREE_BIT)
  }

  /** t is the header of a kept object, or of a gap. */
  ghost predicate TileOf(m: Memory, k: int, objs: seq<Object>, gaps: seq<Chunk>, t: Tile)
  {
    || (exists i :: 0 <= i < |objs| && t.off == objs[i].off && Addr(k, t.off) in m && t.header == m[Addr(k, t.off)])
    || (exists i :: 0 <= i < |gaps| && t == FreeTile(gaps[i].off, gaps[i].size))
  }

  /** A stretch of a block that is one gap, or nothing. */
  lemma BetweenTiles(m: Memory, k: int, from: int, to: int)
    requires from <= to <= LAST && from % 8 == 4 && to % 8 == 4 && Tiled(m, k, to)
    requires Laid(m, k, [], Between(k, from, to))
    ensures Tiled(m, k, from)
    ensures Tiles(m, k, from) == (if from < to then [FreeTile(from, to - from)] else []) + Tiles(m, k, to)
  {
    if from < to {
      assert Between(k, from, to)[0] == Chunk(k, from, to - from);
      FreeTileFacts(from, to - from);
      TilesCons(m, k, FreeTile(from, to - from));
    }
  }

  lemma ObjectTile(m: Memory, k: int, o: Object)
    requires o.block == k && Fits(o) && HeaderIn(m, o) && Tiled(m, k, o.End())
    ensures Tiled(m, k, o.off) && Tiles(m, k, o.off) == [Tile(o.off, m[Addr(k, o.off)])] + Tiles(m, k, o.End())
  {
  }

  lemma {:induction false} GapsTiles(m: Memory, k: int, from: int, objs: seq<Object>)
    requires Within(objs, k, k + 1) && FIRST <= from <= LAST && from % 8 == 4
    requires forall i :: 0 <= i < |objs| ==> from <= objs[i].off
    requires Laid(m, k, objs, Gaps(k, from, objs, LAST))
    ensures Tiled(m, k, from)
    ensures forall t :: t in Tiles(m, k, from) <==> TileOf(m, k, objs, Gaps(k, from, objs, LAST), t)
    decreases |objs|
  {
    if objs == [] {
      BetweenTiles(m, k, from, LAST);
      assert from < LAST ==> Gaps(k, from, objs, LAST)[0] == Chunk(k, from, LAST - from);
    } else {
      var o, rest := objs[0], objs[1..];
      assert Fits(o) && o.block == k;
      var b, g := Between(k, from, o.off), Gaps(k, o.End(), rest, LAST);
      assert objs == [o] + rest && Gaps(k, from, objs, LAST) == b + g;
      forall i | 0 <= i < |rest| ensures o.End() <= rest[i].off { assert Before(objs[0], objs[i + 1]); }
      LaidParts(m, k, o, rest, b, g);
      GapsTiles(m, k, o.End(), rest);
      ObjectTile(m, k, o);
      BetweenTiles(m, k, from, o.off);
      hide Tiled, Tiles, Gaps;
      forall t ensures t in Tiles(m, k, from) <==> TileOf(m, k, [o] + rest, b + g, t) {
        TileOfParts(m, k, o, rest, from, g, t);
      }
    }
  }

  lemma LaidParts(m: Memory, k: int, o: Object, rest: seq<Object>, b: seq<Chunk>, g: seq<Chunk>)
    requires Laid(m, k, [o] + rest, b + g)
    ensures Laid(m, k, rest, g) && Laid(m, k, [], b) && HeaderIn(m, o) && o.off % 8 == 4 && o.size % 8 == 0
  {
    assert ([o] + rest)[0] == o;
    assert forall i :: 0 <= i < |rest| ==> rest[i] == ([o] + rest)[i + 1];
    assert forall i :: 0 <= i < |b| ==> b[i] == (b + g)[i];
    assert forall i :: 0 <= i < |g| ==> g[i] == (b + g)[|b| + i];
  }

  lemma TileOfParts(m: Memory, k: int, o: Object, rest: seq<Object>, from: int, g: seq<Chunk>, t: Tile)
    requires Addr(k, o.off) in m
    ensures TileOf(m, k, [o] + rest, Between(k, from, o.off) + g, t)
            <==> (from < o.off && t == FreeTile(from, o.off - from)) || t == Tile(o.off, m[Addr(k, o.off)]) ||
                   TileOf(m, k, rest, g, t)
  {
    var b := Between(k, from, o.off);
    assert ([o] + rest)[0] == o;
    assert forall i :: 0 <= i < |rest| ==> rest[i] == ([o] + rest)[i + 1];
    assert forall i :: 0 <= i < |b| ==> b[i] == (b + g)[i];
    assert forall i :: 0 <= i < |g| ==> g[i] == (b + g)[|b| + i];
    assert from < o.off ==> b[0] == Chunk(k, from, o.off - from);
  }

  // ---------------------------------------------------------------------------
  // The free blocks list
  // ---------------------------------------------------------------------------

  /** Runs of free blocks in address order, from block lo up to block hi. */
  ghost predicate GroupsIn(gs: seq<Group>, lo: int, hi: int)
  {
    && (forall i :: 0 <= i < |gs| ==> gs[i].count > 0 && lo <= gs[i].block && gs[i].block + gs[i].count <= hi)
    && (forall i, j :: 0 <= i < j < |gs| ==> gs[i].block + gs[i].count <= gs[j].block)
  }

  lemma {:induction false} GroupsOrdered(k: int, end: int, run: int, objs: seq<Object>)
    requires k <= end && run >= 0
    ensures GroupsIn(Groups(k, end, run, objs), k - run, end)
    decreases end - k
  {
    if k < end {
      var n := Leading(objs, k + 1);
      if n == 0 {
        GroupsOrdered(k + 1, end, run + 1, objs);
      } else {
        var rest := Groups(k + 1, end, 0, objs[n..]);
        GroupsOrdered(k + 1, end, 0, objs[n..]);
        assert Groups(k, end, run, objs) == Run(k - run, run) + rest;
        hide Groups;
        RunInFront(k, end, run, rest);
      }
    }
  }

  lemma RunInFront(k: int, end: int, run: int, rest: seq<Group>)
    requires GroupsIn(rest, k + 1, end) && run >= 0 && k < end
    ensures GroupsIn(Run(k - run, run) + rest, k - run, end)
  {
  }

  lemma {:induction false} FreedBlocksOk(m: Memory, used: set<int>, regions: seq<Region>, n: nat)
    requires RegionsOrdered(regions) && AreaTiled(m, used, regions) && n <= |regions|
    ensures GroupsOk(FreedBlocks(m, used, regions, n), regions)
    ensures forall i, j :: 0 <= i < |FreedBlocks(m, used, regions, n)| && n <= j < |regions| ==>
              FreedBlocks(m, used, regions, n)[i].block + FreedBlocks(m, used, regions, n)[i].count <= regions[j].first
    decreases n
  {
    hide BlocksTiled;
    if n > 0 {
      var r := regions[n - 1];
      FreedBlocksOk(m, used, regions, n - 1);
      assert BlocksTiled(m, used, r.first, r.end);
      GroupsOrdered(r.first, r.end, 0, RegionObjects(m, used, r));
      var before, here := FreedBlocks(m, used, regions, n - 1), Groups(r.first, r.end, 0, RegionObjects(m, used, r));
      GroupsOkStep(before, here, regions, n);
    }
  }

  lemma GroupsOkStep(gs: seq<Group>, hs: seq<Group>, regions: seq<Region>, n: nat)
    requires RegionsOrdered(regions) && 0 < n <= |regions| && GroupsOk(gs, regions)
    requires forall i, j :: 0 <= i < |gs| && n - 1 <= j < |regions| ==> gs[i].block + gs[i].count <= regions[j].first
    requires GroupsIn(hs, regions[n - 1].first, regions[n - 1].end)
    ensures GroupsOk(gs + hs, regions)
    ensures forall i, j :: 0 <= i < |gs + hs| && n <= j < |regions| ==>
              (gs + hs)[i].block + (gs + hs)[i].count <= regions[j].first
  {
    var all, r := gs + hs, regions[n - 1];
    forall i | 0 <= i < |all| ensures all[i].count > 0 && InOneRegion(all[i], regions) {
      if i < |gs| { assert all[i] == gs[i]; } else { assert all[i] == hs[i - |gs|]; assert r.first <= all[i].block; }
    }
    forall i, j | 0 <= i < |all| && n <= j < |regions| ensures all[i].block + all[i].count <= regions[j].first {
      if i < |gs| { assert all[i] == gs[i]; } else { assert all[i] == hs[i - |gs|]; assert r.end <= regions[j].first; }
    }
    forall i, j | 0 <= i < j < |all| ensures all[i].block + all[i].count <= all[j].block {
      if i < |gs| <= j { assert all[i] == gs[i] && all[j] == hs[j - |gs|]; }
    }
  }

  // ---------------------------------------------------------------------------
  // Marked memory
  // ---------------------------------------------------------------------------

  /** Tile t is that of a live object, o. */
  ghost predicate LiveTile(m: Memory, k: int, off: int, live: set<int>, t: Tile, o: Object)
  {
    Tiled(m, k, off) && t in Tiles(m, k, off) && Addr(k, t.off) + GC_HEAD in live &&
        o == Object(k, t.off, Size(t.header))
  }

  /** Marking changes no tile but for its mark bit: a walk meets the live objects, and no others, as marked. */
  lemma {:induction false} StampWalk(m: Memory, live: set<int>, k: int, off: int, o: Object)
    requires Tiled(m, k, off) && forall t :: t in Tiles(m, k, off) ==> !Marked(t.header)
    ensures Tiled(Stamp(m, live), k, off)
    ensures o in MarkedFrom(Stamp(m, live), k, off) <==> exists t :: LiveTile(m, k, off, live, t, o)
    decreases LAST - off
  {
    if off < LAST {
      var h := m[Addr(k, off)];
      var t0 := Tile(off, h);
      MarkBitOnly(h);
      TilesSplit(m, k, off);
      var rest := Tiles(m, k, t0.End());
      assert t0 in Tiles(m, k, off) && forall t :: t in rest ==> t in Tiles(m, k, off);
      StampWalk(m, live, k, t0.End(), o);
      assert MarkedFrom(Stamp(m, live), k, off)
          == (if Addr(k, off) + GC_HEAD in live then [Object(k, off, Size(h))] else []) +
              MarkedFrom(Stamp(m, live), k, t0.End());
      hide Tiled, MarkedFrom, Stamp, Size, Marked;
      forall t ensures LiveTile(m, k, off, live, t, o) <==>
                       LiveTile(m, k, t0.End(), live, t, o) ||
                           (t == t0 && Addr(k, off) + GC_HEAD in live && o == Object(k, off, Size(h)))
      {
      }
      if Addr(k, off) + GC_HEAD in live && o == Object(k, off, Size(h)) { assert LiveTile(m, k, off, live, t0, o); }
    }
  }

  /**
   * A collection of area `a`, once it is prepared: `used` are its used blocks, and `live`
   * are the addresses of the objects that marking found.
   */
  ghost predicate Ready(a: Area, used: set<int>, live: set<int>)
  {
    && Valid(a) && a.co == a.bo && (forall k :: k in used <==> InUse(a, k))
    && (forall p :: p in live ==> exists o :: HasObject(a, o) && Pointer(o) == p)
  }

  lemma StampedTiled(a: Area, used: set<int>, live: set<int>)
    requires Ready(a, used, live)
    ensures AreaTiled(Stamp(a.mem, live), used, a.regions)
  {
    forall k | k in used ensures Tiled(Stamp(a.mem, live), k, FIRST) {
      assert InUse(a, k) && BlockOk(View(a), k);
      StampWalk(a.mem, live, k, FIRST, Object(0, 0, 0));
    }
  }

  lemma PointerPlace(o: Object, p: Object)
    requires Fits(o) && Fits(p) && Pointer(o) == Pointer(p)
    ensures o.block == p.block && o.off == p.off
  {
    AddrParts(o.block, o.off);
    AddrParts(p.block, p.off);
  }

  lemma LivePointer(a: Area, used: set<int>, live: set<int>, o: Object)
    requires Ready(a, used, live) && Fits(o) && Pointer(o) in live
    ensures exists p :: HasObject(a, p) && p.block == o.block && p.off == o.off
  {
    var p :| HasObject(a, p) && Pointer(p) == Pointer(o);
    ObjectFits(a, p);
    PointerPlace(o, p);
  }

  lemma LiveTileObject(a: Area, used: set<int>, live: set<int>, k: int, t: Tile, o: Object)
    requires Ready(a, used, live) && InUse(a, k) && LiveTile(a.mem, k, FIRST, live, t, o)
    ensures HasObject(a, o)
  {
    TileFacts(a.mem, k, FIRST, t);
    assert View(a) == a.mem;
    hide Tiled, Tiles, InUse, Valid, View, Size;
    LivePointer(a, used, live, o);
    var p :| HasObject(a, p) && p.block == k && p.off == o.off;
    var u :| IsTileOf(a.mem, k, u, p);
    TileFacts(a.mem, k, FIRST, u);
    assert IsTileOf(a.mem, k, t, o);
  }

  lemma StampedBlock(a: Area, used: set<int>, live: set<int>, k: int, o: Object)
    requires Ready(a, used, live) && InUse(a, k)
    ensures o in BlockObjects(Stamp(a.mem, live), used, k) <==> exists t :: LiveTile(a.mem, k, FIRST, live, t, o)
  {
    assert k in used && BlockOk(View(a), k);
    StampWalk(a.mem, live, k, FIRST, o);
  }

  lemma ObjectLiveTile(a: Area, live: set<int>, o: Object)
    requires a.co == a.bo && HasObject(a, o) && Pointer(o) in live
    ensures exists t :: LiveTile(a.mem, o.block, FIRST, live, t, o)
  {
    var t :| IsTileOf(View(a), o.block, t, o);
    assert LiveTile(a.mem, o.block, FIRST, live, t, o);
  }

  /** The marked objects of a block are its live objects. */
  lemma LiveBlock(a: Area, used: set<int>, live: set<int>, k: int, o: Object)
    requires Ready(a, used, live)
    ensures o in BlockObjects(Stamp(a.mem, live), used, k) <==> o.block == k && HasObject(a, o) && Pointer(o) in live
  {
    hide Tiles, Tiled, Valid, View, IsTileOf, Stamp, InGroups, InRegions;
    if InUse(a, k) {
      StampedBlock(a, used, live, k, o);
      hide Ready, HasObject, BlockObjects, InUse;
      if o in BlockObjects(Stamp(a.mem, live), used, k) {
        var t :| LiveTile(a.mem, k, FIRST, live, t, o);
        LiveTileObject(a, used, live, k, t, o);
      }
      if o.block == k && HasObject(a, o) && Pointer(o) in live { ObjectLiveTile(a, live, o); }
    }
  }

  // ---------------------------------------------------------------------------
  // Memory after the sweep
  // ---------------------------------------------------------------------------

  lemma {:induction false} ChunkWritesAt(cs: seq<Chunk>, i: nat)
    requires i < |cs| && Ascending(cs) && forall j :: 0 <= j < |cs| ==> ChunkFits(cs[j])
    ensures var a := Addr(cs[i].block, cs[i].off); a in ChunkWrites(cs) && ChunkWrites(cs)[a] == cs[i].size + FREE_BIT
    decreases |cs|
  {
    if i < |cs| - 1 {
      var init, last := cs[..|cs| - 1], cs[|cs| - 1];
      ChunkWritesAt(init, i);
      assert init[i] == cs[i] && ChunkBefore(cs[i], last) && ChunkFits(cs[i]);
      AddrApart(last.block, last.off, cs[i].block, cs[i].off);
    }
  }

  /** What the lists of a sweep say about each other, as far as its writes are concerned. */
  ghost predicate Clean(objs: seq<Object>, cs: seq<Chunk>)
  {
    && Sorted(objs) && Ascending(cs) && AllFit(objs, cs)
    && (forall i, j :: 0 <= i < |cs| && 0 <= j < |objs| ==> Apart(cs[i], objs[j]))
  }

  lemma CleanHeader(m: Memory, objs: seq<Object>, cs: seq<Chunk>, gs: seq<Group>, o: Object)
    requires Clean(objs, cs) && o in objs && Addr(o.block, o.off) in m
    ensures var a := Addr(o.block, o.off);
            a in SweptMem(m, objs, cs, gs) && SweptMem(m, objs, cs, gs)[a] == ClearMark(m[a])
  {
    var i :| 0 <= i < |objs| && objs[i] == o;
    assert Fits(o);
    forall j | i < j < |objs|
      ensures objs[j].block != o.block || objs[j].off != o.off
    {
      assert Before(objs[i], objs[j]);
    }
    forall j | 0 <= j < |cs|
      ensures cs[j].block != o.block || cs[j].off != o.off
    {
      assert Apart(cs[j], objs[i]) && ChunkFits(cs[j]);
    }
    SweptHeader(m, objs, cs, gs, i);
  }

  lemma CleanChunk(m: Memory, objs: seq<Object>, cs: seq<Chunk>, gs: seq<Group>, c: Chunk)
    requires Clean(objs, cs) && c in cs
    ensures var a := Addr(c.block, c.off);
            a in SweptMem(m, objs, cs, gs) && SweptMem(m, objs, cs, gs)[a] == c.size + FREE_BIT
  {
    var i :| 0 <= i < |cs| && cs[i] == c;
    assert ChunkFits(c);
    ChunkWritesAt(cs, i);
    GroupWritesAvoid(gs, c.block, c.off);
  }

  /** Inside a kept object nothing is written. */
  lemma CleanPayload(m: Memory, objs: seq<Object>, cs: seq<Chunk>, gs: seq<Group>, o: Object, x: int)
    requires Clean(objs, cs) && o in objs && o.off < x < o.End()
    ensures var a := Addr(o.block, x);
            && (a in SweptMem(m, objs, cs, gs) <==> a in m) && (a in m ==> SweptMem(m, objs, cs, gs)[a] == m[a])
  {
    var i :| 0 <= i < |objs| && objs[i] == o;
    assert Fits(o);
    forall j | 0 <= j < |objs| ensures objs[j].block != o.block || objs[j].off != x {
      if i < j { assert Before(objs[i], objs[j]); } else if j < i { assert Before(objs[j], objs[i]) && Fits(objs[j]); }
    }
    forall j | 0 <= j < |cs|
      ensures cs[j].block != o.block || cs[j].off != x
    {
      assert Apart(cs[j], objs[i]) && ChunkFits(cs[j]);
    }
    UntouchedIsOld(m, objs, cs, gs, o.block, x);
  }

  lemma SweepClean(m: Memory, used: set<int>, regions: seq<Region>)
    requires RegionsOrdered(regions) && AreaTiled(m, used, regions)
    ensures var n := |regions|; Clean(Kept(m, used, regions, n), FreedChunks(m, used, regions, n))
  {
    var n := |regions|;
    KeptOf(m, used, regions, n);
    FreedChunksOf(m, used, regions, n);
    hide Kept, FreedChunks, BlockChunks, BlockObjects, InRegions, RegionsOrdered;
    var objs, cs := Kept(m, used, regions, n), FreedChunks(m, used, regions, n);
    forall i, j | 0 <= i < |cs| && 0 <= j < |objs| ensures Apart(cs[i], objs[j]) {
      var c, o := cs[i], objs[j];
      if c.block == o.block { BlockApart(m, used, c, o); }
    }
  }

  lemma BlockApart(m: Memory, used: set<int>, c: Chunk, o: Object)
    requires c.block == o.block && c in BlockChunks(m, used, c.block) && o in BlockObjects(m, used, o.block)
    ensures Apart(c, o)
  {
    BlockChunksFacts(m, used, c.block);
  }
}
