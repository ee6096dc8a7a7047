/**
 * Sweeping the whole small object area (src/runtime/gc.c): whichever algorithm
 * sweep_small selects, the free chunk list, the free blocks list and the memory
 * come out the same.
 */
module SweepArea {
  import opened Header
  import opened FreeSpace
  import opened ChunkIndex
  import opened SweepSteps
  import opened SmallSweep

  /** The regions of the small object area, in address order. */
  ghost predicate RegionsOrdered(regions: seq<Region>)
  {
    && (forall i :: 0 <= i < |regions| ==> regions[i].first < regions[i].end)
    && (forall i, j :: 0 <= i < j < |regions| ==> regions[i].end <= regions[j].first)
  }

  /** Block j belongs to one of the first n regions. */
  ghost predicate InRegions(regions: seq<Region>, n: int, j: int)
  {
    exists i :: 0 <= i < n && i < |regions| && regions[i].first <= j < regions[i].end
  }

  /** The used blocks of every region are tiled by headers. */
  ghost predicate AreaTiled(m: Memory, used: set<int>, regions: seq<Region>)
  {
    forall i :: 0 <= i < |regions| ==> BlocksTiled(m, used, regions[i].first, regions[i].end)
  }

  ghost function RegionObjects(m: Memory, used: set<int>, r: Region): seq<Object>
    requires BlocksTiled(m, used, r.first, r.end)
  {
    MarkedIn(m, used, r.first, r.end)
  }

  // What a sweep of the first n regions keeps and frees.

  ghost function Kept(m: Memory, used: set<int>, regions: seq<Region>, n: nat): seq<Object>
    requires n <= |regions| && AreaTiled(m, used, regions)
  {
    if n == 0 then [] else Kept(m, used, regions, n - 1) + RegionObjects(m, used, regions[n - 1])
  }

  ghost function FreedChunks(m: Memory, used: set<int>, regions: seq<Region>, n: nat): seq<Chunk>
    requires n <= |regions| && AreaTiled(m, used, regions)
  {
    if n == 0 then []
    else
      var r := regions[n - 1];
      FreedChunks(m, used, regions, n - 1) + Chunks(r.first, r.end, RegionObjects(m, used, r))
  }

  ghost function FreedBlocks(m: Memory, used: set<int>, regions: seq<Region>, n: nat): seq<Group>
    requires n <= |regions| && AreaTiled(m, used, regions)
  {
    if n == 0 then []
    else
      var r := regions[n - 1];
      FreedBlocks(m, used, regions, n - 1) + Groups(r.first, r.end, 0, RegionObjects(m, used, r))
  }

  /** The state of a sweep after n regions. */
  ghost predicate SweptRegions(m: Memory, used: set<int>, regions: seq<Region>, n: nat, done: seq<Object>,
                               chunks: seq<Chunk>, blocks: seq<Group>)
  {
    && n <= |regions| && AreaTiled(m, used, regions)
    && done == Kept(m, used, regions, n)
    && chunks == FreedChunks(m, used, regions, n)
    && blocks == FreedBlocks(m, used, regions, n)
    && (n < |regions| ==> Below(done, chunks, regions[n].first, FIRST))
  }

  lemma RegionDone(m: Memory, used: set<int>, regions: seq<Region>, n: nat, done: seq<Object>, chunks: seq<Chunk>,
                   blocks: seq<Group>)
    requires n < |regions| && RegionsOrdered(regions) && SweptRegions(m, used, regions, n, done, chunks, blocks)
    ensures var r := regions[n];
            && r.first < r.end && BlocksTiled(m, used, r.first, r.end) && Below(done, chunks, r.first, FIRST)
            && var objs := RegionObjects(m, used, r);
               && Within(objs, r.first, r.end) && HeadersIn(m, objs)
               && var d, c, g := done + objs, chunks + Chunks(r.first, r.end, objs),
                    blocks + Groups(r.first, r.end, 0, objs);
                  Below(d, c, r.end, FIRST) ==> SweptRegions(m, used, regions, n + 1, d, c, g)
  {
    var r := regions[n];
    MarkedInWithin(m, used, r.first, r.end);
    if n + 1 < |regions| {
      assert r.end <= regions[n + 1].first;
    }
  }

  lemma SweepBegins(m: Memory, used: set<int>, regions: seq<Region>)
    requires AreaTiled(m, used, regions)
    ensures SweptRegions(m, used, regions, 0, [], [], [])
  {
  }

  /** Merge the chunk index once every region is swept. */
  method Finish(sw: Sweeper, ghost m: Memory, ghost used: set<int>, ghost regions: seq<Region>, ghost top: int)
    returns (s: Swept)
    requires sw.Tied() && sw.before == m && SweptRegions(m, used, regions, |regions|, sw.done, sw.chunks, sw.blocks)
    requires top == SMALL_CHUNKS_LIST_INDEX_SIZE - 1
    ensures AreaTiled(m, used, regions) && s == Outcome(m, used, regions, top)
  {
    hide Kept, FreedChunks, FreedBlocks, Below, Merged, SweptMem;
    var list := MergeFreeindex(sw.index, sw.chunks);
    s := Swept(sw.mem, list, sw.blocks);
  }

  // ---------------------------------------------------------------------------
  // The sorted array of live objects
  // ---------------------------------------------------------------------------

  ghost predicate Increasing(s: seq<int>) { forall i, j :: 0 <= i < j < |s| ==> s[i] < s[j] }

  function Pointers(objs: seq<Object>): (ps: seq<int>)
    ensures |ps| == |objs| && forall i :: 0 <= i < |objs| ==> ps[i] == Pointer(objs[i])
  {
    seq(|objs|, i requires 0 <= i < |objs| => Pointer(objs[i]))
  }

  lemma HasFirst(s: seq<int>)
    requires s != []
    ensures s[0] in s
  {
  }

  /** Two increasing sequences with the same elements are equal. */
  lemma {:induction false} SameElements(a: seq<int>, b: seq<int>)
    requires Increasing(a) && Increasing(b) && forall x :: x in a <==> x in b
    ensures a == b
    decreases |a|
  {
    if a == [] && b != [] {
      HasFirst(b);
    } else if a != [] && b == [] {
      HasFirst(a);
    } else if a != [] {
      var la, lb := a[|a| - 1], b[|b| - 1];
      assert la in b && lb in a;
      assert la == lb;
      var a', b' := a[..|a| - 1], b[..|b| - 1];
      forall x ensures x in a' <==> x in b' {
        assert x in a' <==> x in a && x != la;
        assert x in b' <==> x in b && x != lb;
      }
      SameElements(a', b');
    }
  }

  /** How many elements at the front are below the limit. */
  ghost function CountBelow(s: seq<int>, limit: int): (n: nat)
    ensures n <= |s|
  {
    if s == [] || s[0] >= limit then 0 else 1 + CountBelow(s[1..], limit)
  }

  lemma {:induction false} CountBelowExact(s: seq<int>, limit: int)
    requires Increasing(s)
    ensures forall i :: 0 <= i < |s| ==> (s[i] < limit <==> i < CountBelow(s, limit))
    decreases |s|
  {
    if s != [] && s[0] < limit {
      CountBelowExact(s[1..], limit);
      forall i | 0 <= i < |s| ensures s[i] < limit <==> i < CountBelow(s, limit) {
        if i > 0 { assert s[i] == s[1..][i - 1]; }
      }
    }
  }

  lemma {:induction false} CountBelowMonotone(s: seq<int>, a: int, b: int)
    requires a <= b
    ensures CountBelow(s, a) <= CountBelow(s, b)
    decreases |s|
  {
    if s != [] && s[0] < a { CountBelowMonotone(s[1..], a, b); }
  }

  /** The entries of the sorted array that point into region r are its live objects, and none is at its end. */
  ghost predicate Covers(ptrs: seq<int>, r: Region, objs: seq<Object>)
  {
    && (forall p :: p in ptrs && Addr(r.first, 0) <= p < Addr(r.end, 0) ==> p in Pointers(objs))
    && (forall i :: 0 <= i < |objs| ==> Pointer(objs[i]) in ptrs)
    && Addr(r.end, 0) !in ptrs
  }

  lemma PointersIncrease(objs: seq<Object>, k: int, end: int)
    requires Within(objs, k, end)
    ensures Increasing(Pointers(objs))
    ensures forall i :: 0 <= i < |objs| ==> Addr(k, 0) <= Pointer(objs[i]) < Addr(end, 0)
  {
    forall i, j | 0 <= i < j < |objs| ensures Pointer(objs[i]) < Pointer(objs[j]) {
      assert Before(objs[i], objs[j]) && Fits(objs[i]) && Fits(objs[j]);
      assert objs[i].block <= objs[j].block;
    }
    forall i | 0 <= i < |objs| ensures Addr(k, 0) <= Pointer(objs[i]) < Addr(end, 0) {
      assert Fits(objs[i]) && k <= objs[i].block <= end - 1;
    }
  }

  /** The entries between two limits, as a slice. */
  lemma SliceBetween(ptrs: seq<int>, start: int, end: int) returns (lo: nat, hi: nat)
    requires Increasing(ptrs) && start <= end
    ensures lo == CountBelow(ptrs, start) <= hi <= |ptrs|
    ensures forall k :: 0 <= k < lo ==> ptrs[k] < start
    ensures forall k :: lo <= k < hi ==> start <= ptrs[k] < end
    ensures forall k :: hi <= k < |ptrs| ==> ptrs[k] >= end
  {
    lo, hi := CountBelow(ptrs, start), CountBelow(ptrs, end);
    CountBelowExact(ptrs, start);
    CountBelowExact(ptrs, end);
    CountBelowMonotone(ptrs, start, end);
  }

  lemma SliceHolds(ptrs: seq<int>, lo: nat, hi: nat, r: Region, objs: seq<Object>)
    requires Covers(ptrs, r, objs) && lo <= hi <= |ptrs|
    requires forall k :: 0 <= k < lo ==> ptrs[k] < Addr(r.first, 0)
    requires forall k :: lo <= k < hi ==> Addr(r.first, 0) <= ptrs[k] < Addr(r.end, 0)
    requires forall k :: hi <= k < |ptrs| ==> ptrs[k] >= Addr(r.end, 0)
    requires forall i :: 0 <= i < |objs| ==> Addr(r.first, 0) <= Pointer(objs[i]) < Addr(r.end, 0)
    ensures forall x :: x in ptrs[lo..hi] <==> x in Pointers(objs)
  {
    var slice, ps := ptrs[lo..hi], Pointers(objs);
    forall i | 0 <= i < |slice| ensures slice[i] in ps {
      assert slice[i] == ptrs[lo + i];
      assert ptrs[lo + i] in ptrs;
    }
    forall i | 0 <= i < |objs| ensures Pointer(objs[i]) in slice {
      assert Pointer(objs[i]) in ptrs;
      var j :| 0 <= j < |ptrs| && ptrs[j] == Pointer(objs[i]);
      assert slice[j - lo] == Pointer(objs[i]);
    }
  }

  /** In the sorted array a region's live objects are contiguous and in address order. */
  lemma RegionListed(ptrs: seq<int>, r: Region, objs: seq<Object>) returns (lo: nat)
    requires Increasing(ptrs) && Covers(ptrs, r, objs) && Within(objs, r.first, r.end) && r.first < r.end
    requires |ptrs| > 0 && ptrs[|ptrs| - 1] > Addr(r.end, 0)
    ensures lo == CountBelow(ptrs, Addr(r.first, 0))
    ensures Listed(ptrs, lo, objs, r.end) && forall k :: 0 <= k < lo ==> ptrs[k] < Addr(r.first, 0)
  {
    hide Within, Fits, Before, CountBelow;
    var start, end := Addr(r.first, 0), Addr(r.end, 0);
    var hi;
    lo, hi := SliceBetween(ptrs, start, end);
    PointersIncrease(objs, r.first, r.end);
    var slice, ps := ptrs[lo..hi], Pointers(objs);
    SliceHolds(ptrs, lo, hi, r, objs);
    SameElements(slice, ps);
    ListedSlice(ptrs, lo, hi, r.end, objs);
  }

  lemma ListedSlice(ptrs: seq<int>, lo: nat, hi: nat, end: int, objs: seq<Object>)
    requires lo <= hi <= |ptrs| && ptrs[lo..hi] == Pointers(objs) && |ptrs| > 0 && ptrs[|ptrs| - 1] > Addr(end, 0)
    requires forall k :: 0 <= k < hi ==> ptrs[k] < Addr(end, 0)
    requires (forall k :: hi <= k < |ptrs| ==> ptrs[k] >= Addr(end, 0)) && Addr(end, 0) !in ptrs
    ensures Listed(ptrs, lo, objs, end)
  {
    forall i | lo <= i < lo + |objs| ensures ptrs[i] == Pointer(objs[i - lo]) {
      assert ptrs[lo..hi][i - lo] == Pointers(objs)[i - lo];
    }
    assert |ptrs[lo..hi]| == hi - lo;
    assert hi < |ptrs| && ptrs[hi] in ptrs;
  }

  /** The search for the next region's objects can go on from where this region's ended. */
  lemma NextRegionLater(ptrs: seq<int>, regions: seq<Region>, n: nat, lo: nat, objs: seq<Object>, i: nat)
    requires Increasing(ptrs) && RegionsOrdered(regions) && n < |regions|
    requires Within(objs, regions[n].first, regions[n].end)
    requires Listed(ptrs, lo, objs, regions[n].end) && lo == CountBelow(ptrs, Addr(regions[n].first, 0))
    requires i == if objs == [] then lo else lo + |objs| - 1
    ensures i < |ptrs| && (n + 1 < |regions| ==> i <= CountBelow(ptrs, Addr(regions[n + 1].first, 0)))
  {
    hide CountBelow;
    if n + 1 < |regions| {
      var r, next := regions[n], regions[n + 1];
      assert r.first < r.end <= next.first;
      CountBelowMonotone(ptrs, Addr(r.first, 0), Addr(next.first, 0));
      if objs != [] {
        var o := objs[|objs| - 1];
        assert Fits(o) && o.block <= r.end - 1 && ptrs[i] == Pointer(o);
        InNextRegion(ptrs, next.first, i, o);
      }
    }
  }

  lemma InNextRegion(ptrs: seq<int>, first: int, i: nat, o: Object)
    requires Increasing(ptrs) && i < |ptrs| && Fits(o) && o.block < first && ptrs[i] == Pointer(o)
    ensures i <= CountBelow(ptrs, Addr(first, 0))
  {
    CountBelowExact(ptrs, Addr(first, 0));
  }

  // ---------------------------------------------------------------------------
  // The two algorithms
  // ---------------------------------------------------------------------------

  /** What sweeping leaves behind: memory, the free chunk list and the free blocks list. */
  datatype Swept = Swept(mem: Memory, chunks: seq<Chunk>, blocks: seq<Group>)

  /** The outcome, as a function of the marked heap alone; `top` is the last slot of the free chunk index. */
  ghost function Outcome(m: Memory, used: set<int>, regions: seq<Region>, top: int): Swept
    requires AreaTiled(m, used, regions)
  {
    var n := |regions|;
    Swept(SweptMem(m, Kept(m, used, regions, n), FreedChunks(m, used, regions, n), FreedBlocks(m, used, regions, n)),
          Merged(FreedChunks(m, used, regions, n), top), FreedBlocks(m, used, regions, n))
  }

  /** sweep_small_normal: walk all headers. */
  method SweepNormal(m: Memory, used: set<int>, regions: seq<Region>, ghost top: int) returns (s: Swept)
    requires RegionsOrdered(regions) && AreaTiled(m, used, regions) && top == SMALL_CHUNKS_LIST_INDEX_SIZE - 1
    ensures s == Outcome(m, used, regions, top)
  {
    hide Sweeper.Tied, SweptRegions, Kept, FreedChunks, FreedBlocks, Below, MarkedIn, Chunks, Groups, BlocksTiled;
    var sw := new Sweeper(m);
    SweepBegins(m, used, regions);
    for n := 0 to |regions|
      invariant sw.Tied() && sw.before == m && SweptRegions(m, used, regions, n, sw.done, sw.chunks, sw.blocks)
    {
      RegionDone(m, used, regions, n, sw.done, sw.chunks, sw.blocks);
      sw.SweepRegionNormal(regions[n], used);
    }
    s := Finish(sw, m, used, regions, top);
  }

  /** sweep_small_selective: sort the live objects, then free what lies between them. */
  method SweepSelective(m: Memory, ghost used: set<int>, regions: seq<Region>, ptrs: seq<int>, ghost top: int)
    returns (s: Swept)
    requires RegionsOrdered(regions) && AreaTiled(m, used, regions) && top == SMALL_CHUNKS_LIST_INDEX_SIZE - 1
    requires Increasing(ptrs) && |ptrs| > 0
    requires forall n :: 0 <= n < |regions| ==>
               Covers(ptrs, regions[n], RegionObjects(m, used, regions[n])) &&
                   ptrs[|ptrs| - 1] > Addr(regions[n].end, 0)
    ensures s == Outcome(m, used, regions, top)
  {
    hide Sweeper.Tied, SweptRegions, Kept, FreedChunks, FreedBlocks, Below, MarkedIn, Chunks, Groups, BlocksTiled,
         Covers, Listed, Within, HeadersIn, CountBelow;
    var sw := new Sweeper(m);
    SweepBegins(m, used, regions);
    var i := 0;
    for n := 0 to |regions|
      invariant sw.Tied() && sw.before == m && SweptRegions(m, used, regions, n, sw.done, sw.chunks, sw.blocks)
      invariant 0 <= i < |ptrs| && (n < |regions| ==> i <= CountBelow(ptrs, Addr(regions[n].first, 0)))
    {
      RegionDone(m, used, regions, n, sw.done, sw.chunks, sw.blocks);
      ghost var objs := RegionObjects(m, used, regions[n]);
      ghost var lo := RegionListed(ptrs, regions[n], objs);
      i := sw.SweepRegionSelective(ptrs, i, regions[n], lo, objs);
      NextRegionLater(ptrs, regions, n, lo, objs, i);
    }
    s := Finish(sw, m, used, regions, top);
  }
}
