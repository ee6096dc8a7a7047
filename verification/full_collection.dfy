/**
 * A full collection (src/runtime/gc.c): prepare the small object area, mark, sweep the
 * small objects with the algorithm the mark phase has chosen, sweep the large ones.
 */
module FullCollection {
  import opened Header
  import opened FreeSpace
  import opened ChunkIndex
  import opened SmallSweep
  import opened SweepArea
  import opened HeapWalk
  import opened SmallArea
  import MP = MarkPhase
  import SO = SortObjects
  import opened AfterSweep
  import opened CollectedArea
  import opened Conservation
  import opened SmallAlloc
  import PT = Pointers
  import LP = Lumps
  import LH = LumpHeap
  import LS = LargeSweep

  const LAST_ADDRESS := 0xffff_ffff

  // ---------------------------------------------------------------------------
  // The sorted set of live objects
  // ---------------------------------------------------------------------------

  ghost predicate Between0(s: seq<int>) { forall i :: 0 <= i < |s| ==> 0 < s[i] < LAST_ADDRESS }

  /** A sorted permutation of distinct elements is strictly increasing. */
  lemma DistinctSorted(s: seq<int>, t: seq<int>)
    requires multiset(t) == multiset(s) && SO.Sorted(t) && forall i, j :: 0 <= i < j < |s| ==> s[i] != s[j]
    ensures Increasing(t) && |t| == |s| && forall x :: x in t <==> x in s
  {
    assert |multiset(t)| == |t| && |multiset(s)| == |s|;
    forall x ensures x in t <==> x in s { assert x in multiset(t) <==> x in multiset(s); }
    forall i, j | 0 <= i < j < |t| ensures t[i] < t[j] {
      if t[i] == t[j] {
        Twice(t, i, j);
        Once(s, t[i]);
      }
    }
  }

  lemma Twice(t: seq<int>, i: nat, j: nat)
    requires i < j < |t| && t[i] == t[j]
    ensures multiset(t)[t[i]] >= 2
  {
    assert t == t[..j] + [t[j]] + t[j + 1..];
    assert t[i] in multiset(t[..j]) by { assert t[..j][i] == t[i]; }
  }

  lemma {:induction false} Once(s: seq<int>, x: int)
    requires forall i, j :: 0 <= i < j < |s| ==> s[i] != s[j]
    ensures multiset(s)[x] <= 1
    decreases |s|
  {
    if s != [] {
      var init, last := s[..|s| - 1], s[|s| - 1];
      Once(init, x);
      assert s == init + [last] && last !in init;
    }
  }

  /** Insert the sentinels and sort. */
  method SortedSet(stack: array<int>, n: nat) returns (ptrs: seq<int>)
    requires MP.SortSlots(n) <= stack.Length && MP.Distinct(stack[..n]) && Between0(stack[..n])
    modifies stack
    ensures Increasing(ptrs) && |ptrs| == n + 2 && ptrs[|ptrs| - 1] == LAST_ADDRESS
    ensures forall x :: x in ptrs <==> x == 0 || x == LAST_ADDRESS || x in old(stack[..n])
  {
    ghost var was := stack[..n];
    PutSentinels(stack, n);
    hide MP.Distinct, Between0, WithSentinels, SO.Addresses, SO.Sorted, Increasing;
    WithSentinelsOk(was);
    var at := SO.Sort(stack, n + 2);
    ptrs := stack[at..at + (n + 2)];
    SortedSetIs(was, ptrs);
  }

  method PutSentinels(stack: array<int>, n: nat)
    requires n + 2 <= stack.Length
    modifies stack
    ensures stack[..n + 2] == WithSentinels(old(stack[..n]))
  {
    stack[n], stack[n + 1] := 0, LAST_ADDRESS;
  }

  ghost function WithSentinels(s: seq<int>): seq<int> { s + [0, LAST_ADDRESS] }

  lemma WithSentinelsOk(s: seq<int>)
    requires MP.Distinct(s) && Between0(s)
    ensures SO.Addresses(WithSentinels(s)) && MP.Distinct(WithSentinels(s))
  {
  }

  lemma SortedSetIs(s: seq<int>, ptrs: seq<int>)
    requires MP.Distinct(WithSentinels(s)) && Between0(s) && multiset(ptrs) == multiset(WithSentinels(s))
    requires SO.Sorted(ptrs)
    ensures Increasing(ptrs) && |ptrs| == |s| + 2 && ptrs[|ptrs| - 1] == LAST_ADDRESS
    ensures forall x :: x in ptrs <==> x == 0 || x == LAST_ADDRESS || x in s
  {
    DistinctSorted(WithSentinels(s), ptrs);
    assert LAST_ADDRESS in WithSentinels(s) by { assert WithSentinels(s)[|s| + 1] == LAST_ADDRESS; }
    LastIs(ptrs);
  }

  lemma LastIs(ptrs: seq<int>)
    requires Increasing(ptrs) && LAST_ADDRESS in ptrs && forall x :: x in ptrs ==> x <= LAST_ADDRESS
    ensures ptrs[|ptrs| - 1] == LAST_ADDRESS
  {
    var i :| 0 <= i < |ptrs| && ptrs[i] == LAST_ADDRESS;
    if i < |ptrs| - 1 { HasLast(ptrs); }
  }

  lemma HasLast(ptrs: seq<int>)
    requires ptrs != []
    ensures ptrs[|ptrs| - 1] in ptrs
  {
  }

  // ---------------------------------------------------------------------------
  // The heap as a whole
  // ---------------------------------------------------------------------------

  /** Where small and large objects lie with respect to the small regions and the sentinels. */
  ghost predicate Placed(regions: seq<Region>, buckets: seq<seq<int>>)
  {
    && (forall i :: 0 <= i < |regions| ==> 0 < Addr(regions[i].first, 0) && Addr(regions[i].end, 0) < LAST_ADDRESS)
    && (forall p :: PT.InTable(buckets, p) ==> 0 < p < LAST_ADDRESS)
    && (forall p, i :: PT.InTable(buckets, p) && 0 <= i < |regions| ==>
          p < Addr(regions[i].first, 0) || Addr(regions[i].end, 0) < p)
  }

  /** The object graph of a heap with small area `a` and the given large objects. */
  ghost predicate Describes(g: MP.Graph, a: Area, buckets: seq<seq<int>>)
  {
    g.Valid() && forall p :: p in g.children <==> PT.IsSmall(a, p) || PT.InTable(buckets, p)
  }

  /** The three parts of memory do not overlap, large objects are unmarked and fixed ones marked. */
  ghost predicate Parts(g: MP.Graph, m: Memory, hm: Memory, fixedMem: Memory, buckets: seq<seq<int>>)
  {
    && m.Keys !! hm.Keys && m.Keys !! fixedMem.Keys && hm.Keys !! fixedMem.Keys
    && (forall p :: PT.InTable(buckets, p) ==> p - GC_HEAD in hm && !Marked(hm[p - GC_HEAD]))
    && (forall p :: p in g.fixed ==> LS.MarkedAt(fixedMem, p))
  }

  lemma SmallHeader(a: Area, p: int)
    requires Valid(a) && a.co == a.bo && PT.IsSmall(a, p)
    ensures p - GC_HEAD in a.mem && !Marked(a.mem[p - GC_HEAD])
  {
    hide Valid, HasObject;
    var o :| HasObject(a, o) && Pointer(o) == p;
    ObjectHeader(a, o);
  }

  /** Before marking, every object of the graph is unmarked in the memory as a whole. */
  lemma AllUnmarked(g: MP.Graph, a: Area, hm: Memory, fixedMem: Memory, buckets: seq<seq<int>>)
    requires Valid(a) && a.co == a.bo && Describes(g, a, buckets) && Parts(g, a.mem, hm, fixedMem, buckets)
    ensures MP.Unmarked(g, a.mem + hm + fixedMem)
  {
    hide Valid, PT.IsSmall, PT.InTable, Marked;
    var m := a.mem + hm + fixedMem;
    forall p | p in g.children ensures p - GC_HEAD in m && !Marked(m[p - GC_HEAD]) {
      if PT.IsSmall(a, p) { SmallHeader(a, p); }
    }
  }

  lemma SmallAddress(g: MP.Graph, m: Memory, hm: Memory, fixedMem: Memory, buckets: seq<seq<int>>, x: int)
    requires Parts(g, m, hm, fixedMem, buckets) && x in m
    ensures !PT.InTable(buckets, x + GC_HEAD)
  {
    if PT.InTable(buckets, x + GC_HEAD) {}
  }

  /** Part of a memory. */
  function Restrict(m: Memory, keys: set<int>): Memory { map k | k in keys && k in m :: m[k] }

  lemma StampSplit(ms: Memory, hm: Memory, fm: Memory, live: set<int>)
    requires ms.Keys !! hm.Keys && ms.Keys !! fm.Keys && hm.Keys !! fm.Keys
    ensures Restrict(MP.Stamp(ms + hm + fm, live), ms.Keys) == MP.Stamp(ms, live)
    ensures Restrict(MP.Stamp(ms + hm + fm, live), hm.Keys) == MP.Stamp(hm, live)
  {
  }

  ghost function SmallOnes(a: Area, live: set<int>): set<int> { set p | p in live && PT.IsSmall(a, p) }

  /** In the small area only small objects get marked. */
  lemma StampSmall(g: MP.Graph, a: Area, hm: Memory, fixedMem: Memory, buckets: seq<seq<int>>, live: set<int>)
    requires Describes(g, a, buckets) && Parts(g, a.mem, hm, fixedMem, buckets) && live <= g.children.Keys
    ensures MP.Stamp(a.mem, live) == MP.Stamp(a.mem, SmallOnes(a, live))
  {
    hide PT.IsSmall, PT.InTable, Marked, SetMark;
    forall x | x in a.mem ensures x + GC_HEAD in live <==> x + GC_HEAD in SmallOnes(a, live) {
      SmallAddress(g, a.mem, hm, fixedMem, buckets, x);
    }
  }

  /** The mark bits of used lumps do not disturb the tags of the heap. */
  lemma StampLumps(m: Memory, ls: LP.LumpMap, live: set<int>)
    requires LP.Valid(m, ls) && forall p :: p in live && p - GC_HEAD in m ==> LP.IsUsed(ls, p)
    ensures LP.Valid(MP.Stamp(m, live), ls)
  {
    var m' := MP.Stamp(m, live);
    forall q | q in ls ensures LP.TagsOk(m', ls, q) {
      assert LP.TagsOk(m, ls, q) && LP.SizeOk(ls[q]);
      MarkBitOnly(m[q - GC_HEAD]);
      var k := if ls[q].kind == LP.Free then LP.Foot(q, ls[q].size) else q + MEMALIGN - GC_HEAD;
      if ls[q].kind != LP.Used && k + GC_HEAD in live && k in m { LP.ApartOf(ls, q, k + GC_HEAD); }
    }
  }

  // ---------------------------------------------------------------------------
  // The selective sweep has what it needs
  // ---------------------------------------------------------------------------

  /** ptrs are the live objects and the two sentinels. */
  ghost predicate IsLiveSet(ptrs: seq<int>, live: set<int>)
  {
    forall x :: x in ptrs <==> x == 0 || x == LAST_ADDRESS || x in live
  }

  lemma RegionHolds(a: Area, used: set<int>, small: set<int>, n: nat, o: Object)
    requires Ready(a, used, small) && n < |a.regions| && AreaTiled(MP.Stamp(a.mem, small), used, a.regions)
    ensures o in RegionObjects(MP.Stamp(a.mem, small), used, a.regions[n])
            <==> HasObject(a, o) && Pointer(o) in small && a.regions[n].first <= o.block < a.regions[n].end
  {
    var m, r := MP.Stamp(a.mem, small), a.regions[n];
    RegionObjectsOf(m, used, r.first, r.end);
    LiveBlock(a, used, small, o.block, o);
    hide Ready, HasObject, BlockObjects, MarkedIn, MP.Stamp, AreaTiled, BlocksTiled;
    var objs := MarkedIn(m, used, r.first, r.end);
    if o in objs {
      var i :| 0 <= i < |objs| && objs[i] == o;
    }
  }

  lemma RegionEnd(a: Area, buckets: seq<seq<int>>, g: MP.Graph, ptrs: seq<int>, live: set<int>, n: nat)
    requires Describes(g, a, buckets) && Placed(a.regions, buckets) && IsLiveSet(ptrs, live) && live <= g.children.Keys
    requires n < |a.regions|
    requires a.regions[n].first < a.regions[n].end
    ensures Addr(a.regions[n].end, 0) !in ptrs
  {
    var e := Addr(a.regions[n].end, 0);
    AddrParts(a.regions[n].end, 0);
    if PT.IsSmall(a, e) { SmallOffset(a, e); }
  }

  lemma SmallOffset(a: Area, p: int)
    requires PT.IsSmall(a, p)
    ensures p % GC_BLOCKSIZE >= 8
  {
    hide HasObject;
    var o :| HasObject(a, o) && Pointer(o) == p;
    PT.SmallPlace(a, o);
    ObjectFits(a, o);
  }

  lemma RegionCovers(a: Area, used: set<int>, g: MP.Graph, buckets: seq<seq<int>>, live: set<int>, ptrs: seq<int>,
                     n: nat)
    requires Ready(a, used, SmallOnes(a, live)) && AreaTiled(MP.Stamp(a.mem, SmallOnes(a, live)), used, a.regions)
    requires n < |a.regions|
    requires Describes(g, a, buckets) && Placed(a.regions, buckets) && IsLiveSet(ptrs, live) && live <= g.children.Keys
    requires RegionsOrdered(a.regions)
    ensures Covers(ptrs, a.regions[n], RegionObjects(MP.Stamp(a.mem, SmallOnes(a, live)), used, a.regions[n]))
    ensures LAST_ADDRESS > Addr(a.regions[n].end, 0)
  {
    var small, r := SmallOnes(a, live), a.regions[n];
    var objs := RegionObjects(MP.Stamp(a.mem, small), used, r);
    RegionEnd(a, buckets, g, ptrs, live, n);
    hide Ready, AreaTiled, RegionObjects, HasObject, Describes, MP.Stamp, RegionsOrdered;
    forall p | p in ptrs && Addr(r.first, 0) <= p < Addr(r.end, 0) ensures p in Pointers(objs) {
      var o := PointerInRegion(a, g, buckets, live, ptrs, n, p);
      RegionHolds(a, used, small, n, o);
      var i :| 0 <= i < |objs| && objs[i] == o;
      assert Pointers(objs)[i] == p;
    }
    forall i | 0 <= i < |objs| ensures Pointer(objs[i]) in ptrs {
      RegionHolds(a, used, small, n, objs[i]);
    }
  }

  /** A live address inside a small region is that of a small object of the region. */
  lemma PointerInRegion(a: Area, g: MP.Graph, buckets: seq<seq<int>>, live: set<int>, ptrs: seq<int>, n: nat, p: int)
    returns (o: Object)
    requires Describes(g, a, buckets) && Placed(a.regions, buckets) && IsLiveSet(ptrs, live) && live <= g.children.Keys
    requires n < |a.regions|
    requires p in ptrs && Addr(a.regions[n].first, 0) <= p < Addr(a.regions[n].end, 0)
    ensures HasObject(a, o) && Pointer(o) == p && p in SmallOnes(a, live)
    ensures a.regions[n].first <= o.block < a.regions[n].end
  {
    hide HasObject;
    assert p in live && PT.IsSmall(a, p);
    o :| HasObject(a, o) && Pointer(o) == p;
    ObjectFits(a, o);
  }

  // ---------------------------------------------------------------------------
  // The collection
  // ---------------------------------------------------------------------------

  /** What the sweep of the small area relies on, once marking is done. */
  ghost predicate MarkedArea(a: Area, used: set<int>, g: MP.Graph, buckets: seq<seq<int>>, live: set<int>)
  {
    && Ready(a, used, SmallOnes(a, live)) && AreaTiled(MP.Stamp(a.mem, SmallOnes(a, live)), used, a.regions)
    && Describes(g, a, buckets) && Placed(a.regions, buckets) && live <= g.children.Keys && RegionsOrdered(a.regions)
  }

  /** The mark stack holds the live objects, with room to sort them. */
  ghost predicate Collected(stack: array<int>, n: nat, live: set<int>)
    reads stack
  {
    MP.SortSlots(n) <= stack.Length && MP.Distinct(stack[..n]) && MP.Elements(stack[..n]) == live
  }

  lemma LiveAddresses(a: Area, used: set<int>, g: MP.Graph, buckets: seq<seq<int>>, live: set<int>, s: seq<int>)
    requires MarkedArea(a, used, g, buckets, live) && MP.Elements(s) == live
    ensures Between0(s)
  {
    hide Ready, AreaTiled, HasObject, MP.Stamp;
    forall i | 0 <= i < |s| ensures 0 < s[i] < LAST_ADDRESS {
      assert s[i] in live;
      if PT.IsSmall(a, s[i]) { SmallAddressed(a, buckets, s[i]); }
    }
  }

  lemma SmallAddressed(a: Area, buckets: seq<seq<int>>, p: int)
    requires Placed(a.regions, buckets) && PT.IsSmall(a, p)
    ensures 0 < p < LAST_ADDRESS
  {
    hide View, Tiled, Tiles, IsTileOf;
    var o :| HasObject(a, o) && Pointer(o) == p;
    ObjectFits(a, o);
    var i :| 0 <= i < |a.regions| && a.regions[i].first <= o.block < a.regions[i].end;
  }

  /** sweep_small */
  method SweepSmall(marker: MP.Marker, m: Memory, used: set<int>, regions: seq<Region>, ghost a: Area,
                    ghost g: MP.Graph, ghost buckets: seq<seq<int>>, ghost live: set<int>, ghost top: int)
    returns (s: Swept)
    requires MarkedArea(a, used, g, buckets, live) && m == MP.Stamp(a.mem, SmallOnes(a, live)) && regions == a.regions
    requires top == SMALL_CHUNKS_LIST_INDEX_SIZE - 1
    requires marker.state == MP.Collect || marker.state == MP.Normal
    requires marker.state == MP.Collect ==> marker.top >= -1 && Collected(marker.markStack, marker.top + 1, live)
    modifies marker.markStack
    ensures s == Outcome(m, used, regions, top)
  {
    hide Ready, Outcome, BlocksTiled, Describes, Placed, MP.Stamp, SmallOnes;
    if marker.state == MP.Collect {
      LiveAddresses(a, used, g, buckets, live, marker.markStack[..marker.top + 1]);
      ghost var set_ := marker.markStack[..marker.top + 1];
      var ptrs := SortedSet(marker.markStack, marker.top + 1);
      assert IsLiveSet(ptrs, live);
      forall n | 0 <= n < |regions|
        ensures Covers(ptrs, regions[n], RegionObjects(m, used, regions[n]))
        ensures ptrs[|ptrs| - 1] > Addr(regions[n].end, 0)
      {
        RegionCovers(a, used, g, buckets, live, ptrs, n);
      }
      s := SweepSelective(m, used, regions, ptrs, top);
    } else {
      s := SweepNormal(m, used, regions, top);
    }
  }

  /** The state in which a collection may start. */
  ghost predicate CanStart(g: MP.Graph, a: Area, hm: Memory, ls: LP.LumpMap, buckets: seq<seq<int>>, fixedMem: Memory)
  {
    && Valid(a) && LP.Valid(hm, ls) && LS.TableOk(buckets, ls)
    && Describes(g, a, buckets) && Placed(a.regions, buckets) && Parts(g, View(a), hm, fixedMem, buckets)
  }

  /** Preparing the small area changes none of that. */
  lemma Prepared(g: MP.Graph, a: Area, b: Area, hm: Memory, ls: LP.LumpMap, buckets: seq<seq<int>>, fixedMem: Memory)
    requires CanStart(g, a, hm, ls, buckets, fixedMem) && Valid(b) && Same(a, b) && b.co == b.bo && b.mem == View(a)
    requires b.regions == a.regions
    ensures CanStart(g, b, hm, ls, buckets, fixedMem)
  {
    hide Valid, HasObject, LP.Valid, LS.TableOk;
    forall p ensures PT.IsSmall(a, p) <==> PT.IsSmall(b, p) {}
  }

  /** prepare_gc_small */
  method Prepare(small: SmallHeap) returns (used: set<int>, ghost a: Area)
    requires small.Valid()
    modifies small
    ensures small.Value() == a && Valid(a) && Same(old(small.Value()), a) && a.co == a.bo
    ensures a.mem == old(View(small.Value()))
    ensures small.regions == old(small.regions) && small.cursor == small.bound == 0
    ensures (forall k :: k in used <==> InUse(a, k)) && RegionsOrdered(a.regions)
    ensures small.smallAlloc + small.debt - small.handed ==
            old(small.smallAlloc + small.debt - small.handed - (small.bound - small.cursor))
  {
    hide View, Same, ChunksOk, BlockOk, HasFreeTile;
    ghost var v := small.Value();
    small.SetSlackHeader();
    ghost var w := small.Value();
    a := small.DropSlack();
    SameTrans(v, w, a);
    used := UsedBlocks(small.regions, small.blocks);
  }

  lemma ReadyToSweep(g: MP.Graph, a: Area, used: set<int>, hm: Memory, ls: LP.LumpMap, buckets: seq<seq<int>>,
                     fixedMem: Memory, live: set<int>)
    requires CanStart(g, a, hm, ls, buckets, fixedMem) && a.co == a.bo && (forall k :: k in used <==> InUse(a, k))
    requires live <= g.children.Keys
    ensures MarkedArea(a, used, g, buckets, live) && MP.Stamp(a.mem, live) == MP.Stamp(a.mem, SmallOnes(a, live))
    ensures LP.Valid(MP.Stamp(hm, live), ls)
  {
    StampSmall(g, a, hm, fixedMem, buckets, live);
    SmallReady(a, used, live);
    StampedTiled(a, used, SmallOnes(a, live));
    assert RegionsOrdered(a.regions);
    hide Valid, HasObject, Ready, AreaTiled, LP.Valid, Placed, RegionsOrdered, MP.Stamp, InUse;
    forall p | p in live && p - GC_HEAD in hm ensures LP.IsUsed(ls, p) {
      if PT.IsSmall(a, p) { SmallHeader(a, p); }
    }
    StampLumps(hm, ls, live);
  }

  lemma SmallReady(a: Area, used: set<int>, live: set<int>)
    requires Valid(a) && a.co == a.bo && forall k :: k in used <==> InUse(a, k)
    ensures Ready(a, used, SmallOnes(a, live))
  {
    hide Valid, InUse, HasObject;
  }

  lemma ReachableIsObject(g: MP.Graph, roots: set<int>, live: set<int>)
    requires forall p :: p in live <==> MP.Reachable(g, roots, p)
    ensures live <= g.children.Keys
  {
    forall p | p in live ensures p in g.children {
      assert MP.Reachable(g, roots, p);
      var path :| MP.IsPath(g, roots, path) && path[|path| - 1] == p;
    }
  }

  /**
   * The collected set, if there is one, fits twice into the mark stack: `live` is either small
   * enough for that, or too large to be collected.
   */
  ghost predicate SortFits(live: set<int>, heapSize: nat, stackSize: nat)
  {
    MP.SortSlots(|live|) <= stackSize || |live| > MP.SuggestBound(heapSize, stackSize) + 1
  }

  /** On a large enough stack every set fits. */
  lemma AlwaysFits(live: set<int>, heapSize: nat, stackSize: nat)
    requires 2 * (heapSize / 128) + 6 <= stackSize
    ensures SortFits(live, heapSize, stackSize)
  {
  }

  lemma {:induction false} DistinctCount(s: seq<int>)
    requires MP.Distinct(s)
    ensures |MP.Elements(s)| == |s|
    decreases |s|
  {
    if s != [] {
      var init, last := s[..|s| - 1], s[|s| - 1];
      DistinctCount(init);
      assert MP.Elements(s) == MP.Elements(init) + {last} && last !in MP.Elements(init);
    }
  }

  /** The roots of a collection: the objects among the root words, and those about to be finalized. */
  ghost function RootsOf(g: MP.Graph, roots: seq<MP.Root>, doFinal: seq<MP.Final>): set<int>
  {
    MP.ObjectsIn(g, MP.WordsOf(roots) + MP.FinalObjects(doFinal))
  }

  /** What is_object needs: the region table knows all regions, and the small area has been prepared. */
  ghost predicate CanRecognise(entries: seq<PT.Entry>, a: Area, used: set<int>, buckets: seq<seq<int>>)
  {
    && PT.Disjoint(entries) && PT.IsTable(buckets) && PT.Covers(entries, a, buckets)
    && Valid(a) && a.co == a.bo && forall k :: k in used <==> InUse(a, k)
  }

  /** walk_roots: roots are marked, words that may be references only if is_object recognises them. */
  method WalkRoots(marker: MP.Marker, roots: seq<MP.Root>, table: PT.RegionTable, large: PT.LargeSet, used: set<int>,
                   ghost a: Area, ghost rest: Memory)
    requires marker.Valid() && marker.Static() && marker.markStack.Length > 0
    requires marker.ph == MP.NoMarks(marker.markStack.Length)
    requires a.mem.Keys !! rest.Keys && marker.before == a.mem + rest && Describes(marker.g, a, large.buckets)
    requires table.Valid() && table.size > 0 && CanRecognise(table.regions[..table.size], a, used, large.buckets)
    requires forall k :: 0 <= k < |roots| && roots[k].Exact? ==> marker.g.IsReference(roots[k].p)
    modifies marker, marker.markStack
    ensures marker.Valid()
    ensures marker.ph == MP.MarkEach(marker.g, marker.markStack.Length, MP.NoMarks(marker.markStack.Length),
            MP.WordsOf(roots))
  {
    hide SmallArea.Valid, InUse, PT.IsSmall, PT.InTable, PT.IsTable, PT.Covers, PT.Shows, MP.Stamp, MP.Sound,
         MP.RootsInv, MP.MarkOne;
    var n := marker.markStack.Length;
    ghost var words := MP.WordsOf(roots);
    assert words[..0] == [];
    for k := 0 to |roots|
      invariant marker.Valid() && marker.ph == MP.MarkEach(marker.g, n, MP.NoMarks(n), words[..k])
    {
      assert words[..k + 1][..k] == words[..k];
      var p := MP.WordOf(roots[k]);
      RootsSound(marker.g, n, words[..k]);
      var yes := roots[k].Exact?;
      if !yes {
        PT.StampShows(a.mem, rest, marker.ph.live);
        yes := PT.IsObject(table, large, marker.mem, used, p, a);
      }
      if yes { marker.Mark(p); } else { NotMarked(marker.g, n, marker.ph, p); }
    }
    assert words[..|roots|] == words;
  }

  lemma RootsSound(g: MP.Graph, size: nat, words: seq<int>)
    requires size > 0
    ensures MP.Sound(g, size, MP.MarkEach(g, size, MP.NoMarks(size), words))
  {
    MP.RootsMarked(g, size, words);
  }

  lemma NotMarked(g: MP.Graph, size: nat, ph: MP.Phase, p: int)
    requires p !in g.children
    ensures MP.MarkOne(g, size, ph, p) == ph
  {
  }

  /** mark_phase, on the memory as a whole; returns the marker with the marked memory. */
  method Mark(g: MP.Graph, mem: Memory, roots: seq<MP.Root>, hasFinal: seq<MP.Final>, doFinal: seq<MP.Final>,
              stackSize: nat, heapSize: nat, table: PT.RegionTable, large: PT.LargeSet, used: set<int>, ghost a: Area,
              ghost rest: Memory, ghost live: set<int>)
    returns (marker: MP.Marker, has: seq<MP.Final>, todo: seq<MP.Final>)
    requires g.Valid() && MP.Unmarked(g, mem) && MP.SuggestBound(heapSize, stackSize) < stackSize - 1
    requires a.mem.Keys !! rest.Keys && mem == a.mem + rest && Describes(g, a, large.buckets)
    requires table.Valid() && table.size > 0 && CanRecognise(table.regions[..table.size], a, used, large.buckets)
    requires forall k :: 0 <= k < |roots| && roots[k].Exact? ==> g.IsReference(roots[k].p)
    requires forall k :: 0 <= k < |hasFinal| ==> hasFinal[k].at in g.fixed
    requires forall k :: 0 <= k < |doFinal| ==> g.IsReference(doFinal[k].target)
    requires (forall p :: p in live <==> MP.Reachable(g, RootsOf(g, roots, doFinal), p))
    requires SortFits(live, heapSize, stackSize)
    ensures fresh(marker) && fresh(marker.markStack) && marker.mem == MP.Stamp(mem, live)
    ensures marker.state == MP.Collect || marker.state == MP.Normal
    ensures marker.state == MP.Collect ==> marker.top >= -1 && Collected(marker.markStack, marker.top + 1, live)
    ensures has == MP.Reversed(hasFinal) && todo == doFinal
  {
    hide MP.Reachable, MP.Stamp, MP.Unmarked, MP.SuggestBound, CanRecognise, Describes, MP.MarkEach;
    marker := new MP.Marker(g, mem, stackSize);
    WalkRoots(marker, roots, table, large, used, a, rest);
    has, todo := marker.MarkPhase(MP.WordsOf(roots), heapSize, hasFinal, doFinal);
    forall p ensures p in marker.ph.live <==> p in live {
      assert p in marker.ph.live <==> MP.Reachable(g, RootsOf(g, roots, doFinal), p);
    }
    assert marker.ph.live == live;
    if marker.state == MP.Collect { DistinctCount(marker.markStack[..marker.top + 1]); }
  }

  /** The large objects that the sweep keeps are the live ones. */
  lemma LargeMarks(m: Memory, ls: LP.LumpMap, buckets: seq<seq<int>>, live: set<int>, q: int)
    requires LP.Valid(m, ls) && LS.TableOk(buckets, ls) && PT.InTable(buckets, q) && !LS.MarkedAt(m, q)
    ensures LS.MarkedAt(MP.Stamp(m, live), q) <==> q in live
  {
    assert LP.TagsOk(m, ls, q);
    MarkBitOnly(m[q - GC_HEAD]);
  }

  /** Contents and size of a large object, as before marking. */
  lemma LargeSame(m: Memory, ls: LP.LumpMap, live: set<int>, m': Memory, q: int)
    requires LP.Valid(m, ls) && LP.IsUsed(ls, q) && (forall p :: p in live && p - GC_HEAD in m ==> LP.IsUsed(ls, p))
    requires LS.SameBut(MP.Stamp(m, live), m', q, ls[q].size)
    ensures LS.SameBut(m, m', q, ls[q].size)
  {
    assert LP.TagsOk(m, ls, q) && LP.SizeOk(ls[q]);
    MarkBitOnly(m[q - GC_HEAD]);
    forall x | q <= x < q + ls[q].size - GC_HEAD && x in m ensures x + GC_HEAD !in live {
      if x + GC_HEAD in live { LP.ApartOf(ls, q, x + GC_HEAD); }
    }
  }

  /**
   * What a collection leaves of the small area: the reachable objects as they were, and every
   * other byte on the free lists once; so those of the objects that are not reachable.
   */
  ghost predicate SmallAfter(a: Area, b: Area, g: MP.Graph, roots: set<int>)
  {
    && (forall o :: HasObject(b, o) <==> HasObject(a, o) && MP.Reachable(g, roots, Pointer(o)))
    && (forall o, x :: HasObject(b, o) && o.off <= x < o.End() ==> SameWord(a.mem, b.mem, Addr(o.block, x)))
    && Conserved(b) && b.regions == a.regions && b.co == b.bo
    && (forall x :: x in b.mem ==> x in View(a) || InArea(a.regions, x))
    && (forall o, x :: HasObject(a, o) && !MP.Reachable(g, roots, Pointer(o)) && o.off <= x < o.End() ==>
          TimesFree(b, o.block, x) == 1)
  }

  lemma SurvivedSmall(a: Area, b: Area, c: Area, g: MP.Graph, roots: set<int>, live: set<int>)
    requires Same(a, b) && Survived(b, SmallOnes(b, live), c) && forall p :: p in live <==> MP.Reachable(g, roots, p)
    requires Conserved(c) && c.regions == a.regions && c.co == c.bo
    requires forall x :: x in c.mem ==> x in View(a) || InArea(a.regions, x)
    ensures SmallAfter(a, c, g, roots)
  {
    hide HasObject, MP.Reachable, SameWord, Pointer, Conserved, TimesFree, InArea, View;
    SurvivedFrom(a, b, SmallOnes(b, live), c);
    forall o ensures HasObject(c, o) <==> HasObject(a, o) && MP.Reachable(g, roots, Pointer(o)) {
      assert HasObject(b, o) ==> PT.IsSmall(b, Pointer(o));
    }
    forall o, x | HasObject(a, o) && !MP.Reachable(g, roots, Pointer(o)) && o.off <= x < o.End()
      ensures TimesFree(c, o.block, x) == 1
    {
      FreedOnce(a, c, o, x);
    }
  }

  /** What it leaves of the large objects: contents and sizes, and no mark bits. */
  ghost predicate LargeAfter(b0: seq<seq<int>>, m0: Memory, ls0: LP.LumpMap, b: seq<seq<int>>, m: Memory,
                             ls: LP.LumpMap, g: MP.Graph, roots: set<int>)
  {
    && (forall q :: PT.InTable(b, q) <==> PT.InTable(b0, q) && MP.Reachable(g, roots, q))
    && (forall q :: LP.IsUsed(ls, q) <==> LP.IsUsed(ls0, q) && (PT.InTable(b0, q) ==> MP.Reachable(g, roots, q)))
    && (forall q :: LP.IsUsed(ls, q) ==> LP.IsUsed(ls0, q) && ls[q] == ls0[q] && LS.SameBut(m0, m, q, ls[q].size))
    && (forall q :: PT.InTable(b, q) ==> !LS.MarkedAt(m, q))
  }

  lemma SurvivedLarge(b0: seq<seq<int>>, m0: Memory, ls0: LP.LumpMap, b: seq<seq<int>>, m: Memory, ls: LP.LumpMap,
                      g: MP.Graph, roots: set<int>, live: set<int>)
    requires LP.Valid(m0, ls0) && LS.TableOk(b0, ls0) && (forall q :: PT.InTable(b0, q) ==> !LS.MarkedAt(m0, q))
    requires forall p :: p in live && p - GC_HEAD in m0 ==> LP.IsUsed(ls0, p)
    requires forall p :: p in live <==> MP.Reachable(g, roots, p)
    requires forall q :: PT.InTable(b, q) <==> PT.InTable(b0, q) && LS.MarkedAt(MP.Stamp(m0, live), q)
    requires forall q :: LP.IsUsed(ls, q) <==>
               LP.IsUsed(ls0, q) && (PT.InTable(b0, q) ==> LS.MarkedAt(MP.Stamp(m0, live), q))
    requires forall q :: LP.IsUsed(ls, q) ==>
               q in ls0 && ls[q] == ls0[q] && LS.SameBut(MP.Stamp(m0, live), m, q, ls[q].size)
    requires forall q :: PT.InTable(b, q) ==> !LS.MarkedAt(m, q)
    ensures LargeAfter(b0, m0, ls0, b, m, ls, g, roots)
  {
    forall q | PT.InTable(b0, q)
      ensures LS.MarkedAt(MP.Stamp(m0, live), q) <==> MP.Reachable(g, roots, q)
    {
      LargeMarks(m0, ls0, b0, live, q);
    }
    forall q | LP.IsUsed(ls, q) ensures LS.SameBut(m0, m, q, ls[q].size) { LargeSame(m0, ls0, live, m, q); }
  }

  /** Sweep the small area and install the result. */
  method SweepSmallArea(small: SmallHeap, marker: MP.Marker, m: Memory, used: set<int>, ghost a: Area,
                        ghost g: MP.Graph, ghost buckets: seq<seq<int>>, ghost live: set<int>)
    requires small.Value() == a && MarkedArea(a, used, g, buckets, live) && m == MP.Stamp(a.mem, SmallOnes(a, live))
    requires a.co == a.bo
    requires marker.state == MP.Collect || marker.state == MP.Normal
    requires marker.state == MP.Collect ==> marker.top >= -1 && Collected(marker.markStack, marker.top + 1, live)
    modifies small`mem, small`chunks, small`blocks, marker.markStack
    ensures small.Valid() && Survived(a, SmallOnes(a, live), small.Value()) && Conserved(small.Value())
    ensures forall x :: x in small.mem ==> x in a.mem || InArea(a.regions, x)
  {
    hide Conserved, InArea, Ready, Outcome, AreaTiled, Describes, Placed, MP.Stamp, SmallOnes, SmallArea.Valid,
         CollectedArea.Collection, Survived, Collected;
    ghost var top := SMALL_CHUNKS_LIST_INDEX_SIZE - 1;
    var s := SweepSmall(marker, m, used, small.regions, a, g, buckets, live, top);
    small.mem, small.chunks, small.blocks := s.mem, s.chunks, s.blocks;
    CollectionIs(a, used, SmallOnes(a, live), top, small.Value());
    CollectionSurvived(a, used, SmallOnes(a, live), top, small.Value());
    AfterConserved(a, used, SmallOnes(a, live), top, small.Value());
    forall x | x in small.mem ensures x in a.mem || InArea(a.regions, x) {
      AfterInside(a, used, SmallOnes(a, live), top, small.Value(), x);
    }
  }

  lemma SameKeys(m: Memory, live: set<int>, m': Memory, spans: set<LP.Span>)
    requires LH.WritesInside(MP.Stamp(m, live), m', spans)
    ensures LH.WritesInside(m, m', spans)
  {
  }

  /** Sweep the large objects of a marked heap. */
  method SweepLargeArea(heap: LH.Heap, large: PT.LargeSet, marked: Memory, ghost g: MP.Graph, ghost roots: set<int>,
                        ghost live: set<int>)
    requires heap.Valid() && LS.TableOk(large.buckets, heap.ls) && marked == MP.Stamp(heap.mem, live)
    requires LP.Valid(marked, heap.ls)
    requires forall q :: PT.InTable(large.buckets, q) ==> !LS.MarkedAt(heap.mem, q)
    requires forall p :: p in live && p - GC_HEAD in heap.mem ==> LP.IsUsed(heap.ls, p)
    requires forall p :: p in live <==> MP.Reachable(g, roots, p)
    modifies heap, large
    ensures heap.Valid() && LS.TableOk(large.buckets, heap.ls)
    ensures LargeAfter(old(large.buckets), old(heap.mem), old(heap.ls), large.buckets, heap.mem, heap.ls, g, roots)
    ensures heap.spans == old(heap.spans) && LH.WritesInside(old(heap.mem), heap.mem, heap.spans)
  {
    ghost var b0, m0, ls0 := large.buckets, heap.mem, heap.ls;
    heap.mem := marked;
    LS.SweepLarge(heap, large);
    SameKeys(m0, live, heap.mem, heap.spans);
    hide LargeAfter, LP.Valid, LS.TableOk, MP.Reachable, MP.Stamp, LS.SameBut, LS.MarkedAt, PT.InTable, LP.IsUsed;
    SurvivedLarge(b0, m0, ls0, large.buckets, heap.mem, heap.ls, g, roots, live);
  }

  /**
   * One collection.  Exactly the objects reachable from the roots are left; they stay where
   * they are, with their contents, and no mark bit remains set.  The heap is again one in
   * which every byte of a used block or a region belongs to one object, lump or free piece.
   */
  method Collect(small: SmallHeap, heap: LH.Heap, large: PT.LargeSet, table: PT.RegionTable, g: MP.Graph,
                 roots: seq<MP.Root>, hasFinal: seq<MP.Final>, doFinal: seq<MP.Final>, fixedMem: Memory, stackSize: nat,
                 heapSize: nat, ghost live: set<int>)
    returns (has: seq<MP.Final>, todo: seq<MP.Final>)
    requires small.Valid() && heap.Valid() && CanStart(g, small.Value(), heap.mem, heap.ls, large.buckets, fixedMem)
    requires table.Valid() && table.size > 0 && PT.Covers(table.regions[..table.size], small.Value(), large.buckets)
    requires forall k :: 0 <= k < |roots| && roots[k].Exact? ==> g.IsReference(roots[k].p)
    requires forall k :: 0 <= k < |hasFinal| ==> hasFinal[k].at in g.fixed
    requires forall k :: 0 <= k < |doFinal| ==> g.IsReference(doFinal[k].target)
    requires (forall p :: p in live <==> MP.Reachable(g, RootsOf(g, roots, doFinal), p))
    requires SortFits(live, heapSize, stackSize)
    requires MP.SuggestBound(heapSize, stackSize) < stackSize - 1
    modifies small, heap, large
    ensures small.Valid() && heap.Valid() && LS.TableOk(large.buckets, heap.ls)
    ensures SmallAfter(old(small.Value()), small.Value(), g, RootsOf(g, roots, doFinal))
    ensures LargeAfter(old(large.buckets), old(heap.mem), old(heap.ls), large.buckets, heap.mem, heap.ls, g,
                       RootsOf(g, roots, doFinal))
    ensures heap.spans == old(heap.spans) && LH.WritesInside(old(heap.mem), heap.mem, heap.spans)
    ensures small.smallAlloc == 0 && small.Exact()
    ensures has == MP.Reversed(hasFinal) && todo == doFinal
  {
    hide SmallArea.Valid, LP.Valid, LS.TableOk, Describes, Placed, Same, Survived, SmallAfter, LargeAfter, MP.Reachable,
         LH.WritesInside, RootsOf, Conserved, CanStart, MarkedArea, SortFits, MP.SuggestBound, PT.Disjoint, MP.Stamp,
         View, Collected, InUse, SmallOnes, Restrict, LP.Tiling, MP.Unmarked, LS.MarkedAt, LP.IsUsed, CanRecognise,
         PT.Covers;
    ghost var a0, b0 := small.Value(), large.buckets;
    var used, a := Prepare(small);
    Prepared(g, a0, a, heap.mem, heap.ls, b0, fixedMem);
    Started(g, a, heap.mem, heap.ls, b0, fixedMem);
    Recognises(table.regions[..table.size], a0, a, used, b0, heap.ls);
    var marker;
    marker, has, todo := MarkHeap(small, heap, large, table, g, roots, hasFinal, doFinal, fixedMem, stackSize, heapSize,
                                  used, a, live);
    Sweep(small, heap, large, marker, used, g, RootsOf(g, roots, doFinal), a0, a, live);
    small.smallAlloc, small.handed, small.debt := 0, 0, 0;
  }

  /** sweep_phase */
  method Sweep(small: SmallHeap, heap: LH.Heap, large: PT.LargeSet, marker: MP.Marker, used: set<int>,
               ghost g: MP.Graph, ghost roots: set<int>, ghost a0: Area, ghost a: Area, ghost live: set<int>)
    requires small.Value() == a && a.co == a.bo && Same(a0, a) && a.regions == a0.regions && a.mem == View(a0)
    requires MarkedArea(a, used, g, large.buckets, live)
    requires marker.state == MP.Collect || marker.state == MP.Normal
    requires marker.state == MP.Collect ==> marker.top >= -1 && Collected(marker.markStack, marker.top + 1, live)
    requires Restrict(marker.mem, small.mem.Keys) == MP.Stamp(a.mem, SmallOnes(a, live))
    requires heap.Valid() && LS.TableOk(large.buckets, heap.ls)
    requires Restrict(marker.mem, heap.mem.Keys) == MP.Stamp(heap.mem, live)
    requires LP.Valid(MP.Stamp(heap.mem, live), heap.ls)
    requires forall q :: PT.InTable(large.buckets, q) ==> !LS.MarkedAt(heap.mem, q)
    requires forall p :: p in live && p - GC_HEAD in heap.mem ==> LP.IsUsed(heap.ls, p)
    requires forall p :: p in live <==> MP.Reachable(g, roots, p)
    modifies small`mem, small`chunks, small`blocks, marker.markStack, heap, large
    ensures small.Valid() && SmallAfter(a0, small.Value(), g, roots)
    ensures heap.Valid() && LS.TableOk(large.buckets, heap.ls)
    ensures LargeAfter(old(large.buckets), old(heap.mem), old(heap.ls), large.buckets, heap.mem, heap.ls, g, roots)
    ensures heap.spans == old(heap.spans) && LH.WritesInside(old(heap.mem), heap.mem, heap.spans)
  {
    hide LH.WritesInside, InArea, View, SmallArea.Valid, LP.Valid, LS.TableOk, Same, Survived, SmallAfter, LargeAfter,
         MP.Reachable, Conserved, MarkedArea, MP.Stamp, Collected, SmallOnes, Restrict, LP.Tiling, LS.MarkedAt,
         LP.IsUsed;
    SweepSmallArea(small, marker, Restrict(marker.mem, small.mem.Keys), used, a, g, large.buckets, live);
    SurvivedSmall(a0, a, small.Value(), g, roots, live);
    SweepLargeArea(heap, large, Restrict(marker.mem, heap.mem.Keys), g, roots, live);
  }

  /** Mark the prepared heap; what both sweeps rely on then holds. */
  method MarkHeap(small: SmallHeap, heap: LH.Heap, large: PT.LargeSet, table: PT.RegionTable, g: MP.Graph,
                  roots: seq<MP.Root>, hasFinal: seq<MP.Final>, doFinal: seq<MP.Final>, fixedMem: Memory,
                  stackSize: nat, heapSize: nat, used: set<int>, ghost a: Area, ghost live: set<int>)
    returns (marker: MP.Marker, has: seq<MP.Final>, todo: seq<MP.Final>)
    requires small.Value() == a && a.co == a.bo && CanStart(g, a, heap.mem, heap.ls, large.buckets, fixedMem)
    requires table.Valid() && table.size > 0 && CanRecognise(table.regions[..table.size], a, used, large.buckets)
    requires forall k :: 0 <= k < |roots| && roots[k].Exact? ==> g.IsReference(roots[k].p)
    requires forall k :: 0 <= k < |hasFinal| ==> hasFinal[k].at in g.fixed
    requires forall k :: 0 <= k < |doFinal| ==> g.IsReference(doFinal[k].target)
    requires (forall p :: p in live <==> MP.Reachable(g, RootsOf(g, roots, doFinal), p))
    requires SortFits(live, heapSize, stackSize)
    requires MP.SuggestBound(heapSize, stackSize) < stackSize - 1
    ensures fresh(marker) && fresh(marker.markStack)
    ensures marker.state == MP.Collect || marker.state == MP.Normal
    ensures marker.state == MP.Collect ==> marker.top >= -1 && Collected(marker.markStack, marker.top + 1, live)
    ensures has == MP.Reversed(hasFinal) && todo == doFinal
    ensures MarkedArea(a, used, g, large.buckets, live)
    ensures Restrict(marker.mem, small.mem.Keys) == MP.Stamp(a.mem, SmallOnes(a, live))
    ensures Restrict(marker.mem, heap.mem.Keys) == MP.Stamp(heap.mem, live)
    ensures LP.Valid(MP.Stamp(heap.mem, live), heap.ls)
    ensures forall p :: p in live && p - GC_HEAD in heap.mem ==> LP.IsUsed(heap.ls, p)
  {
    hide SmallArea.Valid, LP.Valid, LS.TableOk, Describes, Placed, MP.Reachable, RootsOf, MP.Stamp, Collected, InUse,
         SmallOnes, Restrict, LP.Tiling, MP.Unmarked, LS.MarkedAt, LP.IsUsed, PT.Covers, PT.IsTable, PT.Disjoint;
    Started(g, a, heap.mem, heap.ls, large.buckets, fixedMem);
    AllUnmarked(g, a, heap.mem, fixedMem, large.buckets);
    var mem := small.mem + heap.mem + fixedMem;
    assert mem == small.mem + (heap.mem + fixedMem);
    marker, has, todo := Mark(g, mem, roots, hasFinal, doFinal, stackSize, heapSize, table, large, used, a,
                              heap.mem + fixedMem, live);
    ReachableIsObject(g, RootsOf(g, roots, doFinal), live);
    StampSplit(small.mem, heap.mem, fixedMem, live);
    ReadyToSweep(g, a, used, heap.mem, heap.ls, large.buckets, fixedMem, live);
    LiveLumps(g, a, heap.mem, heap.ls, large.buckets, fixedMem, live);
  }

  lemma Recognises(entries: seq<PT.Entry>, a0: Area, a: Area, used: set<int>, buckets: seq<seq<int>>, ls: LP.LumpMap)
    requires PT.Disjoint(entries) && PT.Covers(entries, a0, buckets) && a.regions == a0.regions
    requires LS.TableOk(buckets, ls)
    requires Valid(a) && a.co == a.bo && forall k :: k in used <==> InUse(a, k)
    ensures CanRecognise(entries, a, used, buckets)
  {
  }

  lemma Started(g: MP.Graph, a: Area, hm: Memory, ls: LP.LumpMap, buckets: seq<seq<int>>, fixedMem: Memory)
    requires CanStart(g, a, hm, ls, buckets, fixedMem) && a.co == a.bo
    ensures g.Valid() && Describes(g, a, buckets) && LS.TableOk(buckets, ls) && a.mem.Keys !! hm.Keys
    ensures a.mem.Keys !! fixedMem.Keys && hm.Keys !! fixedMem.Keys
    ensures forall q :: PT.InTable(buckets, q) ==> !LS.MarkedAt(hm, q)
  {
  }

  lemma LiveLumps(g: MP.Graph, a: Area, hm: Memory, ls: LP.LumpMap, buckets: seq<seq<int>>, fixedMem: Memory,
                  live: set<int>)
    requires CanStart(g, a, hm, ls, buckets, fixedMem) && a.co == a.bo && live <= g.children.Keys
    ensures forall p :: p in live && p - GC_HEAD in hm ==> LP.IsUsed(ls, p)
  {
    hide Valid, LP.Valid, Placed, PT.IsSmall;
    forall p | p in live && p - GC_HEAD in hm ensures LP.IsUsed(ls, p) {
      if PT.IsSmall(a, p) { SmallHeader(a, p); }
    }
  }

  // ---------------------------------------------------------------------------
  // One collection after another
  // ---------------------------------------------------------------------------

  function Filtered(heap: seq<int>, live: set<int>): (s: seq<int>)
    ensures forall p :: p in s <==> p in heap && p in live
  {
    if heap == [] then [] else
      var last := heap[|heap| - 1];
      Filtered(heap[..|heap| - 1], live) + if last in live then [last] else []
  }

  /** The object graph when only these objects are left. */
  function Left(g: MP.Graph, live: set<int>): MP.Graph
  {
    MP.Graph(Filtered(g.heap, live), g.fixed, map p | p in g.children && p in live :: g.children[p])
  }

  lemma LeftValid(g: MP.Graph, roots: set<int>, live: set<int>)
    requires g.Valid() && forall p :: p in live <==> MP.Reachable(g, roots, p)
    ensures Left(g, live).Valid() && Left(g, live).children.Keys == live
  {
    hide MP.Reachable;
    ReachableIsObject(g, roots, live);
    var l := Left(g, live);
    forall p ensures p in l.Objects() <==> p in live {
      assert p in l.Objects() <==> p in l.heap;
      assert p in g.Objects() <==> p in g.heap;
    }
    forall p, k | p in l.children && 0 <= k < |l.children[p]| ensures l.IsReference(l.children[p][k]) {
      var c := g.children[p][k];
      assert g.IsReference(c);
      if c in g.children { MP.ChildReachable(g, roots, p, c); }
    }
  }

  /** What is reachable stays so when everything else is gone. */
  lemma {:induction false} PathLeft(g: MP.Graph, roots: set<int>, live: set<int>, path: seq<int>, i: nat)
    requires (forall p :: p in live <==> MP.Reachable(g, roots, p)) && MP.IsPath(g, roots, path) && i < |path|
    ensures path[i] in live
    decreases i
  {
    hide MP.Reachable;
    if i == 0 {
      MP.RootReachable(g, roots, path[0]);
    } else {
      PathLeft(g, roots, live, path, i - 1);
      MP.ChildReachable(g, roots, path[i - 1], path[i]);
    }
  }

  lemma LeftReachable(g: MP.Graph, roots: set<int>, live: set<int>, p: int)
    requires forall p :: p in live <==> MP.Reachable(g, roots, p)
    ensures MP.Reachable(Left(g, live), roots, p) <==> p in live
  {
    if p in live {
      assert MP.Reachable(g, roots, p);
      var path :| MP.IsPath(g, roots, path) && path[|path| - 1] == p;
      forall i | 0 <= i < |path| ensures path[i] in live { PathLeft(g, roots, live, path, i); }
      assert MP.IsPath(Left(g, live), roots, path);
    }
  }

  /** Small objects, large ones and fixed ones have memory of their own. */
  ghost predicate Homes(regions: seq<Region>, spans: set<LP.Span>, m: Memory, hm: Memory, fixedMem: Memory)
  {
    && (forall x :: x in m ==> InArea(regions, x)) && (forall x :: x in hm ==> LH.InSpans(spans, x))
    && (forall x :: InArea(regions, x) ==> !LH.InSpans(spans, x) && x !in fixedMem)
    && (forall x :: x in fixedMem ==> !LH.InSpans(spans, x))
  }

  lemma DescribesLeft(g: MP.Graph, a: Area, b: Area, buckets: seq<seq<int>>, b1: seq<seq<int>>, roots: set<int>,
                      live: set<int>)
    requires Describes(g, a, buckets) && forall p :: p in live <==> MP.Reachable(g, roots, p)
    requires forall o :: HasObject(b, o) <==> HasObject(a, o) && MP.Reachable(g, roots, Pointer(o))
    requires forall q :: PT.InTable(b1, q) <==> PT.InTable(buckets, q) && MP.Reachable(g, roots, q)
    ensures Describes(Left(g, live), b, b1)
  {
    hide HasObject, MP.Reachable, PT.InTable;
    LeftValid(g, roots, live);
    ReachableIsObject(g, roots, live);
    forall p ensures p in live <==> PT.IsSmall(b, p) || PT.InTable(b1, p) {
      if p in live && PT.IsSmall(a, p) {
        var o :| HasObject(a, o) && Pointer(o) == p;
        assert HasObject(b, o);
      }
    }
  }

  /** After a collection the next one may start. */
  lemma CanRestart(g: MP.Graph, a: Area, b: Area, hm: Memory, ls: LP.LumpMap, hm1: Memory, ls1: LP.LumpMap,
                   buckets: seq<seq<int>>, b1: seq<seq<int>>, fixedMem: Memory, spans: set<LP.Span>, roots: set<int>,
                   live: set<int>)
    requires CanStart(g, a, hm, ls, buckets, fixedMem) && Homes(a.regions, spans, View(a), hm, fixedMem)
    requires Valid(b) && LP.Valid(hm1, ls1) && LS.TableOk(b1, ls1) && LH.WritesInside(hm, hm1, spans)
    requires SmallAfter(a, b, g, roots) && LargeAfter(buckets, hm, ls, b1, hm1, ls1, g, roots)
    requires forall p :: p in live <==> MP.Reachable(g, roots, p)
    ensures CanStart(Left(g, live), b, hm1, ls1, b1, fixedMem) && Homes(b.regions, spans, View(b), hm1, fixedMem)
  {
    hide Valid, LP.Valid, LS.TableOk, Describes, Homes, Parts, Placed, MP.Reachable, HasObject, Conserved, TimesFree,
         InArea, Pointer, SameWord, LS.SameBut, LS.MarkedAt, PT.InTable, LP.IsUsed, LH.WritesInside;
    DescribesLeft(g, a, b, buckets, b1, roots, live);
    HomesAgain(a.regions, spans, View(a), b.mem, hm, hm1, fixedMem);
    PlacedAgain(a.regions, buckets, b1);
    forall p | PT.InTable(b1, p)
      ensures p - GC_HEAD in hm1 && !Marked(hm1[p - GC_HEAD])
    {
      LumpHeader(hm1, ls1, b1, p);
    }
    PartsAgain(g, Left(g, live), a.regions, spans, b.mem, hm1, fixedMem, View(a), hm, buckets, b1);
  }

  lemma HomesAgain(regions: seq<Region>, spans: set<LP.Span>, m: Memory, m1: Memory, hm: Memory, hm1: Memory,
                   fixedMem: Memory)
    requires Homes(regions, spans, m, hm, fixedMem) && LH.WritesInside(hm, hm1, spans)
    requires forall x :: x in m1 ==> x in m || InArea(regions, x)
    ensures Homes(regions, spans, m1, hm1, fixedMem)
  {
    hide InArea, LH.InSpans;
  }

  lemma PlacedAgain(regions: seq<Region>, buckets: seq<seq<int>>, b1: seq<seq<int>>)
    requires Placed(regions, buckets) && forall q :: PT.InTable(b1, q) ==> PT.InTable(buckets, q)
    ensures Placed(regions, b1)
  {
    hide PT.InTable;
  }

  lemma PartsAgain(g: MP.Graph, g1: MP.Graph, regions: seq<Region>, spans: set<LP.Span>, m: Memory, hm: Memory,
                   fixedMem: Memory, m0: Memory, hm0: Memory, buckets: seq<seq<int>>, b1: seq<seq<int>>)
    requires Homes(regions, spans, m, hm, fixedMem) && Parts(g, m0, hm0, fixedMem, buckets) && g1.fixed == g.fixed
    requires forall p :: PT.InTable(b1, p) ==> p - GC_HEAD in hm && !Marked(hm[p - GC_HEAD])
    ensures Parts(g1, m, hm, fixedMem, b1)
  {
    hide InArea, LH.InSpans, PT.InTable, Marked, LS.MarkedAt;
    forall x | x in m ensures x !in hm && x !in fixedMem { assert InArea(regions, x); }
    forall x | x in hm ensures x !in fixedMem { assert LH.InSpans(spans, x); }
  }

  lemma LumpHeader(m: Memory, ls: LP.LumpMap, buckets: seq<seq<int>>, p: int)
    requires LP.Valid(m, ls) && LS.TableOk(buckets, ls) && PT.InTable(buckets, p) && !LS.MarkedAt(m, p)
    ensures p - GC_HEAD in m && !Marked(m[p - GC_HEAD])
  {
    assert LP.TagsOk(m, ls, p);
  }

  /** The roots are the same ones. */
  lemma SameRoots(g: MP.Graph, roots: seq<MP.Root>, doFinal: seq<MP.Final>, live: set<int>)
    requires forall p :: p in live <==> MP.Reachable(g, RootsOf(g, roots, doFinal), p)
    ensures RootsOf(Left(g, live), roots, doFinal) == RootsOf(g, roots, doFinal)
  {
    hide MP.Reachable;
    var words := MP.WordsOf(roots) + MP.FinalObjects(doFinal);
    forall p | p in words && p in g.children ensures p in live { MP.RootReachable(g, MP.ObjectsIn(g, words), p); }
  }

  lemma StillReferences(g: MP.Graph, roots: seq<MP.Root>, doFinal: seq<MP.Final>, live: set<int>)
    requires g.Valid() && forall p :: p in live <==> MP.Reachable(g, RootsOf(g, roots, doFinal), p)
    requires forall k :: 0 <= k < |roots| && roots[k].Exact? ==> g.IsReference(roots[k].p)
    requires forall k :: 0 <= k < |doFinal| ==> g.IsReference(doFinal[k].target)
    ensures forall k :: 0 <= k < |roots| && roots[k].Exact? ==> Left(g, live).IsReference(roots[k].p)
    ensures forall k :: 0 <= k < |doFinal| ==> Left(g, live).IsReference(doFinal[k].target)
  {
    hide MP.Reachable;
    LeftValid(g, RootsOf(g, roots, doFinal), live);
    var words := MP.WordsOf(roots) + MP.FinalObjects(doFinal);
    forall p | p in words && p in g.children ensures p in live { MP.RootReachable(g, MP.ObjectsIn(g, words), p); }
    forall k | 0 <= k < |roots| && roots[k].Exact? ensures Left(g, live).IsReference(roots[k].p) {
      assert words[k] == roots[k].p && words[k] in words;
    }
    forall k | 0 <= k < |doFinal| ensures Left(g, live).IsReference(doFinal[k].target) {
      assert words[|roots| + k] == doFinal[k].target && words[|roots| + k] in words;
    }
  }

  lemma StillCovers(entries: seq<PT.Entry>, a: Area, b: Area, buckets: seq<seq<int>>, b1: seq<seq<int>>)
    requires PT.Covers(entries, a, buckets) && b.regions == a.regions
    requires forall q :: PT.InTable(b1, q) ==> PT.InTable(buckets, q)
    ensures PT.Covers(entries, b, b1)
  {
    hide PT.InTable;
  }

  /**
   * Two collections, one after the other with the same roots: the second one finds the heap as
   * it has to be, and takes nothing away.
   */
  method CollectTwice(small: SmallHeap, heap: LH.Heap, large: PT.LargeSet, table: PT.RegionTable, g: MP.Graph,
                      roots: seq<MP.Root>, hasFinal: seq<MP.Final>, doFinal: seq<MP.Final>, fixedMem: Memory,
                      stackSize: nat, heapSize: nat, live: set<int>)
    returns (ghost mid: Area, ghost midTable: seq<seq<int>>)
    requires small.Valid() && heap.Valid() && CanStart(g, small.Value(), heap.mem, heap.ls, large.buckets, fixedMem)
    requires Homes(small.regions, heap.spans, View(small.Value()), heap.mem, fixedMem)
    requires table.Valid() && table.size > 0 && PT.Covers(table.regions[..table.size], small.Value(), large.buckets)
    requires forall k :: 0 <= k < |roots| && roots[k].Exact? ==> g.IsReference(roots[k].p)
    requires forall k :: 0 <= k < |hasFinal| ==> hasFinal[k].at in g.fixed
    requires forall k :: 0 <= k < |doFinal| ==> g.IsReference(doFinal[k].target)
    requires (forall p :: p in live <==> MP.Reachable(g, RootsOf(g, roots, doFinal), p))
    requires SortFits(live, heapSize, stackSize)
    requires MP.SuggestBound(heapSize, stackSize) < stackSize - 1
    modifies small, heap, large
    ensures small.Valid() && heap.Valid()
    ensures CanStart(Left(g, live), small.Value(), heap.mem, heap.ls, large.buckets, fixedMem)
    ensures forall o :: HasObject(small.Value(), o) <==>
              old(HasObject(small.Value(), o)) && MP.Reachable(g, RootsOf(g, roots, doFinal), Pointer(o))
    ensures forall q :: PT.InTable(large.buckets, q) <==>
              old(PT.InTable(large.buckets, q)) && MP.Reachable(g, RootsOf(g, roots, doFinal), q)
    ensures forall o :: HasObject(small.Value(), o) <==> HasObject(mid, o)
    ensures forall q :: PT.InTable(large.buckets, q) <==> PT.InTable(midTable, q)
  {
    hide SmallArea.Valid, LP.Valid, LS.TableOk, SmallAfter, LargeAfter, MP.Reachable, RootsOf, CanStart, SortFits,
         Homes, MP.SuggestBound, PT.Disjoint, View, PT.Covers, HasObject, PT.InTable, Left, LH.WritesInside, LP.Tiling,
         MP.Graph.Valid, MP.Graph.IsReference;
    ghost var a0, m0, ls0, b0, rs := small.Value(), heap.mem, heap.ls, large.buckets, RootsOf(g, roots, doFinal);
    ghost var entries := table.regions[..table.size];
    var has, todo := Collect(small, heap, large, table, g, roots, hasFinal, doFinal, fixedMem, stackSize, heapSize,
        live);
    mid, midTable := small.Value(), large.buckets;
    ghost var m1, ls1 := heap.mem, heap.ls;
    CollectedOnce(g, a0, mid, m0, ls0, m1, ls1, b0, midTable, fixedMem, heap.spans, roots, hasFinal, doFinal, live,
                  entries);
    has, todo := Collect(small, heap, large, table, Left(g, live), roots, hasFinal, doFinal, fixedMem, stackSize,
                         heapSize, live);
    CollectedOnce(Left(g, live), mid, small.Value(), m1, ls1, heap.mem, heap.ls, midTable, large.buckets, fixedMem,
                  heap.spans, roots, hasFinal, doFinal, live, entries);
    LeftTwice(g, rs, live);
    SecondTakesNone(g, a0, mid, small.Value(), b0, m0, ls0, midTable, m1, ls1, large.buckets, heap.mem, heap.ls, rs,
                    live);
  }

  /** All that the second collection relies on. */
  lemma CollectedOnce(g: MP.Graph, a: Area, b: Area, hm: Memory, ls: LP.LumpMap, hm1: Memory, ls1: LP.LumpMap,
                      buckets: seq<seq<int>>, b1: seq<seq<int>>, fixedMem: Memory, spans: set<LP.Span>,
                      roots: seq<MP.Root>, hasFinal: seq<MP.Final>, doFinal: seq<MP.Final>, live: set<int>,
                      entries: seq<PT.Entry>)
    requires CanStart(g, a, hm, ls, buckets, fixedMem) && Homes(a.regions, spans, View(a), hm, fixedMem)
    requires Valid(b) && LP.Valid(hm1, ls1) && LS.TableOk(b1, ls1) && LH.WritesInside(hm, hm1, spans)
    requires var rs := RootsOf(g, roots, doFinal);
             && SmallAfter(a, b, g, rs) && LargeAfter(buckets, hm, ls, b1, hm1, ls1, g, rs)
             && forall p :: p in live <==> MP.Reachable(g, rs, p)
    requires PT.Covers(entries, a, buckets)
    requires forall k :: 0 <= k < |roots| && roots[k].Exact? ==> g.IsReference(roots[k].p)
    requires forall k :: 0 <= k < |hasFinal| ==> hasFinal[k].at in g.fixed
    requires forall k :: 0 <= k < |doFinal| ==> g.IsReference(doFinal[k].target)
    ensures var l := Left(g, live);
            && CanStart(l, b, hm1, ls1, b1, fixedMem) && Homes(b.regions, spans, View(b), hm1, fixedMem)
            && PT.Covers(entries, b, b1) && RootsOf(l, roots, doFinal) == RootsOf(g, roots, doFinal)
            && (forall p :: p in live <==> MP.Reachable(l, RootsOf(l, roots, doFinal), p))
            && (forall k :: 0 <= k < |roots| && roots[k].Exact? ==> l.IsReference(roots[k].p))
            && (forall k :: 0 <= k < |hasFinal| ==> hasFinal[k].at in l.fixed)
            && (forall k :: 0 <= k < |doFinal| ==> l.IsReference(doFinal[k].target))
  {
    var rs := RootsOf(g, roots, doFinal);
    AfterFacts(g, a, b, hm, ls, buckets, fixedMem, hm1, ls1, b1, rs);
    hide Valid, LP.Valid, LS.TableOk, SmallAfter, LargeAfter, MP.Reachable, RootsOf, CanStart, Homes, View, PT.Covers,
         PT.InTable, LH.WritesInside, MP.Graph.IsReference;
    CanRestart(g, a, b, hm, ls, hm1, ls1, buckets, b1, fixedMem, spans, rs, live);
    SameRoots(g, roots, doFinal, live);
    StillReferences(g, roots, doFinal, live);
    StillCovers(entries, a, b, buckets, b1);
    forall p ensures p in live <==> MP.Reachable(Left(g, live), rs, p) { LeftReachable(g, rs, live, p); }
  }

  lemma AfterFacts(g: MP.Graph, a: Area, b: Area, hm: Memory, ls: LP.LumpMap, buckets: seq<seq<int>>, fixedMem: Memory,
                   hm1: Memory, ls1: LP.LumpMap, b1: seq<seq<int>>, roots: set<int>)
    requires CanStart(g, a, hm, ls, buckets, fixedMem) && SmallAfter(a, b, g, roots)
    requires LargeAfter(buckets, hm, ls, b1, hm1, ls1, g, roots)
    ensures g.Valid() && b.regions == a.regions && forall q :: PT.InTable(b1, q) ==> PT.InTable(buckets, q)
  {
  }

  lemma LeftTwice(g: MP.Graph, roots: set<int>, live: set<int>)
    ensures Left(Left(g, live), live) == Left(g, live)
  {
    FilteredTwice(g.heap, live);
  }

  lemma {:induction false} FilteredTwice(heap: seq<int>, live: set<int>)
    ensures Filtered(Filtered(heap, live), live) == Filtered(heap, live)
    decreases |heap|
  {
    if heap != [] {
      var init, last := heap[..|heap| - 1], heap[|heap| - 1];
      FilteredTwice(init, live);
      var s := Filtered(init, live);
      if last in live { assert (s + [last])[..|s|] == s; } else { assert Filtered(heap, live) == s; }
    }
  }

  lemma SecondTakesNone(g: MP.Graph, a: Area, b: Area, c: Area, bu: seq<seq<int>>, m: Memory, ls: LP.LumpMap,
                        bu1: seq<seq<int>>, m1: Memory, ls1: LP.LumpMap, bu2: seq<seq<int>>, m2: Memory,
                        ls2: LP.LumpMap, roots: set<int>, live: set<int>)
    requires forall p :: p in live <==> MP.Reachable(g, roots, p)
    requires SmallAfter(a, b, g, roots) && SmallAfter(b, c, Left(g, live), roots)
    requires LargeAfter(bu, m, ls, bu1, m1, ls1, g, roots)
    requires LargeAfter(bu1, m1, ls1, bu2, m2, ls2, Left(g, live), roots)
    ensures forall o :: HasObject(c, o) <==> HasObject(b, o)
    ensures forall o :: HasObject(c, o) <==> HasObject(a, o) && MP.Reachable(g, roots, Pointer(o))
    ensures forall q :: PT.InTable(bu2, q) <==> PT.InTable(bu1, q)
    ensures forall q :: PT.InTable(bu2, q) <==> PT.InTable(bu, q) && MP.Reachable(g, roots, q)
  {
    hide HasObject, PT.InTable, MP.Reachable, Conserved, TimesFree, LS.SameBut, LP.IsUsed, Pointer, SameWord, InArea,
         View;
    forall p ensures p in live <==> MP.Reachable(Left(g, live), roots, p) { LeftReachable(g, roots, live, p); }
  }
}
