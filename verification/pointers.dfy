/**
 * Conservative pointer recognition (src/runtime/gc.c): which words are the address
 * of an allocated object.  A binary search finds the region, then the block usage
 * table and a header walk, or the hash table of large objects, decide.
 */
module Pointers {
  import opened Header
  import opened FreeSpace
  import opened SmallSweep
  import opened SweepArea
  import opened HeapWalk
  import opened SmallArea
  import MP = MarkPhase

  datatype Kind = Small | Large | Fixed

  /** An entry of the region table: addresses start up to end. */
  datatype Entry = Entry(start: int, end: int, kind: Kind)

  ghost predicate Holds(e: Entry, p: int) { e.start <= p < e.end }

  /** Entries in address order, without overlap. */
  ghost predicate Disjoint(es: seq<Entry>)
  {
    && (forall i :: 0 <= i < |es| ==> es[i].start < es[i].end)
    && (forall i, j :: 0 <= i < j < |es| ==> es[i].end <= es[j].start)
  }

  class RegionTable {
    const regions: array<Entry>
    var size: nat               // region_table_size

    ghost predicate Valid()
      reads this, regions
    {
      size <= regions.Length && Disjoint(regions[..size])
    }

    constructor (capacity: nat)
      ensures Valid() && fresh(regions) && regions.Length == capacity && size == 0
    {
      regions := new Entry[capacity](i => Entry(0, 0, Fixed));
      size := 0;
    }

    /** region_find: the region that holds p, if there is one. */
    method RegionFind(p: int) returns (found: bool, e: Entry)
      requires Valid() && size > 0
      ensures found ==> e in regions[..size] && Holds(e, p)
      ensures !found ==> forall f :: f in regions[..size] ==> !Holds(f, p)
    {
      var lo, hi := 0, size - 1;
      while lo < hi
        invariant 0 <= lo <= hi < size
        invariant forall i :: 0 <= i < lo ==> !Holds(regions[..size][i], p)
        invariant forall i :: hi < i < size ==> !Holds(regions[..size][i], p)
        decreases hi - lo
      {
        var mid := (lo + hi + 1) / 2;
        if p < regions[mid].start {
          assert forall i :: mid <= i < size ==> regions[..size][mid].start <= regions[..size][i].start;
          hi := mid - 1;
        } else {
          assert forall i :: 0 <= i < mid ==> regions[..size][i].end <= regions[..size][mid].start;
          lo := mid;
        }
      }
      e := regions[lo];
      found := e.start <= p < e.end;
      assert e == regions[..size][lo];
    }

    /** region_allocate, once the system has provided the memory: insert the entry in address order. */
    method Insert(e: Entry)
      requires Valid() && size < regions.Length && e.start < e.end
      requires forall i :: 0 <= i < size ==> regions[i].end <= e.start || e.end <= regions[i].start
      modifies this, regions
      ensures Valid() && size == old(size) + 1
      ensures exists k :: 0 <= k <= old(size) &&
                regions[..size] == old(regions[..size])[..k] + [e] + old(regions[..size])[k..]
    {
      ghost var was := regions[..size];
      var i := ShiftUp(regions, size, e);
      regions[i] := e;
      size := size + 1;
      Inserted(regions[..size], was, i, e);
      InsertDisjoint(was, i, e);
    }
  }

  /** Shift the first n entries that start behind e up by one; returns where e belongs. */
  method ShiftUp(a: array<Entry>, n: nat, e: Entry) returns (i: nat)
    requires n < a.Length
    modifies a
    ensures i <= n && (i > 0 ==> old(a[i - 1]).start <= e.start)
    ensures forall j :: 0 <= j < i ==> a[j] == old(a[j])
    ensures forall j :: i <= j < n ==> a[j + 1] == old(a[j]) && old(a[j]).start > e.start
  {
    i := n;
    while i > 0 && a[i - 1].start > e.start
      invariant 0 <= i <= n
      invariant forall j :: 0 <= j < i ==> a[j] == old(a[j])
      invariant forall j :: i <= j < n ==> a[j + 1] == old(a[j]) && old(a[j]).start > e.start
    {
      a[i] := a[i - 1];
      i := i - 1;
    }
  }

  lemma Inserted(es: seq<Entry>, was: seq<Entry>, k: nat, e: Entry)
    requires k <= |was| && |es| == |was| + 1 && es[k] == e
    requires (forall j :: 0 <= j < k ==> es[j] == was[j]) && (forall j :: k <= j < |was| ==> es[j + 1] == was[j])
    ensures es == was[..k] + [e] + was[k..]
  {
    var t := was[..k] + [e] + was[k..];
    forall j | 0 <= j < |es| ensures es[j] == t[j] { if j > k { assert es[(j - 1) + 1] == was[j - 1]; } }
  }

  lemma InsertDisjoint(es: seq<Entry>, k: nat, e: Entry)
    requires Disjoint(es) && k <= |es| && e.start < e.end
    requires forall i :: 0 <= i < |es| ==> es[i].end <= e.start || e.end <= es[i].start
    requires forall i :: k <= i < |es| ==> es[i].start > e.start
    requires k > 0 ==> es[k - 1].start <= e.start
    ensures Disjoint(es[..k] + [e] + es[k..])
  {
    assert forall i :: 0 <= i < k ==> es[i].start <= es[k - 1].start;
  }

  // ---------------------------------------------------------------------------
  // Small objects
  // ---------------------------------------------------------------------------

  /** p is the address of an allocated small object. */
  ghost predicate IsSmall(a: Area, p: int) { exists o :: HasObject(a, o) && Pointer(o) == p }

  /** Such addresses are aligned and lie inside their block. */
  lemma SmallPlace(a: Area, o: Object)
    requires HasObject(a, o)
    ensures var p := Pointer(o); p % MEMALIGN == 0 && p / GC_BLOCKSIZE == o.block && p % GC_BLOCKSIZE == o.off + GC_HEAD
  {
    ObjectFits(a, o);
    AddrParts(o.block, o.off + GC_HEAD);
    AlignedPointer(o.block, o.off);
  }

  lemma AlignedPointer(k: int, off: int)
    requires off % 8 == 4
    ensures (Addr(k, off) + GC_HEAD) % 8 == 0
  {
    var z := off / 8;
    assert off == 8 * z + 4;
    EightTimes(512 * k + z + 1);
  }

  lemma EightTimes(z: int)
    ensures (8 * z) % 8 == 0
  {
  }

  /** The object at a header position of block k, in terms of its tiles. */
  lemma SmallTile(a: Area, k: int, off: int)
    requires Valid(a) && InUse(a, k) && FIRST <= off < LAST
    ensures Tiled(View(a), k, FIRST)
    ensures IsSmall(a, Addr(k, off) + GC_HEAD) <==> IsUsedTile(View(a), k, FIRST, off)
  {
    assert BlockOk(View(a), k);
    if IsSmall(a, Addr(k, off) + GC_HEAD) { SmallIsTile(a, k, off); }
    hide Valid, View, Tiled, Tiles;
    if IsUsedTile(View(a), k, FIRST, off) {
      var t :| t in Tiles(View(a), k, FIRST) && t.off == off && !Free(t.header);
      var o := Object(k, off, Size(t.header));
      assert IsTileOf(View(a), k, t, o);
      assert HasObject(a, o);
    }
  }

  lemma SmallIsTile(a: Area, k: int, off: int)
    requires FIRST <= off < LAST && IsSmall(a, Addr(k, off) + GC_HEAD)
    ensures IsUsedTile(View(a), k, FIRST, off)
  {
    hide InUse, View, Tiled, Tiles;
    var o :| HasObject(a, o) && Pointer(o) == Addr(k, off) + GC_HEAD;
    ObjectFits(a, o);
    AddrParts(o.block, o.off);
    AddrParts(k, off);
    var t :| IsTileOf(View(a), k, t, o);
  }

  /** The words of m are in memory, but for their mark bits. */
  ghost predicate Shows(m: Memory, mem: Memory)
  {
    forall x :: x in m ==> x in mem && Size(mem[x]) == Size(m[x]) && Free(mem[x]) == Free(m[x])
  }

  /** In the course of a mark phase, whatever has been marked. */
  lemma StampShows(m: Memory, rest: Memory, live: set<int>)
    requires m.Keys !! rest.Keys
    ensures Shows(m, MP.Stamp(m + rest, live))
  {
    forall x | x in m
      ensures Size(MP.Stamp(m + rest, live)[x]) == Size(m[x]) && Free(MP.Stamp(m + rest, live)[x]) == Free(m[x])
    {
      MarkBitOnly(m[x]);
    }
  }

  /** So a header walk meets the same tiles, but for their mark bits. */
  lemma {:induction false} ShowsTiles(m: Memory, mem: Memory, k: int, off: int, x: int)
    requires Shows(m, mem) && Tiled(m, k, off)
    ensures Tiled(mem, k, off) && (IsUsedTile(mem, k, off, x) <==> IsUsedTile(m, k, off, x))
    decreases LAST - off
  {
    if off < LAST {
      TilesSplit(m, k, off);
      var h, h', next := m[Addr(k, off)], mem[Addr(k, off)], off + Size(m[Addr(k, off)]);
      ShowsTiles(m, mem, k, next, x);
      TilesSplit(mem, k, off);
      FirstTile(m, k, off, x);
      FirstTile(mem, k, off, x);
    }
  }

  lemma FirstTile(m: Memory, k: int, off: int, x: int)
    requires Tiled(m, k, off) && off < LAST
    ensures Addr(k, off) in m && var h := m[Addr(k, off)];
            IsUsedTile(m, k, off, x) <==> (off == x && !Free(h)) || IsUsedTile(m, k, off + Size(h), x)
  {
    TilesSplit(m, k, off);
    var t, rest := Tile(off, m[Addr(k, off)]), Tiles(m, k, off + Size(m[Addr(k, off)]));
    assert forall u :: u in [t] + rest <==> u == t || u in rest;
  }

  /**
   * is_small_object: p lies in block k = p / GC_BLOCKSIZE of the area, which has been prepared
   * for a collection; any of its objects may have been marked.
   */
  method IsSmallObject(mem: Memory, used: set<int>, p: int, ghost a: Area) returns (yes: bool)
    requires Valid(a) && a.co == a.bo && Shows(a.mem, mem) && forall k :: k in used <==> InUse(a, k)
    ensures yes <==> IsSmall(a, p)
  {
    hide Valid, InUse, Tiled, Tiles, Free, Shows, IsUsedTile;
    forall o | HasObject(a, o) && Pointer(o) == p
      ensures p % MEMALIGN == 0 && InUse(a, p / GC_BLOCKSIZE) && p % GC_BLOCKSIZE >= 8
    {
      SmallPlace(a, o);
      ObjectFits(a, o);
    }
    if p % MEMALIGN != 0 { return false; }
    var k := p / GC_BLOCKSIZE;
    if k !in used { return false; }
    ghost var target := p % GC_BLOCKSIZE - GC_HEAD;
    UsedTiled(a, k);
    ShowsTiles(a.mem, mem, k, FIRST, target);
    yes := AtTile(mem, k, p - GC_HEAD, target);
    if target < FIRST { NoTile(a.mem, k, target); } else { SmallTile(a, k, target); }
  }

  lemma UsedTiled(a: Area, k: int)
    requires Valid(a) && InUse(a, k) && a.co == a.bo
    ensures Tiled(a.mem, k, FIRST) && View(a) == a.mem
  {
    assert BlockOk(View(a), k);
  }

  lemma NoTile(m: Memory, k: int, off: int)
    requires Tiled(m, k, FIRST) && off < FIRST
    ensures !IsUsedTile(m, k, FIRST, off)
  {
    if t :| t in Tiles(m, k, FIRST) && t.off == off && !Free(t.header) { TileFacts(m, k, FIRST, t); }
  }

  /** Some tile of the walk from offset off starts at offset x and is not free. */
  ghost predicate IsUsedTile(m: Memory, k: int, off: int, x: int)
  {
    Tiled(m, k, off) && exists t :: t in Tiles(m, k, off) && t.off == x && !Free(t.header)
  }

  /** The tile at which the walk stands is not the one looked for. */
  lemma PassTile(m: Memory, k: int, off: int, x: int)
    requires Tiled(m, k, off) && off < x < LAST
    ensures off < LAST && Addr(k, off) in m && var h := m[Addr(k, off)];
            && 0 < Size(h) && Tiled(m, k, off + Size(h))
            && (IsUsedTile(m, k, off, x) <==> IsUsedTile(m, k, off + Size(h), x))
  {
    TilesSplit(m, k, off);
    var t, rest := Tile(off, m[Addr(k, off)]), Tiles(m, k, off + Size(m[Addr(k, off)]));
    assert forall u :: u in [t] + rest <==> u == t || u in rest;
  }

  /** The tile at which the walk stands starts at or behind the place looked for. */
  lemma StopTile(m: Memory, k: int, off: int, x: int)
    requires Tiled(m, k, off) && x <= off && x < LAST
    ensures off == x ==> Addr(k, off) in m
    ensures IsUsedTile(m, k, off, x) <==> off == x && !Free(m[Addr(k, off)])
  {
    if t :| t in Tiles(m, k, off) && t.off == x && !Free(t.header) { TileFacts(m, k, off, t); }
    if off == x { assert Tile(off, m[Addr(k, off)]) in Tiles(m, k, off); }
  }

  /** The header walk of is_small_object. */
  method AtTile(mem: Memory, k: int, bound: int, ghost x: int) returns (yes: bool)
    requires Tiled(mem, k, FIRST) && bound == Addr(k, x) && x < LAST
    ensures yes <==> IsUsedTile(mem, k, FIRST, x)
  {
    hide Tiled, IsUsedTile, Size;
    var header := Addr(k, FIRST);
    ghost var off := FIRST;
    while header < bound
      invariant header == Addr(k, off) && Tiled(mem, k, off)
      invariant (IsUsedTile(mem, k, off, x) <==> IsUsedTile(mem, k, FIRST, x))
      decreases bound - header
    {
      PassTile(mem, k, off, x);
      off := off + Size(mem[header]);
      header := header + Size(mem[header]);
    }
    StopTile(mem, k, off, x);
    yes := header == bound && !Free(mem[header]);
  }

  // ---------------------------------------------------------------------------
  // Large objects
  // ---------------------------------------------------------------------------

  const LARGE_SET_SIZE := 16381

  /** large_set_hash, reduced to a bucket number. */
  function Bucket(p: int): int { p / MEMALIGN % LARGE_SET_SIZE }

  /** The hash table of large objects: every object is in its own bucket, once. */
  ghost predicate IsTable(buckets: seq<seq<int>>)
  {
    && |buckets| == LARGE_SET_SIZE
    && (forall i, j :: 0 <= i < LARGE_SET_SIZE && 0 <= j < |buckets[i]| ==> Bucket(buckets[i][j]) == i)
    && (forall i, j, k :: 0 <= i < LARGE_SET_SIZE && 0 <= j < k < |buckets[i]| ==> buckets[i][j] != buckets[i][k])
  }

  ghost predicate InTable(buckets: seq<seq<int>>, p: int) { |buckets| == LARGE_SET_SIZE && p in buckets[Bucket(p)] }

  class LargeSet {
    var buckets: seq<seq<int>>

    ghost predicate Valid() reads this { IsTable(buckets) }

    /** large_set_init */
    constructor ()
      ensures Valid() && forall p :: !InTable(buckets, p)
    {
      buckets := seq(LARGE_SET_SIZE, i => []);
    }

    /** large_set_exists: follow the chain of the bucket. */
    method Exists(p: int) returns (yes: bool)
      requires Valid()
      ensures yes <==> InTable(buckets, p)
    {
      var chain := buckets[Bucket(p)];
      var i := 0;
      while i < |chain|
        invariant 0 <= i <= |chain| && p !in chain[..i]
      {
        if chain[i] == p { return true; }
        i := i + 1;
      }
      return false;
    }

    /** large_set_add: a new object goes to the front of its chain. */
    method Add(p: int)
      requires Valid() && !InTable(buckets, p)
      modifies this
      ensures Valid() && forall q :: InTable(buckets, q) <==> old(InTable(buckets, q)) || q == p
    {
      var i := Bucket(p);
      buckets := buckets[i := [p] + buckets[i]];
    }
  }

  // ---------------------------------------------------------------------------
  // is_object
  // ---------------------------------------------------------------------------

  /** The table knows the region of every small and large object. */
  ghost predicate Covers(entries: seq<Entry>, a: Area, buckets: seq<seq<int>>)
  {
    && (forall i :: 0 <= i < |a.regions| ==>
          Entry(Addr(a.regions[i].first, 0), Addr(a.regions[i].end, 0), Small) in entries)
    && (forall p :: InTable(buckets, p) ==> exists e :: e in entries && Holds(e, p) && e.kind == Large)
  }

  lemma SmallEntry(entries: seq<Entry>, a: Area, buckets: seq<seq<int>>, p: int) returns (e: Entry)
    requires Covers(entries, a, buckets) && IsSmall(a, p)
    ensures e in entries && Holds(e, p) && e.kind == Small
  {
    hide View, Tiled, Tiles, IsTileOf;
    var o :| HasObject(a, o) && Pointer(o) == p;
    ObjectFits(a, o);
    var i :| 0 <= i < |a.regions| && a.regions[i].first <= o.block < a.regions[i].end;
    e := Entry(Addr(a.regions[i].first, 0), Addr(a.regions[i].end, 0), Small);
  }

  /** At most one region holds an address. */
  lemma OneEntry(entries: seq<Entry>, e: Entry, f: Entry, p: int)
    requires Disjoint(entries) && e in entries && f in entries && Holds(e, p) && Holds(f, p)
    ensures e == f
  {
    var i :| 0 <= i < |entries| && entries[i] == e;
    var j :| 0 <= j < |entries| && entries[j] == f;
  }

  /** What the region of p says about it. */
  lemma KindDecides(entries: seq<Entry>, a: Area, buckets: seq<seq<int>>, e: Entry, p: int)
    requires Disjoint(entries) && Covers(entries, a, buckets) && e in entries && Holds(e, p)
    ensures IsSmall(a, p) ==> e.kind == Small
    ensures InTable(buckets, p) ==> e.kind == Large
  {
    hide IsSmall, InTable;
    if IsSmall(a, p) {
      var f := SmallEntry(entries, a, buckets, p);
      OneEntry(entries, e, f, p);
    }
    if InTable(buckets, p) {
      var f :| f in entries && Holds(f, p) && f.kind == Large;
      OneEntry(entries, e, f, p);
    }
  }

  /** is_object: exactly the addresses of allocated small and large objects are recognised. */
  method IsObject(table: RegionTable, large: LargeSet, mem: Memory, used: set<int>, p: int, ghost a: Area)
    returns (yes: bool)
    requires table.Valid() && table.size > 0 && large.Valid()
    requires Valid(a) && a.co == a.bo && Shows(a.mem, mem) && forall k :: k in used <==> InUse(a, k)
    requires Covers(table.regions[..table.size], a, large.buckets)
    ensures yes <==> IsSmall(a, p) || InTable(large.buckets, p)
  {
    hide Valid, InUse, IsSmall, InTable, IsTable, Covers, Shows;
    var found, e := table.RegionFind(p);
    if !found {
      Unmapped(table.regions[..table.size], a, large.buckets, p);
      return false;
    }
    KindDecides(table.regions[..table.size], a, large.buckets, e, p);
    if e.kind == Small {
      yes := IsSmallObject(mem, used, p, a);
    } else if e.kind == Large {
      yes := large.Exists(p);
    } else {
      yes := false;
    }
  }

  lemma Unmapped(entries: seq<Entry>, a: Area, buckets: seq<seq<int>>, p: int)
    requires Covers(entries, a, buckets) && forall e :: e in entries ==> !Holds(e, p)
    ensures !IsSmall(a, p) && !InTable(buckets, p)
  {
    hide IsSmall;
    if IsSmall(a, p) { var e := SmallEntry(entries, a, buckets, p); }
  }
}
