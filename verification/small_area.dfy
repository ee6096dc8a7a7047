/**
 * The small object area between collections (src/runtime/gc.c): the invariant that
 * every allocation, expansion and collection keeps, and what each step does to it.
 */
module SmallArea {
  import opened Header
  import opened FreeSpace
  import opened ChunkIndex
  import opened SmallSweep
  import opened SweepArea
  import opened HeapWalk

  const GC_MAX_SMALL_OBJECT_SIZE := 1024

  /**
   * Memory, the regions, the free chunk list, the free blocks list, and the current
   * free area: offsets co up to bo of block ck (none if co == bo).
   */
  datatype Area = Area(mem: Memory, regions: seq<Region>, chunks: seq<Chunk>, groups: seq<Group>, ck: int, co: int,
      bo: int)

  /** Memory as a header walk would see it once the current free area has its header. */
  ghost function View(a: Area): Memory
  {
    if a.co < a.bo then a.mem[Addr(a.ck, a.co) := a.bo - a.co + FREE_BIT] else a.mem
  }

  /** Block k belongs to the area and is not on the free blocks list. */
  ghost predicate InUse(a: Area, k: int) { InRegions(a.regions, |a.regions|, k) && InGroups(a.groups, k) == 0 }

  /** The block is tiled exactly, and nothing in it is marked. */
  ghost predicate BlockOk(m: Memory, k: int)
  {
    Tiled(m, k, FIRST) && forall t :: t in Tiles(m, k, FIRST) ==> !Marked(t.header)
  }

  /** The free tile a chunk, or the current free area, stands for. */
  function FreeTile(off: int, size: int): Tile { Tile(off, size + FREE_BIT) }

  ghost predicate HasFreeTile(m: Memory, k: int, off: int, size: int)
  {
    size > 0 && size % 8 == 0 && Tiled(m, k, FIRST) && FreeTile(off, size) in Tiles(m, k, FIRST)
  }

  ghost predicate SamePlace(c: Chunk, k: int, off: int) { c.block == k && c.off == off }

  ghost predicate ChunksOk(a: Area)
  {
    && (forall i :: 0 <= i < |a.chunks| ==>
          InUse(a, a.chunks[i].block) && HasFreeTile(View(a), a.chunks[i].block, a.chunks[i].off, a.chunks[i].size))
    && (forall i :: 0 <= i < |a.chunks| && a.co < a.bo ==> !SamePlace(a.chunks[i], a.ck, a.co))
    && (forall i, j :: 0 <= i < j < |a.chunks| ==> !SamePlace(a.chunks[i], a.chunks[j].block, a.chunks[j].off))
    && SlotsDecrease(a.chunks)
  }

  /** The runs of free blocks are in address order and each lies inside one region. */
  ghost predicate GroupsOk(groups: seq<Group>, regions: seq<Region>)
  {
    && (forall i :: 0 <= i < |groups| ==> groups[i].count > 0 && InOneRegion(groups[i], regions))
    && (forall i, j :: 0 <= i < j < |groups| ==> groups[i].block + groups[i].count <= groups[j].block)
  }

  ghost predicate InOneRegion(g: Group, regions: seq<Region>)
  {
    exists i :: 0 <= i < |regions| && regions[i].first <= g.block && g.block + g.count <= regions[i].end
  }

  /** The first word of each run of free blocks holds its size in bytes. */
  ghost predicate Sized(m: Memory, groups: seq<Group>)
  {
    forall i :: 0 <= i < |groups| ==>
        Addr(groups[i].block, 0) in m && m[Addr(groups[i].block, 0)] == GC_BLOCKSIZE * groups[i].count
  }

  ghost predicate Valid(a: Area)
  {
    && RegionsOrdered(a.regions) && GroupsOk(a.groups, a.regions) && ChunksOk(a) && Sized(View(a), a.groups)
    && (forall k :: InUse(a, k) ==> BlockOk(View(a), k))
    && a.co <= a.bo && (a.co < a.bo ==> InUse(a, a.ck) && HasFreeTile(View(a), a.ck, a.co, a.bo - a.co))
  }

  /** Tile t of block k is the object o. */
  ghost predicate IsTileOf(m: Memory, k: int, t: Tile, o: Object)
  {
    Tiled(m, k, FIRST) && t in Tiles(m, k, FIRST) && !Free(t.header) && o == Object(k, t.off, Size(t.header))
  }

  /** o is an allocated object of the area. */
  ghost predicate HasObject(a: Area, o: Object)
  {
    InUse(a, o.block) && exists t :: IsTileOf(View(a), o.block, t, o)
  }

  /** Allocated objects do not overlap. */
  lemma ObjectsApart(a: Area, o: Object, p: Object)
    requires HasObject(a, o) && HasObject(a, p) && o != p
    ensures Before(o, p) || Before(p, o)
  {
    var t :| IsTileOf(View(a), o.block, t, o);
    var u :| IsTileOf(View(a), p.block, u, p);
    if o.block == p.block { TilesApart(View(a), o.block, FIRST, t, u); }
  }

  lemma ObjectFits(a: Area, o: Object)
    requires HasObject(a, o)
    ensures Fits(o) && o.off % 8 == 4 && o.size % 8 == 0
  {
    var t :| IsTileOf(View(a), o.block, t, o);
    hide *;
    TileFits(View(a), o.block, t, o);
  }

  lemma TileFits(m: Memory, k: int, t: Tile, o: Object)
    requires IsTileOf(m, k, t, o)
    ensures Fits(o) && o.off % 8 == 4 && o.size % 8 == 0
  {
    hide Tiled, Tiles, Size, Free;
    TileFacts(m, k, FIRST, t);
    AlignedFrom(t.off);
  }

  lemma AlignedFrom(off: int)
    requires (off - FIRST) % 8 == 0
    ensures off % 8 == 4
  {
  }

  // ---------------------------------------------------------------------------
  // Placing an object at the start of a free tile
  // ---------------------------------------------------------------------------

  /** Memory after an object of the given size is placed at offset off of block k. */
  function Placed(m: Memory, k: int, off: int, size: int): Memory
  {
    Zeroed(m, Addr(k, off), size)[Addr(k, off) := size]
  }

  /** The area after that, when the rest of the tile up to offset `to` becomes the current free area. */
  ghost function Place(a: Area, k: int, off: int, size: int, to: int): Area
  {
    a.(mem := Placed(a.mem, k, off, size), ck := k, co := off + size, bo := to)
  }

  /** The current free area gets its header and is no longer current. */
  ghost function Retire(a: Area): Area { a.(mem := View(a), co := a.bo) }

  lemma RetireKeeps(a: Area)
    requires Valid(a)
    ensures Valid(Retire(a)) && View(Retire(a)) == View(a)
  {
  }

  /** Outside the object and the header of the rest, memory is as it was. */
  lemma PlacedElsewhere(a: Area, k: int, off: int, size: int, to: int, j: int, x: int)
    requires FIRST <= off < off + size <= to <= LAST && 0 <= x < GC_BLOCKSIZE
    requires j != k || x < off || to <= x
    requires a.co < a.bo ==> a.ck == k && a.co == off
    ensures Addr(j, x) in View(Place(a, k, off, size, to)) <==> Addr(j, x) in View(a)
    ensures Addr(j, x) in View(a) ==> View(Place(a, k, off, size, to))[Addr(j, x)] == View(a)[Addr(j, x)]
  {
    AddrParts(j, x);
    AddrParts(k, off);
    if off + size < to { AddrParts(k, off + size); }
    if off <= Addr(j, x) - Addr(k, 0) < off + size {
      AddrParts(k, Addr(j, x) - Addr(k, 0));
    }
  }

  /** Where an object may be placed: at the start of a free tile of a block in use that is on no list. */
  ghost predicate Room(a: Area, k: int, off: int, size: int, to: int)
  {
    && Valid(a) && InUse(a, k) && HasFreeTile(View(a), k, off, to - off) && 0 < size <= to - off && size % 8 == 0
    && (a.co < a.bo ==> a.ck == k && a.co == off)
    && (forall i :: 0 <= i < |a.chunks| ==> !SamePlace(a.chunks[i], k, off))
  }

  lemma RoomFits(a: Area, k: int, off: int, size: int, to: int)
    requires Room(a, k, off, size, to)
    ensures FIRST <= off < off + size <= to <= LAST && FreeTile(off, to - off).End() == to
    ensures Free(FreeTile(off, to - off).header)
    ensures InUse(a, k) && size % 8 == 0 && (to - off) % 8 == 0
  {
    hide Valid, InUse, View, Tiled, Tiles, Size, Bits, SamePlace;
    FreeTileFacts(off, to - off);
    TileFacts(View(a), k, FIRST, FreeTile(off, to - off));
  }

  lemma FreeTileFacts(off: int, size: int)
    requires size % 8 == 0
    ensures FreeTile(off, size).End() == off + size && Free(FreeTile(off, size).header)
    ensures !Marked(FreeTile(off, size).header)
  {
  }

  /** In its block the free tile is cut in two. */
  lemma PlaceHere(a: Area, k: int, off: int, size: int, to: int)
    requires Room(a, k, off, size, to)
    ensures var m, m' := View(a), View(Place(a, k, off, size, to));
            Tiled(m', k, FIRST) && Tiles(m', k, FIRST) == Replace(Tiles(m, k, FIRST), off, Cut(off, size, to))
  {
    RoomFits(a, k, off, size, to);
    var m, m', t := View(a), View(Place(a, k, off, size, to)), FreeTile(off, to - off);
    forall u | u in Tiles(m, k, FIRST) && u != t ensures Addr(k, u.off) in m' && m'[Addr(k, u.off)] == u.header {
      TileFacts(m, k, FIRST, u);
      TilesApart(m, k, FIRST, t, u);
      PlacedElsewhere(a, k, off, size, to, k, u.off);
    }
    forall u | u in Cut(off, size, to) ensures Addr(k, u.off) in m' && m'[Addr(k, u.off)] == u.header {
      AddrParts(k, off);
      if off + size < to { AddrParts(k, off + size); }
    }
    hide *;
    CutTile(m, m', k, FIRST, t, size);
  }

  /** The other blocks are as they were. */
  lemma PlaceThere(a: Area, k: int, off: int, size: int, to: int, j: int)
    requires Room(a, k, off, size, to) && j != k && Tiled(View(a), j, FIRST)
    ensures var m, m' := View(a), View(Place(a, k, off, size, to));
            Tiled(m', j, FIRST) && Tiles(m', j, FIRST) == Tiles(m, j, FIRST)
  {
    RoomFits(a, k, off, size, to);
    var m, m' := View(a), View(Place(a, k, off, size, to));
    forall u | u in Tiles(m, j, FIRST) ensures Addr(j, u.off) in m' && m'[Addr(j, u.off)] == u.header {
      TileFacts(m, j, FIRST, u);
      PlacedElsewhere(a, k, off, size, to, j, u.off);
    }
    hide *;
    TilesFrame(m, m', j, FIRST);
  }

  /** The tiles of block j afterwards: the old ones without the free tile, and what it was cut into. */
  lemma PlaceTiles(a: Area, k: int, off: int, size: int, to: int, j: int, u: Tile)
    requires Room(a, k, off, size, to) && InUse(a, j)
    ensures var m, m' := View(a), View(Place(a, k, off, size, to));
            && Tiled(m, j, FIRST) && Tiled(m', j, FIRST)
            && (u in Tiles(m', j, FIRST) <==>
                if j == k then u in Cut(off, size, to) || (u in Tiles(m, k, FIRST) && u != FreeTile(off, to - off))
                else u in Tiles(m, j, FIRST))
  {
    assert BlockOk(View(a), j);
    if j == k {
      PlaceHere(a, k, off, size, to);
      TilesIncrease(View(a), k, FIRST);
      ReplaceMembers(Tiles(View(a), k, FIRST), FreeTile(off, to - off), Cut(off, size, to), u);
    } else {
      PlaceThere(a, k, off, size, to, j);
    }
  }

  /** A chunk keeps its tile. */
  lemma PlaceChunk(a: Area, k: int, off: int, size: int, to: int, i: nat)
    requires Room(a, k, off, size, to) && i < |a.chunks|
    ensures var c, b := a.chunks[i], Place(a, k, off, size, to);
            && HasFreeTile(View(b), c.block, c.off, c.size) && (b.co < b.bo ==> !SamePlace(c, b.ck, b.co))
  {
    hide Room;
    var c, t := a.chunks[i], FreeTile(off, to - off);
    RoomFits(a, k, off, size, to);
    RoomChunk(a, k, off, size, to, i);
    hide *;
    PlaceTiles(a, k, off, size, to, c.block, FreeTile(c.off, c.size));
    PlaceChunkApart(a, k, off, size, to, c);
  }

  lemma RoomChunk(a: Area, k: int, off: int, size: int, to: int, i: nat)
    requires Room(a, k, off, size, to) && i < |a.chunks|
    ensures var c := a.chunks[i];
            InUse(a, c.block) && !SamePlace(c, k, off) && HasFreeTile(View(a), c.block, c.off, c.size) &&
                HasFreeTile(View(a), k, off, to - off)
  {
  }

  lemma PlaceChunkApart(a: Area, k: int, off: int, size: int, to: int, c: Chunk)
    requires FIRST <= off < off + size <= to <= LAST && !SamePlace(c, k, off)
    requires HasFreeTile(View(a), c.block, c.off, c.size) && HasFreeTile(View(a), k, off, to - off)
    requires var m := View(Place(a, k, off, size, to));
             && Tiled(m, c.block, FIRST)
             && (FreeTile(c.off, c.size) in Tiles(m, c.block, FIRST) <==>
                 if c.block == k then FreeTile(c.off, c.size) in Cut(off, size, to)
                                      || (FreeTile(c.off, c.size) in Tiles(View(a), k, FIRST) &&
                                          FreeTile(c.off, c.size) != FreeTile(off, to - off))
                 else FreeTile(c.off, c.size) in Tiles(View(a), c.block, FIRST))
    ensures HasFreeTile(View(Place(a, k, off, size, to)), c.block, c.off, c.size)
    ensures off + size < to ==> !SamePlace(c, k, off + size)
  {
    hide Tiled, Tiles, View;
    if c.block == k {
      TilesApart(View(a), k, FIRST, FreeTile(off, to - off), FreeTile(c.off, c.size));
    }
  }

  /** So does every block in use: it is still tiled, and nothing in it is marked. */
  lemma PlaceBlock(a: Area, k: int, off: int, size: int, to: int, j: int)
    requires Room(a, k, off, size, to) && InUse(a, j)
    ensures BlockOk(View(Place(a, k, off, size, to)), j)
  {
    var m' := View(Place(a, k, off, size, to));
    assert BlockOk(View(a), j);
    PlaceTiles(a, k, off, size, to, j, FreeTile(off, to - off));
    forall t | t in Tiles(m', j, FIRST) ensures !Marked(t.header) {
      PlaceTiles(a, k, off, size, to, j, t);
      if t in Cut(off, size, to) { CutUnmarked(off, size, to, t); }
    }
  }

  lemma CutUnmarked(off: int, size: int, to: int, t: Tile)
    requires t in Cut(off, size, to) && size % 8 == 0 && (to - off) % 8 == 0
    ensures !Marked(t.header)
  {
  }

  /** The rest of the tile is the new current free area. */
  lemma PlaceRest(a: Area, k: int, off: int, size: int, to: int)
    requires Room(a, k, off, size, to) && off + size < to
    ensures HasFreeTile(View(Place(a, k, off, size, to)), k, off + size, to - (off + size))
  {
    hide Room, Valid, InUse, View, Tiled, Tiles, Size, Bits;
    RoomFits(a, k, off, size, to);
    var t := FreeTile(off + size, to - (off + size));
    PlaceTiles(a, k, off, size, to, k, t);
    assert t in Cut(off, size, to);
  }

  lemma PlaceSized(a: Area, k: int, off: int, size: int, to: int)
    requires Room(a, k, off, size, to)
    ensures Sized(View(Place(a, k, off, size, to)), a.groups)
  {
    assert Sized(View(a), a.groups) && (a.co < a.bo ==> a.ck == k && a.co == off);
    RoomFits(a, k, off, size, to);
    hide Room, View, Addr;
    forall i | 0 <= i < |a.groups|
      ensures var m, h := View(Place(a, k, off, size, to)), Addr(a.groups[i].block, 0);
              h in m && m[h] == GC_BLOCKSIZE * a.groups[i].count
    {
      PlacedElsewhere(a, k, off, size, to, a.groups[i].block, 0);
    }
  }

  /** Placing an object keeps the invariant. */
  lemma PlaceKeeps(a: Area, k: int, off: int, size: int, to: int)
    requires Room(a, k, off, size, to)
    ensures Valid(Place(a, k, off, size, to))
  {
    var b := Place(a, k, off, size, to);
    assert Valid(a) && InUse(a, k);
    hide Room, View, HasFreeTile, SamePlace, InRegions, InGroups, BlockOk, GroupsOk, RegionsOrdered, SlotsDecrease,
         Sized;
    RoomFits(a, k, off, size, to);
    PlaceSized(a, k, off, size, to);
    assert forall j :: InUse(b, j) <==> InUse(a, j);
    forall i | 0 <= i < |a.chunks|
      ensures InUse(b, a.chunks[i].block) && HasFreeTile(View(b), a.chunks[i].block, a.chunks[i].off, a.chunks[i].size)
      ensures b.co < b.bo ==> !SamePlace(a.chunks[i], b.ck, b.co)
    {
      PlaceChunk(a, k, off, size, to, i);
    }
    forall j | InUse(b, j) ensures BlockOk(View(b), j) { PlaceBlock(a, k, off, size, to, j); }
    if b.co < b.bo { PlaceRest(a, k, off, size, to); }
  }

  /** The new object joins the others: it was not one of them, and all of them stay. */
  lemma PlaceObject(a: Area, k: int, off: int, size: int, to: int, o: Object)
    requires Room(a, k, off, size, to)
    ensures HasObject(Place(a, k, off, size, to), o) <==> HasObject(a, o) || o == Object(k, off, size)
    ensures !HasObject(a, Object(k, off, size))
  {
    RoomFits(a, k, off, size, to);
    var b, j := Place(a, k, off, size, to), o.block;
    assert InUse(b, j) <==> InUse(a, j);
    if InUse(a, j) {
      forall t
        ensures IsTileOf(View(b), j, t, o) <==>
                IsTileOf(View(a), j, t, o) || (j == k && o == Object(k, off, size) && t == Tile(off, size))
      {
        PlaceTiles(a, k, off, size, to, j, t);
        if t in Cut(off, size, to) { CutObject(off, size, to, t); }
      }
      assert BlockOk(View(a), j);
    }
    PlaceNew(a, k, off, size, to);
  }

  lemma CutObject(off: int, size: int, to: int, t: Tile)
    requires t in Cut(off, size, to) && size % 8 == 0 && (to - off) % 8 == 0
    ensures Free(t.header) <==> t != Tile(off, size)
    ensures Size(size) == size
  {
  }

  lemma PlaceNew(a: Area, k: int, off: int, size: int, to: int)
    requires Room(a, k, off, size, to)
    ensures !HasObject(a, Object(k, off, size)) && HasObject(Place(a, k, off, size, to), Object(k, off, size))
  {
    RoomFits(a, k, off, size, to);
    var t, o := Tile(off, size), Object(k, off, size);
    PlaceTiles(a, k, off, size, to, k, t);
    CutObject(off, size, to, t);
    assert IsTileOf(View(Place(a, k, off, size, to)), k, t, o);
    if HasObject(a, o) {
      var u :| IsTileOf(View(a), k, u, o);
      TilesApart(View(a), k, FIRST, u, FreeTile(off, to - off));
    }
  }

  // ---------------------------------------------------------------------------
  // Where the next free area comes from
  // ---------------------------------------------------------------------------

  /** Take the first chunk off the free chunk list. */
  ghost function WithoutChunk(a: Area): Area
    requires a.chunks != []
  {
    a.(chunks := a.chunks[1..])
  }

  lemma ChunkRoom(a: Area, size: int)
    requires Valid(a) && a.co == a.bo && a.chunks != [] && 0 < size <= a.chunks[0].size && size % 8 == 0
    ensures var c := a.chunks[0]; Room(WithoutChunk(a), c.block, c.off, size, c.off + c.size)
  {
    var b, c := WithoutChunk(a), a.chunks[0];
    hide HasFreeTile, InRegions, InGroups, BlockOk, GroupsOk, RegionsOrdered;
    assert View(b) == View(a) && forall k :: InUse(b, k) <==> InUse(a, k);
    assert InUse(a, c.block) && HasFreeTile(View(a), c.block, c.off, c.size);
    forall i | 0 <= i < |b.chunks| ensures !SamePlace(b.chunks[i], c.block, c.off) {
      assert !SamePlace(a.chunks[0], a.chunks[i + 1].block, a.chunks[i + 1].off);
    }
  }

  /** The free blocks list without its first block. */
  function WithoutBlock(groups: seq<Group>): seq<Group>
    requires groups != []
  {
    var g := groups[0];
    (if g.count == 1 then [] else [Group(g.block + 1, g.count - 1)]) + groups[1..]
  }

  /** Memory after the first block of the list is taken: what is left of its run has its size in its first word. */
  function BlockTaken(m: Memory, groups: seq<Group>): Memory
    requires groups != []
  {
    var g := groups[0];
    if g.count == 1 then m else m[Addr(g.block + 1, 0) := GC_BLOCKSIZE * (g.count - 1)]
  }

  /** The first free block, as the current free area. */
  ghost function OpenBlock(a: Area): Area
    requires a.groups != []
  {
    a.(mem := BlockTaken(a.mem, a.groups), groups := WithoutBlock(a.groups), ck := a.groups[0].block, co := FIRST,
        bo := LAST)
  }

  lemma WithoutBlockCounts(groups: seq<Group>, j: int)
    requires groups != [] && groups[0].count > 0
    ensures InGroups(groups, j) == InGroups(WithoutBlock(groups), j) + if j == groups[0].block then 1 else 0
  {
    var g, rest := groups[0], groups[1..];
    assert groups == [g] + rest && [g][..0] == [];
    InGroupsAppend([g], rest, j);
    if g.count > 1 {
      var h := Group(g.block + 1, g.count - 1);
      assert [h][..0] == [];
      InGroupsAppend([h], rest, j);
    } else {
      assert [] + rest == rest;
    }
  }

  lemma WithoutBlockOk(groups: seq<Group>, regions: seq<Region>)
    requires groups != [] && GroupsOk(groups, regions)
    ensures GroupsOk(WithoutBlock(groups), regions)
  {
    var g, gs := groups[0], WithoutBlock(groups);
    assert InOneRegion(g, regions);
    if g.count > 1 {
      var i :| 0 <= i < |regions| && regions[i].first <= g.block && g.block + g.count <= regions[i].end;
      assert InOneRegion(gs[0], regions);
      forall j | 0 < j < |gs| ensures gs[j] == groups[j] {}
    } else {
      forall j | 0 <= j < |gs| ensures gs[j] == groups[j + 1] {}
    }
  }

  lemma OpenSized(a: Area)
    requires a.co == a.bo && a.groups != [] && GroupsOk(a.groups, a.regions) && Sized(a.mem, a.groups)
    ensures Sized(View(OpenBlock(a)), OpenBlock(a).groups)
  {
    var g, gs, m := a.groups[0], WithoutBlock(a.groups), View(OpenBlock(a));
    hide Addr;
    forall i | 0 <= i < |gs| ensures Addr(gs[i].block, 0) in m && m[Addr(gs[i].block, 0)] == GC_BLOCKSIZE * gs[i].count
    {
      AddrApart(gs[i].block, 0, g.block, FIRST);
      if gs[i].block != g.block + 1 { AddrApart(gs[i].block, 0, g.block + 1, 0); }
      if g.count == 1 { assert gs[i] == a.groups[i + 1]; }
      if g.count > 1 && i > 0 { assert gs[i] == a.groups[i]; }
    }
  }

  /** Groups in address order have no block in common. */
  lemma {:induction false} GroupsOnce(groups: seq<Group>, regions: seq<Region>, j: int)
    requires GroupsOk(groups, regions)
    ensures InGroups(groups, j) <= 1
    ensures forall i :: 0 <= i < |groups| && j >= groups[i].block + groups[i].count && i == |groups| - 1 ==>
              InGroups(groups, j) == 0
    ensures InGroups(groups, j) > 0 ==> InRegions(regions, |regions|, j)
    decreases |groups|
  {
    if groups != [] {
      var init, g := groups[..|groups| - 1], groups[|groups| - 1];
      GroupsOnce(init, regions, j);
      assert InOneRegion(g, regions);
      if |init| > 0 { assert init[|init| - 1].block + init[|init| - 1].count <= g.block; }
    }
  }

  /** Opening a block leaves the tiles of the blocks in use alone. */
  lemma OpenFrame(a: Area, j: int)
    requires a.co == a.bo && a.groups != [] && Tiled(a.mem, j, FIRST) && j != a.groups[0].block
    ensures Tiled(View(OpenBlock(a)), j, FIRST) && Tiles(View(OpenBlock(a)), j, FIRST) == Tiles(a.mem, j, FIRST)
  {
    var g, m' := a.groups[0], View(OpenBlock(a));
    forall t | t in Tiles(a.mem, j, FIRST) ensures Addr(j, t.off) in m' && m'[Addr(j, t.off)] == t.header {
      TileFacts(a.mem, j, FIRST, t);
      AddrApart(g.block, FIRST, j, t.off);
      AddrApart(g.block + 1, 0, j, t.off);
    }
    TilesFrame(a.mem, m', j, FIRST);
  }

  /** A fresh block is one free tile. */
  lemma OpenTile(m: Memory, k: int)
    requires Addr(k, FIRST) in m && m[Addr(k, FIRST)] == LAST - FIRST + FREE_BIT
    ensures Tiled(m, k, FIRST) && Tiles(m, k, FIRST) == [FreeTile(FIRST, LAST - FIRST)]
  {
    assert Tiled(m, k, LAST);
  }

  lemma OpenBlockOk(a: Area, j: int)
    requires Valid(a) && a.co == a.bo && a.groups != [] && InUse(OpenBlock(a), j)
    ensures BlockOk(View(OpenBlock(a)), j)
    ensures j == a.groups[0].block || (InUse(a, j) && Tiles(View(OpenBlock(a)), j, FIRST) == Tiles(View(a), j, FIRST))
    ensures j == a.groups[0].block ==> HasFreeTile(View(OpenBlock(a)), j, FIRST, LAST - FIRST)
  {
    if j == a.groups[0].block {
      OpenTile(View(OpenBlock(a)), j);
    } else {
      WithoutBlockCounts(a.groups, j);
      assert InUse(a, j) && BlockOk(View(a), j);
      OpenFrame(a, j);
    }
  }

  lemma OpenUse(a: Area)
    requires GroupsOk(a.groups, a.regions) && a.groups != []
    ensures InUse(OpenBlock(a), a.groups[0].block) && !InUse(a, a.groups[0].block)
    ensures forall j :: InUse(a, j) ==> InUse(OpenBlock(a), j)
  {
    var g := a.groups[0];
    assert InOneRegion(g, a.regions);
    assert InRegions(a.regions, |a.regions|, g.block);
    GroupsOnce(a.groups, a.regions, g.block);
    forall j ensures InUse(a, j) ==> InUse(OpenBlock(a), j) { WithoutBlockCounts(a.groups, j); }
    WithoutBlockCounts(a.groups, g.block);
  }

  lemma OpenChunk(a: Area, i: nat)
    requires Valid(a) && a.co == a.bo && a.groups != [] && i < |a.chunks|
    ensures var c, b := a.chunks[i], OpenBlock(a);
            InUse(b, c.block) && HasFreeTile(View(b), c.block, c.off, c.size) && !SamePlace(c, b.ck, b.co) &&
                c.block != b.ck
  {
    var c := a.chunks[i];
    assert InUse(a, c.block);
    OpenUse(a);
    OpenBlockOk(a, c.block);
  }

  lemma OpenRoom(a: Area, size: int)
    requires Valid(a) && a.co == a.bo && a.groups != [] && 0 < size <= LAST - FIRST && size % 8 == 0
    ensures Room(OpenBlock(a), a.groups[0].block, FIRST, size, LAST)
  {
    var b, k := OpenBlock(a), a.groups[0].block;
    OpenUse(a);
    WithoutBlockOk(a.groups, a.regions);
    OpenSized(a);
    OpenBlockOk(a, k);
    hide InUse, BlockOk, HasFreeTile, SamePlace, View, GroupsOk, RegionsOrdered;
    forall j | InUse(b, j) ensures BlockOk(View(b), j) { OpenBlockOk(a, j); }
    forall i | 0 <= i < |a.chunks|
      ensures InUse(b, a.chunks[i].block) && HasFreeTile(View(b), a.chunks[i].block, a.chunks[i].off, a.chunks[i].size)
      ensures !SamePlace(a.chunks[i], b.ck, b.co)
    {
      OpenChunk(a, i);
    }
  }

  // ---------------------------------------------------------------------------
  // What allocation does to the objects
  // ---------------------------------------------------------------------------

  ghost predicate SameWord(m: Memory, m': Memory, h: int) { (h in m <==> h in m') && (h in m ==> m[h] == m'[h]) }

  /** The words of the objects of a, headers and payloads, are unchanged in b. */
  ghost predicate Keeps(a: Area, b: Area)
  {
    forall o, x :: HasObject(a, o) && o.off <= x < o.End() ==> SameWord(a.mem, b.mem, Addr(o.block, x))
  }

  ghost predicate SameObjects(a: Area, b: Area) { forall o :: HasObject(a, o) <==> HasObject(b, o) }

  /** A new object: its header holds its size, and the rest of it is zero. */
  ghost predicate Blank(m: Memory, o: Object)
  {
    forall x :: o.off <= x < o.End() && x % 4 == 0 ==>
      Addr(o.block, x) in m && m[Addr(o.block, x)] == if x == o.off then o.size else 0
  }

  /** b is a with one more object, o, and nothing of the others has changed. */
  ghost predicate Grew(a: Area, b: Area, o: Object)
  {
    && Valid(b) && Keeps(a, b) && Blank(b.mem, o)
    && !HasObject(a, o) && (forall p :: HasObject(b, p) <==> HasObject(a, p) || p == o)
  }

  lemma PlaceBlank(m: Memory, o: Object)
    requires Fits(o) && o.size % 8 == 0 && o.off % 8 == 4
    ensures Blank(Placed(m, o.block, o.off, o.size), o)
  {
    forall x | o.off <= x < o.End() && x % 4 == 0
      ensures var m' := Placed(m, o.block, o.off, o.size);
              var h := Addr(o.block, x); h in m' && m'[h] == if x == o.off then o.size else 0
    {
      WordAligned(o.block, x);
    }
  }

  lemma WordAligned(k: int, x: int)
    requires x % 4 == 0
    ensures Addr(k, x) % 4 == 0
  {
    FourTimes(1024 * k + x / 4);
  }

  lemma FourTimes(z: int)
    ensures (4 * z) % 4 == 0
  {
  }

  lemma PlaceApart(a: Area, k: int, off: int, size: int, to: int, o: Object)
    requires Room(a, k, off, size, to) && HasObject(a, o) && o.block == k
    ensures o.End() <= off || to <= o.off
  {
    RoomFits(a, k, off, size, to);
    var t :| IsTileOf(View(a), k, t, o);
    TilesApart(View(a), k, FIRST, t, FreeTile(off, to - off));
  }

  lemma PlaceWord(m: Memory, k: int, off: int, size: int, j: int, x: int)
    requires FIRST <= off < off + size <= LAST && FIRST <= x < LAST && (j != k || x < off || off + size <= x)
    ensures SameWord(m, Placed(m, k, off, size), Addr(j, x))
  {
    AddrParts(j, x);
    if off <= Addr(j, x) - Addr(k, 0) < off + size { AddrParts(k, Addr(j, x) - Addr(k, 0)); }
  }

  lemma PlaceGrew(a: Area, k: int, off: int, size: int, to: int)
    requires Room(a, k, off, size, to)
    ensures Grew(a, Place(a, k, off, size, to), Object(k, off, size))
  {
    var b, n := Place(a, k, off, size, to), Object(k, off, size);
    hide Room, HasObject, Valid, SameWord, Placed, InUse, Blank;
    PlaceKeeps(a, k, off, size, to);
    RoomFits(a, k, off, size, to);
    forall o ensures HasObject(b, o) <==> HasObject(a, o) || o == n { PlaceObject(a, k, off, size, to, o); }
    PlaceNew(a, k, off, size, to);
    ObjectFits(b, n);
    PlaceBlank(a.mem, n);
    forall o, x | HasObject(a, o) && o.off <= x < o.End() ensures SameWord(a.mem, b.mem, Addr(o.block, x)) {
      ObjectFits(a, o);
      if o.block == k { PlaceApart(a, k, off, size, to, o); }
      PlaceWord(a.mem, k, off, size, o.block, x);
    }
  }

  /** Steps that only rearrange free memory can come first. */
  lemma GrewFrom(a: Area, b: Area, c: Area, o: Object)
    requires SameObjects(a, b) && Keeps(a, b) && Grew(b, c, o)
    ensures Grew(a, c, o)
  {
    hide HasObject, Valid, Blank;
  }

  lemma RetireSame(a: Area)
    requires Valid(a)
    ensures SameObjects(a, Retire(a)) && Keeps(a, Retire(a))
  {
    RetireKeeps(a);
    assert forall k :: InUse(Retire(a), k) <==> InUse(a, k);
    assert forall o :: HasObject(a, o) <==> HasObject(Retire(a), o);
    hide Valid, InUse, HasObject;
    forall o, x | HasObject(a, o) && o.off <= x < o.End() ensures SameWord(a.mem, View(a), Addr(o.block, x)) {
      if a.co < a.bo { SlackApart(a, o, x); }
    }
  }

  /** The header of the current free area is not part of an object. */
  lemma SlackApart(a: Area, o: Object, x: int)
    requires Valid(a) && a.co < a.bo && HasObject(a, o) && o.off <= x < o.End()
    ensures Addr(o.block, x) != Addr(a.ck, a.co)
  {
    ObjectFits(a, o);
    assert HasFreeTile(View(a), a.ck, a.co, a.bo - a.co);
    var t :| IsTileOf(View(a), o.block, t, o);
    hide Valid, HasObject, View, Tiled, Tiles, Size, Free, Addr;
    var f := FreeTile(a.co, a.bo - a.co);
    FreeTileFacts(a.co, a.bo - a.co);
    TileFacts(View(a), a.ck, FIRST, f);
    if o.block == a.ck { TilesApart(View(a), a.ck, FIRST, t, f); }
    AddrApart(o.block, x, a.ck, a.co);
  }

  lemma WithoutChunkSame(a: Area)
    requires a.chunks != []
    ensures SameObjects(a, WithoutChunk(a)) && Keeps(a, WithoutChunk(a))
  {
    assert View(a) == View(WithoutChunk(a)) && forall k :: InUse(WithoutChunk(a), k) <==> InUse(a, k);
  }

  lemma OpenObject(a: Area, o: Object)
    requires Valid(a) && a.co == a.bo && a.groups != []
    ensures HasObject(a, o) <==> HasObject(OpenBlock(a), o)
  {
    var b, k := OpenBlock(a), o.block;
    OpenUse(a);
    if InUse(b, k) {
      OpenBlockOk(a, k);
      if k == a.groups[0].block {
        OpenTile(View(b), k);
        FreeTileFacts(FIRST, LAST - FIRST);
      } else {
        assert BlockOk(View(a), k);
        assert forall t :: IsTileOf(View(a), k, t, o) <==> IsTileOf(View(b), k, t, o);
      }
    }
  }

  lemma OpenSame(a: Area)
    requires Valid(a) && a.co == a.bo && a.groups != []
    ensures SameObjects(a, OpenBlock(a)) && Keeps(a, OpenBlock(a))
  {
    hide Valid, HasObject;
    forall o ensures HasObject(a, o) <==> HasObject(OpenBlock(a), o) { OpenObject(a, o); }
    forall o, x | HasObject(a, o) && o.off <= x < o.End() ensures SameWord(a.mem, OpenBlock(a).mem, Addr(o.block, x)) {
      ObjectFits(a, o);
      AddrApart(o.block, x, a.groups[0].block + 1, 0);
    }
  }

  // ---------------------------------------------------------------------------
  // Between allocations
  // ---------------------------------------------------------------------------

  /** The area after the program stores a word inside an object. */
  ghost function Store(a: Area, o: Object, x: int, w: int): Area { a.(mem := a.mem[Addr(o.block, x) := w]) }

  lemma StoreView(a: Area, o: Object, x: int, w: int)
    requires Valid(a) && HasObject(a, o) && o.off < x < o.End()
    ensures View(Store(a, o, x, w)) == View(a)[Addr(o.block, x) := w]
  {
    hide Valid, HasObject, Addr;
    if a.co < a.bo { SlackApart(a, o, x); }
  }

  lemma StoreTiles(m: Memory, u: Tile, o: Object, x: int, w: int, k: int)
    requires IsTileOf(m, o.block, u, o) && o.off < x < o.End() && Tiled(m, k, FIRST)
    ensures var m' := m[Addr(o.block, x) := w]; Tiled(m', k, FIRST) && Tiles(m', k, FIRST) == Tiles(m, k, FIRST)
  {
    hide Tiled, Tiles, Addr, Size, Free;
    var m' := m[Addr(o.block, x) := w];
    TileFacts(m, o.block, FIRST, u);
    forall t | t in Tiles(m, k, FIRST) ensures Addr(k, t.off) in m' && m'[Addr(k, t.off)] == t.header {
      TileFacts(m, k, FIRST, t);
      if k == o.block && t != u { TilesApart(m, k, FIRST, t, u); }
      AddrApart(k, t.off, o.block, x);
    }
    TilesFrame(m, m', k, FIRST);
  }

  /** The area with memory in which every block in use has the same tiles. */
  ghost predicate SameTiles(a: Area, m: Memory)
  {
    forall k :: InUse(a, k) ==>
        Tiled(View(a), k, FIRST) && Tiled(m, k, FIRST) && Tiles(m, k, FIRST) == Tiles(View(a), k, FIRST)
  }

  lemma SameTilesValid(a: Area, b: Area)
    requires Valid(a) && SameTiles(a, View(b)) && b == a.(mem := b.mem) && Sized(View(b), a.groups)
    ensures Valid(b)
  {
    assert forall k :: InUse(a, k) <==> InUse(b, k);
    hide InUse, View, Tiled, Tiles, GroupsOk, RegionsOrdered, SlotsDecrease, SamePlace;
    forall k | InUse(b, k) ensures BlockOk(View(b), k) { assert BlockOk(View(a), k); }
  }

  lemma SameTilesObjects(a: Area, b: Area)
    requires SameTiles(a, View(b)) && b == a.(mem := b.mem)
    ensures SameObjects(a, b)
  {
    assert forall k :: InUse(a, k) <==> InUse(b, k);
    hide InUse, View, Tiled, Tiles;
    forall p ensures HasObject(a, p) <==> HasObject(b, p) {
      if InUse(a, p.block) {
        assert forall t :: IsTileOf(View(a), p.block, t, p) <==> IsTileOf(View(b), p.block, t, p);
      }
    }
  }

  lemma StoreSized(m: Memory, groups: seq<Group>, k: int, x: int, w: int)
    requires Sized(m, groups) && 0 < x < GC_BLOCKSIZE
    ensures Sized(m[Addr(k, x) := w], groups)
  {
    forall i | 0 <= i < |groups| ensures Addr(groups[i].block, 0) != Addr(k, x) { AddrApart(k, x, groups[i].block, 0); }
  }

  /** Stores inside objects keep the invariant and change no object's place or size. */
  lemma StoreKeeps(a: Area, o: Object, x: int, w: int)
    requires Valid(a) && HasObject(a, o) && o.off < x < o.End()
    ensures Valid(Store(a, o, x, w)) && SameObjects(a, Store(a, o, x, w))
  {
    var b := Store(a, o, x, w);
    StoreView(a, o, x, w);
    var u :| IsTileOf(View(a), o.block, u, o);
    forall k | InUse(a, k)
      ensures Tiled(View(a), k, FIRST) && Tiled(View(b), k, FIRST)
      ensures Tiles(View(b), k, FIRST) == Tiles(View(a), k, FIRST)
    {
      assert BlockOk(View(a), k);
      StoreTiles(View(a), u, o, x, w, k);
    }
    ObjectFits(a, o);
    StoreSized(View(a), a.groups, o.block, x, w);
    hide Valid, InUse, View, Tiled, Tiles, HasObject;
    SameTilesValid(a, b);
    SameTilesObjects(a, b);
  }

  /** Each byte of a block in use is in exactly one tile: an object, or free memory. */
  lemma EveryByteOnce(a: Area, k: int, x: int) returns (t: Tile)
    requires Valid(a) && InUse(a, k) && FIRST <= x < LAST
    ensures t in Tiles(View(a), k, FIRST) && t.off <= x < t.End()
    ensures forall u :: u in Tiles(View(a), k, FIRST) && u.off <= x < u.End() ==> u == t
    ensures Free(t.header) || HasObject(a, Object(k, t.off, Size(t.header)))
  {
    assert BlockOk(View(a), k);
    t := TilesCover(View(a), k, FIRST, x);
    forall u | u in Tiles(View(a), k, FIRST) && u.off <= x < u.End() ensures u == t {
      if u != t { TilesApart(View(a), k, FIRST, u, t); }
    }
    if !Free(t.header) { assert IsTileOf(View(a), k, t, Object(k, t.off, Size(t.header))); }
  }
}
