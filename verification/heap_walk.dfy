/**
 * Walking the headers of a block of the small object area (src/runtime/gc.c): the
 * tiles a walk meets, which of them are allocated objects, and what changing one
 * tile does to the walk.
 */
module HeapWalk {
  import opened Header
  import opened FreeSpace
  import opened SmallSweep

  /** A header and where it was found. */
  datatype Tile = Tile(off: int, header: int) {
    function End(): int { off + Size(header) }
  }

  /** The tiles of a tiled block from offset off on. */
  ghost function Tiles(m: Memory, k: int, off: int): seq<Tile>
    requires Tiled(m, k, off)
    decreases LAST - off
  {
    if off == LAST then [] else [Tile(off, m[Addr(k, off)])] + Tiles(m, k, off + Size(m[Addr(k, off)]))
  }

  /** A tile is a header of memory, aligned and inside the block; everything before `off` is not part of the walk. */
  lemma {:induction false} TileFacts(m: Memory, k: int, off: int, t: Tile)
    requires Tiled(m, k, off) && t in Tiles(m, k, off)
    ensures off <= t.off < t.End() <= LAST && (t.off - off) % 8 == 0 && Size(t.header) % 8 == 0
    ensures Addr(k, t.off) in m && m[Addr(k, t.off)] == t.header
    decreases LAST - off
  {
    if t.off != off || t.header != m[Addr(k, off)] {
      TileFacts(m, k, off + Size(m[Addr(k, off)]), t);
    }
  }

  /** Any two tiles are apart. */
  lemma {:induction false} TilesApart(m: Memory, k: int, off: int, t: Tile, u: Tile)
    requires Tiled(m, k, off) && t in Tiles(m, k, off) && u in Tiles(m, k, off) && t != u
    ensures t.End() <= u.off || u.End() <= t.off
    decreases LAST - off
  {
    var first, next := Tile(off, m[Addr(k, off)]), off + Size(m[Addr(k, off)]);
    if t == first {
      TileFacts(m, k, next, u);
    } else if u == first {
      TileFacts(m, k, next, t);
    } else {
      TilesApart(m, k, next, t, u);
    }
  }

  /** Every byte of the block is in a tile. */
  lemma {:induction false} TilesCover(m: Memory, k: int, off: int, x: int) returns (t: Tile)
    requires Tiled(m, k, off) && off <= x < LAST
    ensures t in Tiles(m, k, off) && t.off <= x < t.End()
    decreases LAST - off
  {
    t := Tile(off, m[Addr(k, off)]);
    if x >= t.End() {
      t := TilesCover(m, k, t.End(), x);
    }
  }

  /** Only the headers of the tiles matter to the walk. */
  lemma {:induction false} TilesFrame(m: Memory, m': Memory, k: int, off: int)
    requires Tiled(m, k, off)
    requires forall t :: t in Tiles(m, k, off) ==> Addr(k, t.off) in m' && m'[Addr(k, t.off)] == t.header
    ensures Tiled(m', k, off) && Tiles(m', k, off) == Tiles(m, k, off)
    decreases LAST - off
  {
    if off < LAST {
      var first, rest := Tile(off, m[Addr(k, off)]), Tiles(m, k, off + Size(m[Addr(k, off)]));
      assert first in Tiles(m, k, off) && forall t :: t in rest ==> t in Tiles(m, k, off);
      TilesFrame(m, m', k, off + Size(m[Addr(k, off)]));
    }
  }

  /** ts with the tile at offset x replaced by others. */
  ghost function Replace(ts: seq<Tile>, x: int, new_: seq<Tile>): seq<Tile>
  {
    if ts == [] then []
    else if ts[0].off == x then new_ + ts[1..]
    else [ts[0]] + Replace(ts[1..], x, new_)
  }

  /** The tiles that a piece of memory from `from` up to `to` is cut into. */
  ghost function Cut(from: int, size: int, to: int): seq<Tile>
  {
    [Tile(from, size)] + if from + size < to then [Tile(from + size, to - (from + size) + FREE_BIT)] else []
  }

  /** Cutting a tile in two leaves the others alone. */
  lemma {:induction false} CutTile(m: Memory, m': Memory, k: int, off: int, t: Tile, size: int)
    requires Tiled(m, k, off) && t in Tiles(m, k, off) && 0 < size <= Size(t.header) && size % 8 == 0
    requires forall u :: u in Tiles(m, k, off) && u != t ==> Addr(k, u.off) in m' && m'[Addr(k, u.off)] == u.header
    requires forall u :: u in Cut(t.off, size, t.End()) ==> Addr(k, u.off) in m' && m'[Addr(k, u.off)] == u.header
    ensures Tiled(m', k, off) && Tiles(m', k, off) == Replace(Tiles(m, k, off), t.off, Cut(t.off, size, t.End()))
    decreases LAST - off
  {
    TileFacts(m, k, off, t);
    var first := Tile(off, m[Addr(k, off)]);
    var next := first.End();
    TilesSplit(m, k, off);
    hide Tiled, Tiles, Replace, Cut, Size;
    var rest, new_ := Tiles(m, k, next), Cut(t.off, size, t.End());
    ReplaceCons(first, rest, t.off, new_);
    if first == t {
      forall u | u in rest ensures u != t { TileFacts(m, k, next, u); }
      TilesFrame(m, m', k, next);
      CutAtHead(m', k, t.off, size, t.End());
    } else {
      TileFacts(m, k, next, t);
      CutTile(m, m', k, next, t, size);
      assert first in Tiles(m, k, off);
      TilesCons(m', k, first);
    }
  }

  lemma TilesCons(m: Memory, k: int, t: Tile)
    requires Addr(k, t.off) in m && m[Addr(k, t.off)] == t.header && t.off < t.End() <= LAST && Tiled(m, k, t.End())
    ensures Tiled(m, k, t.off) && Tiles(m, k, t.off) == [t] + Tiles(m, k, t.End())
  {
  }

  lemma TilesSplit(m: Memory, k: int, off: int)
    requires Tiled(m, k, off) && off < LAST
    ensures var t := Tile(off, m[Addr(k, off)]);
            && off < t.End() <= LAST && Tiled(m, k, t.End()) && Tiles(m, k, off) == [t] + Tiles(m, k, t.End())
  {
  }

  lemma ReplaceCons(t: Tile, rest: seq<Tile>, x: int, new_: seq<Tile>)
    ensures Replace([t] + rest, x, new_) == if t.off == x then new_ + rest else [t] + Replace(rest, x, new_)
  {
    assert ([t] + rest)[1..] == rest;
  }

  lemma CutAtHead(m: Memory, k: int, from: int, size: int, to: int)
    requires Tiled(m, k, to) && from < to <= LAST && 0 < size <= to - from && size % 8 == 0 && (to - from) % 8 == 0
    requires forall u :: u in Cut(from, size, to) ==> Addr(k, u.off) in m && m[Addr(k, u.off)] == u.header
    ensures Tiled(m, k, from) && Tiles(m, k, from) == Cut(from, size, to) + Tiles(m, k, to)
  {
    var first, rest := Tile(from, size), Tile(from + size, to - (from + size) + FREE_BIT);
    CutSizes(size, to - (from + size));
    assert first in Cut(from, size, to);
    hide Size, Tiled, Tiles;
    if from + size < to {
      assert rest in Cut(from, size, to);
      TilesCons(m, k, rest);
    }
    TilesCons(m, k, first);
  }

  lemma CutSizes(size: int, rest: int)
    requires size % 8 == 0 && (size + rest) % 8 == 0
    ensures Size(size) == size && Size(rest + FREE_BIT) == rest
  {
    var a, b := size / 8, (size + rest) / 8;
    assert size == 8 * a && rest == 8 * (b - a);
    LowBits(a, 0);
    LowBits(b - a, FREE_BIT);
  }

  lemma LowBits(z: int, b: int)
    requires 0 <= b < 8
    ensures Bits(8 * z + b) == b
  {
  }

  /** What replacing a tile does to the set of tiles. */
  lemma {:induction false} ReplaceMembers(ts: seq<Tile>, t: Tile, new_: seq<Tile>, u: Tile)
    requires t in ts && forall i, j :: 0 <= i < j < |ts| ==> ts[i].off != ts[j].off
    ensures u in Replace(ts, t.off, new_) <==> u in new_ || (u in ts && u != t)
    decreases |ts|
  {
    if ts[0].off != t.off {
      ReplaceMembers(ts[1..], t, new_, u);
    }
  }

  /** Offsets increase along the walk. */
  lemma {:induction false} TilesIncrease(m: Memory, k: int, off: int)
    requires Tiled(m, k, off)
    ensures forall i, j :: 0 <= i < j < |Tiles(m, k, off)| ==> Tiles(m, k, off)[i].off < Tiles(m, k, off)[j].off
    decreases LAST - off
  {
    if off < LAST {
      var rest := Tiles(m, k, off + Size(m[Addr(k, off)]));
      TilesIncrease(m, k, off + Size(m[Addr(k, off)]));
      forall j | 0 <= j < |rest| ensures rest[j].off > off { TileFacts(m, k, off + Size(m[Addr(k, off)]), rest[j]); }
    }
  }
}
