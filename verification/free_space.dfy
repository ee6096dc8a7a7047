/**
 * What a sweep of the small object area has to find (src/runtime/gc.c), stated
 * from the list of live objects alone.
 *
 * A position is a block number and an offset; block k is the 4096 bytes from
 * address 4096*k, and objects lie between its offsets 4 and 4092.  The free space
 * of a block that holds a live object is its gaps, one free chunk each.  Blocks
 * without a live object are free as a whole, and runs of them inside a region form
 * one node of the free blocks list.
 */
module FreeSpace {
  import opened Header

  const FIRST := MEMALIGN - GC_HEAD        // offset of the first header in a block
  const LAST := GC_BLOCKSIZE - GC_HEAD     // offset at which the objects of a block end

  /** A live object: its block, the offset of its header and its size in bytes. */
  datatype Object = Object(block: int, off: int, size: int) {
    function End(): int { off + size }
  }

  /** A free chunk of a block. */
  datatype Chunk = Chunk(block: int, off: int, size: int)

  /** A run of free blocks. */
  datatype Group = Group(block: int, count: int)

  function Between(k: int, a: int, b: int): seq<Chunk>
  {
    if a < b then [Chunk(k, a, b - a)] else []
  }

  function Run(k: int, n: int): seq<Group>
  {
    if n > 0 then [Group(k, n)] else []
  }

  /** The gaps left by the objects `objs` between two offsets of block k. */
  function Gaps(k: int, from: int, objs: seq<Object>, to: int): seq<Chunk>
    decreases |objs|
  {
    if objs == [] then Between(k, from, to)
    else Between(k, from, objs[0].off) + Gaps(k, objs[0].End(), objs[1..], to)
  }

  /** How many objects at the front of the list are in blocks before k. */
  function Leading(objs: seq<Object>, k: int): (n: nat)
    ensures n <= |objs|
  {
    if objs == [] || objs[0].block >= k then 0 else 1 + Leading(objs[1..], k)
  }

  /** The free chunks of the blocks from k up to end, in address order. */
  function Chunks(k: int, end: int, objs: seq<Object>): seq<Chunk>
    decreases end - k
  {
    if k >= end then []
    else
      var n := Leading(objs, k + 1);
      (if n == 0 then [] else Gaps(k, FIRST, objs[..n], LAST)) + Chunks(k + 1, end, objs[n..])
  }

  /** The runs of free blocks from k up to end, when the `run` blocks just before k are free too. */
  function Groups(k: int, end: int, run: int, objs: seq<Object>): seq<Group>
    decreases end - k
  {
    if k >= end then Run(k - run, run)
    else
      var n := Leading(objs, k + 1);
      if n == 0 then Groups(k + 1, end, run + 1, objs)
      else Run(k - run, run) + Groups(k + 1, end, 0, objs[n..])
  }

  // ---------------------------------------------------------------------------
  // Lists of live objects
  // ---------------------------------------------------------------------------

  /** An object lies inside its block. */
  ghost predicate Fits(o: Object) { FIRST <= o.off < o.End() <= LAST }

  ghost predicate Before(o: Object, p: Object) { o.block < p.block || (o.block == p.block && o.End() <= p.off) }

  /** Live objects of the blocks from k up to end, in address order, without overlap. */
  ghost predicate Within(objs: seq<Object>, k: int, end: int)
  {
    && (forall i :: 0 <= i < |objs| ==> Fits(objs[i]) && k <= objs[i].block < end)
    && (forall i, j :: 0 <= i < j < |objs| ==> Before(objs[i], objs[j]))
  }

  lemma {:induction false} LeadingExact(k: int, objs: seq<Object>)
    requires forall i, j :: 0 <= i < j < |objs| ==> Before(objs[i], objs[j])
    ensures forall i :: 0 <= i < |objs| ==> (objs[i].block < k <==> i < Leading(objs, k))
    decreases |objs|
  {
    if objs != [] && objs[0].block < k {
      var rest := objs[1..];
      LeadingExact(k, rest);
      forall i | 0 <= i < |objs| ensures objs[i].block < k <==> i < Leading(objs, k) {
        if i > 0 { assert objs[i] == rest[i - 1]; }
      }
    } else if objs != [] {
      forall i | 0 < i < |objs| ensures objs[i].block >= k {
        assert Before(objs[0], objs[i]);
      }
    }
  }

  /** The objects of block k come first, the others are in later blocks. */
  lemma FirstBlock(k: int, end: int, objs: seq<Object>)
    requires Within(objs, k, end)
    ensures var n := Leading(objs, k + 1);
            && Within(objs[..n], k, k + 1) && Within(objs[n..], k + 1, end)
  {
    LeadingExact(k + 1, objs);
  }

  lemma SomeBlock(objs: seq<Object>, k: int, end: int)
    requires Within(objs, k, end) && objs != []
    ensures k < end
  {
    assert k <= objs[0].block < end;
  }

  /** Free blocks hold no chunks, so the list of chunks can start at the first object's block. */
  lemma {:induction false} SkipChunks(k: int, j: int, end: int, objs: seq<Object>)
    requires k <= j <= end && (objs != [] ==> objs[0].block >= j)
    ensures Chunks(k, end, objs) == Chunks(j, end, objs)
    decreases j - k
  {
    if k < j {
      assert objs[0..] == objs;
      SkipChunks(k + 1, j, end, objs);
    }
  }

  /** Free blocks in front of the first object join the run. */
  lemma {:induction false} SkipGroups(k: int, j: int, end: int, run: int, objs: seq<Object>)
    requires k <= j <= end && (objs != [] ==> objs[0].block >= j)
    ensures Groups(k, end, run, objs) == Groups(j, end, run + (j - k), objs)
    decreases j - k
  {
    if k < j { SkipGroups(k + 1, j, end, run + 1, objs); }
  }

  // ---------------------------------------------------------------------------
  // Every byte is accounted for exactly once
  // ---------------------------------------------------------------------------

  /** How many of the chunks, runs of blocks and objects contain offset x of block j. */
  ghost function InChunks(chunks: seq<Chunk>, j: int, x: int): nat
  {
    if chunks == [] then 0
    else InChunks(chunks[..|chunks| - 1], j, x) +
         var c := chunks[|chunks| - 1]; if c.block == j && c.off <= x < c.off + c.size then 1 else 0
  }

  ghost function InGroups(groups: seq<Group>, j: int): nat
  {
    if groups == [] then 0
    else InGroups(groups[..|groups| - 1], j) +
         var g := groups[|groups| - 1]; if g.block <= j < g.block + g.count then 1 else 0
  }

  ghost function InObjects(objs: seq<Object>, j: int, x: int): nat
  {
    if objs == [] then 0
    else (if objs[0].block == j && objs[0].off <= x < objs[0].End() then 1 else 0) + InObjects(objs[1..], j, x)
  }

  lemma {:induction false} InChunksAppend(a: seq<Chunk>, b: seq<Chunk>, j: int, x: int)
    ensures InChunks(a + b, j, x) == InChunks(a, j, x) + InChunks(b, j, x)
    decreases |b|
  {
    if b == [] {
      assert a + b == a;
    } else {
      assert (a + b)[..|a + b| - 1] == a + b[..|b| - 1];
      InChunksAppend(a, b[..|b| - 1], j, x);
    }
  }

  lemma {:induction false} InGroupsAppend(a: seq<Group>, b: seq<Group>, j: int)
    ensures InGroups(a + b, j) == InGroups(a, j) + InGroups(b, j)
    decreases |b|
  {
    if b == [] {
      assert a + b == a;
    } else {
      assert (a + b)[..|a + b| - 1] == a + b[..|b| - 1];
      InGroupsAppend(a, b[..|b| - 1], j);
    }
  }

  lemma {:induction false} InObjectsAppend(a: seq<Object>, b: seq<Object>, j: int, x: int)
    ensures InObjects(a + b, j, x) == InObjects(a, j, x) + InObjects(b, j, x)
    decreases |a|
  {
    if a == [] {
      assert a + b == b;
    } else {
      assert (a + b)[1..] == a[1..] + b;
      InObjectsAppend(a[1..], b, j, x);
    }
  }

  lemma InBetween(k: int, a: int, b: int, j: int, x: int)
    ensures InChunks(Between(k, a, b), j, x) == if j == k && a <= x < b then 1 else 0
  {
    assert Between(k, a, b)[..0] == [];
  }

  lemma InRun(k: int, n: int, j: int)
    ensures InGroups(Run(k, n), j) == if k <= j < k + n then 1 else 0
  {
    assert Run(k, n)[..0] == [];
  }

  /** Between two offsets of a block, each byte is in one object or in one gap. */
  lemma {:induction false} GapsPartition(k: int, from: int, objs: seq<Object>, to: int, j: int, x: int)
    requires Within(objs, k, k + 1) && from <= to
    requires forall i :: 0 <= i < |objs| ==> from <= objs[i].off && objs[i].End() <= to
    ensures InChunks(Gaps(k, from, objs, to), j, x) + InObjects(objs, j, x) == if j == k && from <= x < to then 1 else 0
    decreases |objs|
  {
    if objs == [] {
      InBetween(k, from, to, j, x);
    } else {
      var o, rest := objs[0], objs[1..];
      forall i | 0 <= i < |rest| ensures o.End() <= rest[i].off { assert Before(objs[0], objs[i + 1]); }
      GapsPartition(k, o.End(), rest, to, j, x);
      InChunksAppend(Between(k, from, o.off), Gaps(k, o.End(), rest, to), j, x);
      InBetween(k, from, o.off, j, x);
    }
  }

  /** How often offset x of block j is kept or freed by a sweep of the blocks from k to end. */
  ghost function Covering(k: int, end: int, run: int, objs: seq<Object>, j: int, x: int): nat
  {
    InChunks(Chunks(k, end, objs), j, x) + InGroups(Groups(k, end, run, objs), j) + InObjects(objs, j, x)
  }

  lemma UsedBlockBytes(k: int, end: int, objs: seq<Object>, j: int, x: int)
    requires k < end && Within(objs, k, end) && Leading(objs, k + 1) > 0 && FIRST <= x < LAST
    ensures var rest := objs[Leading(objs, k + 1)..];
            InChunks(Chunks(k, end, objs), j, x) + InObjects(objs, j, x)
            == InChunks(Chunks(k + 1, end, rest), j, x) + InObjects(rest, j, x) + if j == k then 1 else 0
  {
    FirstBlock(k, end, objs);
    var m := Leading(objs, k + 1);
    var here, rest := objs[..m], objs[m..];
    assert objs == here + rest;
    InObjectsAppend(here, rest, j, x);
    GapsPartition(k, FIRST, here, LAST, j, x);
    InChunksAppend(Gaps(k, FIRST, here, LAST), Chunks(k + 1, end, rest), j, x);
  }

  lemma UsedBlockRuns(k: int, end: int, run: int, objs: seq<Object>, j: int)
    requires k < end && run >= 0 && Leading(objs, k + 1) > 0
    ensures var rest := objs[Leading(objs, k + 1)..];
            InGroups(Groups(k, end, run, objs), j)
            == InGroups(Groups(k + 1, end, 0, rest), j) + if k - run <= j < k then 1 else 0
  {
    var rest := objs[Leading(objs, k + 1)..];
    InGroupsAppend(Run(k - run, run), Groups(k + 1, end, 0, rest), j);
    InRun(k - run, run, j);
  }

  lemma CoveringUsedBlock(k: int, end: int, run: int, objs: seq<Object>, j: int, x: int)
    requires k < end && run >= 0 && Within(objs, k, end) && Leading(objs, k + 1) > 0 && FIRST <= x < LAST
    ensures var m := Leading(objs, k + 1);
            Covering(k, end, run, objs, j, x)
            == Covering(k + 1, end, 0, objs[m..], j, x) + if k - run <= j <= k then 1 else 0
  {
    UsedBlockBytes(k, end, objs, j, x);
    UsedBlockRuns(k, end, run, objs, j);
  }

  lemma CoveringFreeBlock(k: int, end: int, run: int, objs: seq<Object>, j: int, x: int)
    requires k < end && Leading(objs, k + 1) == 0
    ensures Covering(k, end, run, objs, j, x) == Covering(k + 1, end, run + 1, objs, j, x)
  {
    assert objs[0..] == objs;
    assert Chunks(k, end, objs) == Chunks(k + 1, end, objs);
  }

  /**
   * Each usable byte of a run of blocks is in exactly one live object, free chunk or
   * run of free blocks.
   */
  lemma {:induction false} SpacePartition(k: int, end: int, run: int, objs: seq<Object>, j: int, x: int)
    requires k <= end && run >= 0 && Within(objs, k, end) && FIRST <= x < LAST
    ensures Covering(k, end, run, objs, j, x) == if k - run <= j < end then 1 else 0
    decreases end - k
  {
    if k == end {
      if objs != [] { SomeBlock(objs, k, end); }
      InRun(k - run, run, j);
    } else {
      FirstBlock(k, end, objs);
      var m := Leading(objs, k + 1);
      if m == 0 {
        assert objs[0..] == objs;
        CoveringFreeBlock(k, end, run, objs, j, x);
        SpacePartition(k + 1, end, run + 1, objs, j, x);
      } else {
        CoveringUsedBlock(k, end, run, objs, j, x);
        SpacePartition(k + 1, end, 0, objs[m..], j, x);
      }
    }
  }
}
