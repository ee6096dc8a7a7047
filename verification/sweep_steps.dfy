/**
 * How the list of free chunks and the list of free blocks of a region grow while a
 * sweep moves from one live object, or one block, to the next.  Both sweepers of
 * src/runtime/gc.c are proved against these steps.
 */
module SweepSteps {
  import opened Header
  import opened FreeSpace

  // ---------------------------------------------------------------------------
  // A free range from offset oa of block ka up to offset ob of block kb
  // ---------------------------------------------------------------------------

  /** Its part in the first block and its part in the last one, unless that is the whole block. */
  function RangeChunks(ka: int, oa: int, kb: int, ob: int): seq<Chunk>
  {
    if ka == kb then
      if oa == FIRST && ob == LAST then [] else Between(ka, oa, ob)
    else
      (if oa == FIRST then [] else Between(ka, oa, LAST)) + (if ob == LAST then [] else Between(kb, FIRST, ob))
  }

  /** The blocks it covers as a whole. */
  function RangeGroups(ka: int, oa: int, kb: int, ob: int): seq<Group>
  {
    var from := if oa == FIRST then ka else ka + 1;
    var to := if ob == LAST then kb + 1 else kb;
    Run(from, to - from)
  }

  // ---------------------------------------------------------------------------
  // From object to object: the selective sweep
  // ---------------------------------------------------------------------------

  /** What is still to be freed up to block `end` after the object o, when `rest` are the objects that follow it. */
  ghost function ChunksAfter(o: Object, rest: seq<Object>, end: int): seq<Chunk>
  {
    var n := Leading(rest, o.block + 1);
    Gaps(o.block, o.End(), rest[..n], LAST) + Chunks(o.block + 1, end, rest[n..])
  }

  ghost function GroupsAfter(o: Object, rest: seq<Object>, end: int): seq<Group>
  {
    Groups(o.block + 1, end, 0, rest[Leading(rest, o.block + 1)..])
  }

  lemma LeadingCons(o: Object, rest: seq<Object>, k: int)
    requires o.block < k
    ensures var objs := [o] + rest; var n := Leading(rest, k);
            Leading(objs, k) == n + 1 && objs[..n + 1] == [o] + rest[..n] && objs[n + 1..] == rest[n..]
  {
    assert ([o] + rest)[1..] == rest;
  }

  lemma GapsCons(k: int, from: int, o: Object, rest: seq<Object>, to: int)
    ensures Gaps(k, from, [o] + rest, to) == Between(k, from, o.off) + Gaps(k, o.End(), rest, to)
  {
    assert ([o] + rest)[1..] == rest;
  }

  lemma Regroup<T>(a: seq<T>, b: seq<T>, c: seq<T>)
    ensures (a + b) + c == a + (b + c)
  {
  }

  /** A list that starts in block k: the first gap, then the rest. */
  lemma StartChunks(o: Object, rest: seq<Object>, end: int)
    requires o.block < end
    ensures Chunks(o.block, end, [o] + rest) == Between(o.block, FIRST, o.off) + ChunksAfter(o, rest, end)
  {
    var k, n := o.block, Leading(rest, o.block + 1);
    LeadingCons(o, rest, k + 1);
    GapsCons(k, FIRST, o, rest[..n], LAST);
    Regroup(Between(k, FIRST, o.off), Gaps(k, o.End(), rest[..n], LAST), Chunks(k + 1, end, rest[n..]));
  }

  lemma StartGroups(o: Object, rest: seq<Object>, end: int, run: int)
    requires o.block < end
    ensures Groups(o.block, end, run, [o] + rest) == Run(o.block - run, run) + GroupsAfter(o, rest, end)
  {
    LeadingCons(o, rest, o.block + 1);
    hide Leading;
    var objs := [o] + rest;
    var n := Leading(objs, o.block + 1);
    assert Groups(o.block, end, run, objs) == Run(o.block - run, run) + Groups(o.block + 1, end, 0, objs[n..]);
  }

  /** Free blocks from k up to the first object's block come first. */
  lemma ReachChunks(k: int, o: Object, rest: seq<Object>, end: int)
    requires k <= o.block < end
    ensures Chunks(k, end, [o] + rest) == Between(o.block, FIRST, o.off) + ChunksAfter(o, rest, end)
  {
    SkipChunks(k, o.block, end, [o] + rest);
    StartChunks(o, rest, end);
  }

  lemma ReachGroups(k: int, o: Object, rest: seq<Object>, end: int)
    requires k <= o.block < end
    ensures Groups(k, end, 0, [o] + rest) == Run(k, o.block - k) + GroupsAfter(o, rest, end)
  {
    SkipGroups(k, o.block, end, 0, [o] + rest);
    StartGroups(o, rest, end, o.block - k);
  }

  /** Before the first object of a region. */
  lemma SweepFirst(o: Object, rest: seq<Object>, first: int, end: int)
    requires Fits(o) && first <= o.block < end
    ensures Chunks(first, end, [o] + rest) == RangeChunks(first, FIRST, o.block, o.off) + ChunksAfter(o, rest, end)
    ensures Groups(first, end, 0, [o] + rest) == RangeGroups(first, FIRST, o.block, o.off) + GroupsAfter(o, rest, end)
  {
    assert RangeChunks(first, FIRST, o.block, o.off) == Between(o.block, FIRST, o.off);
    assert RangeGroups(first, FIRST, o.block, o.off) == Run(first, o.block - first);
    ReachChunks(first, o, rest, end);
    ReachGroups(first, o, rest, end);
  }

  /** Between two objects of the same block. */
  lemma SameBlock(o: Object, p: Object, rest: seq<Object>, end: int)
    requires o.block == p.block
    ensures ChunksAfter(o, [p] + rest, end) == Between(o.block, o.End(), p.off) + ChunksAfter(p, rest, end)
    ensures GroupsAfter(o, [p] + rest, end) == GroupsAfter(p, rest, end)
  {
    var k, n := o.block, Leading(rest, o.block + 1);
    LeadingCons(p, rest, k + 1);
    GapsCons(k, o.End(), p, rest[..n], LAST);
    hide Leading, Gaps, Chunks, Groups, Between;
    Regroup(Between(k, o.End(), p.off), Gaps(k, p.End(), rest[..n], LAST), Chunks(k + 1, end, rest[n..]));
  }

  /** When the next object is in a later block, the rest of this one is free. */
  lemma LastOfBlock(o: Object, rest: seq<Object>, end: int)
    requires rest == [] || rest[0].block > o.block
    ensures ChunksAfter(o, rest, end) == Between(o.block, o.End(), LAST) + Chunks(o.block + 1, end, rest)
    ensures GroupsAfter(o, rest, end) == Groups(o.block + 1, end, 0, rest)
  {
    assert Leading(rest, o.block + 1) == 0 && rest[..0] == [] && rest[0..] == rest;
  }

  /** Between the last object of a block and the first of a later one. */
  lemma LaterBlockChunks(o: Object, p: Object, rest: seq<Object>, end: int)
    requires o.block < p.block < end
    ensures ChunksAfter(o, [p] + rest, end)
            == (Between(o.block, o.End(), LAST) + Between(p.block, FIRST, p.off)) + ChunksAfter(p, rest, end)
  {
    LastOfBlock(o, [p] + rest, end);
    ReachChunks(o.block + 1, p, rest, end);
    Regroup(Between(o.block, o.End(), LAST), Between(p.block, FIRST, p.off), ChunksAfter(p, rest, end));
  }

  lemma LaterBlockGroups(o: Object, p: Object, rest: seq<Object>, end: int)
    requires o.block < p.block < end
    ensures GroupsAfter(o, [p] + rest, end) == Run(o.block + 1, p.block - o.block - 1) + GroupsAfter(p, rest, end)
  {
    LastOfBlock(o, [p] + rest, end);
    ReachGroups(o.block + 1, p, rest, end);
  }

  /** Between two objects. */
  lemma SweepNext(o: Object, p: Object, rest: seq<Object>, end: int)
    requires Fits(o) && Fits(p) && Before(o, p) && p.block < end
    ensures ChunksAfter(o, [p] + rest, end) == RangeChunks(o.block, o.End(), p.block, p.off) + ChunksAfter(p, rest, end)
    ensures GroupsAfter(o, [p] + rest, end) == RangeGroups(o.block, o.End(), p.block, p.off) + GroupsAfter(p, rest, end)
  {
    if p.block == o.block {
      assert RangeChunks(o.block, o.End(), p.block, p.off) == Between(o.block, o.End(), p.off);
      assert RangeGroups(o.block, o.End(), p.block, p.off) == [];
      SameBlock(o, p, rest, end);
    } else {
      assert RangeChunks(o.block, o.End(), p.block, p.off) ==
          Between(o.block, o.End(), LAST) + Between(p.block, FIRST, p.off);
      assert RangeGroups(o.block, o.End(), p.block, p.off) == Run(o.block + 1, p.block - o.block - 1);
      LaterBlockChunks(o, p, rest, end);
      LaterBlockGroups(o, p, rest, end);
    }
  }

  /** After the last object of a region. */
  lemma SweepLast(o: Object, end: int)
    requires Fits(o) && o.block < end
    ensures ChunksAfter(o, [], end) == RangeChunks(o.block, o.End(), end - 1, LAST)
    ensures GroupsAfter(o, [], end) == RangeGroups(o.block, o.End(), end - 1, LAST)
  {
    LastOfBlock(o, [], end);
    SkipChunks(o.block + 1, end, end, []);
    SkipGroups(o.block + 1, end, end, 0, []);
  }

  /** A region without live objects. */
  lemma SweepEmpty(first: int, end: int)
    requires first < end
    ensures Chunks(first, end, []) == [] && Groups(first, end, 0, []) == [Group(first, end - first)]
  {
    SkipChunks(first, end, end, []);
    SkipGroups(first, end, end, 0, []);
  }
}
