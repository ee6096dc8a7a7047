/**
 * The free chunk index of a sweep and its merge (src/runtime/gc.c): one list per
 * size, filled in address order, then strung together from the largest size down.
 */
module ChunkIndex {
  import opened Header
  import opened FreeSpace

  const SMALL_CHUNKS_LIST_INDEX_SIZE := GC_BLOCKSIZE / MEMALIGN

  function Slot(c: Chunk): int { c.size / 8 }

  /** The chunks of `cs` in slot i, in their order. */
  ghost function InSlot(cs: seq<Chunk>, i: int): seq<Chunk>
  {
    if cs == [] then []
    else InSlot(cs[..|cs| - 1], i) + (if Slot(cs[|cs| - 1]) == i then [cs[|cs| - 1]] else [])
  }

  /** Slots i, i-1, ..., 1 strung together. */
  ghost function Merged(cs: seq<Chunk>, i: int): seq<Chunk>
    decreases i
  {
    if i <= 0 then [] else InSlot(cs, i) + Merged(cs, i - 1)
  }

  ghost predicate Indexes(index: seq<seq<Chunk>>, cs: seq<Chunk>)
  {
    |index| == SMALL_CHUNKS_LIST_INDEX_SIZE && forall i :: 0 <= i < |index| ==> index[i] == InSlot(cs, i)
  }

  /** init_freeindex */
  method InitFreeindex() returns (index: seq<seq<Chunk>>)
    ensures Indexes(index, [])
  {
    index := seq(SMALL_CHUNKS_LIST_INDEX_SIZE, i => []);
  }

  /** insert_freechunk, on the index. */
  method Insert(index: seq<seq<Chunk>>, c: Chunk, ghost cs: seq<Chunk>) returns (index': seq<seq<Chunk>>)
    requires Indexes(index, cs) && 0 <= Slot(c) < SMALL_CHUNKS_LIST_INDEX_SIZE
    ensures Indexes(index', cs + [c])
  {
    var i := Slot(c);
    index' := index[i := index[i] + [c]];
    assert (cs + [c])[..|cs|] == cs;
  }

  lemma MergeStep(list: seq<Chunk>, cs: seq<Chunk>, i: int)
    requires i > 0
    ensures list + Merged(cs, i) == list + InSlot(cs, i) + Merged(cs, i - 1)
  {
    var a, b := InSlot(cs, i), Merged(cs, i - 1);
    assert list + (a + b) == list + a + b;
  }

  /** merge_freeindex */
  method MergeFreeindex(index: seq<seq<Chunk>>, ghost cs: seq<Chunk>) returns (list: seq<Chunk>)
    requires Indexes(index, cs)
    ensures list == Merged(cs, |index| - 1)
  {
    list := [];
    var i := |index| - 1;
    ghost var all := Merged(cs, i);
    while i > 0
      invariant 0 <= i < |index|
      invariant list + Merged(cs, i) == all
    {
      MergeStep(list, cs, i);
      list := list + index[i];
      i := i - 1;
    }
  }

  // ---------------------------------------------------------------------------
  // The merged list: the same chunks, largest first
  // ---------------------------------------------------------------------------

  ghost function Count(cs: seq<Chunk>, c: Chunk): nat
  {
    if cs == [] then 0 else Count(cs[..|cs| - 1], c) + if cs[|cs| - 1] == c then 1 else 0
  }

  lemma {:induction false} CountAppend(a: seq<Chunk>, b: seq<Chunk>, c: Chunk)
    ensures Count(a + b, c) == Count(a, c) + Count(b, c)
    decreases |b|
  {
    if b == [] {
      assert a + b == a;
    } else {
      assert (a + b)[..|a + b| - 1] == a + b[..|b| - 1];
      CountAppend(a, b[..|b| - 1], c);
    }
  }

  lemma {:induction false} InSlotCounts(cs: seq<Chunk>, i: int, c: Chunk)
    ensures Count(InSlot(cs, i), c) == if Slot(c) == i then Count(cs, c) else 0
    decreases |cs|
  {
    if cs != [] {
      var init, last := cs[..|cs| - 1], cs[|cs| - 1];
      InSlotCounts(init, i, c);
      CountAppend(InSlot(init, i), if Slot(last) == i then [last] else [], c);
      assert [last][..0] == [];
    }
  }

  /** Merging loses and duplicates nothing. */
  lemma {:induction false} MergedCounts(cs: seq<Chunk>, i: int, c: Chunk)
    requires i >= 0
    ensures Count(Merged(cs, i), c) == if 1 <= Slot(c) <= i then Count(cs, c) else 0
    decreases i
  {
    if i > 0 {
      MergedCounts(cs, i - 1, c);
      InSlotCounts(cs, i, c);
      CountAppend(InSlot(cs, i), Merged(cs, i - 1), c);
    }
  }

  lemma {:induction false} InSlotSlots(cs: seq<Chunk>, i: int)
    ensures forall k :: 0 <= k < |InSlot(cs, i)| ==> Slot(InSlot(cs, i)[k]) == i
    decreases |cs|
  {
    if cs != [] { InSlotSlots(cs[..|cs| - 1], i); }
  }

  ghost predicate SlotsDecrease(list: seq<Chunk>)
  {
    forall i, j :: 0 <= i < j < |list| ==> Slot(list[i]) >= Slot(list[j])
  }

  /** The allocator may look at the first chunk only: it is a largest one. */
  lemma {:induction false} MergedDecreases(cs: seq<Chunk>, i: int)
    ensures SlotsDecrease(Merged(cs, i))
    ensures forall k :: 0 <= k < |Merged(cs, i)| ==> Slot(Merged(cs, i)[k]) <= i
    decreases i
  {
    if i > 0 {
      MergedDecreases(cs, i - 1);
      InSlotSlots(cs, i);
    }
  }

  /** An occurrence of c in cs comes before one of d. */
  ghost predicate Earlier(cs: seq<Chunk>, c: Chunk, d: Chunk)
  {
    exists p, q :: 0 <= p < q < |cs| && cs[p] == c && cs[q] == d
  }

  lemma {:induction false} InSlotOrder(cs: seq<Chunk>, s: int)
    ensures forall i :: 0 <= i < |InSlot(cs, s)| ==> InSlot(cs, s)[i] in cs
    ensures forall i, j :: 0 <= i < j < |InSlot(cs, s)| ==> Earlier(cs, InSlot(cs, s)[i], InSlot(cs, s)[j])
    decreases |cs|
  {
    if cs != [] {
      var init, list := cs[..|cs| - 1], InSlot(cs, s);
      InSlotOrder(init, s);
      forall i, j | 0 <= i < j < |list| ensures Earlier(cs, list[i], list[j]) {
        if j < |InSlot(init, s)| {
          var p, q :| 0 <= p < q < |init| && init[p] == list[i] && init[q] == list[j];
          assert cs[p] == list[i] && cs[q] == list[j];
        } else {
          var p :| 0 <= p < |init| && init[p] == list[i];
          assert cs[p] == list[i] && cs[|cs| - 1] == list[j];
        }
      }
    }
  }

  /** Chunks of the same size are in the list in the order they have in cs. */
  ghost predicate KeepsOrder(list: seq<Chunk>, cs: seq<Chunk>)
  {
    forall i, j :: 0 <= i < j < |list| && Slot(list[i]) == Slot(list[j]) ==> Earlier(cs, list[i], list[j])
  }

  lemma OrderJoin(here: seq<Chunk>, rest: seq<Chunk>, cs: seq<Chunk>)
    requires KeepsOrder(rest, cs) && forall i, j :: 0 <= i < j < |here| ==> Earlier(cs, here[i], here[j])
    requires forall i, j :: 0 <= i < |here| && 0 <= j < |rest| ==> Slot(here[i]) > Slot(rest[j])
    ensures KeepsOrder(here + rest, cs)
  {
    hide Earlier, Slot;
    var list := here + rest;
    forall i, j | 0 <= i < j < |list| && Slot(list[i]) == Slot(list[j]) ensures Earlier(cs, list[i], list[j]) {
      if j < |here| {
        assert Earlier(cs, here[i], here[j]);
      } else if i >= |here| {
        assert Earlier(cs, rest[i - |here|], rest[j - |here|]);
      }
    }
  }

  /** The merged list has chunks of the same size in the order in which the sweep found them. */
  lemma {:induction false} MergedOrder(cs: seq<Chunk>, top: int)
    ensures KeepsOrder(Merged(cs, top), cs)
    decreases top
  {
    if top > 0 {
      MergedOrder(cs, top - 1);
      MergedDecreases(cs, top - 1);
      InSlotOrder(cs, top);
      InSlotSlots(cs, top);
      hide Earlier, Slot, InSlot, KeepsOrder;
      OrderJoin(InSlot(cs, top), Merged(cs, top - 1), cs);
    }
  }

  lemma {:induction false} CountMember(cs: seq<Chunk>, c: Chunk)
    ensures Count(cs, c) > 0 <==> c in cs
    decreases |cs|
  {
    if cs != [] {
      var init := cs[..|cs| - 1];
      CountMember(init, c);
      assert cs == init + [cs[|cs| - 1]];
    }
  }

  lemma {:induction false} CountTwice(cs: seq<Chunk>, i: nat, j: nat)
    requires i < j < |cs| && cs[i] == cs[j]
    ensures Count(cs, cs[i]) >= 2
    decreases |cs|
  {
    var init := cs[..|cs| - 1];
    if j < |cs| - 1 {
      CountTwice(init, i, j);
    } else {
      CountMember(init, cs[i]);
      assert init[i] == cs[i];
    }
  }

  /** A list without repetitions, by its counts. */
  lemma {:induction false} CountOnce(cs: seq<Chunk>, c: Chunk)
    requires forall i, j :: 0 <= i < j < |cs| ==> cs[i] != cs[j]
    ensures Count(cs, c) <= 1
    decreases |cs|
  {
    if cs != [] {
      var init := cs[..|cs| - 1];
      CountOnce(init, c);
      CountMember(init, c);
    }
  }

  /** The merged list has no repetitions either, and the same chunks. */
  lemma MergedSet(cs: seq<Chunk>, top: int)
    requires forall i, j :: 0 <= i < j < |cs| ==> cs[i] != cs[j]
    requires top >= 0 && forall i :: 0 <= i < |cs| ==> 1 <= Slot(cs[i]) <= top
    ensures forall c :: c in Merged(cs, top) <==> c in cs
    ensures forall i, j :: 0 <= i < j < |Merged(cs, top)| ==> Merged(cs, top)[i] != Merged(cs, top)[j]
  {
    var list := Merged(cs, top);
    forall c ensures c in list <==> c in cs {
      MergedCounts(cs, top, c);
      CountMember(cs, c);
      CountMember(list, c);
    }
    forall i, j | 0 <= i < j < |list| ensures list[i] != list[j] {
      if list[i] == list[j] {
        CountTwice(list, i, j);
        MergedCounts(cs, top, list[i]);
        CountOnce(cs, list[i]);
      }
    }
  }
}
