/**
 * Sweeping the large object area (src/runtime/gc.c): every object in the hash table
 * either loses its mark bit or is removed from the table and freed, once.
 */
module LargeSweep {
  import opened Header
  import opened Lumps
  import opened LumpHeap
  import opened Pointers

  /** p is marked in memory m. */
  predicate MarkedAt(m: Memory, p: int) { p - GC_HEAD in m && Marked(m[p - GC_HEAD]) }

  /** The marked objects of a chain, in order. */
  function Survivors(chain: seq<int>, m: Memory): seq<int>
  {
    if chain == [] then []
    else Survivors(chain[..|chain| - 1], m) + if MarkedAt(m, chain[|chain| - 1]) then [chain[|chain| - 1]] else []
  }

  /** Every object of the table is a used lump. */
  ghost predicate TableOk(buckets: seq<seq<int>>, ls: LumpMap)
  {
    IsTable(buckets) && !InTable(buckets, 0) && forall p :: InTable(buckets, p) ==> IsUsed(ls, p)
  }

  /** The sweep has passed object q: chains before the i-th, and j objects of that one. */
  ghost predicate Passed(buckets: seq<seq<int>>, i: int, j: int, q: int)
  {
    InTable(buckets, q) && (Bucket(q) < i || (Bucket(q) == i && 0 <= j <= |buckets[i]| && q in buckets[i][..j]))
  }

  /** Lump q keeps its contents and its size; only the mark bit may differ. */
  ghost predicate SameBut(m: Memory, m': Memory, q: int, size: int)
  {
    && Agree(m, m', q, q + size - GC_HEAD)
    && q - GC_HEAD in m && q - GC_HEAD in m' && Size(m'[q - GC_HEAD]) == Size(m[q - GC_HEAD])
  }

  /** The heap after the sweep has passed the objects up to (i, j). */
  ghost predicate SweptTo(buckets: seq<seq<int>>, i: int, j: int, m0: Memory, ls0: LumpMap, m: Memory, ls: LumpMap)
  {
    && (forall q :: IsUsed(ls, q) <==> IsUsed(ls0, q) && (Passed(buckets, i, j, q) ==> MarkedAt(m0, q)))
    && (forall q :: IsUsed(ls, q) ==>
          ls[q] == ls0[q] && SameBut(m0, m, q, ls0[q].size) &&
              (MarkedAt(m, q) <==> MarkedAt(m0, q) && !Passed(buckets, i, j, q)))
  }

  lemma PassedNext(buckets: seq<seq<int>>, i: int, j: nat, q: int)
    requires IsTable(buckets) && 0 <= i < |buckets| && j < |buckets[i]|
    ensures Passed(buckets, i, j + 1, q) <==> Passed(buckets, i, j, q) || q == buckets[i][j]
    ensures InTable(buckets, buckets[i][j]) && !Passed(buckets, i, j, buckets[i][j])
  {
    var p := buckets[i][j];
    assert buckets[i][..j + 1] == buckets[i][..j] + [p];
  }

  lemma PassedChain(buckets: seq<seq<int>>, i: int, q: int)
    requires IsTable(buckets) && 0 <= i < |buckets|
    ensures Passed(buckets, i, |buckets[i]|, q) <==> Passed(buckets, i + 1, 0, q)
  {
    assert buckets[i][..|buckets[i]|] == buckets[i];
  }

  lemma PassedAll(buckets: seq<seq<int>>, q: int)
    requires IsTable(buckets)
    ensures Passed(buckets, |buckets|, 0, q) <==> InTable(buckets, q)
  {
  }

  /** Passing one more object, whatever happens to it. */
  lemma PassStep(buckets: seq<seq<int>>, i: int, j: nat, m0: Memory, ls0: LumpMap, m: Memory, ls: LumpMap, m': Memory,
                 ls': LumpMap)
    requires IsTable(buckets) && 0 <= i < |buckets| && j < |buckets[i]| && SweptTo(buckets, i, j, m0, ls0, m, ls)
    requires var p := buckets[i][j];
             && IsUsed(ls, p) && OthersKept(m, ls, m', ls', {p})
             && (MarkedAt(m, p) ==> IsUsed(ls', p) && ls'[p] == ls[p] && SameBut(m, m', p, ls[p].size))
             && (MarkedAt(m, p) ==> !MarkedAt(m', p))
             && (!MarkedAt(m, p) ==> !IsUsed(ls', p))
    ensures SweptTo(buckets, i, j + 1, m0, ls0, m', ls')
  {
    var p := buckets[i][j];
    PassedNext(buckets, i, j, p);
    hide Passed, Agree, IsTable;
    forall q ensures IsUsed(ls', q) <==> IsUsed(ls0, q) && (Passed(buckets, i, j + 1, q) ==> MarkedAt(m0, q)) {
      PassedNext(buckets, i, j, q);
    }
    forall q | IsUsed(ls', q)
      ensures ls'[q] == ls0[q] && SameBut(m0, m', q, ls0[q].size)
      ensures (MarkedAt(m', q) <==> MarkedAt(m0, q) && !Passed(buckets, i, j + 1, q))
    {
      PassedNext(buckets, i, j, q);
      if q != p { assert IsUsed(ls, q) && KeepsLump(m, m', q, ls[q].size); }
      SameButTrans(m0, m, m', q, ls0[q].size);
    }
  }

  lemma SameButTrans(m: Memory, m1: Memory, m2: Memory, q: int, size: int)
    requires SameBut(m, m1, q, size) && SameBut(m1, m2, q, size)
    ensures SameBut(m, m2, q, size)
  {
  }

  lemma SurvivorsNext(chain: seq<int>, m: Memory, j: nat)
    requires j < |chain|
    ensures Survivors(chain[..j + 1], m) == Survivors(chain[..j], m) + if MarkedAt(m, chain[j]) then [chain[j]] else []
  {
    assert chain[..j + 1][..j] == chain[..j];
  }

  lemma {:induction false} SurvivorMembers(chain: seq<int>, m: Memory)
    ensures forall p :: p in Survivors(chain, m) <==> p in chain && MarkedAt(m, p)
    ensures (forall i, j :: 0 <= i < j < |chain| ==> chain[i] != chain[j]) ==>
              forall i, j :: 0 <= i < j < |Survivors(chain, m)| ==> Survivors(chain, m)[i] != Survivors(chain, m)[j]
    decreases |chain|
  {
    if chain != [] {
      var init, last := chain[..|chain| - 1], chain[|chain| - 1];
      SurvivorMembers(init, m);
      assert chain == init + [last];
      var s := Survivors(init, m);
      assert forall i :: 0 <= i < |s| ==> s[i] in s;
    }
  }

  /** Clear the mark of object p, or free it; the object is the j-th of chain i. */
  method SweepObject(h: Heap, p: int, ghost buckets: seq<seq<int>>, ghost i: int, ghost j: nat, ghost m0: Memory,
                     ghost ls0: LumpMap)
    returns (keep: bool)
    requires h.Valid() && TableOk(buckets, ls0) && 0 <= i < |buckets| && j < |buckets[i]| && p == buckets[i][j]
    requires SweptTo(buckets, i, j, m0, ls0, h.mem, h.ls)
    modifies h
    ensures h.Valid() && SweptTo(buckets, i, j + 1, m0, ls0, h.mem, h.ls) && keep == MarkedAt(m0, p)
    ensures h.spans == old(h.spans) && WritesInside(old(h.mem), h.mem, h.spans)
  {
    hide IsTable, Passed, OthersKept, SameBut, InSpans;
    AtObject(buckets, i, j, m0, ls0, h.mem, h.ls);
    ghost var m1, ls1 := h.mem, h.ls;
    keep := Marked(h.mem[p - GC_HEAD]);
    if keep {
      h.PutMark(p, false);
      SameButMark(m1, h.mem, p, ls1[p].size);
    } else {
      h.MemFree(p);
    }
    PassStep(buckets, i, j, m0, ls0, m1, ls1, h.mem, h.ls);
  }

  lemma SameButMark(m: Memory, m': Memory, p: int, size: int)
    requires p - GC_HEAD in m && p - GC_HEAD in m' && m' == m[p - GC_HEAD := m'[p - GC_HEAD]]
    requires Size(m'[p - GC_HEAD]) == Size(m[p - GC_HEAD])
    ensures SameBut(m, m', p, size)
  {
  }

  /** The next object is still there, and its mark bit is as the mark phase left it. */
  lemma AtObject(buckets: seq<seq<int>>, i: int, j: nat, m0: Memory, ls0: LumpMap, m: Memory, ls: LumpMap)
    requires TableOk(buckets, ls0) && 0 <= i < |buckets| && j < |buckets[i]| && SweptTo(buckets, i, j, m0, ls0, m, ls)
    ensures var p := buckets[i][j];
            p != 0 && IsUsed(ls, p) && p - GC_HEAD in m && (Marked(m[p - GC_HEAD]) <==> MarkedAt(m0, p)) &&
                IsTable(buckets)
  {
    PassedNext(buckets, i, j, buckets[i][j]);
  }

  method SweepChain(h: Heap, chain: seq<int>, ghost buckets: seq<seq<int>>, ghost i: int, ghost m0: Memory,
                    ghost ls0: LumpMap)
    returns (kept: seq<int>)
    requires h.Valid() && TableOk(buckets, ls0) && 0 <= i < |buckets| && chain == buckets[i]
    requires SweptTo(buckets, i, 0, m0, ls0, h.mem, h.ls)
    modifies h
    ensures h.Valid() && SweptTo(buckets, i + 1, 0, m0, ls0, h.mem, h.ls) && kept == Survivors(chain, m0)
    ensures h.spans == old(h.spans) && WritesInside(old(h.mem), h.mem, h.spans)
  {
    hide TableOk, SweptTo, Heap.Valid, InSpans;
    kept := [];
    for j := 0 to |chain|
      invariant h.Valid() && SweptTo(buckets, i, j, m0, ls0, h.mem, h.ls) && kept == Survivors(chain[..j], m0)
      invariant h.spans == old(h.spans) && WritesInside(old(h.mem), h.mem, h.spans)
    {
      SurvivorsNext(chain, m0, j);
      var keep := SweepObject(h, chain[j], buckets, i, j, m0, ls0);
      if keep { kept := kept + [chain[j]]; }
    }
    assert chain[..|chain|] == chain;
    ChainDone(buckets, i, m0, ls0, h.mem, h.ls);
  }

  lemma ChainDone(buckets: seq<seq<int>>, i: int, m0: Memory, ls0: LumpMap, m: Memory, ls: LumpMap)
    requires TableOk(buckets, ls0) && 0 <= i < |buckets| && SweptTo(buckets, i, |buckets[i]|, m0, ls0, m, ls)
    ensures SweptTo(buckets, i + 1, 0, m0, ls0, m, ls)
  {
    hide Passed;
    forall q
      ensures Passed(buckets, i, |buckets[i]|, q) <==> Passed(buckets, i + 1, 0, q)
    {
      PassedChain(buckets, i, q);
    }
  }

  /** sweep_large */
  method SweepLarge(h: Heap, large: LargeSet)
    requires h.Valid() && TableOk(large.buckets, h.ls)
    modifies h, large
    ensures h.Valid() && TableOk(large.buckets, h.ls)
    ensures forall q :: InTable(large.buckets, q) <==> old(InTable(large.buckets, q)) && old(MarkedAt(h.mem, q))
    ensures forall q :: IsUsed(h.ls, q) <==>
              old(IsUsed(h.ls, q)) && (old(InTable(large.buckets, q)) ==> old(MarkedAt(h.mem, q)))
    ensures forall q :: IsUsed(h.ls, q) ==>
              q in old(h.ls) && h.ls[q] == old(h.ls)[q] && SameBut(old(h.mem), h.mem, q, h.ls[q].size)
    ensures forall q :: InTable(large.buckets, q) ==> !MarkedAt(h.mem, q)
    ensures h.spans == old(h.spans) && WritesInside(old(h.mem), h.mem, h.spans)
  {
    ghost var b0, m0, ls0 := large.buckets, h.mem, h.ls;
    SweepStarts(b0, m0, ls0);
    hide Heap.Valid, SameBut, Survivors, SweptTo, TableOk, InTable, IsUsed, MarkedAt, WritesInside;
    WritesNone(m0, h.spans);
    var i := 0;
    while i < LARGE_SET_SIZE
      invariant 0 <= i <= LARGE_SET_SIZE && h.Valid() && TableOk(b0, ls0) && SweptTo(b0, i, 0, m0, ls0, h.mem, h.ls)
      invariant |large.buckets| == LARGE_SET_SIZE
      invariant h.spans == old(h.spans) && WritesInside(m0, h.mem, h.spans)
      invariant forall k :: 0 <= k < i ==> large.buckets[k] == Survivors(b0[k], m0)
      invariant forall k :: i <= k < LARGE_SET_SIZE ==> large.buckets[k] == b0[k]
    {
      ghost var m1 := h.mem;
      var kept := SweepChain(h, large.buckets[i], b0, i, m0, ls0);
      WritesTrans(m0, m1, h.mem, h.spans);
      large.buckets := large.buckets[i := kept];
      i := i + 1;
    }
    TableDone(b0, m0, ls0, large.buckets, h.mem, h.ls);
  }

  lemma SweepStarts(buckets: seq<seq<int>>, m: Memory, ls: LumpMap)
    requires Lumps.Valid(m, ls) && TableOk(buckets, ls)
    ensures SweptTo(buckets, 0, 0, m, ls, m, ls) && |buckets| == LARGE_SET_SIZE
  {
    forall q ensures !Passed(buckets, 0, 0, q) {}
    forall q | IsUsed(ls, q) ensures SameBut(m, m, q, ls[q].size) { assert TagsOk(m, ls, q); }
  }

  lemma TableDone(b0: seq<seq<int>>, m0: Memory, ls0: LumpMap, b: seq<seq<int>>, m: Memory, ls: LumpMap)
    requires TableOk(b0, ls0) && |b| == LARGE_SET_SIZE
    requires (forall k :: 0 <= k < LARGE_SET_SIZE ==> b[k] == Survivors(b0[k], m0))
    requires SweptTo(b0, LARGE_SET_SIZE, 0, m0, ls0, m, ls)
    ensures TableOk(b, ls)
    ensures forall q :: InTable(b, q) <==> InTable(b0, q) && MarkedAt(m0, q)
    ensures forall q :: IsUsed(ls, q) <==> IsUsed(ls0, q) && (InTable(b0, q) ==> MarkedAt(m0, q))
    ensures forall q :: IsUsed(ls, q) ==> ls[q] == ls0[q] && SameBut(m0, m, q, ls[q].size)
    ensures forall q :: InTable(b, q) ==> !MarkedAt(m, q)
  {
    forall q ensures Passed(b0, LARGE_SET_SIZE, 0, q) <==> InTable(b0, q) { PassedAll(b0, q); }
    forall k | 0 <= k < LARGE_SET_SIZE
      ensures forall p :: p in b[k] <==> p in b0[k] && MarkedAt(m0, p)
      ensures forall i, j :: 0 <= i < j < |b[k]| ==> b[k][i] != b[k][j]
    {
      SurvivorMembers(b0[k], m0);
    }
    hide Passed, SameBut, MarkedAt, Survivors;
    forall q ensures InTable(b, q) <==> InTable(b0, q) && MarkedAt(m0, q) {}
    forall i, j | 0 <= i < LARGE_SET_SIZE && 0 <= j < |b[i]| ensures Bucket(b[i][j]) == i { assert b[i][j] in b[i]; }
  }
}
