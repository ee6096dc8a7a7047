/**
 * Runs of the loop of walk_mark_stack that starts in COLLECT (src/runtime/gc.c): when the
 * assertion after it holds, and how many objects it can collect.
 */
module QueueRuns {
  import opened MarkPhase

  /** mark_phase goes on in COLLECT after walk_roots. */
  ghost predicate Collects(g: Graph, size: nat, words: seq<Ref>, heapSize: nat)
  {
    && g.Valid() && SuggestBound(heapSize, size) < size - 1
    && |MarkEach(g, size, NoMarks(size), words).entries| - 1 < SuggestBound(heapSize, size)
  }

  ghost function Start(g: Graph, size: nat, words: seq<Ref>, heapSize: nat): Phase
  {
    MarkEach(g, size, NoMarks(size), words).(cursor := 0, bound := SuggestBound(heapSize, size), state := Collect)
  }

  /** The loop ends after n turns. */
  ghost predicate Ended(g: Graph, size: nat, ph: Phase, n: nat)
  {
    Turns(g, size, ph, n).cursor >= |Turns(g, size, ph, n).entries|
  }

  lemma StartInv(g: Graph, size: nat, words: seq<Ref>, heapSize: nat)
    requires Collects(g, size, words, heapSize)
    ensures QueueInv(g, size, ObjectsIn(g, words), Start(g, size, words, heapSize))
  {
    hide QueueInv, SuggestBound;
    RootsMarked(g, size, words);
    RootsDone(g, size, ObjectsIn(g, words), MarkEach(g, size, NoMarks(size), words));
  }

  lemma TurnInv(g: Graph, size: nat, roots: set<Ref>, ph: Phase)
    requires QueueInv(g, size, roots, ph)
    ensures var b := QueueTurn(g, size, ph);
            && QueueInv(g, size, roots, b) && ph.live <= b.live && (ph.state == Overflow ==> b.state == Overflow)
            && (ph.cursor < |ph.entries| && b.live == ph.live ==> b == ph.(cursor := ph.cursor + 1))
            && (b.state == Collect ==> ph.state == Collect)
  {
    assert 0 <= ph.cursor;
    if ph.cursor < |ph.entries| {
      QueueStep(g, size, roots, ph, ph.entries[ph.cursor]);
      MarkEachGrows(g, size, ph, g.children[ph.entries[ph.cursor]]);
    }
  }

  lemma {:induction false} TurnsInv(g: Graph, size: nat, roots: set<Ref>, ph: Phase, n: nat)
    requires QueueInv(g, size, roots, ph)
    ensures QueueInv(g, size, roots, Turns(g, size, ph, n))
    decreases n
  {
    hide QueueInv;
    if n > 0 {
      TurnsInv(g, size, roots, ph, n - 1);
      TurnInv(g, size, roots, Turns(g, size, ph, n - 1));
    }
  }

  lemma {:induction false} TurnsShift(g: Graph, size: nat, ph: Phase, n: nat)
    ensures Turns(g, size, QueueTurn(g, size, ph), n) == Turns(g, size, ph, n + 1)
    decreases n
  {
    if n > 0 { TurnsShift(g, size, ph, n - 1); }
  }

  /** The loop ends, and what has overflowed stays so. */
  lemma {:induction false} LoopEnds(g: Graph, size: nat, roots: set<Ref>, ph: Phase) returns (n: nat)
    requires QueueInv(g, size, roots, ph)
    ensures Ended(g, size, ph, n) && (ph.state == Overflow ==> Turns(g, size, ph, n).state == Overflow)
    decreases g.children.Keys - ph.live, |ph.entries| - ph.cursor
  {
    if ph.cursor >= |ph.entries| {
      n := 0;
    } else {
      TurnInv(g, size, roots, ph);
      LiveIn(g, size, roots, QueueTurn(g, size, ph));
      var b := QueueTurn(g, size, ph);
      var k := LoopEnds(g, size, roots, b);
      TurnsShift(g, size, ph, k);
      n := k + 1;
    }
  }

  lemma LiveIn(g: Graph, size: nat, roots: set<Ref>, ph: Phase)
    requires QueueInv(g, size, roots, ph)
    ensures ph.live <= g.children.Keys
  {
  }

  // ---------------------------------------------------------------------------
  // Heaps in which one object holds all others
  // ---------------------------------------------------------------------------

  /** lo, lo + 1, ..., hi - 1 */
  ghost function Range(lo: int, hi: int): seq<int> { if lo < hi then seq(hi - lo, i => lo + i) else [] }

  lemma RangeMore(lo: int, hi: int)
    requires lo <= hi
    ensures Range(lo, hi + 1) == Range(lo, hi) + [hi] && Range(lo, hi + 1)[..hi - lo] == Range(lo, hi)
    ensures forall x :: x in Range(lo, hi) <==> lo <= x < hi
  {
    forall x | lo <= x < hi ensures x in Range(lo, hi) { assert Range(lo, hi)[x - lo] == x; }
  }

  ghost function UpTo(n: nat): (s: set<int>)
    ensures forall x :: x in s <==> 1 <= x <= n
  {
    if n == 0 then {} else UpTo(n - 1) + {n}
  }

  /** Objects 1 to n; the first one refers to all others. */
  ghost function Star(n: nat): Graph
  {
    Graph(Range(1, n + 1), {}, map p | p in UpTo(n) :: if p == 1 then Range(2, n + 1) else [])
  }

  lemma {:induction false} UpToCount(n: nat)
    ensures |UpTo(n)| == n
    decreases n
  {
    if n > 0 {
      UpToCount(n - 1);
      var s := UpTo(n - 1);
      assert n !in s && UpTo(n) == s + {n};
      hide UpTo;
    }
  }

  lemma StarValid(n: nat)
    requires n > 0
    ensures Star(n).Valid() && |Star(n).children| == n
  {
    hide Range, UpTo;
    var g := Star(n);
    UpToCount(n);
    StarObjects(n);
    RangeMore(2, n + 1);
    assert g.children.Keys == UpTo(n);
    forall p, k | p in g.children && 0 <= k < |g.children[p]| ensures g.IsReference(g.children[p][k]) {
      assert g.children[p][k] in Range(2, n + 1);
    }
  }

  lemma StarObjects(n: nat)
    ensures Star(n).Objects() == UpTo(n)
  {
    hide UpTo;
    RangeMore(1, n + 1);
    forall p ensures p in Star(n).Objects() <==> p in UpTo(n) { assert p in Star(n).Objects() <==> p in Star(n).heap; }
  }

  /** The root alone is marked, and the loop starts in COLLECT with bound b. */
  ghost function RootMarked(b: int): Phase { Phase({1}, [1], Collect, 0, 0, b) }

  lemma StarStart(n: nat, size: nat, heapSize: nat)
    requires n > 0 && 0 < SuggestBound(heapSize, size) < size - 1
    ensures Collects(Star(n), size, [1], heapSize)
    ensures Start(Star(n), size, [1], heapSize) == RootMarked(SuggestBound(heapSize, size))
  {
    var g := Star(n);
    StarValid(n);
    assert [1][..0] == [];
    assert MarkEach(g, size, NoMarks(size), []) == NoMarks(size);
    assert MarkEach(g, size, NoMarks(size), [1]) == MarkOne(g, size, NoMarks(size), 1);
  }

  /** Marking the children one by one: with the k-th object marked ... */
  ghost predicate Filled(size: nat, b: int, k: nat, ph: Phase)
  {
    && ph.live == UpTo(k)
    && (k <= b + 1 ==> ph == Phase(UpTo(k), Range(1, k + 1), Collect, 0, 0, b))
    && (b + 1 < k <= size ==> ph.state == Normal && ph.entries == Range(1, k + 1) && ph.bound == size - 1)
    && (k > size ==> ph.state == Overflow && |ph.entries| == size && ph.bound == size - 1)
  }

  lemma {:induction false} StarFill(n: nat, size: nat, b: int, k: nat)
    requires 0 < k <= n && 0 < b < size - 1
    ensures Filled(size, b, k, MarkEach(Star(n), size, RootMarked(b), Range(2, k + 1)))
    decreases k
  {
    var g := Star(n);
    if k == 1 {
      assert UpTo(1) == {1} && Range(1, 2) == [1] && Range(2, 2) == [];
      assert MarkEach(g, size, RootMarked(b), []) == RootMarked(b);
    } else {
      StarFill(n, size, b, k - 1);
      RangeMore(2, k);
      RangeMore(1, k);
      var a := MarkEach(g, size, RootMarked(b), Range(2, k));
      assert MarkEach(g, size, RootMarked(b), Range(2, k + 1)) == MarkOne(g, size, a, k);
      FillOne(n, size, b, k, a);
    }
  }

  lemma FillOne(n: nat, size: nat, b: int, k: nat, a: Phase)
    requires 1 < k <= n && 0 < b < size - 1 && Filled(size, b, k - 1, a)
    ensures Filled(size, b, k, MarkOne(Star(n), size, a, k))
  {
    hide Range;
    assert k in Star(n).children && k !in a.live && UpTo(k) == UpTo(k - 1) + {k};
    RangeMore(1, k);
    RangeSize(1, k);
    RangeSize(1, k + 1);
  }

  lemma RangeSize(lo: int, hi: int)
    requires lo <= hi
    ensures |Range(lo, hi)| == hi - lo
  {
  }

  /** After the first turn. */
  lemma StarFirst(n: nat, size: nat, b: int)
    requires n > 0 && 0 < b < size - 1
    ensures var ph := Turns(Star(n), size, RootMarked(b), 1);
            && (n > size ==> ph.state == Overflow)
            && (n <= b + 1 ==> ph == Phase(UpTo(n), Range(1, n + 1), Collect, 1, 0, b))
  {
    var g := Star(n);
    StarFill(n, size, b, n);
    assert 1 in g.children && g.children[1] == Range(2, n + 1);
    assert Turns(g, size, RootMarked(b), 0) == RootMarked(b);
  }

  // ---------------------------------------------------------------------------
  // The assertion after the loop
  // ---------------------------------------------------------------------------

  /** Whenever the loop has ended, mark_state is not OVERFLOW. */
  ghost predicate Meets(g: Graph, size: nat, words: seq<Ref>, heapSize: nat)
  {
    forall n: nat :: Ended(g, size, Start(g, size, words, heapSize), n) ==>
        Turns(g, size, Start(g, size, words, heapSize), n).state != Overflow
  }

  /** Every heap of n objects and of this size in bytes does. */
  ghost predicate AllMeet(n: nat, size: nat, heapSize: nat)
  {
    forall g, words {:trigger Collects(g, size, words, heapSize)} ::
      Collects(g, size, words, heapSize) && |g.children| == n ==> Meets(g, size, words, heapSize)
  }

  /** With a slot for every reachable object the assertion holds. */
  lemma MeetsWithRoom(g: Graph, size: nat, words: seq<Ref>, heapSize: nat, reachable: set<Ref>)
    requires Collects(g, size, words, heapSize) && |reachable| <= size
    requires forall p :: p in reachable <==> Reachable(g, ObjectsIn(g, words), p)
    ensures Meets(g, size, words, heapSize)
  {
    var ph := Start(g, size, words, heapSize);
    StartInv(g, size, words, heapSize);
    forall n: nat ensures Turns(g, size, ph, n).state != Overflow {
      TurnsInv(g, size, ObjectsIn(g, words), ph, n);
      QueueAssertion(g, size, ObjectsIn(g, words), Turns(g, size, ph, n));
      var live := Turns(g, size, ph, n).live;
      forall p | p in live ensures p in reachable { assert Reachable(g, ObjectsIn(g, words), p); }
      CardMonotone(live, reachable);
    }
  }

  /**
   * At each heap size, the assertion holds for every heap of n objects if and only if the mark
   * stack has n slots, or it or the heap is too small to start in COLLECT with a root.
   */
  lemma AssertionExact(n: nat, size: nat, heapSize: nat)
    ensures AllMeet(n, size, heapSize) <==> n <= size || size < 3 || heapSize < 128
  {
    if n <= size || size < 3 || heapSize < 128 {
      forall g, words | Collects(g, size, words, heapSize) && |g.children| == n
        ensures Meets(g, size, words, heapSize)
      {
        if n <= size { MeetsIfSmall(g, size, words, heapSize); } else { MeetsIfTiny(g, size, words, heapSize); }
      }
    } else {
      StarOverflows(n, size, heapSize);
    }
  }

  lemma MeetsIfSmall(g: Graph, size: nat, words: seq<Ref>, heapSize: nat)
    requires Collects(g, size, words, heapSize) && |g.children| <= size
    ensures Meets(g, size, words, heapSize)
  {
    var reachable := set p | p in g.children && Reachable(g, ObjectsIn(g, words), p);
    forall p | Reachable(g, ObjectsIn(g, words), p) ensures p in g.children {
      var path :| IsPath(g, ObjectsIn(g, words), path) && path[|path| - 1] == p;
    }
    CardMonotone(reachable, g.children.Keys);
    MeetsWithRoom(g, size, words, heapSize, reachable);
  }

  lemma MeetsIfTiny(g: Graph, size: nat, words: seq<Ref>, heapSize: nat)
    requires Collects(g, size, words, heapSize) && (size < 3 || heapSize < 128)
    ensures Meets(g, size, words, heapSize)
  {
    forall n: nat ensures Turns(g, size, Start(g, size, words, heapSize), n).state != Overflow {
      TurnsEmpty(g, size, Start(g, size, words, heapSize), n);
    }
  }

  /** One object too many, all of them children of a root: at every heap size from 128 on. */
  lemma StarOverflows(n: nat, size: nat, heapSize: nat)
    requires n > size >= 3 && heapSize >= 128
    ensures Collects(Star(n), size, [1], heapSize) && |Star(n).children| == n && !Meets(Star(n), size, [1], heapSize)
  {
    var g, b := Star(n), SuggestBound(heapSize, size);
    StarValid(n);
    StarStart(n, size, heapSize);
    StarFirst(n, size, b);
    StartInv(g, size, [1], heapSize);
    TurnsInv(g, size, ObjectsIn(g, [1]), RootMarked(b), 1);
    var k := LoopEnds(g, size, ObjectsIn(g, [1]), Turns(g, size, RootMarked(b), 1));
    OneTurn(g, size, RootMarked(b), k);
    assert Ended(g, size, Start(g, size, [1], heapSize), k + 1);
  }

  lemma OneTurn(g: Graph, size: nat, ph: Phase, k: nat)
    ensures Turns(g, size, Turns(g, size, ph, 1), k) == Turns(g, size, ph, k + 1)
  {
    assert Turns(g, size, ph, 0) == ph;
    TurnsShift(g, size, ph, k);
  }

  // ---------------------------------------------------------------------------
  // Room for the sort
  // ---------------------------------------------------------------------------

  /** From the second object on nothing is left to mark. */
  lemma {:induction false} StarRest(n: nat, size: nat, b: int, k: nat)
    requires 0 < n <= b + 1 && 0 < b < size - 1 && 0 < k <= n
    ensures Turns(Star(n), size, RootMarked(b), k) == Phase(UpTo(n), Range(1, n + 1), Collect, k, 0, b)
    decreases k
  {
    if k == 1 {
      StarFirst(n, size, b);
    } else {
      StarRest(n, size, b, k - 1);
      var g, ph := Star(n), Phase(UpTo(n), Range(1, n + 1), Collect, k - 1, 0, b);
      assert ph.entries[k - 1] == k && k in g.children && g.children[k] == [];
      assert MarkEach(g, size, ph, []) == ph;
    }
  }

  /** Whenever the loop ends in COLLECT, the set it collected fits twice into the mark stack, with the sentinels. */
  ghost predicate AllFit(heapSize: nat, size: nat)
  {
    forall g, words, n: nat {:trigger Turns(g, size, Start(g, size, words, heapSize), n)} ::
      Collects(g, size, words, heapSize) && Ended(g, size, Start(g, size, words, heapSize), n)
      && Turns(g, size, Start(g, size, words, heapSize), n).state == Collect ==>
      SortSlots(|Turns(g, size, Start(g, size, words, heapSize), n).entries|) <= size
  }

  /** What the two sizes must satisfy for that. */
  predicate RoomToSort(heapSize: nat, size: nat)
  {
    if heapSize < 128 then size >= 4 else 2 * (heapSize / 128) + 6 <= size
  }

  /** No object is ever collected when the bound is 0. */
  lemma NothingCollected(g: Graph, size: nat, words: seq<Ref>, heapSize: nat, n: nat)
    requires Collects(g, size, words, heapSize) && SuggestBound(heapSize, size) == 0
    ensures Turns(g, size, Start(g, size, words, heapSize), n).state == Collect ==>
            Turns(g, size, Start(g, size, words, heapSize), n).entries == []
  {
    var ph := Start(g, size, words, heapSize);
    StartInv(g, size, words, heapSize);
    RootsMarked(g, size, words);
    TurnsEmpty(g, size, ph, n);
  }

  lemma {:induction false} TurnsEmpty(g: Graph, size: nat, ph: Phase, n: nat)
    requires ph.entries == []
    ensures Turns(g, size, ph, n) == ph
    decreases n
  {
    if n > 0 { TurnsEmpty(g, size, ph, n - 1); }
  }

  lemma CollectedFits(g: Graph, size: nat, words: seq<Ref>, heapSize: nat, n: nat)
    requires Collects(g, size, words, heapSize) && RoomToSort(heapSize, size)
    requires Turns(g, size, Start(g, size, words, heapSize), n).state == Collect
    ensures SortSlots(|Turns(g, size, Start(g, size, words, heapSize), n).entries|) <= size
  {
    if heapSize < 128 {
      NothingCollected(g, size, words, heapSize, n);
    } else {
      StartInv(g, size, words, heapSize);
      TurnsInv(g, size, ObjectsIn(g, words), Start(g, size, words, heapSize), n);
      TurnsBound(g, size, ObjectsIn(g, words), Start(g, size, words, heapSize), n);
    }
  }

  lemma {:induction false} TurnsBound(g: Graph, size: nat, roots: set<Ref>, ph: Phase, n: nat)
    requires QueueInv(g, size, roots, ph) && Turns(g, size, ph, n).state == Collect
    ensures |Turns(g, size, ph, n).entries| <= ph.bound + 1
    ensures Turns(g, size, ph, n).bound == ph.bound
    decreases n
  {
    TurnsInv(g, size, roots, ph, n);
    if n > 0 {
      TurnsInv(g, size, roots, ph, n - 1);
      var a := Turns(g, size, ph, n - 1);
      TurnInv(g, size, roots, a);
      TurnsBound(g, size, roots, ph, n - 1);
      if a.cursor < |a.entries| { MarkEachGrows(g, size, a, g.children[a.entries[a.cursor]]); }
    }
  }

  /** The sort has room after every mark phase if and only if the stack is large enough for the heap. */
  lemma SortRoomExact(heapSize: nat, size: nat)
    requires SuggestBound(heapSize, size) < size - 1
    ensures AllFit(heapSize, size) <==> RoomToSort(heapSize, size)
  {
    if RoomToSort(heapSize, size) {
      forall g, words, n: nat {:trigger Turns(g, size, Start(g, size, words, heapSize), n)}
        | Collects(g, size, words, heapSize) && Ended(g, size, Start(g, size, words, heapSize), n)
          && Turns(g, size, Start(g, size, words, heapSize), n).state == Collect
        ensures SortSlots(|Turns(g, size, Start(g, size, words, heapSize), n).entries|) <= size
      {
        CollectedFits(g, size, words, heapSize, n);
      }
    } else if heapSize < 128 {
      NoneNeedsRoom(size, heapSize);
    } else {
      StarNeedsRoom(heapSize, size);
    }
  }

  /** Even an empty set needs four slots. */
  lemma NoneNeedsRoom(size: nat, heapSize: nat)
    requires SuggestBound(heapSize, size) == 0 < size - 1 && size < 4
    ensures !AllFit(heapSize, size)
  {
    var g := Graph([], {}, map[]);
    var ph := Start(g, size, [], heapSize);
    assert MarkEach(g, size, NoMarks(size), []) == NoMarks(size);
    TurnsEmpty(g, size, ph, 0);
    assert Collects(g, size, [], heapSize) && Ended(g, size, ph, 0);
  }

  /** The heap that fills the queue to its bound. */
  lemma StarNeedsRoom(heapSize: nat, size: nat)
    requires SuggestBound(heapSize, size) < size - 1 && heapSize >= 128 && 2 * (heapSize / 128) + 6 > size
    ensures !AllFit(heapSize, size)
  {
    var b := SuggestBound(heapSize, size);
    assert 0 < b && 2 * b + 6 > size;
    var n := b + 1;
    StarStart(n, size, heapSize);
    StarRest(n, size, b, n);
    RangeSize(1, n + 1);
    assert Ended(Star(n), size, Start(Star(n), size, [1], heapSize), n);
  }
}
