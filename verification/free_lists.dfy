/**
 * The segregated free lists of the manual memory manager (src/runtime/gc.c).  A list
 * per size class holds the free lumps of that class by increasing size, so the search
 * for a lump is a best fit over the whole heap.
 */
module FreeLists {
  import opened Header
  import opened SizeClasses

  /** The free lumps and their sizes. */
  type FreeMap = map<int, int>

  ghost predicate SizesOk(free: FreeMap) { forall p :: p in free ==> free[p] > 0 && free[p] % STEP == 0 }

  /** The list of class c: exactly its lumps, once each, by increasing size. */
  ghost predicate ListOk(list: seq<int>, c: int, free: FreeMap)
  {
    Members(list, c, free) && Ordered(list, free)
  }

  ghost predicate Members(list: seq<int>, c: int, free: FreeMap)
  {
    forall p :: p in list <==> p in free && SizeClass(free[p]) == c
  }

  ghost predicate Ordered(list: seq<int>, free: FreeMap)
  {
    forall i, j :: 0 <= i < j < |list| ==>
        list[i] != list[j] && list[i] in free && list[j] in free && free[list[i]] <= free[list[j]]
  }

  ghost predicate ListsOk(lists: seq<seq<int>>, free: FreeMap)
  {
    && |lists| == SIZE_CLASSES && SizesOk(free)
    && (forall c {:trigger ListOk(lists[c], c, free)} :: 0 <= c < SIZE_CLASSES ==> ListOk(lists[c], c, free))
  }

  /** The headers of free lumps hold their sizes. */
  ghost predicate Headed(mem: Memory, free: FreeMap)
  {
    forall p :: p in free ==> p - GC_HEAD in mem && Size(mem[p - GC_HEAD]) == free[p]
  }

  // ---------------------------------------------------------------------------
  // Best fit
  // ---------------------------------------------------------------------------

  /** p is a smallest free lump of at least the given size. */
  ghost predicate BestFit(free: FreeMap, size: int, p: int)
  {
    p in free && free[p] >= size && forall q :: q in free && free[q] >= size ==> free[p] <= free[q]
  }

  ghost predicate NoFit(free: FreeMap, size: int) { forall q :: q in free ==> free[q] < size }

  /** The first lump of a list that is large enough; |list| if there is none. */
  method FirstFit(mem: Memory, list: seq<int>, size: int, ghost c: int, ghost free: FreeMap) returns (i: nat)
    requires ListOk(list, c, free) && Headed(mem, free)
    ensures i <= |list| && (forall j :: 0 <= j < |list| ==> list[j] in free)
    ensures forall j :: 0 <= j < i ==> free[list[j]] < size
    ensures forall j :: i <= j < |list| ==> free[list[j]] >= size
    ensures i < |list| ==> forall j :: i <= j < |list| ==> free[list[i]] <= free[list[j]]
  {
    i := 0;
    forall j | 0 <= j < |list| ensures list[j] in free { MemberFree(list, c, free, list[j]); }
    while i < |list| && Size(mem[list[i] - GC_HEAD]) < size
      invariant 0 <= i <= |list|
      invariant forall j :: 0 <= j < i ==> free[list[j]] < size
    {
      i := i + 1;
    }
  }

  lemma MemberFree(list: seq<int>, c: int, free: FreeMap, p: int)
    requires ListOk(list, c, free) && p in list
    ensures p in free
  {
  }

  lemma ClassOf(lists: seq<seq<int>>, free: FreeMap, p: int)
    requires ListsOk(lists, free) && p in free
    ensures var c := SizeClass(free[p]); 0 <= c < SIZE_CLASSES && p in lists[c] && ListOk(lists[c], c, free)
  {
    ClassBounds(free[p]);
    assert ListOk(lists[SizeClass(free[p])], SizeClass(free[p]), free);
  }

  /** A fit in the size's own class is a best fit. */
  lemma OwnClassFits(lists: seq<seq<int>>, free: FreeMap, size: int, c: int, i: nat)
    requires ListsOk(lists, free) && size > 0 && size % STEP == 0 && c == SizeClass(size) && 0 <= c < SIZE_CLASSES
    requires i < |lists[c]| && lists[c][i] in free && free[lists[c][i]] >= size
    requires forall j :: 0 <= j < |lists[c]| ==>
               lists[c][j] in free && if j < i then free[lists[c][j]] < size else free[lists[c][i]] <= free[lists[c][j]]
    ensures BestFit(free, size, lists[c][i])
  {
    var p := lists[c][i];
    assert ListOk(lists[c], c, free) && p in lists[c];
    forall q | q in free && free[q] >= size ensures free[p] <= free[q] {
      ClassOf(lists, free, q);
      ClassMonotone(size, free[q]);
      if SizeClass(free[q]) > c {
        LargerClass(free[p], free[q]);
      } else {
        var j :| 0 <= j < |lists[c]| && lists[c][j] == q;
      }
    }
  }

  /** If none fits there, the first lump of the next class that has any is a best fit. */
  lemma LaterClassFits(lists: seq<seq<int>>, free: FreeMap, size: int, c: int, d: int)
    requires ListsOk(lists, free) && size > 0 && size % STEP == 0 && SizeClass(size) == c && 0 <= c < d <= SIZE_CLASSES
    requires forall p :: p in lists[c] && p in free ==> free[p] < size
    requires forall e :: c < e < d ==> lists[e] == []
    ensures d == SIZE_CLASSES ==> NoFit(free, size)
    ensures d < SIZE_CLASSES && lists[d] != [] ==> BestFit(free, size, lists[d][0])
  {
    forall q | q in free && free[q] >= size ensures SizeClass(free[q]) >= d {
      ClassOf(lists, free, q);
      ClassMonotone(size, free[q]);
    }
    if d == SIZE_CLASSES {
      forall q | q in free ensures free[q] < size { ClassOf(lists, free, q); }
    } else if lists[d] != [] {
      var p := lists[d][0];
      assert ListOk(lists[d], d, free) && p in lists[d];
      LargerClass(size, free[p]);
      forall q | q in free && free[q] >= size ensures free[p] <= free[q] {
        ClassOf(lists, free, q);
        if SizeClass(free[q]) > d {
          LargerClass(free[p], free[q]);
        } else {
          var j :| 0 <= j < |lists[d]| && lists[d][j] == q;
        }
      }
    }
  }

  /** find_freelump: a best fit over the whole heap, or none if there is none. */
  method FindFreelump(mem: Memory, lists: seq<seq<int>>, size: int, class_: int, ghost free: FreeMap)
    returns (found: bool, p: int)
    requires ListsOk(lists, free) && Headed(mem, free) && size > 0 && size % STEP == 0 && class_ == SizeClass(size)
    requires 0 <= class_ < SIZE_CLASSES
    ensures found ==> BestFit(free, size, p)
    ensures !found ==> NoFit(free, size)
  {
    hide BestFit, NoFit, SizeClass;
    var c := class_;
    assert ListOk(lists[c], c, free);
    var i := FirstFit(mem, lists[c], size, c, free);
    if i < |lists[c]| {
      OwnClassFits(lists, free, size, c, i);
      return true, lists[c][i];
    }
    c := c + 1;
    while c < SIZE_CLASSES && lists[c] == []
      invariant class_ < c <= SIZE_CLASSES && forall e :: class_ < e < c ==> lists[e] == []
    {
      c := c + 1;
    }
    LaterClassFits(lists, free, size, class_, c);
    if c < SIZE_CLASSES {
      return true, lists[c][0];
    } else {
      return false, 0;
    }
  }

  // ---------------------------------------------------------------------------
  // Insertion and removal
  // ---------------------------------------------------------------------------

  /** Lists of classes other than c do not see a change of class c. */
  lemma OtherLists(lists: seq<seq<int>>, free: FreeMap, c: int, list: seq<int>, free': FreeMap)
    requires ListsOk(lists, free) && 0 <= c < SIZE_CLASSES && ListOk(list, c, free') && SizesOk(free')
    requires forall p :: (p in free && SizeClass(free[p]) != c) <==> (p in free' && SizeClass(free'[p]) != c)
    requires forall p :: p in free && p in free' ==> free'[p] == free[p]
    ensures ListsOk(lists[c := list], free')
  {
    var lists' := lists[c := list];
    forall d | 0 <= d < SIZE_CLASSES ensures ListOk(lists'[d], d, free') {
      if d != c {
        assert ListOk(lists[d], d, free);
        assert forall p :: p in lists[d] ==> p in free && p in free';
      }
    }
  }

  /** insert_freelump: the list stays in order of size. */
  method InsertFreelump(mem: Memory, lists: seq<seq<int>>, p: int, size: int, ghost free: FreeMap)
    returns (lists': seq<seq<int>>)
    requires ListsOk(lists, free) && Headed(mem, free) && p !in free && size > 0 && size % STEP == 0
    ensures ListsOk(lists', free[p := size])
  {
    hide ListsOk, SizeClass;
    var c := ComputeSizeClass(size);
    ListAt(lists, free, c);
    var i := FirstFit(mem, lists[c], size, c, free);
    Inserted(lists[c], c, free, p, size, i);
    lists' := lists[c := lists[c][..i] + [p] + lists[c][i..]];
    InsertOthers(lists, free, c, lists'[c], p, size);
  }

  lemma ListAt(lists: seq<seq<int>>, free: FreeMap, c: int)
    requires ListsOk(lists, free) && 0 <= c < SIZE_CLASSES
    ensures |lists| == SIZE_CLASSES && ListOk(lists[c], c, free)
  {
  }

  lemma InsertOthers(lists: seq<seq<int>>, free: FreeMap, c: int, list: seq<int>, p: int, size: int)
    requires ListsOk(lists, free) && p !in free && size > 0 && size % STEP == 0 && c == SizeClass(size)
    requires 0 <= c < SIZE_CLASSES
    requires ListOk(list, c, free[p := size])
    ensures ListsOk(lists[c := list], free[p := size])
  {
    OtherLists(lists, free, c, list, free[p := size]);
  }

  lemma Inserted(list: seq<int>, c: int, free: FreeMap, p: int, size: int, i: nat)
    requires ListOk(list, c, free) && p !in free && c == SizeClass(size) && i <= |list|
    requires forall j :: 0 <= j < |list| ==> list[j] in free && (j < i <==> free[list[j]] < size)
    ensures ListOk(list[..i] + [p] + list[i..], c, free[p := size])
  {
    var list', free' := list[..i] + [p] + list[i..], free[p := size];
    assert list == list[..i] + list[i..];
    forall q ensures q in list' <==> q in free' && SizeClass(free'[q]) == c {
      assert q in list' <==> q in list || q == p;
    }
    assert Members(list', c, free');
    hide Members, SizeClass;
    InsertedOrder(list, free, p, size, i);
  }

  lemma InsertedOrder(list: seq<int>, free: FreeMap, p: int, size: int, i: nat)
    requires Ordered(list, free) && p !in free && i <= |list|
    requires forall j :: 0 <= j < |list| ==> list[j] in free && (j < i <==> free[list[j]] < size)
    ensures Ordered(list[..i] + [p] + list[i..], free[p := size])
  {
    var list' := list[..i] + [p] + list[i..];
    forall j | 0 <= j < |list'| ensures list'[j] == if j < i then list[j] else if j == i then p else list[j - 1] {}
  }

  /** remove_freelump */
  method RemoveFreelump(lists: seq<seq<int>>, p: int, size: int, ghost free: FreeMap) returns (lists': seq<seq<int>>)
    requires ListsOk(lists, free) && p in free && free[p] == size
    ensures ListsOk(lists', free - {p})
  {
    hide ListsOk, ListOk, SizeClass;
    FreeSize(lists, free, p);
    var c := ComputeSizeClass(size);
    var i := IndexOf(lists[c], p);
    Removed(lists[c], c, free, i);
    lists' := lists[c := lists[c][..i] + lists[c][i + 1..]];
    RemoveOthers(lists, free, c, lists'[c], p);
  }

  lemma FreeSize(lists: seq<seq<int>>, free: FreeMap, p: int)
    requires ListsOk(lists, free) && p in free
    ensures free[p] > 0 && free[p] % STEP == 0
    ensures var c := SizeClass(free[p]); 0 <= c < SIZE_CLASSES == |lists| && p in lists[c] && ListOk(lists[c], c, free)
  {
    ClassOf(lists, free, p);
  }

  method IndexOf(list: seq<int>, p: int) returns (i: nat)
    requires p in list
    ensures i < |list| && list[i] == p
  {
    i := 0;
    while list[i] != p
      invariant 0 <= i < |list| && p in list[i..]
      decreases |list| - i
    {
      i := i + 1;
    }
  }

  lemma Removed(list: seq<int>, c: int, free: FreeMap, i: nat)
    requires ListOk(list, c, free) && i < |list|
    ensures ListOk(list[..i] + list[i + 1..], c, free - {list[i]})
  {
    var p, list', free' := list[i], list[..i] + list[i + 1..], free - {list[i]};
    RemovedMembers(list, i);
    RemovedOrder(list, free, i);
    forall q ensures q in list' <==> q in free' && SizeClass(free'[q]) == c {
      assert q in list' <==> q in list && q != p;
    }
  }

  lemma RemovedMembers(list: seq<int>, i: nat)
    requires i < |list| && forall j, k :: 0 <= j < k < |list| ==> list[j] != list[k]
    ensures forall q :: q in list[..i] + list[i + 1..] <==> q in list && q != list[i]
  {
    var p, list' := list[i], list[..i] + list[i + 1..];
    assert list == list[..i] + [p] + list[i + 1..];
    forall q ensures q in list' <==> q in list && q != p {
      assert q in list[..i] ==> q != p;
      assert q in list[i + 1..] ==> q != p;
    }
  }

  lemma RemovedOrder(list: seq<int>, free: FreeMap, i: nat)
    requires Ordered(list, free) && i < |list|
    ensures Ordered(list[..i] + list[i + 1..], free - {list[i]})
  {
    var list' := list[..i] + list[i + 1..];
    forall j | 0 <= j < |list'| ensures list'[j] == if j < i then list[j] else list[j + 1] {}
  }

  lemma RemoveOthers(lists: seq<seq<int>>, free: FreeMap, c: int, list: seq<int>, p: int)
    requires ListsOk(lists, free) && p in free && c == SizeClass(free[p]) && 0 <= c < SIZE_CLASSES
    requires ListOk(list, c, free - {p})
    ensures ListsOk(lists[c := list], free - {p})
  {
    OtherLists(lists, free, c, list, free - {p});
  }
}
