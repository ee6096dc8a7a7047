/**
 * The mark phase of the garbage collector (src/runtime/gc.c).
 *
 * The marker starts as a queue that keeps every live object (COLLECT), turns
 * into a stack when that set grows too large (NORMAL), and rescans the whole
 * heap when the stack itself is full (OVERFLOW).  `Phase` is the value view of
 * its global variables; the methods of `Marker` are tied to functions on it.
 */
module MarkPhase {
  import opened Header

  /** An object's address; 0 is NULL. */
  type Ref = int

  datatype MarkState = Collect | Normal | Overflow

  /**
   * What the collector sees of the heap: the collected objects in the order in
   * which an overflow rescan visits them, the fixed objects (whose mark bit is
   * always set), and for each collected object the references its walker marks.
   */
  datatype Graph = Graph(heap: seq<Ref>, fixed: set<Ref>, children: map<Ref, seq<Ref>>) {
    ghost function Objects(): set<Ref> { set p | p in heap }

    ghost predicate IsReference(p: Ref) { p == 0 || p in Objects() || p in fixed }

    ghost predicate Valid() {
      && children.Keys == Objects()
      && 0 !in Objects() && 0 !in fixed
      && Objects() !! fixed
      && (forall p, k :: p in children && 0 <= k < |children[p]| ==> IsReference(children[p][k]))
    }
  }

  // ---------------------------------------------------------------------------
  // Reachability
  // ---------------------------------------------------------------------------

  /** `path` leads from a root to its last object through collected objects only. */
  ghost predicate IsPath(g: Graph, roots: set<Ref>, path: seq<Ref>)
  {
    && |path| > 0 && path[0] in roots
    && (forall i :: 0 <= i < |path| ==> path[i] in g.children)
    && (forall i :: 0 < i < |path| ==> path[i] in g.children[path[i - 1]])
  }

  ghost predicate Reachable(g: Graph, roots: set<Ref>, p: Ref)
  {
    exists path :: IsPath(g, roots, path) && path[|path| - 1] == p
  }

  lemma RootReachable(g: Graph, roots: set<Ref>, p: Ref)
    requires p in roots && p in g.children
    ensures Reachable(g, roots, p)
  {
    assert IsPath(g, roots, [p]);
  }

  lemma ChildReachable(g: Graph, roots: set<Ref>, p: Ref, c: Ref)
    requires Reachable(g, roots, p) && p in g.children && c in g.children[p] && c in g.children
    ensures Reachable(g, roots, c)
  {
    var path :| IsPath(g, roots, path) && path[|path| - 1] == p;
    assert IsPath(g, roots, path + [c]);
  }

  /** All the collected children of `p` are in `s`. */
  ghost predicate ChildrenIn(g: Graph, p: Ref, s: set<Ref>)
  {
    p in g.children ==> forall k :: 0 <= k < |g.children[p]| && g.children[p][k] in g.children ==> g.children[p][k] in s
  }

  /** A set holding the roots and closed under children holds everything reachable. */
  lemma {:induction false} ClosedHoldsPath(g: Graph, roots: set<Ref>, s: set<Ref>, path: seq<Ref>)
    requires forall p :: p in roots && p in g.children ==> p in s
    requires forall p :: p in s ==> ChildrenIn(g, p, s)
    requires IsPath(g, roots, path)
    ensures path[|path| - 1] in s
    decreases |path|
  {
    if |path| == 1 {
      var p := path[0];
      assert p in roots && p in g.children && p in s;
    } else {
      var prefix := path[..|path| - 1];
      assert IsPath(g, roots, prefix);
      ClosedHoldsPath(g, roots, s, prefix);
      var p := prefix[|prefix| - 1];
      assert p == path[|path| - 2] && path[|path| - 1] in g.children[p];
      assert ChildrenIn(g, p, s);
    }
  }

  // ---------------------------------------------------------------------------
  // The marker's variables as a value, and what mark() does to them
  // ---------------------------------------------------------------------------

  /**
   * live    - the collected objects whose mark bit is set
   * entries - the mark stack from its bottom up to mark_top
   */
  datatype Phase = Phase(live: set<Ref>, entries: seq<Ref>, state: MarkState, cursor: int, save: int, bound: int)

  /** The tail of mark(p): push the newly marked p, change state, or give up. */
  function Enqueue(size: nat, ph: Phase, p: Ref): Phase
  {
    if |ph.entries| - 1 < ph.bound then
      ph.(entries := ph.entries + [p])
    else if ph.state == Collect then
      ph.(entries := ph.entries + [p], state := Normal, save := ph.cursor,
          cursor := |ph.entries| + 1, bound := size - 1)
    else
      ph.(state := Overflow)
  }

  /** mark(p), with a mark stack of `size` slots. */
  function MarkOne(g: Graph, size: nat, ph: Phase, p: Ref): Phase
  {
    if p !in g.children || p in ph.live then ph
    else Enqueue(size, ph.(live := ph.live + {p}), p)
  }

  /** A walk: mark() on each reference in turn. */
  function MarkEach(g: Graph, size: nat, ph: Phase, refs: seq<Ref>): Phase
  {
    if refs == [] then ph
    else MarkOne(g, size, MarkEach(g, size, ph, refs[..|refs| - 1]), refs[|refs| - 1])
  }

  ghost predicate Distinct(s: seq<Ref>) { forall i, j :: 0 <= i < j < |s| ==> s[i] != s[j] }

  /** The bounds and the distinctness every step keeps. */
  ghost predicate Sound(g: Graph, size: nat, ph: Phase)
  {
    && ph.live <= g.children.Keys
    && Distinct(ph.entries)
    && (forall p :: p in ph.entries ==> p in ph.live)
    && |ph.entries| - 1 <= ph.bound < size
    && (ph.state == Collect ==> ph.bound < size - 1 && (forall p :: p in ph.live ==> p in ph.entries))
    && (ph.state != Collect ==> ph.bound == size - 1)
    && (ph.state == Overflow ==> |ph.live| > size)
  }

  /** How a walk may change the marker: what grew, and what that says about the state. */
  ghost predicate Grows(a: Phase, b: Phase)
  {
    && a.live <= b.live
    && a.entries <= b.entries
    && (forall p :: p in b.live && p !in a.live ==> p in b.entries || b.state == Overflow)
    && (b.live == a.live ==> b == a)
    && (a.state == Overflow ==> b.state == Overflow)
    && (a.state == Normal ==> b.state != Collect)
    && (b.state == Collect ==> a.state == Collect)
    && (a.state == b.state == Collect ==> b.cursor == a.cursor && b.bound == a.bound)
    && (a.state == Collect && b.state != Collect ==> b.save == a.cursor)
    && (a.state != Collect ==> b.cursor == a.cursor && b.save == a.save)
    && (a.state == Collect && b.state != Collect ==> b.cursor > |a.entries| && |b.live| > a.bound + 1)
  }

  lemma {:induction false} DistinctFits(s: seq<Ref>, bag: set<Ref>)
    requires Distinct(s) && forall p :: p in s ==> p in bag
    ensures |s| <= |bag|
    decreases |s|
  {
    if s != [] {
      var last := s[|s| - 1];
      var init := s[..|s| - 1];
      assert forall p :: p in init ==> p in bag - {last};
      DistinctFits(init, bag - {last});
    }
  }

  lemma {:induction false} CardMonotone(a: set<Ref>, b: set<Ref>)
    requires a <= b
    ensures |a| <= |b|
  {
    assert b == a + (b - a);
  }

  ghost function Elements(s: seq<Ref>): set<Ref> { set p | p in s }

  lemma CollectedIsLive(g: Graph, size: nat, ph: Phase)
    requires Sound(g, size, ph) && ph.state == Collect
    ensures Distinct(ph.entries) && Elements(ph.entries) == ph.live && |ph.entries| <= ph.bound + 1
  {
    forall p ensures p in Elements(ph.entries) <==> p in ph.live {
      assert p in Elements(ph.entries) <==> p in ph.entries;
    }
  }

  lemma MarkOneGrows(g: Graph, size: nat, ph: Phase, p: Ref)
    requires Sound(g, size, ph)
    ensures var b := MarkOne(g, size, ph, p);
            Sound(g, size, b) && Grows(ph, b) && (p in g.children ==> p in b.live)
            && b.live <= ph.live + {p}
  {
    var b := MarkOne(g, size, ph, p);
    if b != ph {
      assert p in b.live && p !in ph.live;
      DistinctFits(ph.entries, ph.live);
      if b.entries != ph.entries {
        assert b.entries[|ph.entries|] == p;
        assert forall q :: q in b.entries <==> q in ph.entries || q == p;
      }
    }
  }

  /** Walking marks every child, only children, and keeps the marker sound. */
  lemma {:induction false} MarkEachGrows(g: Graph, size: nat, ph: Phase, refs: seq<Ref>)
    requires Sound(g, size, ph)
    ensures var b := MarkEach(g, size, ph, refs);
            && Sound(g, size, b) && Grows(ph, b)
            && (forall k :: 0 <= k < |refs| && refs[k] in g.children ==> refs[k] in b.live)
            && (forall p :: p in b.live && p !in ph.live ==> p in refs)
    decreases |refs|
  {
    if refs != [] {
      var init, last := refs[..|refs| - 1], refs[|refs| - 1];
      MarkEachGrows(g, size, ph, init);
      var mid := MarkEach(g, size, ph, init);
      MarkOneGrows(g, size, mid, last);
      CardMonotone(mid.live, MarkEach(g, size, ph, refs).live);
      forall k | 0 <= k < |refs| && refs[k] in g.children
        ensures refs[k] in MarkEach(g, size, ph, refs).live
      {
        if k < |init| { assert init[k] == refs[k]; }
      }
    }
  }

  // ---------------------------------------------------------------------------
  // The tricolour invariant
  // ---------------------------------------------------------------------------

  /** Every marked object is fully walked, waits on the stack from `from` up, is in `grey`, or was dropped. */
  ghost predicate Tricolour(g: Graph, ph: Phase, from: int, grey: set<Ref>)
    requires 0 <= from <= |ph.entries|
  {
    ph.state != Overflow ==>
      forall p :: p in ph.live ==> p in grey || p in ph.entries[from..] || ChildrenIn(g, p, ph.live)
  }

  ghost predicate OnlyReachable(g: Graph, roots: set<Ref>, ph: Phase)
  {
    forall p :: p in ph.live ==> Reachable(g, roots, p)
  }

  /** One walk of a reachable object `p` blackens it and keeps the invariant for all others. */
  lemma WalkStep(g: Graph, size: nat, roots: set<Ref>, a: Phase, p: Ref, from: int, grey: set<Ref>)
    requires Sound(g, size, a) && p in g.children && 0 <= from <= |a.entries|
    requires Reachable(g, roots, p) && OnlyReachable(g, roots, a)
    requires Tricolour(g, a, from, grey + {p})
    ensures var b := MarkEach(g, size, a, g.children[p]);
            && Sound(g, size, b) && Grows(a, b) && OnlyReachable(g, roots, b)
            && from <= |b.entries| && Tricolour(g, b, from, grey)
            && ChildrenIn(g, p, b.live)
  {
    var b := MarkEach(g, size, a, g.children[p]);
    MarkEachGrows(g, size, a, g.children[p]);
    forall q | q in b.live
      ensures Reachable(g, roots, q)
    {
      if q !in a.live { ChildReachable(g, roots, p, q); }
    }
    if b.state != Overflow {
      assert a.entries[from..] <= b.entries[from..];
      forall q | q in b.live
        ensures q in grey || q in b.entries[from..] || ChildrenIn(g, q, b.live)
      {
        if q !in a.live {
          var k :| 0 <= k < |b.entries| && b.entries[k] == q;
          assert b.entries[..|a.entries|] == a.entries;
          assert b.entries[from..][k - from] == q;
        }
      }
    }
  }

  /** With nothing grey left, the marked objects are exactly the reachable ones. */
  lemma MarkedIsReachable(g: Graph, roots: set<Ref>, ph: Phase)
    requires OnlyReachable(g, roots, ph) && ph.live <= g.children.Keys
    requires forall p :: p in roots && p in g.children ==> p in ph.live
    requires forall p :: p in ph.live ==> ChildrenIn(g, p, ph.live)
    ensures forall p :: p in ph.live <==> Reachable(g, roots, p)
  {
    forall p | Reachable(g, roots, p)
      ensures p in ph.live
    {
      var path :| IsPath(g, roots, path) && path[|path| - 1] == p;
      ClosedHoldsPath(g, roots, ph.live, path);
    }
  }

  // ---------------------------------------------------------------------------
  // What each loop of the mark phase keeps
  // ---------------------------------------------------------------------------

  /** walk_roots, after the roots in `done`. */
  ghost predicate RootsInv(g: Graph, size: nat, done: set<Ref>, ph: Phase)
  {
    && Sound(g, size, ph) && ph.state != Collect && ph.live == done
    && (ph.state == Overflow ==> |ph.entries| == size)
    && (ph.state == Normal ==> forall p :: p in ph.live ==> p in ph.entries)
  }

  lemma RootsStep(g: Graph, size: nat, done: set<Ref>, a: Phase, p: Ref)
    requires RootsInv(g, size, done, a)
    ensures RootsInv(g, size, if p in g.children then done + {p} else done, MarkOne(g, size, a, p))
  {
    MarkOneGrows(g, size, a, p);
  }

  /** The loop of walk_mark_stack that starts in COLLECT, and may leave it part way through. */
  ghost predicate QueueInv(g: Graph, size: nat, roots: set<Ref>, ph: Phase)
  {
    && Sound(g, size, ph) && OnlyReachable(g, roots, ph)
    && (ph.state == Collect ==> 0 <= ph.cursor <= |ph.entries| && Tricolour(g, ph, ph.cursor, {}))
    && (ph.state != Collect ==> 0 <= ph.save <= |ph.entries| && ph.save <= ph.cursor && Tricolour(g, ph, ph.save, {}))
    && (ph.state != Overflow ==> forall p :: p in ph.live ==> p in ph.entries)
  }

  lemma QueueStep(g: Graph, size: nat, roots: set<Ref>, a: Phase, p: Ref)
    requires QueueInv(g, size, roots, a) && a.cursor < |a.entries| && p == a.entries[a.cursor]
    ensures p in g.children
    ensures var w := MarkEach(g, size, a, g.children[p]);
            var b := w.(cursor := w.cursor + 1);
            && QueueInv(g, size, roots, b) && a.live <= b.live
            && (b.state == Collect ==> a.state == Collect && b.bound == a.bound)
            && (a.state == Collect && b.state != Collect ==> |b.live| > a.bound + 1)
            && (b.live == a.live ==> b == a.(cursor := a.cursor + 1))
  {
    assert p in a.live;
    var from := if a.state == Collect then a.cursor + 1 else a.save;
    if a.state == Collect {
      assert a.entries[a.cursor..] == [p] + a.entries[from..];
    }
    WalkStep(g, size, roots, a, p, from, {});
    var w := MarkEach(g, size, a, g.children[p]);
    if a.state == Collect && w.state != Collect {
      assert w.entries[from..] == w.entries[w.save..][1..];
    }
  }

  /** The NORMAL loop: whatever is marked but not walked is on the stack, unless the stack overflowed. */
  ghost predicate StackInv(g: Graph, size: nat, roots: set<Ref>, grey: set<Ref>, ph: Phase)
  {
    Sound(g, size, ph) && OnlyReachable(g, roots, ph) && ph.state != Collect && Tricolour(g, ph, 0, grey)
  }

  /** Keeping only the entries from mark_save_cursor up loses nothing that is still to be walked. */
  lemma SlideStep(g: Graph, size: nat, roots: set<Ref>, a: Phase)
    requires QueueInv(g, size, roots, a) && a.state != Collect
    ensures StackInv(g, size, roots, {}, a.(entries := a.entries[a.save..]))
  {
    var b := a.(entries := a.entries[a.save..]);
    assert b.entries[0..] == b.entries;
  }

  lemma PopStep(g: Graph, size: nat, roots: set<Ref>, a: Phase)
    requires StackInv(g, size, roots, {}, a) && a.entries != []
    ensures var p := a.entries[|a.entries| - 1];
            var rest := a.(entries := a.entries[..|a.entries| - 1]);
            && p in g.children && Sound(g, size, rest)
            && var b := MarkEach(g, size, rest, g.children[p]);
               && StackInv(g, size, roots, {}, b) && Grows(rest, b)
  {
    var p := a.entries[|a.entries| - 1];
    var rest := a.(entries := a.entries[..|a.entries| - 1]);
    assert a.entries[0..] == rest.entries[0..] + [p];
    assert p in a.live;
    WalkStep(g, size, roots, rest, p, 0, {});
  }

  lemma RescanStep(g: Graph, size: nat, roots: set<Ref>, grey: set<Ref>, a: Phase, p: Ref)
    requires StackInv(g, size, roots, grey + {p}, a) && p in g.children
    ensures p !in a.live ==> StackInv(g, size, roots, grey, a)
    ensures var b := MarkEach(g, size, a, g.children[p]);
            p in a.live ==> StackInv(g, size, roots, grey, b) && Grows(a, b)
  {
    if p in a.live {
      WalkStep(g, size, roots, a, p, 0, grey);
    }
  }

  /** The invariants at the ends of the loops: nothing grey is left. */
  lemma QueueDone(g: Graph, size: nat, roots: set<Ref>, ph: Phase)
    requires QueueInv(g, size, roots, ph) && ph.state == Collect && ph.cursor >= |ph.entries|
    requires forall p :: p in roots ==> p in ph.live
    ensures forall p :: p in ph.live <==> Reachable(g, roots, p)
  {
    assert ph.entries[ph.cursor..] == [];
    MarkedIsReachable(g, roots, ph);
  }

  lemma StackDone(g: Graph, size: nat, roots: set<Ref>, ph: Phase)
    requires StackInv(g, size, roots, {}, ph) && ph.state == Normal && ph.entries == []
    requires forall p :: p in roots ==> p in ph.live
    ensures forall p :: p in ph.live <==> Reachable(g, roots, p)
  {
    assert ph.entries[0..] == [];
    MarkedIsReachable(g, roots, ph);
  }

  lemma RescanBegins(g: Graph, size: nat, roots: set<Ref>, ph: Phase)
    requires g.Valid() && StackInv(g, size, roots, {}, ph)
    ensures StackInv(g, size, roots, g.Objects(), ph.(state := Normal))
  {
  }

  /** After the roots are marked either half of walk_mark_stack may start. */
  lemma RootsDone(g: Graph, size: nat, roots: set<Ref>, ph: Phase)
    requires RootsInv(g, size, roots, ph)
    ensures StackInv(g, size, roots, {}, ph)
    ensures forall b :: |ph.entries| - 1 < b < size - 1 && ph.state == Normal ==>
              QueueInv(g, size, roots, ph.(cursor := 0, bound := b, state := Collect))
    ensures ph.state == Overflow ==> |ph.entries| == size
  {
    forall p | p in ph.live
      ensures Reachable(g, roots, p)
    {
      RootReachable(g, roots, p);
    }
    assert ph.entries[0..] == ph.entries;
  }

  // ---------------------------------------------------------------------------
  // Mark bits in memory
  // ---------------------------------------------------------------------------

  /** Memory `m` with the mark bit set in the headers of the objects in `live`. */
  function Stamp(m: map<int, int>, live: set<Ref>): map<int, int>
  {
    map a | a in m :: if a + GC_HEAD in live then SetMark(m[a]) else m[a]
  }

  /** Before marking: collected objects are unmarked, fixed ones are marked. */
  ghost predicate Unmarked(g: Graph, m: map<int, int>)
  {
    && (forall p :: p in g.children ==> p - GC_HEAD in m && !Marked(m[p - GC_HEAD]))
    && (forall p :: p in g.fixed ==> p - GC_HEAD in m && Marked(m[p - GC_HEAD]))
  }

  /** The mark bit in memory is set exactly for fixed objects and live ones. */
  lemma StampMarked(g: Graph, m: map<int, int>, live: set<Ref>, p: Ref)
    requires g.Valid() && Unmarked(g, m) && live <= g.children.Keys
    requires p in g.children || p in g.fixed
    ensures p - GC_HEAD in Stamp(m, live)
    ensures Marked(Stamp(m, live)[p - GC_HEAD]) <==> p in live || p !in g.children
  {
  }

  lemma StampAdd(m: map<int, int>, live: set<Ref>, p: Ref)
    requires p - GC_HEAD in m
    ensures Stamp(m, live + {p}) == Stamp(m, live)[p - GC_HEAD := SetMark(Stamp(m, live)[p - GC_HEAD])]
  {
    var s, t := Stamp(m, live), Stamp(m, live + {p});
    forall a | a in m
      ensures t[a] == (if a == p - GC_HEAD then SetMark(s[a]) else s[a])
    {
    }
  }

  /** mark_stack_suggest_bound */
  function SuggestBound(heapSize: nat, size: nat): nat
  {
    var b := heapSize / 128;
    if 2 * b >= size then size / 2 else b
  }

  /** A root: an exact reference, or a word that may happen to be one. */
  datatype Root = Exact(p: Ref) | Potential(w: Ref)

  function WordOf(r: Root): Ref { if r.Exact? then r.p else r.w }

  function WordsOf(roots: seq<Root>): seq<Ref> { seq(|roots|, i requires 0 <= i < |roots| => WordOf(roots[i])) }

  /** The objects among these words. */
  ghost function ObjectsIn(g: Graph, words: seq<Ref>): set<Ref> { set p | p in words && p in g.children }

  /** The marker at the start of the mark phase. */
  function NoMarks(size: nat): Phase { Phase({}, [], Normal, 0, 0, size - 1) }

  /** walk_roots */
  lemma {:induction false} RootsMarked(g: Graph, size: nat, words: seq<Ref>)
    requires size > 0
    ensures RootsInv(g, size, ObjectsIn(g, words), MarkEach(g, size, NoMarks(size), words))
    decreases |words|
  {
    if words != [] {
      var init, last := words[..|words| - 1], words[|words| - 1];
      RootsMarked(g, size, init);
      assert words == init + [last];
      assert ObjectsIn(g, words) == if last in g.children then ObjectsIn(g, init) + {last} else ObjectsIn(g, init);
      RootsStep(g, size, ObjectsIn(g, init), MarkEach(g, size, NoMarks(size), init), last);
    }
  }

  // ---------------------------------------------------------------------------
  // Finalizers
  // ---------------------------------------------------------------------------

  /** A node of a finalizer list: its own address, and the object to be finalized. */
  datatype Final = Final(at: Ref, target: Ref)

  function Reversed(s: seq<Final>): seq<Final> { if s == [] then [] else [s[|s| - 1]] + Reversed(s[..|s| - 1]) }

  /** The nodes whose objects are live; the documentation of walk_finals says that only these keep their place. */
  function LiveFinals(live: set<Ref>, nodes: seq<Final>): seq<Final>
  {
    if nodes == [] then [] else
      var last := nodes[|nodes| - 1];
      LiveFinals(live, nodes[..|nodes| - 1]) + if last.target in live then [last] else []
  }

  lemma {:induction false} LiveFinalsCount(live: set<Ref>, nodes: seq<Final>)
    ensures |LiveFinals(live, nodes)| <= |nodes| && |Reversed(nodes)| == |nodes|
    ensures |LiveFinals(live, nodes)| == |nodes| <==> forall i :: 0 <= i < |nodes| ==> nodes[i].target in live
    ensures |LiveFinals(live, nodes)| == |nodes| ==> LiveFinals(live, nodes) == nodes
    decreases |nodes|
  {
    if nodes != [] {
      LiveFinalsCount(live, nodes[..|nodes| - 1]);
      assert nodes == nodes[..|nodes| - 1] + [nodes[|nodes| - 1]];
    }
  }

  /** The list that walk_finals leaves is the documented one if and only if all objects with finalizers are live. */
  lemma FinalsExact(live: set<Ref>, hasFinal: seq<Final>)
    ensures Reversed(hasFinal) == Reversed(LiveFinals(live, hasFinal)) <==> forall i :: 0 <= i < |hasFinal| ==>
            hasFinal[i].target in live
  {
    LiveFinalsCount(live, hasFinal);
    LiveFinalsCount(live, LiveFinals(live, hasFinal));
  }

  ghost function FinalObjects(nodes: seq<Final>): seq<Ref>
  {
    seq(|nodes|, i requires 0 <= i < |nodes| => nodes[i].target)
  }

  /** What both halves of walk_mark_stack start from and leave behind. */
  ghost predicate PhaseInv(g: Graph, size: nat, roots: set<Ref>, ph: Phase)
  {
    if ph.state == Collect then QueueInv(g, size, roots, ph) else StackInv(g, size, roots, {}, ph)
  }

  lemma MoreRoots(g: Graph, roots: set<Ref>, more: set<Ref>, p: Ref)
    requires roots <= more && Reachable(g, roots, p)
    ensures Reachable(g, more, p)
  {
    var path :| IsPath(g, roots, path) && path[|path| - 1] == p;
    assert IsPath(g, more, path);
  }

  /** Marking one more root, as walk_finals does when the others have been dealt with. */
  lemma ExtraRoot(g: Graph, size: nat, roots: set<Ref>, ph: Phase, p: Ref)
    requires PhaseInv(g, size, roots, ph)
    ensures PhaseInv(g, size, if p in g.children then roots + {p} else roots, MarkOne(g, size, ph, p))
  {
    if p in g.children {
      var b, more := MarkOne(g, size, ph, p), roots + {p};
      MarkOneGrows(g, size, ph, p);
      RootReachable(g, more, p);
      forall q | q in b.live ensures Reachable(g, more, q) { if q != p { MoreRoots(g, roots, more, q); } }
      ExtraTricolour(g, size, roots, ph, p);
    }
  }

  lemma ExtraTricolour(g: Graph, size: nat, roots: set<Ref>, ph: Phase, p: Ref)
    requires PhaseInv(g, size, roots, ph) && p in g.children
    ensures var b := MarkOne(g, size, ph, p);
            var from := if b.state == Collect then ph.cursor else 0;
            0 <= from <= |b.entries| && Tricolour(g, b, from, {})
  {
    hide Reachable, Distinct, OnlyReachable;
    var b := MarkOne(g, size, ph, p);
    MarkOneGrows(g, size, ph, p);
    var from := if b.state == Collect then ph.cursor else 0;
    var before := if ph.state == Collect then ph.cursor else 0;
    if b.state != Overflow {
      forall q | q in b.live ensures q in b.entries[from..] || ChildrenIn(g, q, b.live) {
        if q !in ph.live {
          var k :| 0 <= k < |b.entries| && b.entries[k] == q;
          assert b.entries[..|ph.entries|] == ph.entries;
          assert b.entries[from..][k - from] == q;
        } else if q in ph.entries[before..] {
          var k :| before <= k < |ph.entries| && ph.entries[k] == q;
          assert b.entries[from..][k - from] == b.entries[k] == q;
        }
      }
    }
  }

  /** Marking the objects of the nodes still to be finalized. */
  lemma {:induction false} ExtraRoots(g: Graph, size: nat, roots: set<Ref>, ph: Phase, words: seq<Ref>)
    requires PhaseInv(g, size, roots, ph)
    ensures PhaseInv(g, size, roots + ObjectsIn(g, words), MarkEach(g, size, ph, words))
    decreases |words|
  {
    if words == [] {
      assert roots + ObjectsIn(g, words) == roots;
    } else {
      var init, last := words[..|words| - 1], words[|words| - 1];
      ExtraRoots(g, size, roots, ph, init);
      assert words == init + [last];
      assert ObjectsIn(g, words) == if last in g.children then ObjectsIn(g, init) + {last} else ObjectsIn(g, init);
      assert roots + ObjectsIn(g, words) == if last in g.children then roots + ObjectsIn(g, init) + {last}
          else roots + ObjectsIn(g, init);
      ExtraRoot(g, size, roots + ObjectsIn(g, init), MarkEach(g, size, ph, init), last);
    }
  }

  // ---------------------------------------------------------------------------
  // The loop that starts in COLLECT, as a function
  // ---------------------------------------------------------------------------

  /** One turn of it: walk the object at the cursor. */
  function QueueTurn(g: Graph, size: nat, ph: Phase): Phase
  {
    if 0 <= ph.cursor < |ph.entries| && ph.entries[ph.cursor] in g.children then
      var w := MarkEach(g, size, ph, g.children[ph.entries[ph.cursor]]);
      w.(cursor := w.cursor + 1)
    else ph
  }

  function Turns(g: Graph, size: nat, ph: Phase, n: nat): Phase
  {
    if n == 0 then ph else QueueTurn(g, size, Turns(g, size, ph, n - 1))
  }

  lemma NoTurn(g: Graph, size: nat, ph: Phase)
    ensures Turns(g, size, ph, 0) == ph
  {
  }

  lemma TurnsNext(g: Graph, size: nat, ph: Phase, n: nat)
    ensures Turns(g, size, ph, n + 1) == QueueTurn(g, size, Turns(g, size, ph, n))
  {
  }

  /**
   * After the loop that starts in COLLECT the state is not OVERFLOW, as the code asserts,
   * exactly if there was a slot for every object marked so far.
   */
  lemma QueueAssertion(g: Graph, size: nat, roots: set<Ref>, ph: Phase)
    requires QueueInv(g, size, roots, ph)
    ensures ph.state != Overflow <==> |ph.live| <= size
  {
    if ph.state != Overflow {
      forall p ensures p in Elements(ph.entries) <==> p in ph.live {
        assert p in Elements(ph.entries) <==> p in ph.entries;
      }
      assert ph.live == Elements(ph.entries);
      ElementsCount(ph.entries);
    }
  }

  lemma {:induction false} ElementsCount(s: seq<Ref>)
    ensures |Elements(s)| <= |s|
    decreases |s|
  {
    if s != [] {
      ElementsCount(s[..|s| - 1]);
      assert Elements(s) == Elements(s[..|s| - 1]) + {s[|s| - 1]};
    }
  }

  /** Slots the radix sort needs for n objects and two sentinels. */
  function SortSlots(n: nat): nat { 2 * (n + 2) }

  /** memmove(a, a + from, n) */
  method MoveDown(a: array<Ref>, from: nat, n: nat)
    requires from + n <= a.Length
    modifies a
    ensures a[..n] == old(a[from..from + n])
  {
    for i := 0 to n
      invariant forall k :: 0 <= k < i ==> a[k] == old(a[from + k])
      invariant forall k :: from + i <= k < from + n ==> a[k] == old(a[k])
    {
      a[i] := a[from + i];
    }
  }

  class Marker {
    const g: Graph
    ghost const before: map<int, int>   // memory when the mark phase begins
    const markStack: array<Ref>
    var mem: map<int, int>              // the words of the heap, by byte address
    var top: int
    var cursor: int
    var bound: int
    var save: int
    var state: MarkState
    ghost var ph: Phase

    /** `ph` is the value of the marker's variables. */
    ghost predicate Tied()
      reads this, markStack
    {
      && -1 <= top < markStack.Length
      && ph.entries == markStack[..top + 1]
      && ph.state == state && ph.cursor == cursor && ph.save == save && ph.bound == bound
    }

    /** What holds of the constants: the heap is well formed, and memory was unmarked. */
    ghost predicate Static() { g.Valid() && Unmarked(g, before) }

    /** The mark bits in memory are those of the live objects. */
    ghost predicate Valid()
      reads this, markStack
    {
      Tied() && mem == Stamp(before, ph.live)
    }

    constructor (g: Graph, mem: map<int, int>, size: nat)
      requires g.Valid() && Unmarked(g, mem) && size > 0
      ensures Valid() && Static() && this.g == g && before == mem && this.mem == mem
      ensures fresh(markStack) && markStack.Length == size
      ensures ph == NoMarks(size)
    {
      this.g, this.before, this.mem := g, mem, mem;
      markStack := new Ref[size];
      top, cursor, bound, save, state := -1, 0, size - 1, 0, Normal;
      ph := Phase({}, [], Normal, 0, 0, size - 1);
    }

    // Single steps on the mark stack and its cursors.

    method Push(p: Ref)
      requires Tied() && top < markStack.Length - 1
      modifies `top, `ph, markStack
      ensures Tied() && ph == old(ph).(entries := old(ph.entries) + [p])
    {
      top := top + 1;
      markStack[top] := p;
      ph := ph.(entries := ph.entries + [p]);
    }

    method Pop() returns (p: Ref)
      requires Tied() && top >= 0
      modifies `top, `ph
      ensures Tied() && p == old(ph.entries)[|old(ph.entries)| - 1]
      ensures ph == old(ph).(entries := old(ph.entries)[..|old(ph.entries)| - 1])
    {
      p := markStack[top];
      top := top - 1;
      ph := ph.(entries := ph.entries[..|ph.entries| - 1]);
    }

    method Advance()
      requires Tied()
      modifies `cursor, `ph
      ensures Tied() && ph == old(ph).(cursor := old(ph.cursor) + 1)
    {
      cursor := cursor + 1;
      ph := ph.(cursor := cursor);
    }

    method ClearOverflow()
      requires Tied()
      modifies `state, `ph
      ensures Tied() && ph == old(ph).(state := Normal)
    {
      state := Normal;
      ph := ph.(state := Normal);
    }

    method BeginCollect(b: int)
      requires Tied()
      modifies `cursor, `bound, `state, `ph
      ensures Tied() && ph == old(ph).(cursor := 0, bound := b, state := Collect)
    {
      cursor := 0;
      bound := b;
      state := Collect;
      ph := ph.(cursor := 0, bound := b, state := Collect);
    }

    /** The memmove of walk_mark_stack: drop the entries below mark_save_cursor. */
    method Slide()
      requires Tied() && 0 <= save <= top + 1
      modifies `top, `ph, markStack
      ensures Tied() && ph == old(ph).(entries := old(ph.entries)[save..])
    {
      ghost var kept := ph.entries[save..];
      MoveDown(markStack, save, top - save + 1);
      top := top - save;
      ph := ph.(entries := kept);
    }

    /** The part of mark after the mark bit is set. */
    method Record(p: Ref)
      requires Tied() && top <= bound < markStack.Length
      requires state == Collect ==> bound < markStack.Length - 1
      modifies `top, `cursor, `bound, `save, `state, `ph, markStack
      ensures Tied() && ph == Enqueue(markStack.Length, old(ph), p)
    {
      if top < bound {
        Push(p);
      } else if state == Collect {
        save := cursor;
        cursor := top + 2;
        bound := markStack.Length - 1;
        state := Normal;
        ph := ph.(save := save, cursor := cursor, bound := bound, state := Normal);
        Push(p);
      } else {
        state := Overflow;
        ph := ph.(state := Overflow);
      }
    }

    /** mark */
    method Mark(p: Ref)
      requires Valid() && Static() && Sound(g, markStack.Length, ph) && g.IsReference(p)
      modifies this, markStack
      ensures Valid() && ph == MarkOne(g, markStack.Length, old(ph), p)
    {
      if p != 0 { StampMarked(g, before, ph.live, p); }
      if p == 0 || Marked(mem[p - GC_HEAD]) {
        return;
      }
      StampAdd(before, ph.live, p);
      mem := mem[p - GC_HEAD := SetMark(mem[p - GC_HEAD])];
      ph := ph.(live := ph.live + {p});
      Record(p);
    }

    /** WALK: mark each reference held in the object at p. */
    method Walk(p: Ref)
      requires Valid() && Static() && Sound(g, markStack.Length, ph) && p in g.children
      modifies this, markStack
      ensures Valid() && ph == MarkEach(g, markStack.Length, old(ph), g.children[p])
    {
      var refs := g.children[p];
      assert refs[..0] == [];
      for k := 0 to |refs|
        invariant Valid() && ph == MarkEach(g, markStack.Length, old(ph), refs[..k])
      {
        assert refs[..k + 1][..k] == refs[..k];
        MarkEachGrows(g, markStack.Length, old(ph), refs[..k]);
        Mark(refs[k]);
      }
      assert refs[..|refs|] == refs;
    }

    /** Walk the object at the cursor. */
    method WalkAtCursor(ghost roots: set<Ref>)
      requires Valid() && Static() && QueueInv(g, markStack.Length, roots, ph) && cursor <= top
      modifies this, markStack
      ensures Valid() && QueueInv(g, markStack.Length, roots, ph) && ph == QueueTurn(g, markStack.Length, old(ph))
      ensures old(ph.live) <= ph.live <= g.children.Keys
      ensures (ph.live == old(ph.live) ==> top == old(top) && cursor == old(cursor) + 1)
      ensures ph.state == Collect ==> old(ph.state) == Collect && ph.bound == old(ph.bound)
      ensures old(ph.state) == Collect && ph.state != Collect ==> |ph.live| > old(ph.bound) + 1
    {
      hide Reachable, OnlyReachable, Tricolour, Distinct, Stamp, MarkEach;
      QueueStep(g, markStack.Length, roots, ph, ph.entries[cursor]);
      Walk(markStack[cursor]);
      Advance();
    }

    /** The COLLECT half of walk_mark_stack: a queue until the set gets too large. */
    method WalkQueue(ghost roots: set<Ref>)
      requires Valid() && Static() && state == Collect && QueueInv(g, markStack.Length, roots, ph)
      modifies this, markStack
      ensures Valid() && QueueInv(g, markStack.Length, roots, ph)
      ensures old(ph.live) <= ph.live && cursor > top
      ensures ph.state == Collect ==> ph.bound == old(ph.bound)
      ensures state == Collect <==> |ph.live| <= old(ph.bound) + 1
      ensures state != Overflow <==> |ph.live| <= markStack.Length
      ensures exists n: nat :: ph == Turns(g, markStack.Length, old(ph), n)
    {
      hide QueueInv, Stamp, Turns, Static, QueueTurn;
      ghost var n: nat := 0;
      NoTurn(g, markStack.Length, ph);
      LiveObjects(g, markStack.Length, roots, ph);
      while cursor <= top
        invariant Valid() && QueueInv(g, markStack.Length, roots, ph) && old(ph.live) <= ph.live <= g.children.Keys
        invariant if ph.state == Collect then ph.bound == old(ph.bound) else |ph.live| > old(ph.bound) + 1
        invariant ph == Turns(g, markStack.Length, old(ph), n)
        decreases g.children.Keys - ph.live, top - cursor + 1
      {
        TurnsNext(g, markStack.Length, old(ph), n);
        n := n + 1;
        ghost var live := ph.live;
        WalkAtCursor(roots);
        CardMonotone(live, ph.live);
      }
      CollectFits(g, markStack.Length, roots, ph);
      QueueAssertion(g, markStack.Length, roots, ph);
    }

    /** The inner loop of walk_mark_stack: pop and walk until the stack is empty. */
    method Drain(ghost roots: set<Ref>)
      requires Valid() && Static() && StackInv(g, markStack.Length, roots, {}, ph)
      modifies this, markStack
      ensures Valid() && StackInv(g, markStack.Length, roots, {}, ph) && ph.entries == []
      ensures old(ph.live) <= ph.live && (ph.live == old(ph.live) ==> ph.state == old(ph.state))
    {
      while top >= 0
        invariant Valid() && StackInv(g, markStack.Length, roots, {}, ph)
        invariant old(ph.live) <= ph.live && (ph.live == old(ph.live) ==> ph.state == old(ph.state))
        decreases g.children.Keys - ph.live, top + 1
      {
        PopStep(g, markStack.Length, roots, ph);
        var p := Pop();
        Walk(p);
      }
    }

    /** handle_stack_overflow: walk every marked object of the heap, in heap order. */
    method Rescan(ghost roots: set<Ref>)
      requires Valid() && Static() && StackInv(g, markStack.Length, roots, g.Objects(), ph)
      modifies this, markStack
      ensures Valid() && StackInv(g, markStack.Length, roots, {}, ph)
      ensures old(ph.live) <= ph.live && (ph.live == old(ph.live) ==> ph.state == old(ph.state))
    {
      assert Elements(g.heap[0..]) == g.Objects();
      for k := 0 to |g.heap|
        invariant Valid() && StackInv(g, markStack.Length, roots, Elements(g.heap[k..]), ph)
        invariant old(ph.live) <= ph.live && (ph.live == old(ph.live) ==> ph.state == old(ph.state))
      {
        var p := g.heap[k];
        assert g.heap[k..] == [p] + g.heap[k + 1..];
        assert Elements(g.heap[k..]) == Elements(g.heap[k + 1..]) + {p};
        assert p in g.children;
        RescanStep(g, markStack.Length, roots, Elements(g.heap[k + 1..]), ph, p);
        StampMarked(g, before, ph.live, p);
        if Marked(mem[p - GC_HEAD]) {
          Walk(p);
        }
      }
      assert Elements(g.heap[|g.heap|..]) == {};
    }

    /** walk_mark_stack */
    method WalkMarkStack(ghost roots: set<Ref>)
      requires Valid() && Static() && roots <= ph.live && PhaseInv(g, markStack.Length, roots, ph)
      modifies this, markStack
      ensures Valid() && PhaseInv(g, markStack.Length, roots, ph) && state != Overflow
      ensures forall p :: p in ph.live <==> Reachable(g, roots, p)
      ensures old(ph.live) <= ph.live
      ensures state == Collect ==> old(state) == Collect && ph.bound == old(ph.bound)
      ensures old(state) == Collect ==> (state == Collect <==> |ph.live| <= old(ph.bound) + 1)
    {
      if state == Collect {
        WalkQueue(roots);
        if state == Collect {
          QueueDone(g, markStack.Length, roots, ph);
          return;
        }
        SlideStep(g, markStack.Length, roots, ph);
        Slide();
      }
      ghost var live := ph.live;
      WalkStack(roots);
      CardMonotone(live, ph.live);
    }

    /** One round of overflow handling; if it overflows again it has marked something new. */
    method RescanRound(ghost roots: set<Ref>)
      requires Valid() && Static() && StackInv(g, markStack.Length, roots, {}, ph)
      modifies this, markStack
      ensures Valid() && StackInv(g, markStack.Length, roots, {}, ph) && ph.entries == []
      ensures old(ph.live) <= ph.live && (ph.live == old(ph.live) ==> ph.state == Normal)
    {
      RescanBegins(g, markStack.Length, roots, ph);
      ClearOverflow();
      Rescan(roots);
      Drain(roots);
    }

    /** The NORMAL half of walk_mark_stack, with its rescans. */
    method WalkStack(ghost roots: set<Ref>)
      requires Valid() && Static() && roots <= ph.live && StackInv(g, markStack.Length, roots, {}, ph)
      modifies this, markStack
      ensures Valid() && StackInv(g, markStack.Length, roots, {}, ph) && ph.state == Normal && ph.entries == []
      ensures old(ph.live) <= ph.live
      ensures forall p :: p in ph.live <==> Reachable(g, roots, p)
    {
      Drain(roots);
      while state == Overflow
        invariant Valid() && StackInv(g, markStack.Length, roots, {}, ph) && ph.entries == []
        invariant roots <= ph.live
        decreases g.children.Keys - ph.live, ph.state == Overflow
      {
        RescanRound(roots);
      }
      StackDone(g, markStack.Length, roots, ph);
    }

    /**
     * The loop of walk_finals over the nodes that have finalizers.  It looks at the mark bit
     * of the node, which is fixed memory, so every node stays where it is.
     */
    method SortFinals(hasFinal: seq<Final>, doFinal: seq<Final>) returns (has: seq<Final>, todo: seq<Final>)
      requires Valid() && Static() && ph.live <= g.children.Keys
      requires forall i :: 0 <= i < |hasFinal| ==> hasFinal[i].at in g.fixed
      ensures has == Reversed(hasFinal) && todo == doFinal
    {
      has, todo := [], doFinal;
      assert hasFinal[..0] == [];
      for i := 0 to |hasFinal|
        invariant has == Reversed(hasFinal[..i]) && todo == doFinal
      {
        assert hasFinal[..i + 1][..i] == hasFinal[..i];
        StampMarked(g, before, ph.live, hasFinal[i].at);
        var node := hasFinal[i];
        if Marked(mem[node.at - GC_HEAD]) { has := [node] + has; } else { todo := [node] + todo; }
      }
      assert hasFinal[..|hasFinal|] == hasFinal;
    }

    /** The rest of walk_finals: the objects about to be finalized are kept as well. */
    method WalkFinals(todo: seq<Final>, ghost roots: set<Ref>)
      requires Valid() && Static() && PhaseInv(g, markStack.Length, roots, ph)
      requires (forall i :: 0 <= i < |todo| ==> g.IsReference(todo[i].target)) && roots <= ph.live
      modifies this, markStack
      ensures Valid() && PhaseInv(g, markStack.Length, roots + ObjectsIn(g, FinalObjects(todo)), ph)
      ensures state != Overflow
      ensures forall p :: p in ph.live <==> Reachable(g, roots + ObjectsIn(g, FinalObjects(todo)), p)
      ensures old(ph.live) <= ph.live
      ensures state == Collect ==> old(state) == Collect && ph.bound == old(ph.bound)
      ensures old(state) == Collect ==> (state == Collect <==> |ph.live| <= old(ph.bound) + 1)
    {
      hide Reachable, QueueInv, StackInv, Sound, Stamp, MarkOne, PhaseInv;
      ghost var words := FinalObjects(todo);
      assert words[..0] == [];
      for i := 0 to |todo|
        invariant Valid() && ph == MarkEach(g, markStack.Length, old(ph), words[..i])
      {
        assert words[..i + 1][..i] == words[..i];
        ExtraRoots(g, markStack.Length, roots, old(ph), words[..i]);
        PhaseSound(g, markStack.Length, roots + ObjectsIn(g, words[..i]), ph);
        Mark(todo[i].target);
      }
      assert words[..|todo|] == words;
      ExtraRoots(g, markStack.Length, roots, old(ph), words);
      PhaseSound(g, markStack.Length, roots, old(ph));
      MarkEachGrows(g, markStack.Length, old(ph), words);
      ghost var live := ph.live;
      WalkMarkStack(roots + ObjectsIn(g, words));
      CardMonotone(live, ph.live);
    }

    /**
     * mark_phase once walk_roots has marked the objects among `words`: exactly the objects
     * reachable from them, and from those about to be finalized, end up with their mark bit
     * set and no other word changes.  In COLLECT the mark stack then lists them without
     * repetition.
     */
    method MarkPhase(ghost words: seq<Ref>, heapSize: nat, hasFinal: seq<Final>, doFinal: seq<Final>)
      returns (has: seq<Final>, todo: seq<Final>)
      requires Valid() && Static() && markStack.Length > 0
      requires ph == MarkEach(g, markStack.Length, NoMarks(markStack.Length), words)
      requires (forall i :: 0 <= i < |hasFinal| ==> hasFinal[i].at in g.fixed)
      requires (forall i :: 0 <= i < |doFinal| ==> g.IsReference(doFinal[i].target))
      requires SuggestBound(heapSize, markStack.Length) < markStack.Length - 1
      modifies this, markStack
      ensures forall p :: p in ph.live <==> Reachable(g, ObjectsIn(g, words + FinalObjects(doFinal)), p)
      ensures mem == Stamp(before, ph.live)
      ensures state == Collect || state == Normal
      ensures state == Collect ==>
                && -1 <= top <= SuggestBound(heapSize, markStack.Length)
                && Distinct(markStack[..top + 1])
                && Elements(markStack[..top + 1]) == ph.live
      ensures state == Collect <==>
              var b := SuggestBound(heapSize, markStack.Length); |ObjectsIn(g, words)| <= b && |ph.live| <= b + 1
      ensures has == Reversed(hasFinal) && todo == doFinal
    {
      hide Reachable, QueueInv, StackInv, RootsInv, Sound, Stamp, SuggestBound, PhaseInv, MarkEach, ObjectsIn,
           FinalObjects, Distinct, Elements;
      ghost var roots := ObjectsIn(g, words);
      RootsMarked(g, markStack.Length, words);
      Choose(SuggestBound(heapSize, markStack.Length), roots);
      WalkMarkStack(roots);
      ghost var live := ph.live;
      LiveObjects(g, markStack.Length, roots, ph);
      has, todo := SortFinals(hasFinal, doFinal);
      RootsStay(g, markStack.Length, words, ph);
      WalkFinals(todo, roots);
      CardMonotone(live, ph.live);
      ObjectsJoin(g, words, FinalObjects(doFinal));
      PhaseSound(g, markStack.Length, roots + ObjectsIn(g, FinalObjects(doFinal)), ph);
      if state == Collect {
        CollectedIsLive(g, markStack.Length, ph);
      }
    }

    /** mark_phase's choice between the two algorithms, once the roots are marked. */
    method Choose(b: nat, ghost roots: set<Ref>)
      requires Valid() && RootsInv(g, markStack.Length, roots, ph) && b < markStack.Length - 1
      modifies `cursor, `bound, `state, `ph
      ensures Valid() && ph.live == roots && PhaseInv(g, markStack.Length, roots, ph)
      ensures ph == if old(top) < b then old(ph).(cursor := 0, bound := b, state := Collect) else old(ph)
      ensures state == Collect ==> ph.bound == b
      ensures state == Collect <==> |roots| <= b
    {
      RootsCount(g, markStack.Length, roots, ph);
      RootsDone(g, markStack.Length, roots, ph);
      if top < b {
        BeginCollect(b);
      }
    }
  }

  lemma ObjectsJoin(g: Graph, a: seq<Ref>, b: seq<Ref>)
    ensures ObjectsIn(g, a) + ObjectsIn(g, b) == ObjectsIn(g, a + b)
  {
  }

  /** In COLLECT the marked objects fit below the bound. */
  lemma CollectFits(g: Graph, size: nat, roots: set<Ref>, ph: Phase)
    requires QueueInv(g, size, roots, ph)
    ensures ph.state == Collect ==> |ph.live| <= ph.bound + 1
  {
    if ph.state == Collect {
      CollectedIsLive(g, size, ph);
      ElementsCount(ph.entries);
    }
  }

  /** Unless the roots overflow the mark stack, it lists each of them once. */
  lemma RootsCount(g: Graph, size: nat, roots: set<Ref>, ph: Phase)
    requires RootsInv(g, size, roots, ph)
    ensures if ph.state == Overflow then |ph.entries| == size < |roots| else |ph.entries| == |roots|
  {
    ElementsCount(ph.entries);
    DistinctFits(ph.entries, ph.live);
    if ph.state == Normal {
      forall p ensures p in Elements(ph.entries) <==> p in ph.live {
        assert p in Elements(ph.entries) <==> p in ph.entries;
      }
      assert Elements(ph.entries) == ph.live;
    }
  }

  lemma PhaseSound(g: Graph, size: nat, roots: set<Ref>, ph: Phase)
    requires PhaseInv(g, size, roots, ph)
    ensures Sound(g, size, ph)
  {
  }

  lemma LiveObjects(g: Graph, size: nat, roots: set<Ref>, ph: Phase)
    requires PhaseInv(g, size, roots, ph) || QueueInv(g, size, roots, ph)
    ensures ph.live <= g.children.Keys
  {
  }

  lemma RootsStay(g: Graph, size: nat, words: seq<Ref>, ph: Phase)
    requires forall p :: p in ph.live <==> Reachable(g, ObjectsIn(g, words), p)
    ensures ObjectsIn(g, words) <= ph.live
  {
    forall p | p in ObjectsIn(g, words) ensures p in ph.live { RootReachable(g, ObjectsIn(g, words), p); }
  }
}
