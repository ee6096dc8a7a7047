/**
 * Dispatch tables (src/runtime/classMethod.c): classes are linked in order, each after
 * its superclass.  The entry of a method table at a method's index is the method that a
 * search by name through the superclasses finds (src/runtime/lookup.c).
 */
module Dispatch {
  import opened Options

  /** A method name together with its signature. */
  type Key = int

  /** A method; static methods and constructors are not dispatched. */
  datatype MethodDecl = MethodDecl(key: Key, direct: bool)

  /** A class: its superclass (-1 for none), its methods, and the interfaces it names. */
  datatype Decl = Decl(super: int, methods: seq<MethodDecl>, isInterface: bool, interfaces: seq<int>)

  /** Method i of class c. */
  datatype Ref = Ref(c: int, i: int)

  // ---------------------------------------------------------------------------
  // Search by name
  // ---------------------------------------------------------------------------

  /** The first method of a class with the given name and signature, or -1. */
  function Local(ms: seq<MethodDecl>, key: Key): (i: int)
    ensures -1 <= i < |ms| && (i >= 0 ==> ms[i].key == key)
    ensures (i < 0 ==> forall j :: 0 <= j < |ms| ==> ms[j].key != key)
  {
    if ms == [] then -1
    else if ms[0].key == key then 0
    else var i := Local(ms[1..], key); if i < 0 then -1 else i + 1
  }

  /** findMethodLocal */
  method FindMethodLocal(ms: seq<MethodDecl>, key: Key) returns (i: int)
    requires NoDuplicates(ms)
    ensures i == Local(ms, key)
  {
    for n := 0 to |ms|
      invariant forall j :: 0 <= j < n ==> ms[j].key != key
    {
      if ms[n].key == key { return n; }
    }
    return -1;
  }

  ghost predicate NoDuplicates(ms: seq<MethodDecl>) { forall i, j :: 0 <= i < j < |ms| ==> ms[i].key != ms[j].key }

  /** Superclasses come before their subclasses. */
  ghost predicate Ordered(prog: seq<Decl>) { forall c :: 0 <= c < |prog| ==> -1 <= prog[c].super < c }

  /** findMethod: search the class, then its superclasses. */
  ghost function Find(prog: seq<Decl>, c: int, key: Key): Option<Ref>
    requires Ordered(prog) && c < |prog|
    decreases c
  {
    if c < 0 then None
    else
      var i := Local(prog[c].methods, key);
      if i >= 0 then Some(Ref(c, i)) else Find(prog, prog[c].super, key)
  }

  /** a is c or one of its superclasses. */
  ghost predicate InChain(prog: seq<Decl>, c: int, a: int)
    requires Ordered(prog) && c < |prog|
    decreases c
  {
    c >= 0 && (a == c || InChain(prog, prog[c].super, a))
  }

  ghost predicate IsMethod(prog: seq<Decl>, r: Ref) { 0 <= r.c < |prog| && 0 <= r.i < |prog[r.c].methods| }

  ghost predicate Virtual(prog: seq<Decl>, r: Ref) { IsMethod(prog, r) && !prog[r.c].methods[r.i].direct }

  function KeyOf(prog: seq<Decl>, r: Ref): Key
    requires 0 <= r.c < |prog| && 0 <= r.i < |prog[r.c].methods|
  {
    prog[r.c].methods[r.i].key
  }

  lemma {:induction false} FindResult(prog: seq<Decl>, c: int, key: Key)
    requires Ordered(prog) && c < |prog|
    ensures Find(prog, c, key).Some? ==>
              var r := Find(prog, c, key).value;
              InChain(prog, c, r.c) && IsMethod(prog, r) && KeyOf(prog, r) == key && r.c <= c
    decreases c
  {
    if c >= 0 { FindResult(prog, prog[c].super, key); }
  }

  /**
   * What the class loader has checked: no class declares a method twice, and a method that
   * is found in a superclass is static there exactly if it is static here.
   */
  ghost predicate NoClash(prog: seq<Decl>, c: int)
    requires Ordered(prog) && 0 <= c < |prog|
  {
    && NoDuplicates(prog[c].methods)
    && forall i :: 0 <= i < |prog[c].methods| ==>
         var f := Find(prog, prog[c].super, prog[c].methods[i].key);
         f.Some? ==> IsMethod(prog, f.value) && prog[f.value.c].methods[f.value.i].direct == prog[c].methods[i].direct
  }

  // ---------------------------------------------------------------------------
  // Linked classes
  // ---------------------------------------------------------------------------

  /** What linking computes: table size, the index of each method, and methodsInDtable. */
  datatype Linked = Linked(msize: int, idx: seq<int>, table: seq<Ref>)

  ghost predicate IdxOk(prog: seq<Decl>, linked: seq<Linked>, n: int)
  {
    |linked| >= n && n <= |prog| && forall c :: 0 <= c < n ==> |linked[c].idx| == |prog[c].methods|
  }

  function IndexOf(linked: seq<Linked>, r: Ref): int
    requires 0 <= r.c < |linked| && 0 <= r.i < |linked[r.c].idx|
  {
    linked[r.c].idx[r.i]
  }

  /** The entry at the index of each visible method is what the search by name finds. */
  ghost predicate Dispatches(prog: seq<Decl>, linked: seq<Linked>, c: int, r: Ref)
    requires Ordered(prog) && IdxOk(prog, linked, c + 1) && 0 <= c && IsMethod(prog, r) && r.c <= c
  {
    var x := IndexOf(linked, r);
    0 <= x < |linked[c].table| && Find(prog, c, KeyOf(prog, r)) == Some(linked[c].table[x])
  }

  /** Every entry is a visible virtual method with that index. */
  ghost predicate EntryOk(prog: seq<Decl>, linked: seq<Linked>, c: int, x: int)
    requires Ordered(prog) && IdxOk(prog, linked, c + 1) && 0 <= c && 0 <= x < |linked[c].table|
  {
    var r := linked[c].table[x];
    Virtual(prog, r) && r.c <= c && InChain(prog, c, r.c) && IndexOf(linked, r) == x
  }

  ghost predicate LinkedOk(prog: seq<Decl>, linked: seq<Linked>, c: int)
    requires Ordered(prog) && IdxOk(prog, linked, c + 1) && 0 <= c
  {
    && |linked[c].table| == linked[c].msize
    && (forall i :: 0 <= i < |prog[c].methods| && prog[c].methods[i].direct ==> linked[c].idx[i] == -1)
    && (forall r {:trigger Dispatches(prog, linked, c, r)} ::
          Virtual(prog, r) && r.c <= c && InChain(prog, c, r.c) ==> Dispatches(prog, linked, c, r))
    && (forall x {:trigger EntryOk(prog, linked, c, x)} :: 0 <= x < |linked[c].table| ==> EntryOk(prog, linked, c, x))
  }

  /** Methods visible in a class share an index exactly if they have the same name and signature. */
  lemma SameIndexSameKey(prog: seq<Decl>, linked: seq<Linked>, c: int, r: Ref, q: Ref)
    requires Ordered(prog) && 0 <= c && IdxOk(prog, linked, c + 1) && LinkedOk(prog, linked, c)
    requires Virtual(prog, r) && Virtual(prog, q) && r.c <= c && q.c <= c && InChain(prog, c, r.c)
    requires InChain(prog, c, q.c)
    ensures IndexOf(linked, r) == IndexOf(linked, q) <==> KeyOf(prog, r) == KeyOf(prog, q)
  {
    assert Dispatches(prog, linked, c, r) && Dispatches(prog, linked, c, q);
    FindResult(prog, c, KeyOf(prog, r));
    FindResult(prog, c, KeyOf(prog, q));
    assert EntryOk(prog, linked, c, IndexOf(linked, r)) && EntryOk(prog, linked, c, IndexOf(linked, q));
  }

  // ---------------------------------------------------------------------------
  // Linking one class
  // ---------------------------------------------------------------------------

  /** Class c can be linked: the classes before it are. */
  ghost predicate CanLink(prog: seq<Decl>, linked: seq<Linked>, c: int)
  {
    && Ordered(prog) && 0 <= c < |prog| && |linked| == c && IdxOk(prog, linked, c) && NoClash(prog, c)
    && (prog[c].super >= 0 ==> LinkedOk(prog, linked, prog[c].super))
  }

  /** The index a superclass gives to a method, looked up by name. */
  method FindIndex(prog: seq<Decl>, linked: seq<Linked>, c: int, key: Key) returns (found: bool, x: int)
    requires Ordered(prog) && c < |prog| && IdxOk(prog, linked, c + 1)
    requires forall d :: 0 <= d <= c ==> NoDuplicates(prog[d].methods)
    ensures found <==> Find(prog, c, key).Some?
    ensures found ==> var r := Find(prog, c, key).value; IsMethod(prog, r) && r.c <= c && x == IndexOf(linked, r)
  {
    var super := c;
    while super >= 0
      invariant super <= c && Find(prog, super, key) == Find(prog, c, key)
      decreases super
    {
      var i := FindMethodLocal(prog[super].methods, key);
      if i >= 0 { return true, linked[super].idx[i]; }
      super := prog[super].super;
    }
    return false, 0;
  }

  /** The size of the superclass's table. */
  function Base(prog: seq<Decl>, linked: seq<Linked>, c: int): int
    requires 0 <= c < |prog| && prog[c].super < |linked|
  {
    if prog[c].super < 0 then 0 else linked[prog[c].super].msize
  }

  /** Method i of class c is new: nothing in the superclasses has its name and signature. */
  ghost predicate IsNew(prog: seq<Decl>, c: int, i: int)
    requires Ordered(prog) && 0 <= c < |prog| && 0 <= i < |prog[c].methods|
  {
    !prog[c].methods[i].direct && Find(prog, prog[c].super, prog[c].methods[i].key).None?
  }

  /** How many of the first i methods of class c are new. */
  ghost function NewBefore(prog: seq<Decl>, c: int, i: int): (n: nat)
    requires Ordered(prog) && 0 <= c < |prog| && 0 <= i <= |prog[c].methods|
    ensures n <= i
  {
    if i == 0 then 0 else NewBefore(prog, c, i - 1) + if IsNew(prog, c, i - 1) then 1 else 0
  }

  /** The index of method i of class c. */
  ghost function WantedIndex(prog: seq<Decl>, linked: seq<Linked>, c: int, i: int): int
    requires CanLink(prog, linked, c) && 0 <= i < |prog[c].methods|
  {
    var m := prog[c].methods[i];
    var f := Find(prog, prog[c].super, m.key);
    if m.direct then -1
    else if f.Some? then FindResult(prog, prog[c].super, m.key); IndexOf(linked, f.value)
    else Base(prog, linked, c) + NewBefore(prog, c, i)
  }

  /** The first part of buildDispatchTable: give each method its index. */
  method AssignIndices(prog: seq<Decl>, linked: seq<Linked>, c: int) returns (msize: int, idx: seq<int>)
    requires CanLink(prog, linked, c) && forall d :: 0 <= d <= c ==> NoDuplicates(prog[d].methods)
    ensures |idx| == |prog[c].methods| && forall i :: 0 <= i < |idx| ==> idx[i] == WantedIndex(prog, linked, c, i)
    ensures msize == Base(prog, linked, c) + NewBefore(prog, c, |prog[c].methods|)
  {
    hide Find, LinkedOk, NoClash, NoDuplicates;
    var ms := prog[c].methods;
    msize := Base(prog, linked, c);
    idx := [];
    for i := 0 to |ms|
      invariant |idx| == i && forall j :: 0 <= j < i ==> idx[j] == WantedIndex(prog, linked, c, j)
      invariant msize == Base(prog, linked, c) + NewBefore(prog, c, i)
    {
      if ms[i].direct {
        idx := idx + [-1];
      } else {
        var found, x := FindIndex(prog, linked, prog[c].super, ms[i].key);
        if found {
          idx := idx + [x];
        } else {
          idx := idx + [msize];
          msize := msize + 1;
        }
      }
    }
  }

  lemma {:induction false} NewBeforeMonotone(prog: seq<Decl>, c: int, i: int, j: int)
    requires Ordered(prog) && 0 <= c < |prog| && 0 <= i <= j <= |prog[c].methods|
    ensures NewBefore(prog, c, i) <= NewBefore(prog, c, j)
    ensures i < j && IsNew(prog, c, i) ==> NewBefore(prog, c, i) < NewBefore(prog, c, j)
    decreases j
  {
    if i < j { NewBeforeMonotone(prog, c, i, j - 1); }
  }

  /** Every new slot belongs to a new method. */
  lemma {:induction false} NewSlot(prog: seq<Decl>, c: int, n: int, k: nat) returns (i: int)
    requires Ordered(prog) && 0 <= c < |prog| && 0 <= n <= |prog[c].methods| && k < NewBefore(prog, c, n)
    ensures 0 <= i < n && IsNew(prog, c, i) && NewBefore(prog, c, i) == k
    decreases n
  {
    if k < NewBefore(prog, c, n - 1) {
      i := NewSlot(prog, c, n - 1, k);
    } else {
      i := n - 1;
    }
  }

  /** An index taken from the superclass is that of the method found there. */
  lemma InheritedIndex(prog: seq<Decl>, linked: seq<Linked>, c: int, i: int)
    requires CanLink(prog, linked, c) && 0 <= i < |prog[c].methods| && !prog[c].methods[i].direct && !IsNew(prog, c, i)
    ensures var s, x := prog[c].super, WantedIndex(prog, linked, c, i);
            && s >= 0 && 0 <= x < Base(prog, linked, c) == |linked[s].table|
            && Find(prog, s, prog[c].methods[i].key) == Some(linked[s].table[x])
  {
    var s := prog[c].super;
    var f := Find(prog, s, prog[c].methods[i].key);
    FindResult(prog, s, prog[c].methods[i].key);
    assert Dispatches(prog, linked, s, f.value);
  }

  /** Virtual methods of a class have different indices. */
  lemma IndicesDiffer(prog: seq<Decl>, linked: seq<Linked>, c: int, i: int, j: int)
    requires CanLink(prog, linked, c) && 0 <= i < j < |prog[c].methods| && !prog[c].methods[i].direct
    requires !prog[c].methods[j].direct
    ensures WantedIndex(prog, linked, c, i) != WantedIndex(prog, linked, c, j)
  {
    if IsNew(prog, c, i) {
      NewBeforeMonotone(prog, c, i, j);
      if !IsNew(prog, c, j) { InheritedIndex(prog, linked, c, j); }
    } else {
      InheritedIndex(prog, linked, c, i);
      if !IsNew(prog, c, j) {
        InheritedIndex(prog, linked, c, j);
        FindResult(prog, prog[c].super, prog[c].methods[i].key);
        FindResult(prog, prog[c].super, prog[c].methods[j].key);
      }
    }
  }

  /** One of the first n methods of a class has index x. */
  ghost predicate Taken(ms: seq<MethodDecl>, idx: seq<int>, n: int, x: int)
  {
    exists i :: 0 <= i < n && i < |ms| && i < |idx| && idx[i] == x && idx[i] >= 0
  }

  /** The second part: the inherited table, with the class's own methods installed. */
  method FillTable(c: int, ms: seq<MethodDecl>, idx: seq<int>, inherited: seq<Ref>, msize: int)
    returns (table: seq<Ref>)
    requires |idx| == |ms| && |inherited| <= msize && forall i :: 0 <= i < |idx| ==> -1 <= idx[i] < msize
    requires forall i, j :: 0 <= i < j < |idx| && idx[i] >= 0 ==> idx[i] != idx[j]
    ensures |table| == msize && (forall i :: 0 <= i < |idx| && idx[i] >= 0 ==> table[idx[i]] == Ref(c, i))
    ensures forall x :: 0 <= x < |inherited| && !Taken(ms, idx, |ms|, x) ==> table[x] == inherited[x]
  {
    table := inherited + seq(msize - |inherited|, x => Ref(-1, -1));
    for i := 0 to |ms|
      invariant |table| == msize && (forall j :: 0 <= j < i && idx[j] >= 0 ==> table[idx[j]] == Ref(c, j))
      invariant forall x :: 0 <= x < |inherited| && !Taken(ms, idx, i, x) ==> table[x] == inherited[x]
    {
      if idx[i] >= 0 {
        table := table[idx[i] := Ref(c, i)];
      }
      forall x | Taken(ms, idx, i, x) ensures Taken(ms, idx, i + 1, x) {}
      assert idx[i] >= 0 ==> Taken(ms, idx, i + 1, idx[i]);
    }
  }

  /** The table of class c, as linking makes it. */
  ghost predicate IsLink(prog: seq<Decl>, linked: seq<Linked>, c: int, l: Linked)
  {
    && CanLink(prog, linked, c) && |l.idx| == |prog[c].methods| && |l.table| == l.msize
    && (forall i :: 0 <= i < |l.idx| ==> l.idx[i] == WantedIndex(prog, linked, c, i))
    && l.msize == Base(prog, linked, c) + NewBefore(prog, c, |prog[c].methods|)
    && (forall i :: 0 <= i < |l.idx| && l.idx[i] >= 0 ==> l.idx[i] < l.msize && l.table[l.idx[i]] == Ref(c, i))
    && (prog[c].super >= 0 ==>
          forall x :: 0 <= x < Base(prog, linked, c) && x < |linked[prog[c].super].table| &&
              !Taken(prog[c].methods, l.idx, |l.idx|, x)
            ==> l.table[x] == linked[prog[c].super].table[x])
  }

  /** Indices lie in the table. */
  lemma IndexInTable(prog: seq<Decl>, linked: seq<Linked>, c: int, i: int)
    requires CanLink(prog, linked, c) && 0 <= i < |prog[c].methods|
    ensures -1 <= WantedIndex(prog, linked, c, i) < Base(prog, linked, c) + NewBefore(prog, c, |prog[c].methods|)
    ensures WantedIndex(prog, linked, c, i) == -1 <==> prog[c].methods[i].direct
    ensures Base(prog, linked, c) >= 0
  {
    if !prog[c].methods[i].direct {
      if IsNew(prog, c, i) {
        NewBeforeMonotone(prog, c, i, |prog[c].methods|);
      } else {
        InheritedIndex(prog, linked, c, i);
      }
    }
  }

  /** buildDispatchTable */
  method BuildDispatchTable(prog: seq<Decl>, linked: seq<Linked>, c: int) returns (l: Linked)
    requires CanLink(prog, linked, c) && forall d :: 0 <= d <= c ==> NoDuplicates(prog[d].methods)
    ensures IsLink(prog, linked, c, l)
  {
    hide LinkedOk, NoClash, NoDuplicates, WantedIndex;
    var msize, idx := AssignIndices(prog, linked, c);
    forall i | 0 <= i < |idx| ensures -1 <= idx[i] < msize { IndexInTable(prog, linked, c, i); }
    forall i, j | 0 <= i < j < |idx| && idx[i] >= 0 ensures idx[i] != idx[j] {
      IndexInTable(prog, linked, c, i);
      IndexInTable(prog, linked, c, j);
      if !prog[c].methods[j].direct { IndicesDiffer(prog, linked, c, i, j); }
    }
    BaseSize(prog, linked, c);
    var inherited := if prog[c].super < 0 then [] else linked[prog[c].super].table;
    var table := FillTable(c, prog[c].methods, idx, inherited, msize);
    l := Linked(msize, idx, table);
  }

  lemma BaseSize(prog: seq<Decl>, linked: seq<Linked>, c: int)
    requires CanLink(prog, linked, c)
    ensures Base(prog, linked, c) == if prog[c].super < 0 then 0 else |linked[prog[c].super].table|
  {
  }

  // ---------------------------------------------------------------------------
  // The table is right
  // ---------------------------------------------------------------------------

  /** Linking another class does not change those already linked. */
  lemma LinkFrame(prog: seq<Decl>, linked: seq<Linked>, l: Linked, d: int)
    requires Ordered(prog) && 0 <= d < |linked| < |prog| && IdxOk(prog, linked, |linked|)
    requires LinkedOk(prog, linked, d) &&
             |l.idx| == |prog[|linked|].methods|
    ensures IdxOk(prog, linked + [l], |linked| + 1) && LinkedOk(prog, linked + [l], d)
  {
    var ls := linked + [l];
    forall r | Virtual(prog, r) && r.c <= d && InChain(prog, d, r.c)
      ensures Dispatches(prog, ls, d, r)
    {
      assert Dispatches(prog, linked, d, r);
    }
    forall x | 0 <= x < |ls[d].table| ensures EntryOk(prog, ls, d, x) { assert EntryOk(prog, linked, d, x); }
  }

  /** A method of the class itself. */
  lemma OwnDispatches(prog: seq<Decl>, linked: seq<Linked>, c: int, l: Linked, i: int)
    requires IsLink(prog, linked, c, l) && IdxOk(prog, linked + [l], c + 1) && Virtual(prog, Ref(c, i))
    ensures Dispatches(prog, linked + [l], c, Ref(c, i))
  {
    IndexInTable(prog, linked, c, i);
    var k := Local(prog[c].methods, prog[c].methods[i].key);
    assert k == i;
  }

  /** A method inherited from a superclass, overridden or not. */
  lemma InheritedDispatches(prog: seq<Decl>, linked: seq<Linked>, c: int, l: Linked, r: Ref)
    requires IsLink(prog, linked, c, l) && IdxOk(prog, linked + [l], c + 1)
    requires prog[c].super >= 0 && Virtual(prog, r) && r.c <= prog[c].super && InChain(prog, prog[c].super, r.c)
    ensures Dispatches(prog, linked + [l], c, r)
  {
    var s, key, x := prog[c].super, KeyOf(prog, r), IndexOf(linked, r);
    assert Dispatches(prog, linked, s, r) && EntryOk(prog, linked, s, x);
    var k := Local(prog[c].methods, key);
    BaseSize(prog, linked, c);
    if k >= 0 {
      IndexInTable(prog, linked, c, k);
    } else if Taken(prog[c].methods, l.idx, |l.idx|, x) {
      var j :| 0 <= j < |l.idx| && l.idx[j] == x && l.idx[j] >= 0;
      TakenKey(prog, linked, c, l, j, key);
    }
  }

  /** If method j of the class takes index x of the superclass's table, it has the key of the entry there. */
  lemma TakenKey(prog: seq<Decl>, linked: seq<Linked>, c: int, l: Linked, j: int, key: Key)
    requires IsLink(prog, linked, c, l) && 0 <= j < |l.idx| && prog[c].super >= 0
    requires var s := prog[c].super;
             0 <= l.idx[j] < |linked[s].table| && Find(prog, s, key) == Some(linked[s].table[l.idx[j]])
    ensures prog[c].methods[j].key == key
  {
    IndexInTable(prog, linked, c, j);
    BaseSize(prog, linked, c);
    assert !IsNew(prog, c, j);
    InheritedIndex(prog, linked, c, j);
    FindResult(prog, prog[c].super, key);
    FindResult(prog, prog[c].super, prog[c].methods[j].key);
  }

  lemma EntriesOk(prog: seq<Decl>, linked: seq<Linked>, c: int, l: Linked, x: int)
    requires IsLink(prog, linked, c, l) && IdxOk(prog, linked + [l], c + 1) && 0 <= x < l.msize
    ensures EntryOk(prog, linked + [l], c, x)
  {
    BaseSize(prog, linked, c);
    if Taken(prog[c].methods, l.idx, |l.idx|, x) {
      var i :| 0 <= i < |l.idx| && l.idx[i] == x && l.idx[i] >= 0;
      IndexInTable(prog, linked, c, i);
    } else if x < Base(prog, linked, c) {
      assert EntryOk(prog, linked, prog[c].super, x);
    } else {
      var i := NewSlot(prog, c, |prog[c].methods|, x - Base(prog, linked, c));
      NotTaken(prog, linked, c, l, i);
    }
  }

  lemma NotTaken(prog: seq<Decl>, linked: seq<Linked>, c: int, l: Linked, i: int)
    requires IsLink(prog, linked, c, l) && 0 <= i < |l.idx| && IsNew(prog, c, i)
    ensures Taken(prog[c].methods, l.idx, |l.idx|, Base(prog, linked, c) + NewBefore(prog, c, i))
  {
    IndexInTable(prog, linked, c, i);
    assert l.idx[i] == Base(prog, linked, c) + NewBefore(prog, c, i);
  }

  /** For every class: once linked, its table agrees with the search by name. */
  lemma LinkKeeps(prog: seq<Decl>, linked: seq<Linked>, c: int, l: Linked)
    requires IsLink(prog, linked, c, l)
    ensures IdxOk(prog, linked + [l], c + 1) && LinkedOk(prog, linked + [l], c)
  {
    var ls := linked + [l];
    assert IdxOk(prog, ls, c + 1);
    forall i | 0 <= i < |prog[c].methods| && prog[c].methods[i].direct
      ensures ls[c].idx[i] == -1
    {
      IndexInTable(prog, linked, c, i);
    }
    hide IsLink, NoClash;
    forall r | Virtual(prog, r) && r.c <= c && InChain(prog, c, r.c) ensures Dispatches(prog, ls, c, r) {
      if r.c == c {
        OwnDispatches(prog, linked, c, l, r.i);
      } else {
        ChainUp(prog, c, r.c);
        InheritedDispatches(prog, linked, c, l, r);
      }
    }
    forall x | 0 <= x < |ls[c].table| ensures EntryOk(prog, ls, c, x) { EntriesOk(prog, linked, c, l, x); }
  }

  lemma {:induction false} ChainUp(prog: seq<Decl>, c: int, a: int)
    requires Ordered(prog) && c < |prog| && InChain(prog, c, a)
    ensures 0 <= a <= c && (a != c ==> prog[c].super >= 0 && InChain(prog, prog[c].super, a) && a <= prog[c].super)
    decreases c
  {
    if a != c { ChainUp(prog, prog[c].super, a); }
  }

  // ---------------------------------------------------------------------------
  // A whole hierarchy
  // ---------------------------------------------------------------------------

  /** A program as the loader accepts it. */
  ghost predicate WellFormed(prog: seq<Decl>)
  {
    && Ordered(prog)
    && (forall c :: 0 <= c < |prog| ==> NoDuplicates(prog[c].methods) && (prog[c].isInterface ==> prog[c].super == -1))
    && (forall c :: 0 <= c < |prog| && prog[c].super >= 0 ==> !prog[prog[c].super].isInterface)
    && (forall c {:trigger NoClash(prog, c)} :: 0 <= c < |prog| ==> NoClash(prog, c))
  }

  /** The first n classes are linked; interfaces have no dispatch table and no superclass. */
  ghost predicate LinkedTo(prog: seq<Decl>, linked: seq<Linked>, n: int)
  {
    && Ordered(prog) && |linked| == n <= |prog| && IdxOk(prog, linked, n)
    && (forall c :: 0 <= c < n && prog[c].isInterface ==> linked[c].table == [] && prog[c].super == -1)
    && (forall c :: 0 <= c < n && prog[c].super >= 0 ==> !prog[prog[c].super].isInterface)
    && (forall c {:trigger LinkedOk(prog, linked, c)} :: 0 <= c < n && !prog[c].isInterface ==>
          LinkedOk(prog, linked, c))
  }

  ghost predicate AllLinked(prog: seq<Decl>, linked: seq<Linked>) { LinkedTo(prog, linked, |prog|) }

  /** Link all classes, in order: every table agrees with the search by name. */
  method LinkAll(prog: seq<Decl>) returns (linked: seq<Linked>)
    requires WellFormed(prog)
    ensures AllLinked(prog, linked)
  {
    hide LinkedOk, NoClash, NoDuplicates, IsLink;
    linked := [];
    for c := 0 to |prog|
      invariant LinkedTo(prog, linked, c)
    {
      var l;
      if prog[c].isInterface {
        l := Linked(0, seq(|prog[c].methods|, i => -1), []);
      } else {
        assert NoClash(prog, c);
        if prog[c].super >= 0 { assert LinkedOk(prog, linked, prog[c].super); }
        l := BuildDispatchTable(prog, linked, c);
        LinkSize(prog, linked, c, l);
        LinkKeeps(prog, linked, c, l);
      }
      forall d | 0 <= d < c && !prog[d].isInterface
        ensures IdxOk(prog, linked + [l], c + 1) && LinkedOk(prog, linked + [l], d)
      {
        assert LinkedOk(prog, linked, d);
        LinkFrame(prog, linked, l, d);
      }
      linked := linked + [l];
    }
  }

  lemma LinkSize(prog: seq<Decl>, linked: seq<Linked>, c: int, l: Linked)
    requires IsLink(prog, linked, c, l)
    ensures |l.idx| == |prog[c].methods|
  {
  }

  /** Dynamic dispatch: the entry at a visible method's index is what the search by name finds. */
  lemma DispatchIsFind(prog: seq<Decl>, linked: seq<Linked>, c: int, r: Ref)
    requires AllLinked(prog, linked) && 0 <= c < |prog| && !prog[c].isInterface && Virtual(prog, r)
    requires InChain(prog, c, r.c)
    ensures 0 <= r.c < |linked| && r.i < |linked[r.c].idx|
    ensures var x := IndexOf(linked, r);
            0 <= x < |linked[c].table| && Find(prog, c, KeyOf(prog, r)) == Some(linked[c].table[x])
  {
    ChainUp(prog, c, r.c);
    assert LinkedOk(prog, linked, c) && Dispatches(prog, linked, c, r);
  }
}
