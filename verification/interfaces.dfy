/**
 * Interface tables (src/runtime/classMethod.c): every interface method has a number of
 * its own, shared only with methods it redeclares, and the entry of a class's table
 * below zero at that number is the method a search by name finds.
 */
module Interfaces {
  import opened Options
  import opened Dispatch

  /**
   * What linking computes for interfaces: table size, the number of each interface method, and
   * the table of a class.
   */
  datatype IfLinked = IfLinked(itsize: int, iidx: seq<int>)

  /** Interfaces come before the classes and interfaces that name them. */
  ghost predicate IfOrdered(prog: seq<Decl>)
  {
    forall c, i :: 0 <= c < |prog| && 0 <= i < |prog[c].interfaces| ==>
      0 <= prog[c].interfaces[i] < c && prog[prog[c].interfaces[i]].isInterface
  }

  // ---------------------------------------------------------------------------
  // Numbering interface methods
  // ---------------------------------------------------------------------------

  function NumberOf(ifs: seq<IfLinked>, r: Ref): int
    requires 0 <= r.c < |ifs| && 0 <= r.i < |ifs[r.c].iidx|
  {
    ifs[r.c].iidx[r.i]
  }

  /** r is a method of an interface that has been numbered. */
  ghost predicate IsIfMethod(prog: seq<Decl>, ifs: seq<IfLinked>, r: Ref)
  {
    IsMethod(prog, r) && r.c < |ifs| && prog[r.c].isInterface && |ifs[r.c].iidx| == |prog[r.c].methods|
  }

  /**
   * Numbers are below `total`, and the table of an interface has room for its own methods and
   * those of the interfaces it extends.
   */
  ghost predicate NumberOk(prog: seq<Decl>, ifs: seq<IfLinked>, total: int, r: Ref)
    requires IsIfMethod(prog, ifs, r)
  {
    1 <= NumberOf(ifs, r) < total && NumberOf(ifs, r) <= ifs[r.c].itsize
  }

  ghost predicate SizesOk(prog: seq<Decl>, ifs: seq<IfLinked>, total: int, c: int)
    requires 0 <= c < |ifs| <= |prog|
  {
    && 0 <= ifs[c].itsize < total
    && (!prog[c].isInterface && 0 <= prog[c].super < |ifs| ==> ifs[prog[c].super].itsize <= ifs[c].itsize)
    && forall i :: 0 <= i < |prog[c].interfaces| ==>
         0 <= prog[c].interfaces[i] < |ifs| && ifs[prog[c].interfaces[i]].itsize <= ifs[c].itsize
  }

  ghost predicate IfValid(prog: seq<Decl>, ifs: seq<IfLinked>, total: int)
  {
    && |ifs| <= |prog| && total >= 1
    && (forall c :: 0 <= c < |ifs| && prog[c].isInterface ==> |ifs[c].iidx| == |prog[c].methods|)
    && (forall c {:trigger SizesOk(prog, ifs, total, c)} :: 0 <= c < |ifs| ==> SizesOk(prog, ifs, total, c))
    && (forall r {:trigger NumberOk(prog, ifs, total, r)} :: IsIfMethod(prog, ifs, r) ==> NumberOk(prog, ifs, total, r))
    && (forall r, q {:trigger NumberOf(ifs, r), NumberOf(ifs, q)} ::
          IsIfMethod(prog, ifs, r) && IsIfMethod(prog, ifs, q) && NumberOf(ifs, r) == NumberOf(ifs, q) ==>
              KeyOf(prog, r) == KeyOf(prog, q))
  }

  /** The largest table size among the interfaces that class c names. */
  method MaxSize(prog: seq<Decl>, ifs: seq<IfLinked>, c: int, start: int) returns (size: int)
    requires 0 <= c < |prog| && |ifs| == c && IfOrdered(prog)
    ensures size == start || exists d :: d in prog[c].interfaces && 0 <= d < c && size == ifs[d].itsize
    ensures size >= start
    ensures forall i :: 0 <= i < |prog[c].interfaces| ==>
              0 <= prog[c].interfaces[i] < c && ifs[prog[c].interfaces[i]].itsize <= size
  {
    size := start;
    var named := prog[c].interfaces;
    for i := 0 to |named|
      invariant size == start || exists d :: d in named && 0 <= d < c && size == ifs[d].itsize
      invariant size >= start && forall j :: 0 <= j < i ==> 0 <= named[j] < c && ifs[named[j]].itsize <= size
    {
      if size < ifs[named[i]].itsize { size := ifs[named[i]].itsize; }
    }
  }

  /** Method k of the j-th interface named has the key, and is not the last of its interface. */
  ghost predicate Matches(prog: seq<Decl>, named: seq<int>, key: Key, j: int, k: int)
  {
    && 0 <= j < |named| && 0 <= named[j] < |prog| && 0 <= k < |prog[named[j]].methods| - 1
    && prog[named[j]].methods[k].key == key
  }

  ghost predicate LastMatch(prog: seq<Decl>, named: seq<int>, key: Key, j: int, k: int)
  {
    && Matches(prog, named, key, j, k)
    && forall j', k' :: Matches(prog, named, key, j', k') ==> j' < j || (j' == j && k' <= k)
  }

  /**
   * The search for a redeclared method in the interfaces named: every method but the last of
   * each interface is compared, and the last match counts.
   */
  method FindNumber(prog: seq<Decl>, ifs: seq<IfLinked>, c: int, key: Key, ghost total: int)
    returns (found: bool, x: int, ghost j: int, ghost k: int)
    requires 0 <= c < |prog| && |ifs| == c && IfOrdered(prog) && IfValid(prog, ifs, total)
    ensures found <==> exists j, k :: Matches(prog, prog[c].interfaces, key, j, k)
    ensures found ==> && LastMatch(prog, prog[c].interfaces, key, j, k) && prog[c].interfaces[j] < c
                      && k < |ifs[prog[c].interfaces[j]].iidx| && x == ifs[prog[c].interfaces[j]].iidx[k]
  {
    found, x, j, k := false, 0, -1, -1;
    var named := prog[c].interfaces;
    for a := 0 to |named|
      invariant found ==> Matches(prog, named, key, j, k) && j < a && k < |ifs[named[j]].iidx| &&
                            x == ifs[named[j]].iidx[k]
      invariant forall j', k' :: Matches(prog, named, key, j', k') && j' < a ==>
                  found && (j' < j || (j' == j && k' <= k))
    {
      var d := named[a];
      var b := 0;
      while b + 1 < |prog[d].methods|
        invariant 0 <= b <= |prog[d].methods|
        invariant found ==> Matches(prog, named, key, j, k) && (j < a || (j == a && k < b))
        invariant found ==> k < |ifs[named[j]].iidx| && x == ifs[named[j]].iidx[k]
        invariant forall j', k' :: Matches(prog, named, key, j', k') && (j' < a || (j' == a && k' < b)) ==>
                    found && (j' < j || (j' == j && k' <= k))
      {
        if prog[d].methods[b].key == key {
          found, x := true, ifs[d].iidx[b];
          j, k := a, b;
        }
        b := b + 1;
      }
    }
    if found { assert Matches(prog, named, key, j, k); }
  }

  ghost predicate Unmatched(prog: seq<Decl>, c: int, n: int)
    requires 0 <= c < |prog| && 0 <= n < |prog[c].methods|
  {
    forall j, k :: !Matches(prog, prog[c].interfaces, prog[c].methods[n].key, j, k)
  }

  /** How many of the first n methods of interface c match nothing. */
  ghost function UnmatchedBefore(prog: seq<Decl>, c: int, n: int): nat
    requires 0 <= c < |prog| && 0 <= n <= |prog[c].methods|
  {
    if n == 0 then 0 else UnmatchedBefore(prog, c, n - 1) + if Unmatched(prog, c, n - 1) then 1 else 0
  }

  /** Number x for method n of interface c: that of the last match, or the next new one if there is none. */
  ghost predicate RightNumber(prog: seq<Decl>, ifs: seq<IfLinked>, c: int, n: int, x: int, total0: int)
    requires 0 <= c < |prog| && 0 <= n < |prog[c].methods|
  {
    var named, key := prog[c].interfaces, prog[c].methods[n].key;
    && (forall j, k :: LastMatch(prog, named, key, j, k) ==>
          0 <= named[j] < |ifs| && k < |ifs[named[j]].iidx| && x == ifs[named[j]].iidx[k])
    && (Unmatched(prog, c, n) ==> x == total0 + UnmatchedBefore(prog, c, n))
  }

  /** The numbers of the first n methods of interface c, while they are being assigned. */
  ghost predicate NumberedTo(prog: seq<Decl>, ifs: seq<IfLinked>, c: int, n: int, iidx: seq<int>, itsize: int,
                             total: int)
    requires 0 <= c < |prog|
  {
    && |iidx| == n <= |prog[c].methods| && 0 <= itsize < total
    && (forall i :: 0 <= i < n ==> 1 <= iidx[i] <= itsize)
    && (forall i, r :: 0 <= i < n && IsIfMethod(prog, ifs, r) && NumberOf(ifs, r) == iidx[i] ==>
          KeyOf(prog, r) == prog[c].methods[i].key)
    && (forall i, j :: 0 <= i < j < n && iidx[i] == iidx[j] ==> prog[c].methods[i].key == prog[c].methods[j].key)
  }

  /** A number taken over from a redeclared method. */
  lemma SharedNumber(prog: seq<Decl>, ifs: seq<IfLinked>, c: int, n: int, iidx: seq<int>, itsize: int, total: int,
                     total0: int, r: Ref)
    requires 0 <= c < |prog| && |ifs| == c && IfValid(prog, ifs, total0) && total0 <= total && n < |prog[c].methods|
    requires NumberedTo(prog, ifs, c, n, iidx, itsize, total) && IsIfMethod(prog, ifs, r)
    requires KeyOf(prog, r) == prog[c].methods[n].key
    requires ifs[r.c].itsize <= itsize
    ensures NumberedTo(prog, ifs, c, n + 1, iidx + [NumberOf(ifs, r)], itsize, total)
  {
    assert NumberOk(prog, ifs, total0, r);
  }

  /** A new number. */
  lemma NewNumber(prog: seq<Decl>, ifs: seq<IfLinked>, c: int, n: int, iidx: seq<int>, itsize: int, total: int,
                  total0: int)
    requires 0 <= c < |prog| && |ifs| == c && IfValid(prog, ifs, total0) && total0 <= total && n < |prog[c].methods|
    requires NumberedTo(prog, ifs, c, n, iidx, itsize, total)
    ensures NumberedTo(prog, ifs, c, n + 1, iidx + [total], total, total + 1)
  {
    forall r | IsIfMethod(prog, ifs, r) ensures NumberOf(ifs, r) < total { assert NumberOk(prog, ifs, total0, r); }
  }

  /** buildDispatchTable, for an interface. */
  method NumberInterface(prog: seq<Decl>, ifs: seq<IfLinked>, c: int, total0: int) returns (l: IfLinked, total: int)
    requires 0 <= c < |prog| && |ifs| == c && IfOrdered(prog) && IfValid(prog, ifs, total0) && prog[c].isInterface
    ensures total == total0 + UnmatchedBefore(prog, c, |prog[c].methods|)
    ensures NumberedTo(prog, ifs, c, |prog[c].methods|, l.iidx, l.itsize, total)
    ensures forall i :: 0 <= i < |prog[c].interfaces| ==>
              0 <= prog[c].interfaces[i] < c && ifs[prog[c].interfaces[i]].itsize <= l.itsize
    ensures |l.iidx| == |prog[c].methods|
    ensures forall n :: 0 <= n < |l.iidx| ==> RightNumber(prog, ifs, c, n, l.iidx[n], total0)
    ensures total > total0 ==> l.itsize == total - 1
    ensures total == total0 ==>
              l.itsize == 0 || exists d :: d in prog[c].interfaces && 0 <= d < c && l.itsize == ifs[d].itsize
  {
    hide NumberedTo, IfValid, LastMatch, RightNumber, Unmatched;
    total := total0;
    var itsize := MaxSize(prog, ifs, c, 0);
    NumberStart(prog, ifs, c, itsize, total);
    var iidx := [];
    for n := 0 to |prog[c].methods|
      invariant total == total0 + UnmatchedBefore(prog, c, n) && NumberedTo(prog, ifs, c, n, iidx, itsize, total)
      invariant forall i :: 0 <= i < |prog[c].interfaces| ==>
                  0 <= prog[c].interfaces[i] < c && ifs[prog[c].interfaces[i]].itsize <= itsize
      invariant |iidx| == n && forall i :: 0 <= i < n ==> RightNumber(prog, ifs, c, i, iidx[i], total0)
      invariant total > total0 ==> itsize == total - 1
      invariant total == total0 ==>
                  itsize == 0 || exists d :: d in prog[c].interfaces && 0 <= d < c && itsize == ifs[d].itsize
    {
      var found, x, j, k := FindNumber(prog, ifs, c, prog[c].methods[n].key, total0);
      NumberIs(prog, ifs, c, n, total0, total, found, j, k, x);
      if found {
        ghost var r := Ref(prog[c].interfaces[j], k);
        SharedNumber(prog, ifs, c, n, iidx, itsize, total, total0, r);
        iidx := iidx + [x];
      } else {
        NewNumber(prog, ifs, c, n, iidx, itsize, total, total0);
        Room(prog, ifs, c, n, iidx, itsize, total);
        itsize := total;
        iidx := iidx + [total];
        total := total + 1;
      }
    }
    l := IfLinked(itsize, iidx);
  }

  lemma NumberIs(prog: seq<Decl>, ifs: seq<IfLinked>, c: int, n: int, total0: int, total: int, found: bool, j: int,
                 k: int, x: int)
    requires 0 <= c < |prog| && |ifs| == c && IfOrdered(prog) && IfValid(prog, ifs, total0)
    requires 0 <= n < |prog[c].methods|
    requires found <==> exists j, k :: Matches(prog, prog[c].interfaces, prog[c].methods[n].key, j, k)
    requires found ==> && LastMatch(prog, prog[c].interfaces, prog[c].methods[n].key, j, k) && prog[c].interfaces[j] < c
                       && k < |ifs[prog[c].interfaces[j]].iidx| && x == ifs[prog[c].interfaces[j]].iidx[k]
    requires total == total0 + UnmatchedBefore(prog, c, n)
    ensures found <==> !Unmatched(prog, c, n)
    ensures found ==> && 0 <= j < |prog[c].interfaces| && 0 <= prog[c].interfaces[j] < c
                      && IsIfMethod(prog, ifs, Ref(prog[c].interfaces[j], k))
                      && KeyOf(prog, Ref(prog[c].interfaces[j], k)) == prog[c].methods[n].key
                      && NumberOf(ifs, Ref(prog[c].interfaces[j], k)) == x
    ensures found ==> RightNumber(prog, ifs, c, n, x, total0)
    ensures !found ==> RightNumber(prog, ifs, c, n, total, total0)
  {
    if found {
      assert Matches(prog, prog[c].interfaces, prog[c].methods[n].key, j, k);
      forall j', k' | LastMatch(prog, prog[c].interfaces, prog[c].methods[n].key, j', k') ensures j' == j && k' == k {
        assert Matches(prog, prog[c].interfaces, prog[c].methods[n].key, j', k');
      }
    }
  }

  lemma NumberStart(prog: seq<Decl>, ifs: seq<IfLinked>, c: int, itsize: int, total: int)
    requires 0 <= c < |prog| && |ifs| == c && IfValid(prog, ifs, total)
    requires (itsize == 0 || exists d :: 0 <= d < c && itsize == ifs[d].itsize)
    ensures NumberedTo(prog, ifs, c, 0, [], itsize, total)
  {
    if itsize != 0 {
      var d :| 0 <= d < c && itsize == ifs[d].itsize;
      assert SizesOk(prog, ifs, total, d);
    }
  }

  lemma Room(prog: seq<Decl>, ifs: seq<IfLinked>, c: int, n: int, iidx: seq<int>, itsize: int, total: int)
    requires 0 <= c < |prog| && NumberedTo(prog, ifs, c, n, iidx, itsize, total)
    ensures itsize < total
  {
  }

  /** An interface keeps the numbering valid. */
  lemma NumberKeeps(prog: seq<Decl>, ifs: seq<IfLinked>, c: int, total0: int, l: IfLinked, total: int)
    requires 0 <= c < |prog| && |ifs| == c && IfValid(prog, ifs, total0) && total >= total0
    requires NumberedTo(prog, ifs, c, |prog[c].methods|, l.iidx, l.itsize, total) && prog[c].isInterface
    requires Ordered(prog)
    requires forall i :: 0 <= i < |prog[c].interfaces| ==>
               0 <= prog[c].interfaces[i] < c && ifs[prog[c].interfaces[i]].itsize <= l.itsize
    ensures IfValid(prog, ifs + [l], total)
  {
    var is' := ifs + [l];
    forall d | 0 <= d < |is'|
      ensures SizesOk(prog, is', total, d)
    {
      if d < c { assert SizesOk(prog, ifs, total0, d); }
    }
    forall r | IsIfMethod(prog, is', r) ensures NumberOk(prog, is', total, r) {
      if r.c < c { assert NumberOk(prog, ifs, total0, r); }
    }
    forall r, q | IsIfMethod(prog, is', r) && IsIfMethod(prog, is', q) &&
             NumberOf(is', r) == NumberOf(is', q) ensures KeyOf(prog, r) == KeyOf(prog, q) {
      if r.c < c { assert IsIfMethod(prog, ifs, r) && NumberOf(ifs, r) == NumberOf(is', r); }
      if q.c < c { assert IsIfMethod(prog, ifs, q) && NumberOf(ifs, q) == NumberOf(is', q); }
    }
  }

  /** buildDispatchTable, for the interface table size of a class. */
  method SizeClass(prog: seq<Decl>, ifs: seq<IfLinked>, c: int, ghost total: int) returns (l: IfLinked)
    requires 0 <= c < |prog| && |ifs| == c && Ordered(prog) && IfOrdered(prog) && IfValid(prog, ifs, total)
    requires !prog[c].isInterface
    ensures IfValid(prog, ifs + [l], total) && l.iidx == []
    ensures || l.itsize == (if prog[c].super >= 0 then ifs[prog[c].super].itsize else 0)
            || exists d :: d in prog[c].interfaces && 0 <= d < c && l.itsize == ifs[d].itsize
  {
    var start := if prog[c].super >= 0 then ifs[prog[c].super].itsize else 0;
    if prog[c].super >= 0 { assert SizesOk(prog, ifs, total, prog[c].super); }
    var size := MaxSize(prog, ifs, c, start);
    l := IfLinked(size, []);
    ClassKeeps(prog, ifs, c, l, total);
  }

  lemma ClassKeeps(prog: seq<Decl>, ifs: seq<IfLinked>, c: int, l: IfLinked, total: int)
    requires 0 <= c < |prog| && |ifs| == c && Ordered(prog) && IfValid(prog, ifs, total) && !prog[c].isInterface
    requires l.itsize == 0 || exists d :: 0 <= d < c && l.itsize == ifs[d].itsize
    requires prog[c].super >= 0 ==> ifs[prog[c].super].itsize <= l.itsize
    requires forall i :: 0 <= i < |prog[c].interfaces| ==>
               0 <= prog[c].interfaces[i] < c && ifs[prog[c].interfaces[i]].itsize <= l.itsize
    ensures IfValid(prog, ifs + [l], total)
  {
    var is' := ifs + [l];
    forall d | 0 <= d < |is'| ensures SizesOk(prog, is', total, d) {
      if d < c {
        assert SizesOk(prog, ifs, total, d);
      } else if l.itsize != 0 {
        var e :| 0 <= e < c && l.itsize == ifs[e].itsize;
        assert SizesOk(prog, ifs, total, e);
      }
    }
    forall r | IsIfMethod(prog, is', r) ensures NumberOk(prog, is', total, r) { assert NumberOk(prog, ifs, total, r); }
    forall r, q | IsIfMethod(prog, is', r) && IsIfMethod(prog, is', q) &&
             NumberOf(is', r) == NumberOf(is', q) ensures KeyOf(prog, r) == KeyOf(prog, q) {
      assert IsIfMethod(prog, ifs, r) && NumberOf(ifs, r) == NumberOf(is', r) && IsIfMethod(prog, ifs, q) &&
          NumberOf(ifs, q) == NumberOf(is', q);
    }
  }

  // ---------------------------------------------------------------------------
  // The interface table of a class
  // ---------------------------------------------------------------------------

  /** Class or interface x names interface d, or names one that extends it. */
  ghost predicate Extends(prog: seq<Decl>, x: int, d: int)
    requires IfOrdered(prog) && 0 <= x < |prog|
    decreases x
  {
    exists i :: 0 <= i < |prog[x].interfaces| && ExtendsVia(prog, x, i, d)
  }

  ghost predicate ExtendsVia(prog: seq<Decl>, x: int, i: int, d: int)
    requires IfOrdered(prog) && 0 <= x < |prog| && 0 <= i < |prog[x].interfaces|
    decreases x, -1
  {
    prog[x].interfaces[i] == d || Extends(prog, prog[x].interfaces[i], d)
  }

  /** r is a method of an interface that x extends; class initializers do not count. */
  ghost predicate IsWanted(prog: seq<Decl>, x: int, r: Ref)
    requires IfOrdered(prog) && 0 <= x < |prog|
  {
    Virtual(prog, r) && Extends(prog, x, r.c)
  }

  /** Every method of the interfaces that x extends is found in class base. */
  ghost predicate Implemented(prog: seq<Decl>, base: int, x: int)
    requires Ordered(prog) && IfOrdered(prog) && 0 <= x < |prog| && base < |prog|
  {
    forall r {:trigger IsWanted(prog, x, r)} :: IsWanted(prog, x, r) ==> Find(prog, base, KeyOf(prog, r)).Some?
  }

  /** What is found is not static, and its number lies in the table of the class. */
  ghost predicate Fillable(prog: seq<Decl>, ifs: seq<IfLinked>, base: int, x: int)
    requires Ordered(prog) && IfOrdered(prog) && 0 <= x < |prog| && 0 <= base < |prog|
  {
    forall r {:trigger IsWanted(prog, x, r)} :: IsWanted(prog, x, r) ==> CanEnter(prog, ifs, base, r)
  }

  ghost predicate CanEnter(prog: seq<Decl>, ifs: seq<IfLinked>, base: int, r: Ref)
    requires Ordered(prog) && 0 <= base < |prog| && IsMethod(prog, r)
  {
    && IsIfMethod(prog, ifs, r) && base < |ifs| && 1 <= NumberOf(ifs, r) <= ifs[base].itsize
    && var f := Find(prog, base, KeyOf(prog, r)); f.Some? ==> Virtual(prog, f.value)
  }

  /** The words below the dispatch table; number n is at index n - 1. */
  type Table = seq<Option<Ref>>

  /** The entry at the number of r is what the search by name finds. */
  ghost predicate Right(prog: seq<Decl>, ifs: seq<IfLinked>, base: int, itable: Table, r: Ref)
    requires Ordered(prog) && base < |prog|
  {
    && IsIfMethod(prog, ifs, r) && 1 <= NumberOf(ifs, r) <= |itable|
    && Find(prog, base, KeyOf(prog, r)).Some? && itable[NumberOf(ifs, r) - 1] == Find(prog, base, KeyOf(prog, r))
  }

  ghost predicate KeepsRight(prog: seq<Decl>, ifs: seq<IfLinked>, base: int, t: Table, t': Table)
    requires Ordered(prog) && base < |prog|
  {
    |t'| == |t| && forall r {:trigger Right(prog, ifs, base, t', r)} :: Right(prog, ifs, base, t, r) ==>
                     Right(prog, ifs, base, t', r)
  }

  /**
   * Setting one entry right leaves the others right, because methods share a number only if
   * they share name and signature.
   */
  lemma SetEntry(prog: seq<Decl>, ifs: seq<IfLinked>, total: int, base: int, t: Table, q: Ref)
    requires Ordered(prog) && base < |prog| && IfValid(prog, ifs, total) && IsIfMethod(prog, ifs, q)
    requires Find(prog, base, KeyOf(prog, q)).Some? && 1 <= NumberOf(ifs, q) <= |t|
    ensures var t' := t[NumberOf(ifs, q) - 1 := Find(prog, base, KeyOf(prog, q))];
            KeepsRight(prog, ifs, base, t, t') && Right(prog, ifs, base, t', q)
  {
  }

  /** What holds while a class's interface table is being filled. */
  ghost predicate CanFill(prog: seq<Decl>, linked: seq<Linked>, ifs: seq<IfLinked>, total: int, base: int)
  {
    && Ordered(prog) && IfOrdered(prog) && 0 <= base < |prog| && IfValid(prog, ifs, total) && base < |ifs|
    && IdxOk(prog, linked, base + 1) && LinkedOk(prog, linked, base)
    && forall d :: 0 <= d <= base ==> NoDuplicates(prog[d].methods)
  }

  /** Look up one interface method and set its entry; false if there is no match. */
  method FillEntry(prog: seq<Decl>, linked: seq<Linked>, ifs: seq<IfLinked>, ghost total: int, base: int, t: Table,
                   q: Ref)
    returns (ok: bool, t': Table)
    requires CanFill(prog, linked, ifs, total, base) && IsMethod(prog, q) && CanEnter(prog, ifs, base, q)
    requires |t| == ifs[base].itsize
    ensures ok <==> Find(prog, base, KeyOf(prog, q)).Some?
    ensures KeepsRight(prog, ifs, base, t, t') && (ok ==> Right(prog, ifs, base, t', q))
  {
    FindResult(prog, base, KeyOf(prog, q));
    if Find(prog, base, KeyOf(prog, q)).Some? {
      assert Dispatches(prog, linked, base, Find(prog, base, KeyOf(prog, q)).value);
    }
    var x;
    ok, x := FindIndex(prog, linked, base, KeyOf(prog, q));
    if !ok { return false, t; }
    SetEntry(prog, ifs, total, base, t, q);
    t' := t[NumberOf(ifs, q) - 1 := Some(linked[base].table[x])];
  }

  ghost predicate DoneTo(prog: seq<Decl>, ifs: seq<IfLinked>, base: int, t: Table, x: int, n: int)
    requires Ordered(prog) && IfOrdered(prog) && 0 <= x < |prog| && base < |prog| && n <= |prog[x].interfaces|
  {
    forall i, r {:trigger ExtendsVia(prog, x, i, r.c), Right(prog, ifs, base, t, r)} ::
      0 <= i < n && Virtual(prog, r) && ExtendsVia(prog, x, i, r.c) ==> Right(prog, ifs, base, t, r)
  }

  ghost predicate AllDone(prog: seq<Decl>, ifs: seq<IfLinked>, base: int, t: Table, x: int)
    requires Ordered(prog) && IfOrdered(prog) && 0 <= x < |prog| && base < |prog|
  {
    forall r {:trigger IsWanted(prog, x, r)} :: IsWanted(prog, x, r) ==> Right(prog, ifs, base, t, r)
  }

  /** The methods of interface d itself. */
  method FillInterface(prog: seq<Decl>, linked: seq<Linked>, ifs: seq<IfLinked>, ghost total: int, base: int, t: Table,
                       ghost x: int, ghost i: int, d: int)
    returns (ok: bool, t': Table)
    requires CanFill(prog, linked, ifs, total, base) && 0 <= x < |prog| && 0 <= i < |prog[x].interfaces|
    requires prog[x].interfaces[i] == d
    requires Fillable(prog, ifs, base, x) && |t| == ifs[base].itsize
    ensures KeepsRight(prog, ifs, base, t, t')
    ensures ok ==> forall r :: Virtual(prog, r) && r.c == d ==> Right(prog, ifs, base, t', r)
    ensures !ok ==> !Implemented(prog, base, x)
  {
    hide LinkedOk, Right, Find, NoDuplicates, CanEnter, IfValid;
    t' := t;
    for j := 0 to |prog[d].methods|
      invariant KeepsRight(prog, ifs, base, t, t')
      invariant forall k :: 0 <= k < j && !prog[d].methods[k].direct ==> Right(prog, ifs, base, t', Ref(d, k))
    {
      if !prog[d].methods[j].direct {
        assert ExtendsVia(prog, x, i, d);
        assert IsWanted(prog, x, Ref(d, j));
        ghost var before := t';
        ok, t' := FillEntry(prog, linked, ifs, total, base, t', Ref(d, j));
        KeepsTrans(prog, ifs, base, t, before, t');
        if !ok { return; }
      }
    }
    ok := true;
    forall r | Virtual(prog, r) && r.c == d ensures Right(prog, ifs, base, t', r) { assert r == Ref(d, r.i); }
  }

  lemma KeepsTrans(prog: seq<Decl>, ifs: seq<IfLinked>, base: int, t: Table, t1: Table, t2: Table)
    requires Ordered(prog) && base < |prog| && KeepsRight(prog, ifs, base, t, t1) && KeepsRight(prog, ifs, base, t1, t2)
    ensures KeepsRight(prog, ifs, base, t, t2)
  {
    hide Right;
    forall r | Right(prog, ifs, base, t, r)
      ensures Right(prog, ifs, base, t2, r)
    {
      assert Right(prog, ifs, base, t1, r);
    }
  }

  /** What an interface that x names wants, x wants. */
  lemma WantedBelow(prog: seq<Decl>, x: int, i: int, r: Ref)
    requires Ordered(prog) && IfOrdered(prog) && 0 <= x < |prog| && 0 <= i < |prog[x].interfaces|
    ensures IsWanted(prog, prog[x].interfaces[i], r) ==> IsWanted(prog, x, r)
  {
    if IsWanted(prog, prog[x].interfaces[i], r) { assert ExtendsVia(prog, x, i, r.c); }
  }

  lemma FillableBelow(prog: seq<Decl>, ifs: seq<IfLinked>, base: int, x: int, i: int)
    requires Ordered(prog) && IfOrdered(prog) && 0 <= x < |prog| && 0 <= base < |prog| && 0 <= i < |prog[x].interfaces|
    requires Fillable(prog, ifs, base, x)
    ensures Fillable(prog, ifs, base, prog[x].interfaces[i])
    ensures Implemented(prog, base, x) ==> Implemented(prog, base, prog[x].interfaces[i])
  {
    hide CanEnter, Find;
    var d := prog[x].interfaces[i];
    forall r | IsWanted(prog, d, r) ensures IsWanted(prog, x, r) { WantedBelow(prog, x, i, r); }
  }

  lemma DoneIsImplemented(prog: seq<Decl>, ifs: seq<IfLinked>, base: int, t: Table, x: int)
    requires Ordered(prog) && IfOrdered(prog) && 0 <= x < |prog| && 0 <= base < |prog| && AllDone(prog, ifs, base, t, x)
    ensures Implemented(prog, base, x)
  {
    forall r | IsWanted(prog, x, r)
      ensures Find(prog, base, KeyOf(prog, r)).Some?
    {
      assert Right(prog, ifs, base, t, r);
    }
  }

  /** _findmethod; false if it reaches its assertion, which it does exactly if some method has no match. */
  method FindMethods(prog: seq<Decl>, linked: seq<Linked>, ifs: seq<IfLinked>, ghost total: int, base: int, t: Table,
                     x: int)
    returns (ok: bool, t': Table)
    requires CanFill(prog, linked, ifs, total, base) && 0 <= x < |ifs| && x < |prog| && Fillable(prog, ifs, base, x)
    requires |t| == ifs[base].itsize
    ensures ok <==> Implemented(prog, base, x)
    ensures KeepsRight(prog, ifs, base, t, t') && (ok ==> AllDone(prog, ifs, base, t', x))
    decreases x
  {
    hide LinkedOk, Right, Find, NoDuplicates, IfValid, SizesOk, CanEnter, Implemented, Fillable;
    t' := t;
    CanFillSizes(prog, linked, ifs, total, base);
    for i := 0 to |prog[x].interfaces|
      invariant KeepsRight(prog, ifs, base, t, t') && DoneTo(prog, ifs, base, t', x, i)
    {
      var d := prog[x].interfaces[i];
      ghost var before := t';
      FillableBelow(prog, ifs, base, x, i);
      ok, t' := FillInterface(prog, linked, ifs, total, base, t', x, i, d);
      KeepsTrans(prog, ifs, base, t, before, t');
      if !ok { return; }
      ghost var own := t';
      if |prog[d].interfaces| != 0 {
        ok, t' := FindMethods(prog, linked, ifs, total, base, t', d);
        KeepsTrans(prog, ifs, base, t, own, t');
        if !ok { return; }
      }
      StepDone(prog, ifs, base, before, own, t', x, i);
    }
    AllAreDone(prog, ifs, base, t', x);
    DoneIsImplemented(prog, ifs, base, t', x);
    ok := true;
  }

  lemma CanFillSizes(prog: seq<Decl>, linked: seq<Linked>, ifs: seq<IfLinked>, total: int, base: int)
    requires CanFill(prog, linked, ifs, total, base)
    ensures |ifs| <= |prog|
  {
  }

  lemma StepDone(prog: seq<Decl>, ifs: seq<IfLinked>, base: int, t: Table, t1: Table, t2: Table, x: int, i: int)
    requires Ordered(prog) && IfOrdered(prog) && 0 <= x < |prog| && base < |prog| && 0 <= i < |prog[x].interfaces|
    requires DoneTo(prog, ifs, base, t, x, i) && KeepsRight(prog, ifs, base, t, t1)
    requires forall r :: Virtual(prog, r) && r.c == prog[x].interfaces[i] ==> Right(prog, ifs, base, t1, r)
    requires var d := prog[x].interfaces[i];
             if prog[d].interfaces == [] then t2 == t1
             else KeepsRight(prog, ifs, base, t1, t2) && AllDone(prog, ifs, base, t2, d)
    ensures KeepsRight(prog, ifs, base, t, t2) && DoneTo(prog, ifs, base, t2, x, i + 1)
  {
    hide Right;
    var d := prog[x].interfaces[i];
    if |prog[d].interfaces| != 0 { KeepsTrans(prog, ifs, base, t, t1, t2); }
    forall j, r | 0 <= j < i + 1 && Virtual(prog, r) && ExtendsVia(prog, x, j, r.c)
      ensures Right(prog, ifs, base, t2, r)
    {
      if j < i {
        assert Right(prog, ifs, base, t, r);
      } else if r.c == d {
        assert Right(prog, ifs, base, t1, r);
      } else {
        assert IsWanted(prog, d, r);
      }
    }
  }

  lemma AllAreDone(prog: seq<Decl>, ifs: seq<IfLinked>, base: int, t: Table, x: int)
    requires Ordered(prog) && IfOrdered(prog) && 0 <= x < |prog| && base < |prog|
    requires DoneTo(prog, ifs, base, t, x, |prog[x].interfaces|)
    ensures AllDone(prog, ifs, base, t, x)
  {
    hide Right;
    forall r | IsWanted(prog, x, r) ensures Right(prog, ifs, base, t, r) {
      assert Extends(prog, x, r.c);
      var i :| 0 <= i < |prog[x].interfaces| && ExtendsVia(prog, x, i, r.c);
    }
  }

  /** The numbers of all methods that x has to provide lie in its table. */
  lemma {:induction false} ExtendsSize(prog: seq<Decl>, ifs: seq<IfLinked>, total: int, x: int, d: int)
    requires IfOrdered(prog) && 0 <= x < |ifs| <= |prog| && IfValid(prog, ifs, total) && Extends(prog, x, d)
    ensures 0 <= d < x && ifs[d].itsize <= ifs[x].itsize
    decreases x
  {
    var i :| 0 <= i < |prog[x].interfaces| && ExtendsVia(prog, x, i, d);
    assert SizesOk(prog, ifs, total, x);
    if prog[x].interfaces[i] != d { ExtendsSize(prog, ifs, total, prog[x].interfaces[i], d); }
  }

  lemma {:induction false} ChainSize(prog: seq<Decl>, ifs: seq<IfLinked>, total: int, c: int, s: int)
    requires Ordered(prog) && 0 <= c < |ifs| <= |prog| && IfValid(prog, ifs, total) && InChain(prog, c, s)
    requires forall a :: InChain(prog, c, a) ==> 0 <= a < |prog| && !prog[a].isInterface
    ensures 0 <= s <= c && ifs[s].itsize <= ifs[c].itsize
    decreases c
  {
    if s != c {
      ChainUp(prog, c, s);
      assert InChain(prog, c, c) && SizesOk(prog, ifs, total, c);
      forall a | InChain(prog, prog[c].super, a)
        ensures 0 <= a < |prog| && !prog[a].isInterface
      {
        assert InChain(prog, c, a);
      }
      ChainSize(prog, ifs, total, prog[c].super, s);
    }
  }

  lemma NumberFits(prog: seq<Decl>, ifs: seq<IfLinked>, total: int, c: int, s: int, r: Ref)
    requires Ordered(prog) && IfOrdered(prog) && 0 <= c < |ifs| <= |prog| && IfValid(prog, ifs, total)
    requires InChain(prog, c, s) && 0 <= s < |ifs|
    requires forall a :: InChain(prog, c, a) ==> 0 <= a < |prog| && !prog[a].isInterface
    requires IsWanted(prog, s, r) && IsIfMethod(prog, ifs, r)
    ensures 1 <= NumberOf(ifs, r) <= ifs[c].itsize
  {
    ExtendsSize(prog, ifs, total, s, r.c);
    ChainSize(prog, ifs, total, c, s);
    assert NumberOk(prog, ifs, total, r);
  }

  /** A table of ITsize words has room for every number that a class needs. */
  lemma ClassFillable(prog: seq<Decl>, ifs: seq<IfLinked>, total: int, c: int, s: int)
    requires Ordered(prog) && IfOrdered(prog) && 0 <= c < |ifs| <= |prog| && IfValid(prog, ifs, total)
    requires InChain(prog, c, s) && 0 <= s < |ifs|
    requires forall a :: InChain(prog, c, a) ==> 0 <= a < |prog| && !prog[a].isInterface
    requires NoStaticMatch(prog, c)
    ensures Fillable(prog, ifs, c, s)
  {
    hide Find, InChain;
    forall r | IsWanted(prog, s, r) ensures CanEnter(prog, ifs, c, r) {
      ExtendsNumbered(prog, ifs, total, s, r.c);
      assert IsIfMethod(prog, ifs, r);
      NumberFits(prog, ifs, total, c, s, r);
    }
  }

  lemma {:induction false} ExtendsNumbered(prog: seq<Decl>, ifs: seq<IfLinked>, total: int, x: int, d: int)
    requires IfOrdered(prog) && 0 <= x < |ifs| <= |prog| && IfValid(prog, ifs, total) && Extends(prog, x, d)
    ensures 0 <= d < x && prog[d].isInterface && |ifs[d].iidx| == |prog[d].methods|
    decreases x
  {
    var i :| 0 <= i < |prog[x].interfaces| && ExtendsVia(prog, x, i, d);
    if prog[x].interfaces[i] != d { ExtendsNumbered(prog, ifs, total, prog[x].interfaces[i], d); }
  }

  /** A search from class c for an interface method does not find a static method or a constructor. */
  ghost predicate NoStaticMatch(prog: seq<Decl>, c: int)
    requires Ordered(prog) && 0 <= c < |prog|
  {
    forall r :: Virtual(prog, r) && prog[r.c].isInterface ==> var f := Find(prog, c, KeyOf(prog, r)); f.Some? ==>
                                                                Virtual(prog, f.value)
  }

  /** All interfaces of class c and its superclasses are implemented. */
  ghost predicate Complete(prog: seq<Decl>, c: int)
    requires Ordered(prog) && IfOrdered(prog) && 0 <= c < |prog|
  {
    forall s :: InChain(prog, c, s) && 0 <= s < |prog| ==> Implemented(prog, c, s)
  }

  /** The table of class c is right for all of them. */
  ghost predicate TableRight(prog: seq<Decl>, ifs: seq<IfLinked>, c: int, t: Table)
    requires Ordered(prog) && IfOrdered(prog) && 0 <= c < |prog|
  {
    c < |ifs| && |t| == ifs[c].itsize && forall s :: InChain(prog, c, s) && 0 <= s < |prog| ==>
                                           AllDone(prog, ifs, c, t, s)
  }

  /** What a class needs to have its interface table built. */
  ghost predicate CanBuild(prog: seq<Decl>, linked: seq<Linked>, ifs: seq<IfLinked>, total: int, c: int)
  {
    && CanFill(prog, linked, ifs, total, c) && NoStaticMatch(prog, c)
    && forall a :: InChain(prog, c, a) ==> 0 <= a < |prog| && !prog[a].isInterface
  }

  /**
   * buildInterfaceTable: for every method of every interface that the class or one of its
   * superclasses implements, the entry at its number is what the search by name finds.  The
   * assertion that there is a match holds if and only if all those methods are implemented.
   */
  method BuildInterfaceTable(prog: seq<Decl>, linked: seq<Linked>, ifs: seq<IfLinked>, ghost total: int, c: int)
    returns (ok: bool, t: Table)
    requires CanBuild(prog, linked, ifs, total, c)
    ensures ok <==> Complete(prog, c)
    ensures ok ==> TableRight(prog, ifs, c, t)
  {
    hide LinkedOk, Right, NoDuplicates, IfValid, Implemented, AllDone, Fillable, NoStaticMatch;
    CanFillSizes(prog, linked, ifs, total, c);
    SizePositive(prog, ifs, total, c);
    t := seq(ifs[c].itsize, n => None);
    var s := c;
    ghost var done := {};
    while s >= 0
      invariant s <= c && (s >= 0 ==> InChain(prog, c, s)) && |t| == ifs[c].itsize
      invariant forall a :: a in done ==> 0 <= a < |prog| && AllDone(prog, ifs, c, t, a) && Implemented(prog, c, a)
      invariant forall a :: InChain(prog, c, a) ==> a in done || InChain(prog, s, a)
      decreases s
    {
      ghost var before := t;
      ClassFillable(prog, ifs, total, c, s);
      ok, t := FindMethods(prog, linked, ifs, total, c, t, s);
      if !ok { return; }
      forall a | a in done ensures AllDone(prog, ifs, c, t, a) { StillDone(prog, ifs, c, before, t, a); }
      done := done + {s};
      ChainStep(prog, c, s);
      s := prog[s].super;
    }
    ok := true;
  }

  lemma SizePositive(prog: seq<Decl>, ifs: seq<IfLinked>, total: int, c: int)
    requires 0 <= c < |ifs| && IfValid(prog, ifs, total)
    ensures ifs[c].itsize >= 0
  {
    assert SizesOk(prog, ifs, total, c);
  }

  lemma StillDone(prog: seq<Decl>, ifs: seq<IfLinked>, base: int, t: Table, t': Table, x: int)
    requires Ordered(prog) && IfOrdered(prog) && 0 <= x < |prog| && base < |prog| && AllDone(prog, ifs, base, t, x) &&
             KeepsRight(prog, ifs, base, t, t')
    ensures AllDone(prog, ifs, base, t', x)
  {
    hide Right;
    forall r | IsWanted(prog, x, r) ensures Right(prog, ifs, base, t', r) { assert Right(prog, ifs, base, t, r); }
  }

  lemma {:induction false} ChainStep(prog: seq<Decl>, c: int, s: int)
    requires Ordered(prog) && c < |prog| && InChain(prog, c, s)
    ensures 0 <= s <= c && (prog[s].super >= 0 ==> InChain(prog, c, prog[s].super))
    decreases c
  {
    if s != c { ChainStep(prog, prog[c].super, s); }
  }

  // ---------------------------------------------------------------------------
  // A whole hierarchy
  // ---------------------------------------------------------------------------

  /** Numbering more interfaces does not change what is right already. */
  lemma RightGrows(prog: seq<Decl>, ifs: seq<IfLinked>, l: IfLinked, base: int, t: Table, x: int)
    requires Ordered(prog) && IfOrdered(prog) && 0 <= x < |prog| && 0 <= base < |prog| && AllDone(prog, ifs, base, t, x)
    ensures AllDone(prog, ifs + [l], base, t, x)
  {
    hide Find;
    forall r | IsWanted(prog, x, r) ensures Right(prog, ifs + [l], base, t, r) { assert Right(prog, ifs, base, t, r); }
  }

  lemma TableGrows(prog: seq<Decl>, ifs: seq<IfLinked>, l: IfLinked, c: int, t: Table)
    requires Ordered(prog) && IfOrdered(prog) && 0 <= c < |prog| && TableRight(prog, ifs, c, t)
    ensures TableRight(prog, ifs + [l], c, t)
  {
    hide AllDone, InChain;
    forall s | InChain(prog, c, s) && 0 <= s < |prog|
      ensures AllDone(prog, ifs + [l], c, t, s)
    {
      RightGrows(prog, ifs, l, c, t, s);
    }
  }

  /** A program whose interfaces can be linked. */
  ghost predicate Linkable(prog: seq<Decl>)
  {
    WellFormed(prog) && IfOrdered(prog) && forall c :: 0 <= c < |prog| && !prog[c].isInterface ==>
                                             NoStaticMatch(prog, c)
  }

  lemma {:induction false} ChainOfClasses(prog: seq<Decl>, c: int, a: int)
    requires WellFormed(prog) && 0 <= c < |prog| && !prog[c].isInterface && InChain(prog, c, a)
    ensures 0 <= a < |prog| && !prog[a].isInterface
    decreases c
  {
    if a != c { ChainOfClasses(prog, prog[c].super, a); }
  }

  lemma CanBuildNow(prog: seq<Decl>, linked: seq<Linked>, ifs: seq<IfLinked>, total: int, c: int)
    requires Linkable(prog) && AllLinked(prog, linked) && IfValid(prog, ifs, total) && 0 <= c < |ifs| && c < |prog|
    requires !prog[c].isInterface
    ensures CanBuild(prog, linked, ifs, total, c)
  {
    hide LinkedOk, NoClash, NoStaticMatch, IfValid, InChain;
    assert LinkedOk(prog, linked, c);
    forall a | InChain(prog, c, a) ensures 0 <= a < |prog| && !prog[a].isInterface { ChainOfClasses(prog, c, a); }
  }

  lemma NothingNumbered(prog: seq<Decl>)
    ensures IfValid(prog, [], 1)
  {
  }

  /**
   * All classes and interfaces, in order: interfaces get their numbers, classes the size of
   * their interface table and then the table.  It ends early, at the assertion that there is
   * a match, if and only if some class leaves an interface method undefined.
   */
  method LinkInterfaces(prog: seq<Decl>, linked: seq<Linked>)
    returns (ok: bool, ifs: seq<IfLinked>, tables: seq<Table>, total: int)
    requires Linkable(prog) && AllLinked(prog, linked)
    ensures ok <==> forall c :: 0 <= c < |prog| && !prog[c].isInterface ==> Complete(prog, c)
    ensures ok ==> |ifs| == |tables| == |prog| && IfValid(prog, ifs, total)
    ensures ok ==> forall c :: 0 <= c < |prog| && !prog[c].isInterface ==> TableRight(prog, ifs, c, tables[c])
  {
    hide IfValid, NumberedTo, NoStaticMatch, LinkedOk, NoClash, TableRight, Complete, AllLinked, CanBuild;
    ifs, tables, total := [], [], 1;
    NothingNumbered(prog);
    for c := 0 to |prog|
      invariant |ifs| == |tables| == c && IfValid(prog, ifs, total)
      invariant forall d :: 0 <= d < c && !prog[d].isInterface ==>
                  Complete(prog, d) && TableRight(prog, ifs, d, tables[d])
    {
      var l, t := IfLinked(0, []), [];
      ghost var was := ifs;
      if prog[c].isInterface {
        ghost var total0 := total;
        l, total := NumberInterface(prog, ifs, c, total);
        NumberKeeps(prog, ifs, c, total0, l, total);
      } else {
        l := SizeClass(prog, ifs, c, total);
        CanBuildNow(prog, linked, ifs + [l], total, c);
        ok, t := BuildInterfaceTable(prog, linked, ifs + [l], total, c);
        if !ok { return; }
      }
      forall d | 0 <= d < c && !prog[d].isInterface
        ensures TableRight(prog, ifs + [l], d, tables[d])
      {
        TableGrows(prog, ifs, l, d, tables[d]);
      }
      ifs, tables := ifs + [l], tables + [t];
    }
    ok := true;
  }

  /** A class that leaves a method of its interface undefined reaches the assertion. */
  lemma UndefinedMethod()
    ensures var prog := [Decl(-1, [MethodDecl(7, false)], true, []), Decl(-1, [], false, [0])];
            Linkable(prog) && !Complete(prog, 1)
  {
    var prog := [Decl(-1, [MethodDecl(7, false)], true, []), Decl(-1, [], false, [0])];
    assert Ordered(prog) && IfOrdered(prog);
    forall c | 0 <= c < |prog| ensures NoClash(prog, c) {}
    assert ExtendsVia(prog, 1, 0, 0);
    assert IsWanted(prog, 1, Ref(0, 0)) && Find(prog, 1, 7) == None;
    assert InChain(prog, 1, 1) && !Implemented(prog, 1, 1);
    forall c | 0 <= c < |prog| && !prog[c].isInterface ensures NoStaticMatch(prog, c) {
      forall r | Virtual(prog, r) && prog[r.c].isInterface
        ensures Find(prog, 1, KeyOf(prog, r)) == None
      {
        assert Find(prog, -1, KeyOf(prog, r)) == None;
      }
    }
  }
}
