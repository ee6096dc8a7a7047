/**
 * Replacing a trampoline by translated code (src/runtime/classMethod.c): the new code
 * goes into exactly the dispatch tables that hold the method, although the search starts
 * anywhere among them and stops at the first class that overrides it.
 */
module Fixup {
  import opened Dispatch

  /** The table of class c holds method m at index x. */
  predicate Holds(linked: seq<Linked>, c: int, x: int, m: Ref)
    requires 0 <= c < |linked|
  {
    0 <= x < |linked[c].table| && linked[c].table[x] == m
  }

  /** A class that holds a method of another class inherits it from its superclass. */
  lemma HeldAbove(prog: seq<Decl>, linked: seq<Linked>, c: int, x: int, m: Ref)
    requires AllLinked(prog, linked) && 0 <= c < |prog| && Holds(linked, c, x, m) && m.c != c
    ensures prog[c].super >= 0 && Holds(linked, prog[c].super, x, m)
  {
    assert LinkedOk(prog, linked, c) && EntryOk(prog, linked, c, x);
    ChainUp(prog, c, m.c);
    var s := prog[c].super;
    assert LinkedOk(prog, linked, s) && Dispatches(prog, linked, s, m) && Dispatches(prog, linked, c, m);
    var k := Local(prog[c].methods, KeyOf(prog, m));
  }

  /** So every class that holds m is below the class that declares it, with holders all the way. */
  lemma {:induction false} HeldByDeclarer(prog: seq<Decl>, linked: seq<Linked>, c: int, x: int, m: Ref)
    requires AllLinked(prog, linked) && 0 <= c < |prog| && Holds(linked, c, x, m)
    ensures 0 <= m.c <= c && Holds(linked, m.c, x, m) && InChain(prog, c, m.c)
    decreases c
  {
    if m.c != c {
      HeldAbove(prog, linked, c, x, m);
      HeldByDeclarer(prog, linked, prog[c].super, x, m);
    }
  }

  /** code' is code with `ncode` at index x in exactly the classes of the set. */
  ghost predicate Patched(code: seq<seq<int>>, code': seq<seq<int>>, x: int, ncode: int, classes: iset<int>)
  {
    && |code'| == |code| && (forall c :: 0 <= c < |code| ==> |code'[c]| == |code[c]|)
    && forall c, y :: 0 <= c < |code| && 0 <= y < |code[c]| ==>
         code'[c][y] == if y == x && c in classes then ncode else code[c][y]
  }

  /** Classes at or below a that hold m at x. */
  ghost function HoldersBelow(prog: seq<Decl>, linked: seq<Linked>, a: int, x: int, m: Ref): iset<int>
    requires Ordered(prog) && |linked| == |prog|
  {
    iset c | 0 <= c < |prog| && InChain(prog, c, a) && Holds(linked, c, x, m)
  }

  /** The subclass list of a class: the classes whose superclass it is. */
  ghost predicate Children(prog: seq<Decl>, kids: seq<seq<int>>)
  {
    |kids| == |prog| && forall a :: 0 <= a < |prog| ==> forall c :: c in kids[a] <==>
                                                          0 <= c < |prog| && prog[c].super == a
  }

  ghost predicate CodeOk(linked: seq<Linked>, code: seq<seq<int>>)
  {
    |code| == |linked| && forall c :: 0 <= c < |code| ==> |code[c]| == |linked[c].table|
  }

  /** Between a holder and the declaring class every class is a holder. */
  lemma {:induction false} HeldBetween(prog: seq<Decl>, linked: seq<Linked>, e: int, c: int, x: int, m: Ref)
    requires AllLinked(prog, linked) && 0 <= e < |prog| && Holds(linked, e, x, m) && InChain(prog, e, c)
    requires 0 <= c < |prog| && InChain(prog, c, m.c)
    ensures Holds(linked, c, x, m)
    decreases e
  {
    ChainUp(prog, e, c);
    ChainUp(prog, c, m.c);
    if e != c {
      HeldAbove(prog, linked, e, x, m);
      HeldBetween(prog, linked, prog[e].super, c, x, m);
    }
  }

  /** A class strictly below c is at or below one of its subclasses. */
  lemma {:induction false} ViaChild(prog: seq<Decl>, kids: seq<seq<int>>, e: int, c: int) returns (k: int)
    requires Ordered(prog) && Children(prog, kids) && 0 <= e < |prog| && 0 <= c && InChain(prog, e, c) && e != c
    ensures c < k <= e && k in kids[c] && InChain(prog, e, k)
    decreases e
  {
    ChainUp(prog, e, c);
    if prog[e].super == c { k := e; } else { k := ViaChild(prog, kids, prog[e].super, c); }
  }

  lemma {:induction false} ChainTrans(prog: seq<Decl>, e: int, c: int, a: int)
    requires Ordered(prog) && e < |prog| && InChain(prog, e, c) && 0 <= c < |prog| && InChain(prog, c, a)
    ensures InChain(prog, e, a)
    decreases e
  {
    if e != c { ChainTrans(prog, prog[e].super, c, a); }
  }

  /** The holders at or below the first n subclasses in a list. */
  ghost function HoldersOf(prog: seq<Decl>, linked: seq<Linked>, ks: seq<int>, x: int, m: Ref): iset<int>
    requires Ordered(prog) && |linked| == |prog|
  {
    if ks == [] then iset{}
    else HoldersOf(prog, linked, ks[..|ks| - 1], x, m) + HoldersBelow(prog, linked, ks[|ks| - 1], x, m)
  }

  lemma {:induction false} HoldersOfMember(prog: seq<Decl>, linked: seq<Linked>, ks: seq<int>, x: int, m: Ref, e: int)
    requires Ordered(prog) && |linked| == |prog|
    ensures e in HoldersOf(prog, linked, ks, x, m) <==> exists k :: k in ks && e in HoldersBelow(prog, linked, k, x, m)
    decreases |ks|
  {
    if ks != [] {
      HoldersOfMember(prog, linked, ks[..|ks| - 1], x, m, e);
      assert ks == ks[..|ks| - 1] + [ks[|ks| - 1]];
    }
  }

  /** The holders below a class, as the recursion finds them. */
  lemma HoldersSplit(prog: seq<Decl>, linked: seq<Linked>, kids: seq<seq<int>>, c: int, x: int, m: Ref)
    requires AllLinked(prog, linked) && Children(prog, kids) && 0 <= c < |prog| && InChain(prog, c, m.c)
    ensures HoldersBelow(prog, linked, c, x, m) == if Holds(linked, c, x, m)
            then iset{c} + HoldersOf(prog, linked, kids[c], x, m) else iset{}
  {
    hide LinkedOk, Holds;
    forall e
      ensures e in HoldersBelow(prog, linked, c, x, m) <==>
              Holds(linked, c, x, m) && (e == c || e in HoldersOf(prog, linked, kids[c], x, m))
    {
      HoldersOfMember(prog, linked, kids[c], x, m, e);
      if e in HoldersBelow(prog, linked, c, x, m) {
        HeldBetween(prog, linked, e, c, x, m);
        if e != c { var k := ViaChild(prog, kids, e, c); }
      }
      if Holds(linked, c, x, m) && e in HoldersOf(prog, linked, kids[c], x, m) {
        var k :| k in kids[c] && e in HoldersBelow(prog, linked, k, x, m);
        ChainTrans(prog, e, k, c);
      }
    }
  }

  lemma PatchMore(code: seq<seq<int>>, code1: seq<seq<int>>, code2: seq<seq<int>>, x: int, ncode: int, a: iset<int>,
                  b: iset<int>)
    requires Patched(code, code1, x, ncode, a) && Patched(code1, code2, x, ncode, b)
    ensures Patched(code, code2, x, ncode, a + b)
  {
  }

  class CodeTables {
    const prog: seq<Decl>
    const linked: seq<Linked>
    const kids: seq<seq<int>>      // subclass lists
    var code: seq<seq<int>>        // the code in each dispatch table

    ghost predicate Valid()
      reads this
    {
      AllLinked(prog, linked) && Children(prog, kids) && CodeOk(linked, code)
    }

    /** _fixup_dispatch_table */
    method FixupTable(c: int, m: Ref, ncode: int, x: int)
      requires Valid() && 0 <= c < |prog| && InChain(prog, c, m.c)
      modifies this
      ensures Valid() && Patched(old(code), code, x, ncode, HoldersBelow(prog, linked, c, x, m))
      decreases |prog| - c
    {
      hide LinkedOk, HoldersBelow, HoldersOf, InChain, Patched, CodeOk;
      HoldersSplit(prog, linked, kids, c, x, m);
      PatchNone(code, x, ncode);
      if Holds(linked, c, x, m) {
        ghost var before := code;
        PatchOne(linked, code, c, x, ncode);
        code := code[c := code[c][x := ncode]];
        ghost var first := code;
        PatchNone(code, x, ncode);
        HoldersNone(prog, linked, kids[c], x, m);
        for n := 0 to |kids[c]|
          invariant Valid() && Patched(first, code, x, ncode, HoldersOf(prog, linked, kids[c][..n], x, m))
        {
          ghost var was := code;
          KidChain(prog, kids, c, kids[c][n], m.c);
          FixupTable(kids[c][n], m, ncode, x);
          HoldersNext(prog, linked, kids[c], n, x, m);
          PatchMore(first, was, code, x, ncode, HoldersOf(prog, linked, kids[c][..n], x, m),
                    HoldersBelow(prog, linked, kids[c][n], x, m));
        }
        assert kids[c][..|kids[c]|] == kids[c];
        PatchMore(before, first, code, x, ncode, iset{c}, HoldersOf(prog, linked, kids[c], x, m));
      }
    }

    /**
     * _fixupDispatchTable: climb to the class that declares the method, then go down.  Every
     * table that holds the method gets the new code, and nothing else changes.
     */
    method FixupDispatchTable(c: int, m: Ref, ncode: int, x: int)
      requires Valid() && 0 <= c < |prog| && Holds(linked, c, x, m)
      modifies this
      ensures Valid() && Patched(old(code), code, x, ncode, iset e | 0 <= e < |prog| && Holds(linked, e, x, m))
    {
      hide LinkedOk, Patched, InChain, CodeOk, Children;
      var temp := c;
      while prog[temp].super >= 0 && |linked[prog[temp].super].table| > x && linked[prog[temp].super].table[x] == m
        invariant 0 <= temp <= c && Holds(linked, temp, x, m)
        decreases temp
      {
        temp := prog[temp].super;
      }
      Climbed(prog, linked, temp, x, m);
      AllBelow(prog, linked, x, m);
      FixupTable(temp, m, ncode, x);
    }
  }

  /** The climb ends at the declaring class. */
  lemma Climbed(prog: seq<Decl>, linked: seq<Linked>, c: int, x: int, m: Ref)
    requires AllLinked(prog, linked) && 0 <= c < |prog| && Holds(linked, c, x, m)
    requires prog[c].super < 0 || !Holds(linked, prog[c].super, x, m)
    ensures c == m.c && InChain(prog, c, m.c)
  {
    if m.c != c { HeldAbove(prog, linked, c, x, m); }
  }

  lemma AllBelow(prog: seq<Decl>, linked: seq<Linked>, x: int, m: Ref)
    requires AllLinked(prog, linked)
    ensures HoldersBelow(prog, linked, m.c, x, m) == iset e | 0 <= e < |prog| && Holds(linked, e, x, m)
  {
    forall e | 0 <= e < |prog| && Holds(linked, e, x, m)
      ensures InChain(prog, e, m.c)
    {
      HeldByDeclarer(prog, linked, e, x, m);
    }
  }

  lemma PatchNone(code: seq<seq<int>>, x: int, ncode: int)
    ensures Patched(code, code, x, ncode, iset{})
  {
  }

  lemma PatchOne(linked: seq<Linked>, code: seq<seq<int>>, c: int, x: int, ncode: int)
    requires CodeOk(linked, code) && 0 <= c < |linked| && 0 <= x < |linked[c].table|
    ensures |code| == |linked| && |code[c]| == |linked[c].table|
    ensures var code' := code[c := code[c][x := ncode]];
            Patched(code, code', x, ncode, iset{c}) && CodeOk(linked, code')
  {
  }

  lemma KidChain(prog: seq<Decl>, kids: seq<seq<int>>, c: int, k: int, a: int)
    requires Ordered(prog) && Children(prog, kids) && 0 <= c < |prog| && k in kids[c] && InChain(prog, c, a)
    ensures c < k < |prog| && InChain(prog, k, a)
  {
  }

  lemma HoldersNone(prog: seq<Decl>, linked: seq<Linked>, ks: seq<int>, x: int, m: Ref)
    requires Ordered(prog) && |linked| == |prog|
    ensures HoldersOf(prog, linked, ks[..0], x, m) == iset{}
  {
  }

  lemma HoldersNext(prog: seq<Decl>, linked: seq<Linked>, ks: seq<int>, n: nat, x: int, m: Ref)
    requires Ordered(prog) && |linked| == |prog| && n < |ks|
    ensures HoldersOf(prog, linked, ks[..n + 1], x, m) ==
            HoldersOf(prog, linked, ks[..n], x, m) + HoldersBelow(prog, linked, ks[n], x, m)
  {
    assert ks[..n + 1][..n] == ks[..n];
  }
}
