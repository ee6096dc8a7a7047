/**
 * From bytecode to the events of the frame analysis (src/kaffejit/code-analyse.c and
 * code-analyse.h): the scan that finds the basic blocks and chains them, the walk over the
 * instructions of a block with the exception table, and what the analysis then says of
 * every instruction.  Program counters count instructions.
 */
module Bytecode {
  import opened Frames
  import FrameRuns

  /** What an instruction does to the active frame; stack cells are relative to the stack pointer. */
  datatype Op =
    | Push(n: int)                        // STKPUSH
    | Pop(n: int)                         // STKPOP
    | StackOut(s: int, t: Type)           // STACKOUT, STACKOUT_CONST
    | LocalOut(l: int, t: Type)           // LOCALOUT
    | StackOutLocal(s: int, l: int)       // STACKOUT_LOCAL
    | LocalOutStack(l: int, s: int)       // LOCALOUT_STACK
    | StackCopy(f: int, s: int)           // STACKCOPY
    | StackSwap(f: int, s: int)           // STACKSWAP
    | Branch(target: int)                 // FRAMEMERGE to a jump target, or past a conditional jump

  /** An instruction; `falls` unless it is a jump, a switch, a return or a throw. */
  datatype Insn = Insn(ops: seq<Op>, falls: bool)

  datatype Entry = Entry(start: int, end: int, handler: int)

  predicate Covers(e: Entry, pc: int) { e.start <= pc < e.end }

  datatype Bytes = Bytes(localsz: int, stacksz: int, code: seq<Insn>, table: seq<Entry>, args: seq<Type>) {
    function Size(): int { localsz + stacksz }
  }

  // ---------------------------------------------------------------------------
  // Basic blocks
  // ---------------------------------------------------------------------------

  /** The targets of the first k operations. */
  function TargetsOf(ops: seq<Op>, k: nat): seq<int>
    requires k <= |ops|
  {
    if k == 0 then [] else TargetsOf(ops, k - 1) + if ops[k - 1].Branch? then [ops[k - 1].target] else []
  }

  function Targets(code: seq<Insn>, p: nat): seq<int>
    requires p <= |code|
  {
    if p == 0 then [] else Targets(code, p - 1) + TargetsOf(code[p - 1].ops, |code[p - 1].ops|)
  }

  /** STARTOFBASICBLOCK */
  function Starts(m: Bytes): set<int> { set q | q in Targets(m.code, |m.code|) }

  predicate IsHandler(m: Bytes, pc: int) { exists e :: e in m.table && e.handler == pc }

  /** Where the walk over a block stops. */
  predicate IsBlock(m: Bytes, pc: int) { pc in Starts(m) || IsHandler(m, pc) }

  lemma {:induction false} TargetIn(ops: seq<Op>, k: nat, j: nat)
    requires j < k <= |ops| && ops[j].Branch?
    ensures ops[j].target in TargetsOf(ops, k)
    decreases k
  {
    if j < k - 1 { TargetIn(ops, k - 1, j); }
  }

  lemma {:induction false} TargetsIn(code: seq<Insn>, p: nat, pc: nat, j: nat)
    requires pc < p <= |code| && j < |code[pc].ops| && code[pc].ops[j].Branch?
    ensures code[pc].ops[j].target in Targets(code, p)
    decreases p
  {
    if pc < p - 1 { TargetsIn(code, p - 1, pc, j); } else { TargetIn(code[pc].ops, |code[pc].ops|, j); }
  }

  // ---------------------------------------------------------------------------
  // The block chain
  // ---------------------------------------------------------------------------

  /** The blocks attached for branch targets: each once, except the first block of the method. */
  function FirstTimes(targets: seq<int>): seq<int>
  {
    if targets == [] then [] else
      var q, before := targets[|targets| - 1], targets[..|targets| - 1];
      FirstTimes(before) + if q != 0 && q !in before then [q] else []
  }

  /** Neither the first block nor a branch target. */
  predicate Lone(m: Bytes, h: int) { h != 0 && h !in Starts(m) }

  /**
   * The blocks attached for the first n entries of the exception table: those that are no
   * branch targets, every time.
   */
  function HandlersUpTo(m: Bytes, n: nat): seq<int>
    requires n <= |m.table|
  {
    if n == 0 then [] else
      var h := m.table[n - 1].handler;
      HandlersUpTo(m, n - 1) + if Lone(m, h) then [h] else []
  }

  /** All blocks in the order in which they are attached. */
  function Attached(m: Bytes): seq<int>
  {
    [0] + FirstTimes(Targets(m.code, |m.code|)) + HandlersUpTo(m, |m.table|)
  }

  /** The nextBB links when each block of the list has been attached to the one before. */
  function Links(list: seq<int>): map<int, int>
  {
    if |list| <= 1 then map[] else Links(list[..|list| - 1])[list[|list| - 2] := list[|list| - 1]]
  }

  /** The loop over the chain, from the first block on, comes along these blocks and then ends. */
  ghost predicate Follows(next: map<int, int>, first: int, order: seq<int>)
  {
    && |order| > 0 && order[0] == first && order[|order| - 1] !in next
    && forall i :: 0 <= i < |order| - 1 ==> order[i] in next && next[order[i]] == order[i + 1]
  }

  ghost predicate Ends(next: map<int, int>, first: int) { exists order :: Follows(next, first, order) }

  ghost predicate Distinct(list: seq<int>) { forall i, j :: 0 <= i < j < |list| ==> list[i] != list[j] }

  /** The index of the last occurrence. */
  ghost function LastOf(list: seq<int>, x: int): (p: nat)
    requires x in list
    ensures p < |list| && list[p] == x && forall k :: p < k < |list| ==> list[k] != x
  {
    if list[|list| - 1] == x then |list| - 1 else LastOf(list[..|list| - 1], x)
  }

  /** A block's link leads to what was attached after its last occurrence. */
  lemma {:induction false} LinkIs(list: seq<int>, x: int)
    requires |list| > 0
    ensures x in Links(list) <==> x in list[..|list| - 1]
    ensures x in list[..|list| - 1] ==> Links(list)[x] == list[LastOf(list[..|list| - 1], x) + 1]
    decreases |list|
  {
    if |list| > 1 {
      var n := |list| - 1;
      LinkIs(list[..n], x);
      assert list[..n] == list[..n - 1] + [list[n - 1]] && list[..n][..n - 1] == list[..n - 1];
    }
  }

  /** The chain lists every block exactly once, in the order of attachment, if and only if none is attached twice. */
  lemma ChainExact(list: seq<int>)
    requires |list| > 0
    ensures Follows(Links(list), list[0], list) <==> Distinct(list)
  {
    var n := |list| - 1;
    LinkIs(list, list[n]);
    if Distinct(list) {
      forall i | 0 <= i < n ensures list[i] in Links(list) && Links(list)[list[i]] == list[i + 1] {
        LinkIs(list, list[i]);
        assert list[..n][i] == list[i];
      }
    } else {
      var i, j :| 0 <= i < j < |list| && list[i] == list[j];
      assert list[i + (n - j)] in list[..n];
      if Follows(Links(list), list[0], list) { SamePath(list, i, j, n - j); }
    }
  }

  lemma {:induction false} SamePath(list: seq<int>, i: nat, j: nat, d: nat)
    requires |list| > 0 && Follows(Links(list), list[0], list) && i < j && j + d < |list| && list[i] == list[j]
    ensures list[i + d] == list[j + d]
    decreases d
  {
    if d > 0 { SamePath(list, i, j, d - 1); }
  }

  /** The loop over the chain ends if and only if the last attached block was not attached before. */
  lemma ChainEnds(list: seq<int>)
    requires |list| > 0
    ensures Ends(Links(list), list[0]) <==> list[|list| - 1] !in list[..|list| - 1]
  {
    hide Links, Follows;
    if list[|list| - 1] in list[..|list| - 1] {
      forall order ensures !Follows(Links(list), list[0], order) { NeverOff(list, order); }
    } else {
      var order := Onwards(list, list[0]);
      assert Follows(Links(list), list[0], order);
    }
  }

  lemma NeverOff(list: seq<int>, order: seq<int>)
    requires |list| > 0 && list[|list| - 1] in list[..|list| - 1]
    ensures !Follows(Links(list), list[0], order)
  {
    hide Links;
    if Follows(Links(list), list[0], order) {
      LinkIs(list, order[|order| - 1]);
      AlwaysOn(list, order, |order| - 1);
    }
  }

  lemma {:induction false} AlwaysOn(list: seq<int>, order: seq<int>, i: nat)
    requires |list| > 0 && Follows(Links(list), list[0], order) && i < |order| && list[|list| - 1] in list[..|list| - 1]
    ensures order[i] in list[..|list| - 1]
    decreases i
  {
    var n := |list| - 1;
    assert list == list[..n] + [list[n]];
    if i > 0 {
      AlwaysOn(list, order, i - 1);
      LinkIs(list, order[i - 1]);
      assert list[LastOf(list[..n], order[i - 1]) + 1] in list;
    } else {
      assert list[0] in list;
    }
  }

  lemma {:induction false} Onwards(list: seq<int>, x: int) returns (order: seq<int>)
    requires x in list && list[|list| - 1] !in list[..|list| - 1]
    ensures Follows(Links(list), x, order)
    decreases |list| - LastOf(list, x)
  {
    var n := |list| - 1;
    LinkIs(list, x);
    if x in list[..n] {
      assert list == list[..n] + [list[n]];
      var p := LastOf(list[..n], x);
      assert LastOf(list, x) == p;
      var rest := Onwards(list, list[p + 1]);
      order := [x] + rest;
    } else {
      order := [x];
    }
  }

  /** Every block is attached. */
  lemma {:induction false} FirstTimesAre(targets: seq<int>)
    ensures forall q :: q in FirstTimes(targets) <==> q in targets && q != 0
    ensures Distinct(FirstTimes(targets))
    decreases |targets|
  {
    if targets != [] {
      var n := |targets| - 1;
      FirstTimesAre(targets[..n]);
      assert targets == targets[..n] + [targets[n]];
    }
  }

  /** Among the first n entries, no two share a handler that is not also a branch target. */
  predicate OneEntryEach(m: Bytes, n: nat)
    requires n <= |m.table|
  {
    forall i, j :: 0 <= i < j < n && m.table[i].handler == m.table[j].handler ==> !Lone(m, m.table[j].handler)
  }

  lemma {:induction false} HandlersAre(m: Bytes, n: nat, h: int)
    requires n <= |m.table|
    ensures h in HandlersUpTo(m, n) <==> Lone(m, h) && exists i :: 0 <= i < n && m.table[i].handler == h
    decreases n
  {
    hide Lone;
    if n > 0 {
      HandlersAre(m, n - 1, h);
      if i :| 0 <= i < n && m.table[i].handler == h { assert i < n - 1 || i == n - 1; }
    }
  }

  lemma {:induction false} HandlersOnce(m: Bytes, n: nat)
    requires n <= |m.table|
    ensures Distinct(HandlersUpTo(m, n)) <==> OneEntryEach(m, n)
    decreases n
  {
    hide Lone;
    if n > 0 {
      HandlersOnce(m, n - 1);
      var before, h := HandlersUpTo(m, n - 1), m.table[n - 1].handler;
      HandlersAre(m, n - 1, h);
      hide Distinct;
      if Lone(m, h) { DistinctMore(before, h); } else { assert HandlersUpTo(m, n) == before; }
    }
  }

  lemma DistinctMore(list: seq<int>, x: int)
    ensures Distinct(list + [x]) <==> Distinct(list) && x !in list
  {
    var longer := list + [x];
    assert forall i :: 0 <= i < |list| ==> longer[i] == list[i];
    assert longer[|list|] == x;
  }

  lemma DistinctJoin(a: seq<int>, b: seq<int>)
    requires Distinct(a) && forall x :: x in a ==> x !in b
    ensures Distinct(a + b) <==> Distinct(b)
  {
    var c := a + b;
    assert forall i :: 0 <= i < |b| ==> c[|a| + i] == b[i];
    assert forall i :: 0 <= i < |a| ==> c[i] == a[i] && c[i] in a;
  }

  /**
   * The loop over the block chain meets every block exactly once if and only if no two entries
   * of the exception table share a handler that is not also a branch target.
   */
  lemma ChainListsAll(m: Bytes)
    ensures Follows(Links(Attached(m)), 0, Attached(m)) <==> OneEntryEach(m, |m.table|)
    ensures forall q :: q in Attached(m) <==> q == 0 || IsBlock(m, q)
  {
    hide Distinct, Follows, IsBlock, FirstTimes, HandlersUpTo, OneEntryEach, Links, Targets;
    var first, handlers := FirstTimes(Targets(m.code, |m.code|)), HandlersUpTo(m, |m.table|);
    FirstTimesAre(Targets(m.code, |m.code|));
    HandlersOnce(m, |m.table|);
    forall h ensures h in handlers <==> Lone(m, h) && IsHandler(m, h) { HandlersAre(m, |m.table|, h); }
    OneIsDistinct(0);
    DistinctJoin([0], first);
    DistinctJoin([0] + first, handlers);
    ChainExact(Attached(m));
    forall q ensures q in Attached(m) <==> q == 0 || IsBlock(m, q) { BlockIs(m, q); }
  }

  lemma OneIsDistinct(x: int)
    ensures Distinct([x])
  {
  }

  lemma BlockIs(m: Bytes, q: int)
    ensures IsBlock(m, q) <==> q in Starts(m) || IsHandler(m, q)
  {
  }

  /** With such a handler in the last entry, the loop over the chain does not end. */
  lemma SharedHandlerHangs(m: Bytes, j: nat)
    requires j < |m.table| - 1 && m.table[j].handler == m.table[|m.table| - 1].handler
    requires Lone(m, m.table[j].handler)
    ensures !Ends(Links(Attached(m)), 0)
  {
    hide Ends, Links, FirstTimes, Targets, Lone;
    var list, n := Attached(m), |Attached(m)| - 1;
    HandlersAre(m, |m.table| - 1, m.table[j].handler);
    assert list[..n] == [0] + FirstTimes(Targets(m.code, |m.code|)) + HandlersUpTo(m, |m.table| - 1);
    assert m.table[j].handler in HandlersUpTo(m, |m.table| - 1);
    ChainEnds(list);
  }

  /** There is one way along the links. */
  lemma {:induction false} SameChain(next: map<int, int>, first: int, a: seq<int>, b: seq<int>, i: nat)
    requires Follows(next, first, a) && Follows(next, first, b) && i < |a|
    ensures i < |b| && a[i] == b[i]
    decreases i
  {
    if i > 0 { SameChain(next, first, a, b, i - 1); }
  }

  /** Without such handlers the chain is the list of all blocks. */
  lemma WholeChain(m: Bytes, chain: seq<int>)
    requires OneEntryEach(m, |m.table|) && Follows(Links(Attached(m)), 0, chain)
    ensures chain == Attached(m)
  {
    var next, list := Links(Attached(m)), Attached(m);
    ChainListsAll(m);
    SameChain(next, 0, chain, list, |chain| - 1);
    SameChain(next, 0, list, chain, |list| - 1);
    hide Follows, Links, OneEntryEach;
    forall i | 0 <= i < |chain| ensures chain[i] == list[i] { SameChain(next, 0, chain, list, i); }
  }

  /** With them a chain may end and yet leave out a block: handlers 1, 2, 1 and 3 are chained as 1 and 3. */
  lemma ChainSkips(m: Bytes)
    requires Targets(m.code, |m.code|) == [] && |m.table| == 4
    requires m.table[0].handler == 1 && m.table[1].handler == 2 && m.table[2].handler == 1 && m.table[3].handler == 3
    ensures Attached(m) == [0, 1, 2, 1, 3] && IsBlock(m, 2) && Follows(Links(Attached(m)), 0, [0, 1, 3])
  {
    hide Links;
    assert FirstTimes([]) == [] && HandlersUpTo(m, 1) == [1] && HandlersUpTo(m, 2) == [1, 2];
    assert HandlersUpTo(m, 3) == [1, 2, 1] && HandlersUpTo(m, 4) == [1, 2, 1, 3];
    assert m.table[1] in m.table;
    SkippingLinks();
  }

  lemma SkippingLinks()
    ensures Links([0, 1, 2, 1, 3]) == map[0 := 1, 1 := 3, 2 := 1]
  {
    hide Links;
    NoLinks(0);
    MoreLinks([0], 1);
    MoreLinks([0, 1], 2);
    MoreLinks([0, 1, 2], 1);
    MoreLinks([0, 1, 2, 1], 3);
    assert [0] + [1] == [0, 1] && [0, 1] + [2] == [0, 1, 2] && [0, 1, 2] + [1] == [0, 1, 2, 1];
    assert [0, 1, 2, 1] + [3] == [0, 1, 2, 1, 3];
  }

  lemma NoLinks(q: int)
    ensures Links([q]) == map[]
  {
  }

  lemma MoreLinks(list: seq<int>, q: int)
    requires |list| > 0
    ensures Links(list + [q]) == Links(list)[list[|list| - 1] := q]
  {
    assert (list + [q])[..|list|] == list;
  }

  // ---------------------------------------------------------------------------
  // The walk over a block
  // ---------------------------------------------------------------------------

  /** The merges of locals into the handlers of the first n table entries that cover pc. */
  function HandlerEvents(m: Bytes, pc: int, n: nat): seq<Event>
    requires n <= |m.table|
  {
    if n == 0 then [] else
      HandlerEvents(m, pc, n - 1) + if Covers(m.table[n - 1], pc) then [MergeLocals(m.table[n - 1].handler)] else []
  }

  function SpStep(op: Op, sp: int): int { match op case Push(n) => sp - n case Pop(n) => sp + n case _ => sp }

  /** The stack pointer after k operations. */
  function SpAfter(ops: seq<Op>, sp: int, k: nat): int
    requires k <= |ops|
  {
    if k == 0 then sp else SpStep(ops[k - 1], SpAfter(ops, sp, k - 1))
  }

  function OpEvent(op: Op, sp: int): seq<Event>
  {
    match op
    case Push(_) => []
    case Pop(_) => []
    case StackOut(s, t) => [Put(sp + s, t)]
    case LocalOut(l, t) => [Put(l, t)]
    case StackOutLocal(s, l) => [Copy(l, sp + s)]
    case LocalOutStack(l, s) => [Copy(sp + s, l)]
    case StackCopy(f, s) => [Copy(sp + f, sp + s)]
    case StackSwap(f, s) => [Swap(sp + f, sp + s)]
    case Branch(c) => [Merge(c, sp)]
  }

  function OpEvents(ops: seq<Op>, sp: int, k: nat): seq<Event>
    requires k <= |ops|
  {
    if k == 0 then [] else OpEvents(ops, sp, k - 1) + OpEvent(ops[k - 1], SpAfter(ops, sp, k - 1))
  }

  /** What verifyBasicBlock does from pc on, with this stack pointer. */
  ghost function Walk(m: Bytes, pc: nat, sp: int): seq<Event>
    requires pc < |m.code|
    decreases |m.code| - pc
  {
    var ops := m.code[pc].ops;
    var sp' := SpAfter(ops, sp, |ops|);
    HandlerEvents(m, pc, |m.table|) + OpEvents(ops, sp, |ops|) +
    if pc + 1 == |m.code| then []
    else if !IsBlock(m, pc + 1) then Walk(m, pc + 1, sp')
    else if m.code[pc].falls then [Merge(pc + 1, sp')]
    else []
  }

  lemma WalkStep(m: Bytes, pc: nat, sp: int)
    requires pc < |m.code|
    ensures var ops := m.code[pc].ops;
            var here := HandlerEvents(m, pc, |m.table|) + OpEvents(ops, sp, |ops|);
            var sp' := SpAfter(ops, sp, |ops|);
            && (pc + 1 < |m.code| && !IsBlock(m, pc + 1) ==> Walk(m, pc, sp) == here + Walk(m, pc + 1, sp'))
            && (pc + 1 < |m.code| && IsBlock(m, pc + 1) && m.code[pc].falls ==>
                 Walk(m, pc, sp) == here + [Merge(pc + 1, sp')])
            && (pc + 1 == |m.code| || (IsBlock(m, pc + 1) && !m.code[pc].falls) ==> Walk(m, pc, sp) == here)
  {
  }

  /** The loop over the exception table. */
  method CoveringEvents(m: Bytes, pc: int) returns (events: seq<Event>)
    ensures events == HandlerEvents(m, pc, |m.table|)
  {
    events := [];
    for i := 0 to |m.table|
      invariant events == HandlerEvents(m, pc, i)
    {
      if Covers(m.table[i], pc) { events := events + [MergeLocals(m.table[i].handler)]; }
    }
  }

  /** The switch of verifyBasicBlock on one instruction. */
  method InsnEvents(ops: seq<Op>, sp0: int) returns (events: seq<Event>, sp: int)
    ensures events == OpEvents(ops, sp0, |ops|) && sp == SpAfter(ops, sp0, |ops|)
  {
    events, sp := [], sp0;
    for k := 0 to |ops|
      invariant events == OpEvents(ops, sp0, k) && sp == SpAfter(ops, sp0, k)
    {
      events := events + OpEvent(ops[k], sp);
      sp := SpStep(ops[k], sp);
    }
  }

  /** The do loop of verifyBasicBlock, and the merge into the next block after it. */
  method BlockEvents(m: Bytes, start: nat, depth: int) returns (events: seq<Event>)
    requires start < |m.code|
    ensures events == Walk(m, start, depth)
  {
    hide Walk, HandlerEvents, OpEvents, SpAfter, IsBlock;
    var pc, sp := start, depth;
    events := [];
    while true
      invariant pc < |m.code| && Walk(m, start, depth) == events + Walk(m, pc, sp)
      decreases |m.code| - pc
    {
      WalkStep(m, pc, sp);
      ghost var before := events;
      var handlers := CoveringEvents(m, pc);
      var ops, sp' := InsnEvents(m.code[pc].ops, sp);
      events := events + (handlers + ops);
      if pc + 1 == |m.code| { return; }
      if IsBlock(m, pc + 1) {
        if m.code[pc].falls {
          events := events + [Merge(pc + 1, sp')];
          assert before + (handlers + ops + [Merge(pc + 1, sp')]) == events;
        }
        return;
      }
      assert before + (handlers + ops + Walk(m, pc + 1, sp')) == events + Walk(m, pc + 1, sp');
      pc, sp := pc + 1, sp';
    }
  }

  // ---------------------------------------------------------------------------
  // What the analysis says of the instructions
  // ---------------------------------------------------------------------------

  /** The active frame and the stack pointer. */
  datatype State = State(frame: Frame, sp: int)

  /** One operation, on the cells of the frame. */
  function Exec(op: Op, st: State): State
  {
    var f, sp := st.frame, st.sp;
    match op
    case Push(n) => State(f, sp - n)
    case Pop(n) => State(f, sp + n)
    case StackOut(s, t) => if 0 <= sp + s < |f| then State(f[sp + s := t], sp) else st
    case LocalOut(l, t) => if 0 <= l < |f| then State(f[l := t], sp) else st
    case StackOutLocal(s, l) => if 0 <= sp + s < |f| && 0 <= l < |f| then State(f[sp + s := f[l]], sp) else st
    case LocalOutStack(l, s) => if 0 <= sp + s < |f| && 0 <= l < |f| then State(f[l := f[sp + s]], sp) else st
    case StackCopy(a, b) => if 0 <= sp + a < |f| && 0 <= sp + b < |f| then State(f[sp + b := f[sp + a]], sp) else st
    case StackSwap(a, b) =>
      if 0 <= sp + a < |f| && 0 <= sp + b < |f| then State(f[sp + b := f[sp + a]][sp + a := f[sp + b]], sp) else st
    case Branch(_) => st
  }

  function ExecTo(ops: seq<Op>, st: State, k: nat): State
    requires k <= |ops|
  {
    if k == 0 then st else Exec(ops[k - 1], ExecTo(ops, st, k - 1))
  }

  datatype Spot = Spot(pc: int, st: State)

  /** The instructions of a block from pc on, each with the state before it. */
  ghost function Trace(m: Bytes, pc: nat, st: State): seq<Spot>
    requires pc < |m.code|
    decreases |m.code| - pc
  {
    [Spot(pc, st)] +
    if pc + 1 < |m.code| && !IsBlock(m, pc + 1)
        then Trace(m, pc + 1, ExecTo(m.code[pc].ops, st, |m.code[pc].ops|)) else []
  }

  /**
   * The frame of block c is above this one, on the locals and the stack from sp on, and the
   * block has been processed exactly if it is on the chain.
   */
  ghost predicate Arrives(m: Bytes, t: Table, chain: seq<int>, f: Frame, c: int, sp: int)
  {
    && 0 <= c < |t.done| && c < |t.frames| && (t.done[c] <==> c in chain) && |t.frames[c]| == |f|
    && (forall i :: 0 <= i < m.localsz && i < |f| ==> Leq(f[i], t.frames[c][i]))
    && (forall i :: 0 <= i < |f| && sp <= i ==> Leq(f[i], t.frames[c][i]))
  }

  lemma ArrivesBelow(m: Bytes, t: Table, chain: seq<int>, f: Frame, c: int, sp: int)
    requires 0 <= c < |t.done| && c < |t.frames|
    ensures Arrives(m, t, chain, f, c, sp) <==> (t.done[c] <==> c in chain) && Below(f, t.frames[c], m.localsz, sp)
  {
    if Below(f, t.frames[c], m.localsz, sp) {
      forall i | 0 <= i < |f| && (i < m.localsz || sp <= i) ensures Leq(f[i], t.frames[c][i]) {
        assert Seen(m.localsz, sp, i);
      }
    }
  }

  /** The locals before the instruction arrive at every handler that covers it. */
  ghost predicate HandlersArrive(m: Bytes, t: Table, chain: seq<int>, spot: Spot)
  {
    forall i :: 0 <= i < |m.table| && m.table[i].start <= spot.pc < m.table[i].end ==>
      Arrives(m, t, chain, spot.st.frame, m.table[i].handler, m.Size())
  }

  /** The frame at each of its jumps arrives at the target. */
  ghost predicate BranchesArrive(m: Bytes, t: Table, chain: seq<int>, spot: Spot)
    requires 0 <= spot.pc < |m.code|
  {
    var ops := m.code[spot.pc].ops;
    forall k :: 0 <= k < |ops| && ops[k].Branch? ==>
      Arrives(m, t, chain, ExecTo(ops, spot.st, k).frame, ops[k].target, ExecTo(ops, spot.st, k).sp)
  }

  /** If the block ends here and control flows on, the frame after the instruction arrives at the next block. */
  ghost predicate FlowArrives(m: Bytes, t: Table, chain: seq<int>, spot: Spot)
    requires 0 <= spot.pc < |m.code|
  {
    var ops := m.code[spot.pc].ops;
    spot.pc + 1 < |m.code| && IsBlock(m, spot.pc + 1) && m.code[spot.pc].falls ==>
      Arrives(m, t, chain, ExecTo(ops, spot.st, |ops|).frame, spot.pc + 1, ExecTo(ops, spot.st, |ops|).sp)
  }

  ghost predicate SpotSound(m: Bytes, t: Table, chain: seq<int>, spot: Spot)
  {
    0 <= spot.pc < |m.code| && HandlersArrive(m, t, chain, spot) && BranchesArrive(m, t, chain, spot) &&
        FlowArrives(m, t, chain, spot)
  }

  /** So it is at every instruction of every processed block. */
  ghost predicate Sound(m: Bytes, depth: seq<int>, t: Table, chain: seq<int>)
  {
    && |t.done| == |t.frames| == |depth| == |m.code|
    && forall b, i :: 0 <= b < |m.code| && t.done[b] && 0 <= i < |Trace(m, b, State(t.frames[b], depth[b]))| ==>
         SpotSound(m, t, chain, Trace(m, b, State(t.frames[b], depth[b]))[i])
  }

  /** Every merge of the events arrives. */
  ghost predicate MergesArrive(m: Bytes, t: Table, chain: seq<int>, es: seq<Event>, f: Frame)
  {
    forall j :: 0 <= j < |es| && IsMerge(es[j]) ==>
      Arrives(m, t, chain, Active(es, f, j), es[j].target, if es[j].Merge? then es[j].sp else m.Size())
  }

  /** The events from k on begin with these. */
  ghost predicate Next(es: seq<Event>, k: nat, part: seq<Event>) { k + |part| <= |es| && es[k..k + |part|] == part }

  lemma NextJoin(es: seq<Event>, k: nat, a: seq<Event>, b: seq<Event>)
    ensures Next(es, k, a + b) <==> Next(es, k, a) && Next(es, k + |a|, b)
  {
    if k + |a| + |b| <= |es| {
      assert es[k..k + |a| + |b|] == es[k..k + |a|] + es[k + |a|..k + |a| + |b|];
      assert (a + b)[..|a|] == a && (a + b)[|a|..] == b;
    }
  }

  /** The merges into handlers leave the active frame alone, and each covering entry has one. */
  lemma {:induction false} AtHandlers(m: Bytes, t: Table, chain: seq<int>, es: seq<Event>, f: Frame, k: nat, pc: int,
                                      n: nat)
    requires MergesArrive(m, t, chain, es, f) && n <= |m.table| && Next(es, k, HandlerEvents(m, pc, n))
    ensures Active(es, f, k + |HandlerEvents(m, pc, n)|) == Active(es, f, k)
    ensures forall i :: 0 <= i < n && Covers(m.table[i], pc) ==>
              Arrives(m, t, chain, Active(es, f, k), m.table[i].handler, m.Size())
    decreases n
  {
    hide MergesArrive, Active, Next, Arrives;
    if n > 0 {
      var before := HandlerEvents(m, pc, n - 1);
      var last := if Covers(m.table[n - 1], pc) then [MergeLocals(m.table[n - 1].handler)] else [];
      NextJoin(es, k, before, last);
      AtHandlers(m, t, chain, es, f, k, pc, n - 1);
      if Covers(m.table[n - 1], pc) { AtHandler(m, t, chain, es, f, k + |before|, m.table[n - 1].handler); }
    }
  }

  lemma AtHandler(m: Bytes, t: Table, chain: seq<int>, es: seq<Event>, f: Frame, k: nat, h: int)
    requires MergesArrive(m, t, chain, es, f) && Next(es, k, [MergeLocals(h)])
    ensures Active(es, f, k + 1) == Active(es, f, k) && Arrives(m, t, chain, Active(es, f, k), h, m.Size())
  {
    assert es[k..k + 1][0] == MergeLocals(h);
    ActiveNext(es, f, k);
  }

  /** The events of an instruction do what its operations do. */
  lemma {:induction false} AtOps(es: seq<Event>, f: Frame, k: nat, ops: seq<Op>, st: State, n: nat)
    requires n <= |ops| && Next(es, k, OpEvents(ops, st.sp, n)) && Active(es, f, k) == st.frame
    ensures Active(es, f, k + |OpEvents(ops, st.sp, n)|) == ExecTo(ops, st, n).frame
    ensures ExecTo(ops, st, n).sp == SpAfter(ops, st.sp, n)
    decreases n
  {
    hide Active, Next, OpEvent, Exec, SpStep;
    if n > 0 {
      var before, last := OpEvents(ops, st.sp, n - 1), OpEvent(ops[n - 1], SpAfter(ops, st.sp, n - 1));
      NextJoin(es, k, before, last);
      AtOps(es, f, k, ops, st, n - 1);
      OneOp(es, f, k + |before|, ops[n - 1], ExecTo(ops, st, n - 1));
    }
  }

  lemma OneOp(es: seq<Event>, f: Frame, k: nat, op: Op, st: State)
    requires Next(es, k, OpEvent(op, st.sp)) && Active(es, f, k) == st.frame
    ensures Active(es, f, k + |OpEvent(op, st.sp)|) == Exec(op, st).frame && Exec(op, st).sp == SpStep(op, st.sp)
    ensures op.Branch? ==> k < |es| && es[k] == Merge(op.target, st.sp)
  {
    var part := OpEvent(op, st.sp);
    if part != [] {
      assert es[k..k + 1][0] == part[0];
      ActiveNext(es, f, k);
    }
  }

  lemma {:induction false} OpsPrefix(es: seq<Event>, k: nat, ops: seq<Op>, sp: int, j: nat, n: nat)
    requires j < n <= |ops| && Next(es, k, OpEvents(ops, sp, n))
    ensures Next(es, k, OpEvents(ops, sp, j))
    ensures Next(es, k + |OpEvents(ops, sp, j)|, OpEvent(ops[j], SpAfter(ops, sp, j)))
    decreases n
  {
    NextJoin(es, k, OpEvents(ops, sp, n - 1), OpEvent(ops[n - 1], SpAfter(ops, sp, n - 1)));
    if j < n - 1 { OpsPrefix(es, k, ops, sp, j, n - 1); }
  }

  lemma AtBranches(m: Bytes, t: Table, chain: seq<int>, es: seq<Event>, f: Frame, k: nat, spot: Spot)
    requires MergesArrive(m, t, chain, es, f) && 0 <= spot.pc < |m.code|
    requires Next(es, k, OpEvents(m.code[spot.pc].ops, spot.st.sp, |m.code[spot.pc].ops|))
    requires Active(es, f, k) == spot.st.frame
    ensures BranchesArrive(m, t, chain, spot)
  {
    hide Active, OpEvents, SpAfter, ExecTo, OpEvent, Arrives, Next;
    var ops, st := m.code[spot.pc].ops, spot.st;
    forall j | 0 <= j < |ops| && ops[j].Branch?
      ensures Arrives(m, t, chain, ExecTo(ops, st, j).frame, ops[j].target, ExecTo(ops, st, j).sp)
    {
      OpsPrefix(es, k, ops, st.sp, j, |ops|);
      AtOps(es, f, k, ops, st, j);
      AtBranch(m, t, chain, es, f, k + |OpEvents(ops, st.sp, j)|, ops[j], ExecTo(ops, st, j));
    }
  }

  lemma AtBranch(m: Bytes, t: Table, chain: seq<int>, es: seq<Event>, f: Frame, k: nat, op: Op, st: State)
    requires MergesArrive(m, t, chain, es, f) && op.Branch? && Next(es, k, OpEvent(op, st.sp))
    requires Active(es, f, k) == st.frame
    ensures Arrives(m, t, chain, st.frame, op.target, st.sp)
  {
    hide Arrives, Active, Next, OpEvent;
    OneOp(es, f, k, op, st);
  }

  /** If every merge of a block's events arrives, so does what each instruction of the block passes on. */
  lemma {:induction false} WalkArrives(m: Bytes, t: Table, chain: seq<int>, es: seq<Event>, f: Frame, k: nat, pc: nat,
                                       st: State)
    requires MergesArrive(m, t, chain, es, f) && pc < |m.code| && Next(es, k, Walk(m, pc, st.sp))
    requires Active(es, f, k) == st.frame
    ensures forall i :: 0 <= i < |Trace(m, pc, st)| ==> SpotSound(m, t, chain, Trace(m, pc, st)[i])
    decreases |m.code| - pc
  {
    hide MergesArrive, Active, Next, HandlerEvents, OpEvents, SpAfter, ExecTo, IsBlock, Arrives, Walk, BranchesArrive;
    var ops := m.code[pc].ops;
    var handlers, events, end := HandlerEvents(m, pc, |m.table|), OpEvents(ops, st.sp, |ops|), ExecTo(ops, st, |ops|);
    var k1, k2 := k + |handlers|, k + |handlers + events|;
    WalkStep(m, pc, st.sp);
    WalkNext(m, es, k, pc, st.sp);
    AtHandlers(m, t, chain, es, f, k, pc, |m.table|);
    AtBranches(m, t, chain, es, f, k1, Spot(pc, st));
    AtOps(es, f, k1, ops, st, |ops|);
    if pc + 1 < |m.code| && !IsBlock(m, pc + 1) {
      WalkArrives(m, t, chain, es, f, k2, pc + 1, end);
    } else if pc + 1 < |m.code| && m.code[pc].falls {
      AtFlow(m, t, chain, es, f, k2, pc + 1, end);
    }
  }

  lemma WalkNext(m: Bytes, es: seq<Event>, k: nat, pc: nat, sp: int)
    requires pc < |m.code| && Next(es, k, Walk(m, pc, sp))
    ensures var ops := m.code[pc].ops;
            var handlers, events, sp' := HandlerEvents(m, pc, |m.table|), OpEvents(ops, sp, |ops|),
                SpAfter(ops, sp, |ops|);
            && Next(es, k, handlers) && Next(es, k + |handlers|, events)
            && (pc + 1 < |m.code| && !IsBlock(m, pc + 1) ==> Next(es, k + |handlers + events|, Walk(m, pc + 1, sp')))
            && (pc + 1 < |m.code| && IsBlock(m, pc + 1) && m.code[pc].falls ==>
                 Next(es, k + |handlers + events|, [Merge(pc + 1, sp')]))
  {
    hide Next, HandlerEvents, OpEvents, SpAfter, IsBlock, Walk;
    WalkStep(m, pc, sp);
    var ops := m.code[pc].ops;
    var handlers, events, sp' := HandlerEvents(m, pc, |m.table|), OpEvents(ops, sp, |ops|), SpAfter(ops, sp, |ops|);
    NextJoin(es, k, handlers, events);
    if pc + 1 < |m.code| && !IsBlock(m, pc + 1) {
      NextJoin(es, k, handlers + events, Walk(m, pc + 1, sp'));
    } else if pc + 1 < |m.code| && m.code[pc].falls {
      NextJoin(es, k, handlers + events, [Merge(pc + 1, sp')]);
    }
  }

  lemma AtFlow(m: Bytes, t: Table, chain: seq<int>, es: seq<Event>, f: Frame, k: nat, c: int, st: State)
    requires MergesArrive(m, t, chain, es, f) && Next(es, k, [Merge(c, st.sp)]) && Active(es, f, k) == st.frame
    ensures Arrives(m, t, chain, st.frame, c, st.sp)
  {
    assert es[k..k + 1][0] == Merge(c, st.sp);
  }

  // And the other way round: if all that arrives, every merge of the events does.

  ghost predicate EventArrives(m: Bytes, t: Table, chain: seq<int>, es: seq<Event>, f: Frame, j: int)
    requires 0 <= j < |es|
  {
    IsMerge(es[j]) ==>
      Arrives(m, t, chain, Active(es, f, j), es[j].target, if es[j].Merge? then es[j].sp else m.Size())
  }

  lemma {:induction false} FromHandlers(m: Bytes, t: Table, chain: seq<int>, es: seq<Event>, f: Frame, k: nat, pc: int,
                                        n: nat)
    requires n <= |m.table| && Next(es, k, HandlerEvents(m, pc, n))
    requires forall i :: 0 <= i < n && m.table[i].start <= pc < m.table[i].end ==>
               Arrives(m, t, chain, Active(es, f, k), m.table[i].handler, m.Size())
    ensures Active(es, f, k + |HandlerEvents(m, pc, n)|) == Active(es, f, k)
    ensures forall j :: k <= j < k + |HandlerEvents(m, pc, n)| ==> EventArrives(m, t, chain, es, f, j)
    decreases n
  {
    hide Active, Next, Arrives;
    if n > 0 {
      var before := HandlerEvents(m, pc, n - 1);
      var last := if Covers(m.table[n - 1], pc) then [MergeLocals(m.table[n - 1].handler)] else [];
      NextJoin(es, k, before, last);
      FromHandlers(m, t, chain, es, f, k, pc, n - 1);
      if Covers(m.table[n - 1], pc) { OneMerge(es, f, k + |before|, last[0]); }
    }
  }

  lemma OneMerge(es: seq<Event>, f: Frame, k: nat, e: Event)
    requires Next(es, k, [e]) && IsMerge(e)
    ensures es[k] == e && Active(es, f, k + 1) == Active(es, f, k)
  {
    assert es[k..k + 1][0] == e;
    ActiveNext(es, f, k);
  }

  lemma {:induction false} FromOps(m: Bytes, t: Table, chain: seq<int>, es: seq<Event>, f: Frame, k: nat, ops: seq<Op>,
                                   st: State, n: nat)
    requires n <= |ops| && Next(es, k, OpEvents(ops, st.sp, n)) && Active(es, f, k) == st.frame
    requires forall q :: 0 <= q < n && ops[q].Branch? ==>
               Arrives(m, t, chain, ExecTo(ops, st, q).frame, ops[q].target, ExecTo(ops, st, q).sp)
    ensures forall j :: k <= j < k + |OpEvents(ops, st.sp, n)| ==> EventArrives(m, t, chain, es, f, j)
    decreases n
  {
    hide Active, Next, Arrives, Exec, ExecTo, SpAfter;
    if n > 0 {
      var before, last := OpEvents(ops, st.sp, n - 1), OpEvent(ops[n - 1], SpAfter(ops, st.sp, n - 1));
      NextJoin(es, k, before, last);
      FromOps(m, t, chain, es, f, k, ops, st, n - 1);
      AtOps(es, f, k, ops, st, n - 1);
      FromOp(m, t, chain, es, f, k + |before|, ops[n - 1], ExecTo(ops, st, n - 1));
    }
  }

  lemma FromOp(m: Bytes, t: Table, chain: seq<int>, es: seq<Event>, f: Frame, k: nat, op: Op, st: State)
    requires Next(es, k, OpEvent(op, st.sp)) && Active(es, f, k) == st.frame
    requires op.Branch? ==> Arrives(m, t, chain, st.frame, op.target, st.sp)
    ensures |OpEvent(op, st.sp)| <= 1 && (OpEvent(op, st.sp) != [] ==> EventArrives(m, t, chain, es, f, k))
  {
    hide Active, Arrives;
    if OpEvent(op, st.sp) != [] { assert es[k..k + 1][0] == OpEvent(op, st.sp)[0]; }
  }

  lemma {:induction false} FromWalk(m: Bytes, t: Table, chain: seq<int>, es: seq<Event>, f: Frame, k: nat, pc: nat,
                                    st: State)
    requires pc < |m.code| && Next(es, k, Walk(m, pc, st.sp)) && Active(es, f, k) == st.frame
    requires forall i :: 0 <= i < |Trace(m, pc, st)| ==> SpotSound(m, t, chain, Trace(m, pc, st)[i])
    ensures forall j :: k <= j < k + |Walk(m, pc, st.sp)| ==> EventArrives(m, t, chain, es, f, j)
    decreases |m.code| - pc
  {
    hide EventArrives, Active, Next, HandlerEvents, OpEvents, SpAfter, ExecTo, IsBlock, Arrives, Walk;
    var ops := m.code[pc].ops;
    var handlers, events, end := HandlerEvents(m, pc, |m.table|), OpEvents(ops, st.sp, |ops|), ExecTo(ops, st, |ops|);
    var k1, k2 := k + |handlers|, k + |handlers + events|;
    assert SpotSound(m, t, chain, Trace(m, pc, st)[0]);
    WalkStep(m, pc, st.sp);
    WalkNext(m, es, k, pc, st.sp);
    FromHandlers(m, t, chain, es, f, k, pc, |m.table|);
    FromOps(m, t, chain, es, f, k1, ops, st, |ops|);
    AtOps(es, f, k1, ops, st, |ops|);
    if pc + 1 < |m.code| && !IsBlock(m, pc + 1) {
      var next := Trace(m, pc + 1, end);
      forall i | 0 <= i < |next| ensures SpotSound(m, t, chain, next[i]) { assert Trace(m, pc, st)[i + 1] == next[i]; }
      FromWalk(m, t, chain, es, f, k2, pc + 1, end);
    } else if pc + 1 < |m.code| && m.code[pc].falls {
      FromFlow(m, t, chain, es, f, k2, pc + 1, end);
    }
  }

  lemma FromFlow(m: Bytes, t: Table, chain: seq<int>, es: seq<Event>, f: Frame, k: nat, c: int, st: State)
    requires Next(es, k, [Merge(c, st.sp)]) && Active(es, f, k) == st.frame && Arrives(m, t, chain, st.frame, c, st.sp)
    ensures EventArrives(m, t, chain, es, f, k)
  {
    assert es[k..k + 1][0] == Merge(c, st.sp);
  }

  // ---------------------------------------------------------------------------
  // The whole analysis
  // ---------------------------------------------------------------------------

  /** The method as the analysis sees it, with this block chain; blocks are numbered by their first instruction. */
  ghost function CodeOf(m: Bytes, depth: seq<int>, chain: seq<int>): Code
    requires |depth| == |m.code|
  {
    Code(m.localsz, m.stacksz,
         seq(|m.code|, pc requires 0 <= pc < |m.code| =>
           if pc == 0 || IsBlock(m, pc) then Walk(m, pc, depth[pc]) else []),
         chain)
  }

  /** The loop over the block chain comes along these blocks, and ends. */
  ghost predicate IsChain(m: Bytes, chain: seq<int>) { Follows(Links(Attached(m)), 0, chain) }

  /** TOBJ */
  const OBJ := Concrete(3)

  /** What the starting frames hold: the arguments, and an object on the stack of each handler. */
  function InitialFrame(m: Bytes, pc: int): Frame
    requires 0 <= m.Size()
  {
    var blank := seq(m.Size(), _ => Unassigned);
    var stack := if IsHandler(m, pc) && m.Size() > 0 then blank[m.Size() - 1 := OBJ] else blank;
    if pc == 0 then seq(m.Size(), i requires 0 <= i < m.Size() => if i < |m.args| then m.args[i] else stack[i])
        else stack
  }

  function InitialFrames(m: Bytes): seq<Frame>
    requires 0 <= m.Size()
  {
    seq(|m.code|, pc => InitialFrame(m, pc))
  }

  /**
   * Blocks start inside the code, the instructions stay inside the frame, and the stack depth
   * at the start of a block does not depend on the way that led there.
   */
  ghost predicate WellFormed(m: Bytes, depth: seq<int>)
  {
    && 0 <= m.localsz && 0 <= m.stacksz && |m.args| <= m.localsz && |m.code| == |depth| > 0
    && (forall q :: IsBlock(m, q) ==> 0 <= q < |m.code|)
    && depth[0] == m.Size() && (forall q :: 0 < q < |depth| && IsHandler(m, q) ==> depth[q] == m.Size() - 1)
    && (forall b, k :: 0 <= b < |m.code| && 0 <= k < |CodeOf(m, depth, []).blocks[b]| ==>
          EventFits(m, depth, CodeOf(m, depth, []).blocks[b][k]))
  }

  ghost predicate EventFits(m: Bytes, depth: seq<int>, e: Event)
    requires |depth| == |m.code|
  {
    CodeOf(m, depth, []).EventOk(e) && (e.Merge? ==> e.sp == depth[e.target])
  }

  lemma CodeValid(m: Bytes, depth: seq<int>, chain: seq<int>)
    requires WellFormed(m, depth) && IsChain(m, chain)
    ensures CodeOf(m, depth, chain).Valid() && CanStart(CodeOf(m, depth, chain), InitialFrames(m))
    ensures forall b :: b in chain ==> 0 <= b < |m.code| && (b == 0 || IsBlock(m, b))
  {
    hide Walk, Attached, IsBlock, Links;
    var code := CodeOf(m, depth, chain);
    ChainListsAll(m);
    NotEmpty(m);
    forall b, k | 0 <= b < |code.blocks| && 0 <= k < |code.blocks[b]| ensures code.EventOk(code.blocks[b][k]) {
      assert code.blocks == CodeOf(m, depth, []).blocks;
      assert EventFits(m, depth, CodeOf(m, depth, []).blocks[b][k]);
    }
    forall b | b in chain ensures b in Attached(m) {
      var i :| 0 <= i < |chain| && chain[i] == b;
      OnTheList(Attached(m), chain, i);
    }
    forall i | 0 <= i < |code.order| ensures 0 <= code.order[i] < |code.blocks| { assert chain[i] in chain; }
    assert chain[0] in chain;
  }

  /** A chain that ends consists of attached blocks. */
  lemma {:induction false} OnTheList(list: seq<int>, order: seq<int>, i: nat)
    requires |list| > 0 && Follows(Links(list), list[0], order) && i < |order|
    ensures order[i] in list
    decreases i
  {
    hide Links;
    if i > 0 {
      OnTheList(list, order, i - 1);
      LinkIs(list, order[i - 1]);
    }
  }

  /**
   * A post-fixpoint of the events is one of the bytecode: at every instruction of every
   * processed block, what control flow or an exception carries on is below the frame of the
   * block where it arrives.
   */
  lemma PostFixpointSound(m: Bytes, depth: seq<int>, t: Table, chain: seq<int>)
    requires WellFormed(m, depth) && PostFixpoint(CodeOf(m, depth, chain), t)
    requires forall b :: 0 <= b < |t.done| && t.done[b] ==> b == 0 || IsBlock(m, b)
    ensures Sound(m, depth, t, chain)
  {
    hide Walk, Attached, IsBlock, Active, SpotSound, Trace;
    var code := CodeOf(m, depth, chain);
    forall b, i | 0 <= b < |m.code| && t.done[b] && 0 <= i < |Trace(m, b, State(t.frames[b], depth[b]))|
      ensures SpotSound(m, t, chain, Trace(m, b, State(t.frames[b], depth[b]))[i])
    {
      var es, f := code.blocks[b], t.frames[b];
      forall j | 0 <= j < |es| && IsMerge(es[j])
        ensures Arrives(m, t, chain, Active(es, f, j), es[j].target, if es[j].Merge? then es[j].sp else m.Size())
      {
        assert Contained(code, t.frames, b, f, j) && TargetDone(code, t, code.blocks[b][j]);
        ArrivesBelow(m, t, chain, Active(es, f, j), es[j].target, if es[j].Merge? then es[j].sp else m.Size());
      }
      assert es[0..|es|] == es;
      ActiveStart(es, f);
      WalkArrives(m, t, chain, es, f, 0, b, State(f, depth[b]));
    }
  }

  lemma ActiveStart(es: seq<Event>, f: Frame)
    ensures Active(es, f, 0) == f
  {
  }

  /** The links and the tail when these blocks have been attached. */
  ghost predicate Chained(list: seq<int>, next: map<int, int>, tail: int)
  {
    |list| > 0 && next == Links(list) && tail == list[|list| - 1]
  }

  /** ATTACH_NEW_BASICBLOCK */
  lemma Attach(list: seq<int>, next: map<int, int>, tail: int, q: int)
    requires Chained(list, next, tail)
    ensures Chained(list + [q], next[tail := q], q)
  {
    MoreLinks(list, q);
  }

  lemma {:induction false} MoreTargets(targets: seq<int>, q: int)
    ensures [0] + FirstTimes(targets + [q]) == [0] + FirstTimes(targets) + if q != 0 && q !in targets then [q] else []
  {
    var all := targets + [q];
    assert all[..|all| - 1] == targets && all[|all| - 1] == q;
    assert FirstTimes(all) == FirstTimes(targets) + if q != 0 && q !in targets then [q] else [];
    hide FirstTimes;
  }

  /** The scan of one instruction. */
  method ScanInsn(ops: seq<Op>, ghost before: seq<int>, starts0: set<int>, next0: map<int, int>, tail0: int)
    returns (starts: set<int>, next: map<int, int>, tail: int)
    requires Chained([0] + FirstTimes(before), next0, tail0) && starts0 == set q | q in before
    ensures var all := before + TargetsOf(ops, |ops|);
            Chained([0] + FirstTimes(all), next, tail) && starts == set q | q in all
  {
    hide Chained, FirstTimes;
    starts, next, tail := starts0, next0, tail0;
    ghost var all := before;
    assert before + [] == before;
    for k := 0 to |ops|
      invariant all == before + TargetsOf(ops, k)
      invariant Chained([0] + FirstTimes(all), next, tail) && starts == set q | q in all
    {
      if ops[k].Branch? {
        var q := ops[k].target;
        MoreTargets(all, q);
        Attach([0] + FirstTimes(all), next, tail, q);
        if q != 0 && q !in starts {
          next, tail := next[tail := q], q;
        } else {
          assert [0] + FirstTimes(all) + [] == [0] + FirstTimes(all);
        }
        starts, all := starts + {q}, all + [q];
      } else {
        assert TargetsOf(ops, k + 1) == TargetsOf(ops, k);
      }
    }
  }

  /** The scan over the code and the exception table that marks the blocks and links them. */
  method FindBlocks(m: Bytes) returns (starts: set<int>, next: map<int, int>)
    ensures starts == Starts(m) && next == Links(Attached(m))
  {
    hide Chained, FirstTimes, TargetsOf, HandlersUpTo, Links;
    var tail := 0;
    starts, next := {}, map[];
    ChainStart();
    for p := 0 to |m.code|
      invariant Chained([0] + FirstTimes(Targets(m.code, p)), next, tail) && starts == set q | q in Targets(m.code, p)
    {
      starts, next, tail := ScanInsn(m.code[p].ops, Targets(m.code, p), starts, next, tail);
    }
    next, tail := ScanTable(m, starts, next, tail);
    ChainLinks(Attached(m), next, tail);
  }

  lemma ChainStart()
    ensures Chained([0] + FirstTimes([]), map[], 0)
  {
    assert [0] + FirstTimes([]) == [0];
  }

  lemma ChainLinks(list: seq<int>, next: map<int, int>, tail: int)
    requires Chained(list, next, tail)
    ensures next == Links(list)
  {
  }

  /** The scan of the exception table. */
  method ScanTable(m: Bytes, starts: set<int>, next0: map<int, int>, tail0: int)
    returns (next: map<int, int>, tail: int)
    requires Chained([0] + FirstTimes(Targets(m.code, |m.code|)), next0, tail0) && starts == Starts(m)
    ensures Chained(Attached(m), next, tail)
  {
    hide Chained, FirstTimes, Targets, Starts;
    next, tail := next0, tail0;
    ghost var list := [0] + FirstTimes(Targets(m.code, |m.code|));
    assert list + [] == list;
    for i := 0 to |m.table|
      invariant Chained(list + HandlersUpTo(m, i), next, tail)
    {
      var h := m.table[i].handler;
      Attach(list + HandlersUpTo(m, i), next, tail, h);
      if h != 0 && h !in starts {
        next, tail := next[tail := h], h;
        assert list + (HandlersUpTo(m, i) + [h]) == list + HandlersUpTo(m, i) + [h];
      } else {
        assert HandlersUpTo(m, i + 1) == HandlersUpTo(m, i);
      }
    }
  }

  /** The loop over the chain, where it ends. */
  method ChainOrder(next: map<int, int>, ghost list: seq<int>) returns (order: seq<int>)
    requires Follows(next, 0, list)
    ensures order == list
  {
    var b := 0;
    order := [0];
    while b in next
      invariant 0 < |order| <= |list| && order == list[..|order|] && b == order[|order| - 1]
      decreases |list| - |order|
    {
      b := next[b];
      order := order + [b];
    }
  }

  /** After n passes no block of the chain is flagged. */
  ghost predicate RestsAfter(m: Bytes, depth: seq<int>, chain: seq<int>, n: nat)
    requires WellFormed(m, depth) && IsChain(m, chain)
  {
    CodeValid(m, depth, chain);
    FrameRuns.RestsAfter(CodeOf(m, depth, chain), InitialFrames(m), n)
  }

  lemma RestsIs(m: Bytes, depth: seq<int>, chain: seq<int>, passes: nat)
    requires WellFormed(m, depth) && IsChain(m, chain)
    ensures var code, initial := CodeOf(m, depth, chain), InitialFrames(m);
            && CanStart(code, initial) && Sizes(code, Start(code, initial))
            && (RestsWithin(m, depth, chain, passes) <==>
                  exists i :: 0 <= i < passes && Idle(code, Passes(code, Start(code, initial), i)))
  {
    hide CodeOf, InitialFrames, Passes, Idle, EventFits, IsBlock, IsChain;
    CodeValid(m, depth, chain);
    var code, initial := CodeOf(m, depth, chain), InitialFrames(m);
    if i :| 0 <= i < passes && RestsAfter(m, depth, chain, i) {
      assert Idle(code, Passes(code, Start(code, initial), i));
    }
    if i :| 0 <= i < passes && Idle(code, Passes(code, Start(code, initial), i)) {
      assert RestsAfter(m, depth, chain, i);
    }
  }

  ghost predicate RestsWithin(m: Bytes, depth: seq<int>, chain: seq<int>, passes: nat)
    requires WellFormed(m, depth) && IsChain(m, chain)
  {
    exists i :: 0 <= i < passes && RestsAfter(m, depth, chain, i)
  }

  lemma EndSound(m: Bytes, depth: seq<int>, chain: seq<int>, n: nat)
    requires WellFormed(m, depth) && IsChain(m, chain) && RestsAfter(m, depth, chain, n)
    ensures CanStart(CodeOf(m, depth, chain), InitialFrames(m))
    ensures var t := Passes(CodeOf(m, depth, chain), Start(CodeOf(m, depth, chain), InitialFrames(m)), n);
            Sound(m, depth, t, chain) && |t.done| > 0 && t.done[0]
  {
    hide Walk, IsBlock, Attached, Passes, Sound, EventFits, Idle, PostFixpoint, IsChain;
    var code, initial := CodeOf(m, depth, chain), InitialFrames(m);
    CodeValid(m, depth, chain);
    var t := Passes(code, Start(code, initial), n);
    FrameRuns.RunKeeps(code, initial, n);
    NoneNeeded(code, t);
    FrameRuns.IdleIsQuiet(code, t);
    assert FrameRuns.Pending(code, t, 0) <==> t.need[0];
    forall b | 0 <= b < |t.done| && t.done[b] ensures b == 0 || IsBlock(m, b) { assert b in code.order; }
    PostFixpointSound(m, depth, t, chain);
  }

  // ---------------------------------------------------------------------------
  // The result is the least one
  // ---------------------------------------------------------------------------

  /**
   * Frames that have the arguments in the locals of the first block, and an object in the last
   * stack cell of every handler, unless an argument of the first block takes its place.
   */
  ghost predicate Begins(m: Bytes, frames: seq<Frame>)
  {
    && |frames| == |m.code| > 0 && (forall b :: 0 <= b < |frames| ==> |frames[b]| == m.Size())
    && |m.args| <= m.Size() && (forall i :: 0 <= i < |m.args| ==> Leq(m.args[i], frames[0][i]))
    && (forall k :: 0 <= k < |m.table| ==> HasObject(m, frames, m.table[k].handler))
  }

  ghost predicate HasObject(m: Bytes, frames: seq<Frame>, h: int)
  {
    0 <= h < |frames| && |frames[h]| == m.Size() > 0 && (h != 0 || |m.args| < m.Size()) ==>
      Leq(OBJ, frames[h][m.Size() - 1])
  }

  /** A solution: it begins like that, the first block is processed, and all that arrives is contained. */
  ghost predicate Solves(m: Bytes, depth: seq<int>, chain: seq<int>, u: Table)
  {
    && Begins(m, u.frames) && |u.done| == |m.code| && u.done[0]
    && (forall b :: 0 <= b < |u.done| && u.done[b] ==> b in chain)
    && Sound(m, depth, u, chain)
  }

  /** Table u has processed at least the blocks that t has, and their frames are above those of t. */
  ghost predicate AtMost(t: Table, u: Table)
  {
    && |t.done| == |u.done| == |t.frames| == |u.frames|
    && forall b :: 0 <= b < |t.done| && t.done[b] ==> u.done[b] && Frames.Grows(t.frames[b], u.frames[b])
  }

  lemma InitialIs(m: Bytes, frames: seq<Frame>)
    requires 0 <= m.localsz && 0 <= m.stacksz && |m.args| <= m.localsz
    requires |frames| == |m.code| > 0 && forall b :: 0 <= b < |frames| ==> |frames[b]| == m.Size()
    ensures Begins(m, frames) <==> forall b :: 0 <= b < |frames| ==> Frames.Grows(InitialFrame(m, b), frames[b])
  {
    if Begins(m, frames) {
      forall b | 0 <= b < |frames| ensures Frames.Grows(InitialFrame(m, b), frames[b]) { FromBegins(m, frames, b); }
    }
    if forall b :: 0 <= b < |frames| ==> Frames.Grows(InitialFrame(m, b), frames[b]) {
      assert Frames.Grows(InitialFrame(m, 0), frames[0]);
      forall i | 0 <= i < |m.args| ensures Leq(m.args[i], frames[0][i]) { assert InitialFrame(m, 0)[i] == m.args[i]; }
      forall k | 0 <= k < |m.table| ensures HasObject(m, frames, m.table[k].handler) { HandlerBegins(m, frames, k); }
    }
  }

  lemma FromBegins(m: Bytes, frames: seq<Frame>, b: int)
    requires Begins(m, frames) && 0 <= b < |frames|
    ensures Frames.Grows(InitialFrame(m, b), frames[b])
  {
    var f := InitialFrame(m, b);
    forall i | 0 <= i < |f| ensures Leq(f[i], frames[b][i]) {
      if IsHandler(m, b) && f[i] == OBJ && i == m.Size() - 1 {
        var e :| e in m.table && e.handler == b;
        var k :| 0 <= k < |m.table| && m.table[k] == e;
        assert HasObject(m, frames, m.table[k].handler);
      }
    }
  }

  lemma HandlerBegins(m: Bytes, frames: seq<Frame>, k: int)
    requires 0 <= m.localsz && 0 <= m.stacksz && 0 <= k < |m.table|
    requires forall b :: 0 <= b < |frames| ==> Frames.Grows(InitialFrame(m, b), frames[b])
    ensures HasObject(m, frames, m.table[k].handler)
  {
    var h := m.table[k].handler;
    if 0 <= h < |frames| && |frames[h]| == m.Size() > 0 && (h != 0 || |m.args| < m.Size()) {
      assert m.table[k] in m.table && IsHandler(m, h);
      assert InitialFrame(m, h)[m.Size() - 1] == OBJ && Frames.Grows(InitialFrame(m, h), frames[h]);
    }
  }

  /** A solution in terms of instructions is one of the flow equations. */
  lemma SolvesFlow(m: Bytes, depth: seq<int>, chain: seq<int>, u: Table)
    requires WellFormed(m, depth) && IsChain(m, chain) && Solves(m, depth, chain, u)
    ensures FrameRuns.Solution(CodeOf(m, depth, chain), InitialFrames(m), FrameRuns.DoneSet(u), u.frames)
  {
    hide Walk, IsBlock, Trace, SpotSound, IsChain, EventFits, InitialFrame, Begins, Frames.Grows, Active, Below;
    var code, initial, reached := CodeOf(m, depth, chain), InitialFrames(m), FrameRuns.DoneSet(u);
    CodeValid(m, depth, chain);
    BeginsSizes(m, u.frames);
    InitialIs(m, u.frames);
    forall b, k | b in reached && 0 <= k < |code.blocks[b]| ensures FrameRuns.Flows(code, reached, u.frames, b, k) {
      EventFlows(m, depth, chain, u, b, k);
    }
  }

  lemma BeginsSizes(m: Bytes, frames: seq<Frame>)
    requires Begins(m, frames)
    ensures |frames| == |m.code| > 0 && forall b :: 0 <= b < |frames| ==> |frames[b]| == m.Size()
  {
  }

  lemma EventFlows(m: Bytes, depth: seq<int>, chain: seq<int>, u: Table, b: int, k: int)
    requires WellFormed(m, depth) && IsChain(m, chain) && Solves(m, depth, chain, u)
    requires 0 <= b < |u.done| && u.done[b] && 0 <= k < |CodeOf(m, depth, chain).blocks[b]|
    ensures FrameRuns.Flows(CodeOf(m, depth, chain), FrameRuns.DoneSet(u), u.frames, b, k)
  {
    hide Walk, IsBlock, Trace, SpotSound, IsChain, EventFits, Begins, Active, Below, Arrives;
    BeginsSizes(m, u.frames);
    CodeValid(m, depth, chain);
    var code, f := CodeOf(m, depth, chain), u.frames[b];
    var es := code.blocks[b];
    var trace := Trace(m, b, State(f, depth[b]));
    forall i | 0 <= i < |trace| ensures SpotSound(m, u, chain, trace[i]) {}
    assert es == Walk(m, b, depth[b]) && es[0..|es|] == es;
    ActiveStart(es, f);
    FromWalk(m, u, chain, es, f, 0, b, State(f, depth[b]));
    assert EventArrives(m, u, chain, es, f, k);
    if IsMerge(es[k]) { FlowsFrom(m, depth, chain, u, b, k); }
  }

  lemma FlowsFrom(m: Bytes, depth: seq<int>, chain: seq<int>, u: Table, b: int, k: int)
    requires WellFormed(m, depth) && |u.frames| == |u.done| == |m.code| && 0 <= b < |u.done|
    requires 0 <= k < |CodeOf(m, depth, chain).blocks[b]| && IsMerge(CodeOf(m, depth, chain).blocks[b][k])
    requires EventArrives(m, u, chain, CodeOf(m, depth, chain).blocks[b], u.frames[b], k)
    ensures FrameRuns.Flows(CodeOf(m, depth, chain), FrameRuns.DoneSet(u), u.frames, b, k)
  {
    hide Walk, IsBlock, Active, Below, EventFits;
    var code := CodeOf(m, depth, chain);
    var es, f := code.blocks[b], u.frames[b];
    ArrivesBelow(m, u, chain, Active(es, f, k), es[k].target, if es[k].Merge? then es[k].sp else m.Size());
  }

  /** What the analysis has when it rests is a solution, and at most every other one. */
  lemma RestSolves(m: Bytes, depth: seq<int>, chain: seq<int>, n: nat)
    requires WellFormed(m, depth) && IsChain(m, chain) && RestsAfter(m, depth, chain, n)
    ensures CanStart(CodeOf(m, depth, chain), InitialFrames(m))
    ensures var t := Passes(CodeOf(m, depth, chain), Start(CodeOf(m, depth, chain), InitialFrames(m)), n);
            Solves(m, depth, chain, t) && forall u :: Solves(m, depth, chain, u) ==> AtMost(t, u)
  {
    hide Walk, IsBlock, IsChain, EventFits, Passes, Sound, Begins, Solves, InitialFrame, Frames.Grows, Idle;
    var code, initial := CodeOf(m, depth, chain), InitialFrames(m);
    CodeValid(m, depth, chain);
    EndSound(m, depth, chain, n);
    var t := Passes(code, Start(code, initial), n);
    FrameRuns.RunKeeps(code, initial, n);
    SolvesNow(m, depth, chain, t);
    forall u | Solves(m, depth, chain, u) ensures AtMost(t, u) {
      SolvesFlow(m, depth, chain, u);
      FrameRuns.StartUnder(code, initial, FrameRuns.DoneSet(u), u.frames);
      FrameRuns.PassesUnder(code, initial, Start(code, initial), FrameRuns.DoneSet(u), u.frames, n);
      UnderAtMost(code, t, chain, u, m, depth);
    }
  }

  lemma SolvesNow(m: Bytes, depth: seq<int>, chain: seq<int>, t: Table)
    requires WellFormed(m, depth) && CanStart(CodeOf(m, depth, chain), InitialFrames(m))
    requires Inv(CodeOf(m, depth, chain), t)
    requires FrameRuns.Later(Start(CodeOf(m, depth, chain), InitialFrames(m)), t) && Sound(m, depth, t, chain)
    requires |t.done| > 0 && t.done[0]
    ensures Solves(m, depth, chain, t)
  {
    hide Walk, IsBlock, EventFits, Sound, InitialFrame, Frames.Grows, Begins, Settled, Noted;
    InitialIs(m, t.frames);
    forall b | 0 <= b < |t.frames| ensures Frames.Grows(InitialFrame(m, b), t.frames[b]) {
      assert Start(CodeOf(m, depth, chain), InitialFrames(m)).frames[b] == InitialFrame(m, b);
    }
  }

  lemma UnderAtMost(code: Code, t: Table, chain: seq<int>, u: Table, m: Bytes, depth: seq<int>)
    requires Solves(m, depth, chain, u) && FrameRuns.Under(code, t, FrameRuns.DoneSet(u), u.frames) && Inv(code, t)
    requires |code.blocks| == |m.code| && code.order == chain
    ensures AtMost(t, u)
  {
    hide Sound, Begins, Settled, Noted, Frames.Grows;
    BeginsSizes(m, u.frames);
  }

  /** Wherever something arrives from this instruction, the block has been processed. */
  ghost predicate AllProcessed(m: Bytes, t: Table, spot: Spot)
  {
    && 0 <= spot.pc < |m.code| == |t.done|
    && (forall i :: 0 <= i < |m.table| && Covers(m.table[i], spot.pc) ==> IsDone(t, m.table[i].handler))
    && (forall k :: 0 <= k < |m.code[spot.pc].ops| && m.code[spot.pc].ops[k].Branch? ==>
          IsDone(t, m.code[spot.pc].ops[k].target))
    && (spot.pc + 1 < |m.code| && IsBlock(m, spot.pc + 1) && m.code[spot.pc].falls ==> t.done[spot.pc + 1])
  }

  ghost predicate IsDone(t: Table, c: int) { 0 <= c < |t.done| && t.done[c] }

  /** If no two table entries share a handler that is no branch target, the chain has them all. */
  lemma WholeSound(m: Bytes, depth: seq<int>, t: Table, chain: seq<int>, b: int, i: int)
    requires Sound(m, depth, t, chain) && OneEntryEach(m, |m.table|) && IsChain(m, chain)
    requires 0 <= b < |m.code| && t.done[b] && 0 <= i < |Trace(m, b, State(t.frames[b], depth[b]))|
    ensures AllProcessed(m, t, Trace(m, b, State(t.frames[b], depth[b]))[i])
  {
    hide Attached, Trace, Links, OneEntryEach, Follows, Below, IsBlock;
    var spot := Trace(m, b, State(t.frames[b], depth[b]))[i];
    assert SpotSound(m, t, chain, spot);
    WholeChain(m, chain);
    ChainListsAll(m);
    forall j | 0 <= j < |m.table| && Covers(m.table[j], spot.pc) ensures IsDone(t, m.table[j].handler) {
      assert m.table[j] in m.table;
      BlockIs(m, m.table[j].handler);
    }
    forall k | 0 <= k < |m.code[spot.pc].ops| && m.code[spot.pc].ops[k].Branch?
      ensures IsDone(t, m.code[spot.pc].ops[k].target)
    {
      TargetsIn(m.code, |m.code|, spot.pc, k);
      BlockIs(m, m.code[spot.pc].ops[k].target);
    }
  }

  /**
   * verifyMethod for at most `passes` passes.  It does not end if the block chain is a circle, or
   * if every pass finds a flagged block.  When it ends, the frames have what the method begins
   * with, what arrives at a block is contained in its frame, and the blocks where something
   * arrives have been processed if the chain has them; and the frames are the least like that.
   */
  method VerifyMethod(m: Bytes, depth: seq<int>, passes: nat) returns (ended: bool, t: Table, chain: seq<int>)
    requires WellFormed(m, depth)
    ensures Ends(Links(Attached(m)), 0) <==> IsChain(m, chain)
    ensures ended <==> IsChain(m, chain) && RestsWithin(m, depth, chain, passes)
    ensures ended ==> Solves(m, depth, chain, t) && forall u :: Solves(m, depth, chain, u) ==> AtMost(t, u)
  {
    hide Solves, AtMost, Walk, Attached, IsBlock, Links, Follows, Inv, PostFixpoint, Sound, Idle, Passes, InitialFrame,
         Code.Valid, EventFits, RestsWithin, Ends;
    var starts, next := FindBlocks(m);
    var list := Attached(m);
    NotEmpty(m);
    ChainEnds(list);
    if list[|list| - 1] in list[..|list| - 1] {
      NoChain(m, []);
      return false, Table([], [], []), [];
    }
    ghost var order := Onwards(list, list[0]);
    chain := ChainOrder(next, order);
    ChainHere(m, chain);
    CodeValid(m, depth, chain);
    var blocks := AllBlocks(m, depth);
    ghost var code := CodeOf(m, depth, chain);
    var a := new Analyser(Code(m.localsz, m.stacksz, blocks, chain), InitialFrames(m));
    assert a.code == code && a.Now() == Start(code, InitialFrames(m));
    ended := a.VerifyMethod(passes);
    t := Table(a.frames, a.need, a.done);
    RestsIs(m, depth, chain, passes);
    if ended {
      ghost var n: nat :| t == Passes(code, Start(code, InitialFrames(m)), n);
      RestSolves(m, depth, chain, n);
    }
  }

  lemma NotEmpty(m: Bytes)
    ensures |Attached(m)| > 0 && Attached(m)[0] == 0
  {
  }

  lemma NoChain(m: Bytes, chain: seq<int>)
    requires !Ends(Links(Attached(m)), 0)
    ensures !IsChain(m, chain)
  {
  }

  lemma ChainHere(m: Bytes, chain: seq<int>)
    requires Follows(Links(Attached(m)), 0, chain)
    ensures Ends(Links(Attached(m)), 0) && IsChain(m, chain)
  {
  }

  method AllBlocks(m: Bytes, depth: seq<int>) returns (blocks: seq<seq<Event>>)
    requires |depth| == |m.code|
    ensures blocks == CodeOf(m, depth, []).blocks
  {
    hide Walk, IsBlock, Attached;
    blocks := [];
    for pc := 0 to |m.code|
      invariant blocks == CodeOf(m, depth, []).blocks[..pc]
    {
      var events := [];
      if pc == 0 || IsBlock(m, pc) { events := BlockEvents(m, pc, depth[pc]); }
      blocks := blocks + [events];
    }
  }
}
