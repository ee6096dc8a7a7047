/**
 * Bytecode frame analysis (src/kaffejit/code-analyse.c and code-analyse.h): each basic
 * block has a frame of cell types; processing a block merges what it computes into the
 * frames of its successors and of the exception handlers that cover it.
 *
 * A block is given by its events: assignments to cells of the active frame, and merges
 * into other blocks, in the order in which the code performs them.
 */
module Frames {
  /** The type of a cell: nothing yet, one type, or conflicting types. */
  datatype Type = Unassigned | Concrete(id: int) | Unstable

  type Frame = seq<Type>

  /** What an instruction does to the active frame, or a merge that happens at that point. */
  datatype Event =
    | Put(cell: int, t: Type)             // STACKOUT, STACKOUT_CONST, LOCALOUT
    | Copy(from: int, to: int)            // STACKCOPY, STACKOUT_LOCAL, LOCALOUT_STACK
    | Swap(from: int, to: int)            // STACKSWAP
    | Merge(target: int, sp: int)         // FRAMEMERGE
    | MergeLocals(target: int)            // FRAMEMERGE_LOCALS

  // ---------------------------------------------------------------------------
  // The flat order
  // ---------------------------------------------------------------------------

  predicate Leq(a: Type, b: Type) { a == Unassigned || a == b || b == Unstable }

  function MergeCell(from: Type, to: Type): Type
  {
    if from != Unassigned && from != to then (if to == Unassigned then from else Unstable) else to
  }

  /** Merging is the least upper bound. */
  lemma MergeCellLub(from: Type, to: Type, c: Type)
    ensures Leq(from, MergeCell(from, to)) && Leq(to, MergeCell(from, to))
    ensures Leq(from, c) && Leq(to, c) ==> Leq(MergeCell(from, to), c)
  {
  }

  /** The cells that a merge with stack pointer sp looks at: the locals and the stack from sp on. */
  predicate Seen(localsz: int, sp: int, m: int) { m < localsz || sp <= m }

  ghost predicate Below(from: Frame, to: Frame, localsz: int, sp: int)
  {
    |from| == |to| && forall m :: 0 <= m < |to| && Seen(localsz, sp, m) ==> Leq(from[m], to[m])
  }

  ghost predicate Grows(a: Frame, b: Frame) { |a| == |b| && forall m :: 0 <= m < |a| ==> Leq(a[m], b[m]) }

  lemma BelowGrows(from: Frame, a: Frame, b: Frame, localsz: int, sp: int)
    requires Below(from, a, localsz, sp) && Grows(a, b)
    ensures Below(from, b, localsz, sp)
  {
  }

  /** mergeFrame raises NEEDVERIFY when some cell differs ... */
  ghost predicate Differs(from: Frame, to: Frame, localsz: int, sp: int)
  {
    |from| == |to| && exists m :: 0 <= m < |to| && Seen(localsz, sp, m) && from[m] != Unassigned && from[m] != to[m]
  }

  ghost function Merged(from: Frame, to: Frame, localsz: int, sp: int): Frame
    requires |from| == |to|
  {
    seq(|to|, m requires 0 <= m < |to| => if Seen(localsz, sp, m) then MergeCell(from[m], to[m]) else to[m])
  }

  /** One of the two loops of mergeFrame. */
  method MergeCells(from: Frame, to: Frame, lo: int, hi: int) returns (r: Frame, need: bool)
    requires |from| == |to| && 0 <= lo && hi <= |to|
    ensures |r| == |to|
    ensures forall m :: 0 <= m < |to| ==> r[m] == if lo <= m < hi then MergeCell(from[m], to[m]) else to[m]
    ensures need <==> exists m :: lo <= m < hi && from[m] != Unassigned && from[m] != to[m]
  {
    r, need := to, false;
    var m := lo;
    while m < hi
      invariant lo <= m && (m <= hi || m == lo) && |r| == |to|
      invariant forall k :: 0 <= k < |to| ==> r[k] == if lo <= k < m then MergeCell(from[k], to[k]) else to[k]
      invariant need <==> exists k :: lo <= k < m && from[k] != Unassigned && from[k] != to[k]
    {
      if from[m] != Unassigned && from[m] != r[m] {
        need := true;
        r := r[m := if r[m] == Unassigned then from[m] else Unstable];
      }
      m := m + 1;
    }
  }

  /**
   * mergeFrame: the least frame above both, on the cells looked at; the flag is raised exactly
   * if some cell differs.
   */
  method MergeFrame(from: Frame, to: Frame, localsz: int, sp: int) returns (r: Frame, need: bool)
    requires |from| == |to| && 0 <= localsz <= sp && localsz <= |to|
    ensures r == Merged(from, to, localsz, sp) && (need <==> Differs(from, to, localsz, sp))
    ensures |r| == |to| && forall m :: 0 <= m < |to| ==>
              r[m] == if m < localsz || sp <= m then MergeCell(from[m], to[m]) else to[m]
    ensures need <==> exists m :: 0 <= m < |to| && (m < localsz || sp <= m) && from[m] != Unassigned && from[m] != to[m]
  {
    var locals, n1 := MergeCells(from, to, 0, localsz);
    var n2;
    r, n2 := MergeCells(from, locals, if sp <= |to| then sp else |to|, |to|);
    need := n1 || n2;
    if n1 { var m :| 0 <= m < localsz && from[m] != Unassigned && from[m] != to[m]; assert Seen(localsz, sp, m); }
    if n2 { var m :| sp <= m < |to| && from[m] != Unassigned && from[m] != locals[m]; assert Seen(localsz, sp, m); }
    if Differs(from, to, localsz, sp) {
      var m :| 0 <= m < |to| && Seen(localsz, sp, m) && from[m] != Unassigned && from[m] != to[m];
      assert m < localsz || (sp <= m < |to| && from[m] != locals[m]);
    }
  }

  lemma MergedIs(from: Frame, to: Frame, localsz: int, sp: int)
    requires |from| == |to|
    ensures var r := Merged(from, to, localsz, sp);
            && Grows(to, r) && Below(from, r, localsz, sp) && (r != to ==> Differs(from, to, localsz, sp))
  {
    var r := Merged(from, to, localsz, sp);
    if r != to {
      var m :| 0 <= m < |to| && r[m] != to[m];
      assert Seen(localsz, sp, m);
    }
  }

  /** The flag is raised without any change exactly if all cells that differ are unstable already. */
  lemma RaisedInVain(from: Frame, to: Frame, localsz: int, sp: int)
    requires |from| == |to| && Differs(from, to, localsz, sp)
    ensures Merged(from, to, localsz, sp) == to <==>
            forall m :: 0 <= m < |to| && Seen(localsz, sp, m) && from[m] != Unassigned && from[m] != to[m] ==>
                to[m] == Unstable
  {
    var r := Merged(from, to, localsz, sp);
    forall m | 0 <= m < |to|
      ensures r[m] == to[m] <==>
              !(Seen(localsz, sp, m) && from[m] != Unassigned && from[m] != to[m] && to[m] != Unstable)
    {
    }
  }

  // ---------------------------------------------------------------------------
  // Blocks
  // ---------------------------------------------------------------------------

  /**
   * A method: its number of locals and stack cells, its basic blocks, and the order in which
   * the block chain lists them.
   */
  datatype Code = Code(localsz: int, stacksz: int, blocks: seq<seq<Event>>, order: seq<int>) {
    function Size(): int { localsz + stacksz }

    predicate EventOk(e: Event)
    {
      match e
      case Put(c, t) => 0 <= c < Size()
      case Copy(f, t) => 0 <= f < Size() && 0 <= t < Size()
      case Swap(f, t) => 0 <= f < Size() && 0 <= t < Size()
      case Merge(b, sp) => 0 <= b < |blocks| && localsz <= sp <= Size()
      case MergeLocals(b) => 0 <= b < |blocks|
    }

    ghost predicate Valid()
    {
      && 0 <= localsz && 0 <= stacksz && (forall i :: 0 <= i < |order| ==> 0 <= order[i] < |blocks|)
      && (forall b, k :: 0 <= b < |blocks| && 0 <= k < |blocks[b]| ==> EventOk(blocks[b][k]))
    }
  }

  predicate IsMerge(e: Event) { e.Merge? || e.MergeLocals? }

  /** The stack pointer of a merge; handlers get the locals only. */
  function SpOf(code: Code, e: Event): int { if e.Merge? then e.sp else code.Size() }

  /** The effect of an event on the active frame. */
  function Apply(f: Frame, e: Event): Frame
  {
    match e
    case Put(c, t) => if 0 <= c < |f| then f[c := t] else f
    case Copy(a, b) => if 0 <= a < |f| && 0 <= b < |f| then f[b := f[a]] else f
    case Swap(a, b) => if 0 <= a < |f| && 0 <= b < |f| then f[b := f[a]][a := f[b]] else f
    case Merge(_, _) => f
    case MergeLocals(_) => f
  }

  /** The active frame before event k, when the block starts with frame f. */
  ghost function Active(es: seq<Event>, f: Frame, k: nat): (a: Frame)
    requires k <= |es|
    ensures |a| == |f|
  {
    if k == 0 then f else Apply(Active(es, f, k - 1), es[k - 1])
  }

  /** The frames and flags recorded for the blocks. */
  datatype Table = Table(frames: seq<Frame>, need: seq<bool>, done: seq<bool>)

  ghost predicate Sizes(code: Code, t: Table)
  {
    && |t.frames| == |t.need| == |t.done| == |code.blocks|
    && forall b :: 0 <= b < |t.frames| ==> |t.frames[b]| == code.Size()
  }

  /** The merge at event k of block b, which started with frame f, is contained in its target. */
  ghost predicate Contained(code: Code, frames: seq<Frame>, b: int, f: Frame, k: int)
    requires 0 <= b < |code.blocks| && 0 <= k < |code.blocks[b]|
  {
    var e := code.blocks[b][k];
    IsMerge(e) ==> 0 <= e.target < |frames| &&
                     Below(Active(code.blocks[b], f, k), frames[e.target], code.localsz, SpOf(code, e))
  }

  /** Everything that processing block b merges into other blocks is contained in their frames. */
  ghost predicate Settled(code: Code, frames: seq<Frame>, b: int)
    requires 0 <= b < |code.blocks| == |frames|
  {
    forall k {:trigger Contained(code, frames, b, frames[b], k)} :: 0 <= k < |code.blocks[b]| ==>
        Contained(code, frames, b, frames[b], k)
  }

  /** The targets of block b have been processed, or will be. */
  ghost predicate Noted(code: Code, t: Table, b: int)
    requires 0 <= b < |code.blocks| && Sizes(code, t)
  {
    forall k :: 0 <= k < |code.blocks[b]| && IsMerge(code.blocks[b][k]) && 0 <= code.blocks[b][k].target < |t.need| ==>
      t.need[code.blocks[b][k].target] || t.done[code.blocks[b][k].target]
  }

  ghost predicate Inv(code: Code, t: Table)
  {
    && code.Valid() && Sizes(code, t)
    && (forall b {:trigger Settled(code, t.frames, b)} :: 0 <= b < |code.blocks| && t.done[b] && !t.need[b] ==>
          Settled(code, t.frames, b))
    && (forall b {:trigger Noted(code, t, b)} :: 0 <= b < |code.blocks| && t.done[b] ==> Noted(code, t, b))
    && (forall b :: 0 <= b < |code.blocks| && t.done[b] ==> b in code.order)
  }

  /** A merge into target e, by mergeFrame and the rest of the macro. */
  ghost function AfterMerge(code: Code, t: Table, active: Frame, e: Event): Table
    requires Sizes(code, t) && IsMerge(e) && 0 <= e.target < |t.frames| && |active| == code.Size()
  {
    var c := e.target;
    t.(frames := t.frames[c := Merged(active, t.frames[c], code.localsz, SpOf(code, e))],
       need := t.need[c := t.need[c] || Differs(active, t.frames[c], code.localsz, SpOf(code, e)) || !t.done[c]])
  }

  /** The table when k events of block b have been processed. */
  ghost function Processed(code: Code, t: Table, b: int, k: nat): (r: Table)
    requires code.Valid() && Sizes(code, t) && 0 <= b < |code.blocks| && k <= |code.blocks[b]|
    ensures Sizes(code, r)
  {
    if k == 0 then t.(need := t.need[b := false], done := t.done[b := true])
    else
      var r, e := Processed(code, t, b, k - 1), code.blocks[b][k - 1];
      assert code.EventOk(e);
      if IsMerge(e) then AfterMerge(code, r, Active(code.blocks[b], t.frames[b], k - 1), e) else r
  }

  /** Block c is flagged, or has been processed. */
  ghost predicate Told(t: Table, c: int) { 0 <= c < |t.need| && c < |t.done| && (t.need[c] || t.done[c]) }

  /** Where a block's processing has got to: t0 is the table when it began, with frame f, and k events are done. */
  ghost predicate At(code: Code, t0: Table, t: Table, b: int, f: Frame, k: int)
  {
    && Inv(code, t0) && Sizes(code, t) && 0 <= b < |code.blocks| && f == t0.frames[b] && 0 <= k <= |code.blocks[b]|
    && t.done == t0.done[b := true] && t == Processed(code, t0, b, k) && b in code.order
    && (forall c :: 0 <= c < |t.frames| ==> Grows(t0.frames[c], t.frames[c]))
    && (forall c :: 0 <= c < |t.frames| ==>
          (t.frames[c] != t0.frames[c] ==> t.need[c]) && (c != b && t0.need[c] ==> t.need[c]))
    && (forall j {:trigger Contained(code, t.frames, b, f, j)} :: 0 <= j < k ==> Contained(code, t.frames, b, f, j))
    && (forall j :: 0 <= j < k && IsMerge(code.blocks[b][j]) ==> Told(t, code.blocks[b][j].target))
  }

  lemma AtStart(code: Code, t0: Table, b: int)
    requires Inv(code, t0) && 0 <= b < |code.blocks| && b in code.order
    ensures At(code, t0, t0.(need := t0.need[b := false], done := t0.done[b := true]), b, t0.frames[b], 0)
  {
  }

  /** An event that only changes the active frame. */
  lemma AtCell(code: Code, t0: Table, t: Table, b: int, f: Frame, k: int)
    requires At(code, t0, t, b, f, k) && k < |code.blocks[b]| && !IsMerge(code.blocks[b][k])
    ensures At(code, t0, t, b, f, k + 1)
  {
  }

  lemma AtMerge(code: Code, t0: Table, t: Table, b: int, f: Frame, k: int)
    requires At(code, t0, t, b, f, k) && k < |code.blocks[b]| && IsMerge(code.blocks[b][k])
    ensures code.EventOk(code.blocks[b][k]) && |Active(code.blocks[b], f, k)| == code.Size()
    ensures At(code, t0, AfterMerge(code, t, Active(code.blocks[b], f, k), code.blocks[b][k]), b, f, k + 1)
  {
    hide Inv, Processed, Active, Merged, Differs, Grows, Below, Code.Valid, Contained;
    SizesOf(code, t0);
    AtIs(code, t0, b, k + 1);
    var e, active := code.blocks[b][k], Active(code.blocks[b], f, k);
    var t' := AfterMerge(code, t, active, e);
    MergedIs(active, t.frames[e.target], code.localsz, SpOf(code, e));
    ContainedNow(code, t'.frames, b, f, k);
    forall c | 0 <= c < |t.frames|
      ensures Grows(t.frames[c], t'.frames[c])
    {
      if c != e.target { GrowsSelf(t.frames[c]); }
    }
    forall j | 0 <= j < k + 1 ensures Contained(code, t'.frames, b, f, j) {
      if j < k { StillContained(code, t.frames, t'.frames, b, f, j); }
    }
    forall j | 0 <= j < k + 1 && IsMerge(code.blocks[b][j])
      ensures Told(t', code.blocks[b][j].target)
    {
      TargetInside(code, b, j);
    }
    forall c | 0 <= c < |t'.frames|
      ensures Grows(t0.frames[c], t'.frames[c])
    {
      GrowsTrans(t0.frames[c], t.frames[c], t'.frames[c]);
    }
  }

  lemma TargetInside(code: Code, b: int, k: int)
    requires code.Valid() && 0 <= b < |code.blocks| && 0 <= k < |code.blocks[b]| && IsMerge(code.blocks[b][k])
    ensures 0 <= code.blocks[b][k].target < |code.blocks|
  {
    assert code.EventOk(code.blocks[b][k]);
  }

  lemma ContainedNow(code: Code, frames: seq<Frame>, b: int, f: Frame, k: int)
    requires 0 <= b < |code.blocks| && 0 <= k < |code.blocks[b]| && IsMerge(code.blocks[b][k])
    requires var e := code.blocks[b][k];
             0 <= e.target < |frames| &&
                 Below(Active(code.blocks[b], f, k), frames[e.target], code.localsz, SpOf(code, e))
    ensures Contained(code, frames, b, f, k)
  {
  }

  lemma GrowsSelf(a: Frame)
    ensures Grows(a, a)
  {
  }

  lemma GrowsTrans(a: Frame, b: Frame, c: Frame)
    requires Grows(a, b) && Grows(b, c)
    ensures Grows(a, c)
  {
  }

  /** Frames only grow, so what was contained stays contained. */
  lemma StillContained(code: Code, frames: seq<Frame>, frames': seq<Frame>, b: int, f: Frame, j: int)
    requires 0 <= b < |code.blocks| && 0 <= j < |code.blocks[b]| && |frames'| == |frames| &&
             forall c :: 0 <= c < |frames| ==> Grows(frames[c], frames'[c])
    ensures Contained(code, frames, b, f, j) ==> Contained(code, frames', b, f, j)
  {
    var e := code.blocks[b][j];
    if IsMerge(e) && Contained(code, frames, b, f, j) {
      BelowGrows(Active(code.blocks[b], f, j), frames[e.target], frames'[e.target], code.localsz, SpOf(code, e));
    }
  }

  lemma AtEnd(code: Code, t0: Table, t: Table, b: int, f: Frame)
    requires 0 <= b < |code.blocks| && At(code, t0, t, b, f, |code.blocks[b]|)
    ensures Inv(code, t)
  {
    forall c | 0 <= c < |code.blocks| && t.done[c] && !t.need[c] ensures Settled(code, t.frames, c) {
      assert t.frames[c] == t0.frames[c];
      if c != b { assert t0.done[c] && !t0.need[c] && Settled(code, t0.frames, c); }
      forall k | 0 <= k < |code.blocks[c]| ensures Contained(code, t.frames, c, t.frames[c], k) {
        if c == b {
          assert Contained(code, t.frames, b, f, k);
        } else {
          assert Contained(code, t0.frames, c, t0.frames[c], k);
          StillContained(code, t0.frames, t.frames, c, t0.frames[c], k);
        }
      }
    }
    forall c | 0 <= c < |code.blocks| && t.done[c] ensures Noted(code, t, c) {
      if c != b { assert Noted(code, t0, c); }
    }
  }

  // ---------------------------------------------------------------------------
  // The analysis
  // ---------------------------------------------------------------------------

  /**
   * The recorded frames are a post-fixpoint: whatever a processed block computes, for its
   * successors and at every instruction for its handlers, lies below the frames recorded
   * there, and exactly the blocks of the chain among those have been processed too.
   */
  ghost predicate PostFixpoint(code: Code, t: Table)
  {
    && Sizes(code, t)
    && forall b, k {:trigger Contained(code, t.frames, b, t.frames[b], k)} ::
         0 <= b < |code.blocks| && t.done[b] && 0 <= k < |code.blocks[b]| ==>
         Contained(code, t.frames, b, t.frames[b], k) && TargetDone(code, t, code.blocks[b][k])
  }

  ghost predicate TargetDone(code: Code, t: Table, e: Event)
  {
    IsMerge(e) ==> 0 <= e.target < |t.done| && (t.done[e.target] <==> e.target in code.order)
  }

  /** No block of the chain is flagged. */
  ghost predicate Idle(code: Code, t: Table)
  {
    Sizes(code, t) && forall b :: b in code.order && 0 <= b < |t.need| ==> !t.need[b]
  }

  lemma NoneNeeded(code: Code, t: Table)
    requires Inv(code, t) && Idle(code, t)
    ensures PostFixpoint(code, t)
  {
    forall b, k | 0 <= b < |code.blocks| && t.done[b] && 0 <= k < |code.blocks[b]|
      ensures Contained(code, t.frames, b, t.frames[b], k) && TargetDone(code, t, code.blocks[b][k])
    {
      assert Settled(code, t.frames, b) && Noted(code, t, b) && code.EventOk(code.blocks[b][k]);
    }
  }

  /** The table after processing block b, if it is flagged. */
  ghost function Visited(code: Code, t: Table, b: int): Table
    requires code.Valid() && Sizes(code, t) && 0 <= b < |code.blocks|
  {
    if t.need[b] then Processed(code, t, b, |code.blocks[b]|) else t
  }

  /** The table after the first i blocks of the chain in one pass. */
  ghost function PassTo(code: Code, t: Table, i: nat): (r: Table)
    requires code.Valid() && Sizes(code, t) && i <= |code.order|
    ensures Sizes(code, r)
  {
    if i == 0 then t else Visited(code, PassTo(code, t, i - 1), code.order[i - 1])
  }

  /** The table after n passes. */
  ghost function Passes(code: Code, t: Table, n: nat): (r: Table)
    requires code.Valid() && Sizes(code, t)
    ensures Sizes(code, r)
  {
    if n == 0 then t else PassTo(code, Passes(code, t, n - 1), |code.order|)
  }

  /** The initial table: the first block is flagged, and frames hold what is known beforehand. */
  ghost function Start(code: Code, initial: seq<Frame>): Table
  {
    Table(initial, seq(|code.blocks|, b => b == 0), seq(|code.blocks|, b => false))
  }

  ghost predicate CanStart(code: Code, initial: seq<Frame>)
  {
    && code.Valid() && |initial| == |code.blocks| > 0 && 0 in code.order
    && forall b :: 0 <= b < |initial| ==> |initial[b]| == code.Size()
  }

  lemma {:induction false} ProcessedInv(code: Code, t: Table, b: int, k: nat)
    requires Inv(code, t) && 0 <= b < |code.blocks| && b in code.order && k <= |code.blocks[b]|
    ensures At(code, t, Processed(code, t, b, k), b, t.frames[b], k)
    decreases k
  {
    if k == 0 {
      AtStart(code, t, b);
    } else {
      ProcessedInv(code, t, b, k - 1);
      hide At, Inv;
      var r := Processed(code, t, b, k - 1);
      if IsMerge(code.blocks[b][k - 1]) {
        AtMerge(code, t, r, b, t.frames[b], k - 1);
      } else {
        AtCell(code, t, r, b, t.frames[b], k - 1);
      }
      AtIs(code, t, b, k);
    }
  }

  class Analyser {
    const code: Code
    var frames: seq<Frame>
    var need: seq<bool>         // FLAG_NEEDVERIFY
    var done: seq<bool>         // FLAG_DONEVERIFY

    ghost function Now(): Table reads this { Table(frames, need, done) }

    ghost predicate Valid() reads this { Inv(code, Now()) }

    /**
     * The starting state of verifyMethod: the first block has the types of the arguments,
     * handlers have an object on their stack, and nothing is known of the other blocks.
     */
    constructor (code: Code, initial: seq<Frame>)
      requires CanStart(code, initial)
      ensures Valid() && this.code == code && Now() == Start(code, initial)
    {
      this.code, frames := code, initial;
      need := seq(|code.blocks|, b => b == 0);
      done := seq(|code.blocks|, b => false);
    }

    /** FRAMEMERGE and FRAMEMERGE_LOCALS */
    method MergeInto(active: Frame, e: Event)
      requires Sizes(code, Now()) && IsMerge(e) && code.EventOk(e) && |active| == code.Size() && 0 <= code.localsz
      requires 0 <= code.stacksz
      modifies `frames, `need
      ensures Now() == AfterMerge(code, old(Now()), active, e)
    {
      var c := e.target;
      var merged, raise := MergeFrame(active, frames[c], code.localsz, SpOf(code, e));
      frames := frames[c := merged];
      if raise { need := need[c := true]; }
      if !done[c] { need := need[c := true]; }
    }

    /** verifyBasicBlock, on the events of the block. */
    method VerifyBasicBlock(b: int)
      requires Valid() && 0 <= b < |code.blocks| && b in code.order
      modifies this
      ensures Valid() && done[b] && Now() == Processed(code, old(Now()), b, |code.blocks[b]|)
    {
      hide Inv, Sizes, At, AfterMerge, Active, Processed, Code.EventOk;
      BlockFacts(code, Now(), b);
      ghost var t0 := Now();
      AtStart(code, t0, b);
      need, done := need[b := false], done[b := true];
      var active := frames[b];
      ghost var f := active;
      for k := 0 to |code.blocks[b]|
        invariant At(code, t0, Now(), b, f, k) && active == Active(code.blocks[b], f, k)
      {
        var e := code.blocks[b][k];
        ActiveNext(code.blocks[b], f, k);
        if IsMerge(e) {
          AtMerge(code, t0, Now(), b, f, k);
          AtSizes(code, t0, Now(), b, f, k);
          MergeInto(active, e);
        } else {
          AtCell(code, t0, Now(), b, f, k);
          active := Apply(active, e);
        }
      }
      AtEnd(code, t0, Now(), b, f);
      AtDone(code, t0, Now(), b, f);
    }

    /** One pass over the block chain; false when no block needed to be processed. */
    method Pass() returns (rerun: bool)
      requires Valid()
      modifies this
      ensures Valid() && Now() == PassTo(code, old(Now()), |code.order|)
      ensures rerun <==> !Idle(code, old(Now()))
      ensures !rerun ==> PostFixpoint(code, Now()) && Now() == old(Now())
    {
      hide Inv, PostFixpoint, Processed;
      rerun := false;
      SizesOf(code, Now());
      for i := 0 to |code.order|
        invariant Valid() && Now() == PassTo(code, old(Now()), i)
        invariant rerun ==> !Idle(code, old(Now()))
        invariant !rerun ==> Now() == old(Now()) && forall j :: 0 <= j < i ==> !need[code.order[j]]
      {
        var b := code.order[i];
        SizesOf(code, Now());
        if need[b] {
          VerifyBasicBlock(b);
          rerun := true;
        }
      }
      if !rerun { NoneNeeded(code, Now()); }
    }

    /**
     * The loop of verifyMethod, for at most `passes` passes.  It ends in the first pass that
     * finds no block flagged, and then the frames are a post-fixpoint.
     */
    method VerifyMethod(passes: nat) returns (ended: bool)
      requires Valid()
      modifies this
      ensures Valid() && (ended ==> PostFixpoint(code, Now()) && Idle(code, Now()))
      ensures ended <==> exists i :: 0 <= i < passes && Idle(code, Passes(code, old(Now()), i))
      ensures exists i: nat :: Now() == Passes(code, old(Now()), i)
    {
      hide Inv, PostFixpoint, Idle, PassTo;
      SizesOf(code, Now());
      for n := 0 to passes
        invariant Valid() && Now() == Passes(code, old(Now()), n)
        invariant forall i :: 0 <= i < n ==> !Idle(code, Passes(code, old(Now()), i))
      {
        var rerun := Pass();
        if !rerun { return true; }
      }
      return false;
    }
  }

  lemma ActiveNext(es: seq<Event>, f: Frame, k: nat)
    requires k < |es|
    ensures Active(es, f, k + 1) == Apply(Active(es, f, k), es[k])
    ensures (IsMerge(es[k]) ==> Active(es, f, k + 1) == Active(es, f, k))
    ensures Active(es, f, 0) == f
  {
  }

  lemma BlockFacts(code: Code, t: Table, b: int)
    requires Inv(code, t) && 0 <= b < |code.blocks|
    ensures |t.frames| == |t.need| == |t.done| == |code.blocks| && Active(code.blocks[b], t.frames[b], 0) == t.frames[b]
    ensures code.Valid() && Sizes(code, t)
  {
  }

  lemma AtSizes(code: Code, t0: Table, t: Table, b: int, f: Frame, k: int)
    requires At(code, t0, t, b, f, k)
    ensures Sizes(code, t) && 0 <= code.localsz && 0 <= code.stacksz && |t.frames| == |code.blocks|
  {
  }

  lemma AtDone(code: Code, t0: Table, t: Table, b: int, f: Frame)
    requires 0 <= b < |code.blocks| && At(code, t0, t, b, f, |code.blocks[b]|)
    ensures b < |t.done| && t.done[b] && t == Processed(code, t0, b, |code.blocks[b]|)
  {
  }

  lemma AtIs(code: Code, t: Table, b: int, k: nat)
    requires code.Valid() && Sizes(code, t) && 0 <= b < |code.blocks| && 0 < k <= |code.blocks[b]|
    ensures var r, e := Processed(code, t, b, k - 1), code.blocks[b][k - 1];
            && code.EventOk(e)
            && Processed(code, t, b, k) == if IsMerge(e)
                 then AfterMerge(code, r, Active(code.blocks[b], t.frames[b], k - 1), e) else r
  {
    assert code.EventOk(code.blocks[b][k - 1]);
  }

  lemma SizesOf(code: Code, t: Table)
    requires Inv(code, t)
    ensures code.Valid() && Sizes(code, t) && |t.need| == |code.blocks|
    ensures forall i :: 0 <= i < |code.order| ==> 0 <= code.order[i] < |code.blocks|
  {
  }
}
