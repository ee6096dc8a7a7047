/**
 * A method for which the rerun loop of the frame analysis does not end
 * (src/kaffejit/code-analyse.c): with an object as its argument,
 *
 *     0: iconst_0
 *     1: istore_0
 *     2: goto 0
 */
module Spinning {
  import opened Frames
  import opened FrameRuns
  import opened Bytecode

  const INT := Concrete(4)      // TINT

  function Loop(): Bytes
  {
    Bytes(1, 1,
          [Insn([Push(1), StackOut(0, INT)], true), Insn([LocalOutStack(0, 0), Pop(1)], true),
              Insn([Branch(0)], false)],
          [], [OBJ])
  }

  /** Nothing is on the stack at the start of the one block. */
  function Depth(): seq<int> { [2, 2, 2] }

  ghost function Events(): seq<Event> { [Put(1, INT), Copy(1, 0), Merge(0, 2)] }

  ghost function LoopCode(): Code { Code(1, 1, [Events(), [], []], [0]) }

  // ---------------------------------------------------------------------------
  // The analysis of it
  // ---------------------------------------------------------------------------

  lemma LoopTargets()
    ensures Targets(Loop().code, 3) == [0] && Starts(Loop()) == {0}
    ensures forall q :: IsBlock(Loop(), q) <==> q == 0
    ensures Attached(Loop()) == [0]
  {
    hide Targets, TargetsOf, FirstTimes, HandlersUpTo;
    ThreeInsns(Loop().code);
    NoJump(Loop().code[0].ops);
    NoJump(Loop().code[1].ops);
    OneJump(Loop().code[2].ops);
    OnlyFirst();
    NothingAttached(Loop());
  }

  lemma ThreeInsns(code: seq<Insn>)
    requires |code| == 3 && |code[0].ops| == 2 && |code[1].ops| == 2 && |code[2].ops| == 1
    ensures Targets(code, 3) == TargetsOf(code[0].ops, 2) + TargetsOf(code[1].ops, 2) + TargetsOf(code[2].ops, 1)
  {
    hide TargetsOf;
    assert Targets(code, 0) == [] && Targets(code, 1) == TargetsOf(code[0].ops, 2);
    assert Targets(code, 2) == Targets(code, 1) + TargetsOf(code[1].ops, 2);
  }

  lemma NoJump(ops: seq<Op>)
    requires |ops| == 2 && !ops[0].Branch? && !ops[1].Branch?
    ensures TargetsOf(ops, 2) == []
  {
    assert TargetsOf(ops, 0) == [] && TargetsOf(ops, 1) == [];
  }

  lemma OneJump(ops: seq<Op>)
    requires |ops| == 1 && ops[0].Branch?
    ensures TargetsOf(ops, 1) == [ops[0].target]
  {
    assert TargetsOf(ops, 0) == [];
  }

  lemma OnlyFirst()
    ensures FirstTimes([0]) == []
  {
    assert [0][..0] == [] && FirstTimes([]) == [];
  }

  lemma NothingAttached(m: Bytes)
    requires m.table == []
    ensures HandlersUpTo(m, |m.table|) == []
  {
  }

  lemma LoopWalk()
    ensures Walk(Loop(), 0, 2) == Events()
  {
    hide Walk;
    WalkAt2();
    WalkAt1();
    WalkAt0();
  }

  lemma WalkAt0()
    ensures Walk(Loop(), 0, 2) == [Put(1, INT)] + Walk(Loop(), 1, 1)
  {
    hide IsBlock, Walk, Attached, HandlerEvents, OpEvents, SpAfter, Starts;
    LoopTargets();
    NoHandlers(Loop(), 0);
    TwoOps(Loop().code[0].ops, 2);
    WalkStep(Loop(), 0, 2);
  }

  lemma WalkAt1()
    ensures Walk(Loop(), 1, 1) == [Copy(1, 0)] + Walk(Loop(), 2, 2)
  {
    hide IsBlock, Walk, Attached, HandlerEvents, OpEvents, SpAfter, Starts;
    LoopTargets();
    NoHandlers(Loop(), 1);
    StoreEvents(Loop().code[1].ops);
    WalkStep(Loop(), 1, 1);
  }

  lemma StoreEvents(ops: seq<Op>)
    requires ops == [LocalOutStack(0, 0), Pop(1)]
    ensures OpEvents(ops, 1, 2) == [Copy(1, 0)] && SpAfter(ops, 1, 2) == 2
  {
    hide OpEvents, SpAfter;
    TwoOps(ops, 1);
    assert OpEvent(ops[0], 1) + OpEvent(ops[1], 1) == [Copy(1, 0)];
  }

  lemma WalkAt2()
    ensures Walk(Loop(), 2, 2) == [Merge(0, 2)]
  {
    hide IsBlock, Walk, Attached, HandlerEvents, OpEvents, SpAfter, Starts;
    NoHandlers(Loop(), 2);
    OneOp(Loop().code[2].ops, 2);
    WalkStep(Loop(), 2, 2);
  }

  lemma NoHandlers(m: Bytes, pc: int)
    requires m.table == []
    ensures HandlerEvents(m, pc, |m.table|) == []
  {
  }

  lemma OneOp(ops: seq<Op>, sp: int)
    requires |ops| == 1
    ensures OpEvents(ops, sp, 1) == OpEvent(ops[0], sp) && SpAfter(ops, sp, 1) == SpStep(ops[0], sp)
  {
    assert OpEvents(ops, sp, 0) == [] && SpAfter(ops, sp, 0) == sp;
  }

  lemma TwoOps(ops: seq<Op>, sp: int)
    requires |ops| == 2
    ensures OpEvents(ops, sp, 2) == OpEvent(ops[0], sp) + OpEvent(ops[1], SpStep(ops[0], sp))
    ensures SpAfter(ops, sp, 2) == SpStep(ops[1], SpStep(ops[0], sp))
  {
    hide OpEvent, SpStep;
    assert OpEvents(ops, sp, 0) == [] && SpAfter(ops, sp, 0) == sp;
    assert SpAfter(ops, sp, 1) == SpStep(ops[0], sp) && OpEvents(ops, sp, 1) == OpEvent(ops[0], sp);
  }

  lemma LoopIs(chain: seq<int>)
    ensures CodeOf(Loop(), Depth(), chain) == LoopCode().(order := chain)
  {
    LoopTargets();
    LoopWalk();
    hide Walk, Attached, IsBlock;
    var blocks := CodeOf(Loop(), Depth(), chain).blocks;
    assert blocks[0] == Events() && blocks[1] == [] && blocks[2] == [];
    assert blocks == [Events(), [], []];
  }

  /** It is a method that the analysis has to deal with. */
  lemma LoopWellFormed()
    ensures WellFormed(Loop(), Depth()) && IsChain(Loop(), [0])
    ensures forall chain :: IsChain(Loop(), chain) ==> chain == [0]
  {
    hide Walk, Attached, IsBlock, CodeOf, EventFits, Links;
    LoopTargets();
    EventsFit();
    NoLinks(0);
    forall chain | IsChain(Loop(), chain) ensures chain == [0] {}
  }

  lemma EventsFit()
    ensures forall b, k :: 0 <= b < 3 && 0 <= k < |CodeOf(Loop(), Depth(), []).blocks[b]| ==>
              EventFits(Loop(), Depth(), CodeOf(Loop(), Depth(), []).blocks[b][k])
  {
    hide Walk, Attached, IsBlock, CodeOf;
    LoopIs([]);
    forall b, k | 0 <= b < 3 && 0 <= k < |CodeOf(Loop(), Depth(), []).blocks[b]|
      ensures EventFits(Loop(), Depth(), CodeOf(Loop(), Depth(), []).blocks[b][k])
    {
      assert b == 0;
    }
  }

  // ---------------------------------------------------------------------------
  // The least solution has a block that flags itself
  // ---------------------------------------------------------------------------

  const NOTHING: Frame := [Unassigned, Unassigned]

  ghost function Entry(): seq<Frame> { [[OBJ, Unassigned], NOTHING, NOTHING] }

  ghost function Final(): seq<Frame> { [[Unstable, Unassigned], NOTHING, NOTHING] }

  lemma EntryIs()
    ensures InitialFrames(Loop()) == Entry()
  {
    var m := Loop();
    assert m.Size() == 2 && forall pc :: !IsHandler(m, pc);
    assert InitialFrame(m, 0) == [OBJ, Unassigned] && InitialFrame(m, 1) == NOTHING && InitialFrame(m, 2) == NOTHING;
  }

  lemma LoopFlow(frames: seq<Frame>)
    requires |frames| == 3 && |frames[0]| == 2
    ensures LoopCode().Valid()
    ensures Contained(LoopCode(), frames, 0, frames[0], 0) && Contained(LoopCode(), frames, 0, frames[0], 1)
    ensures Contained(LoopCode(), frames, 0, frames[0], 2) <==> Leq(INT, frames[0][0])
    ensures VainAt(LoopCode(), frames, 0, 2, 0) <==> frames[0][0] != INT
  {
    var es, f := Events(), frames[0];
    assert Active(es, f, 0) == f;
    assert Active(es, f, 1) == f[1 := INT];
    assert Active(es, f, 2) == [INT, INT];
    assert Seen(1, 2, 0) && !Seen(1, 2, 1);
    forall b, k | 0 <= b < 3 && 0 <= k < |LoopCode().blocks[b]| ensures LoopCode().EventOk(LoopCode().blocks[b][k]) {}
  }

  lemma LoopLeast()
    ensures Least(LoopCode(), Entry(), {0}, Final())
  {
    var code, initial, frames := LoopCode(), Entry(), Final();
    LoopFlow(frames);
    assert Flows(code, {0}, frames, 0, 0) && Flows(code, {0}, frames, 0, 1) && Flows(code, {0}, frames, 0, 2);
    assert 0 in code.order by { assert code.order[0] == 0; }
    forall r, f | Solution(code, initial, r, f) ensures {0} <= r && Grows(frames[0], f[0]) {
      assert Flows(code, r, f, 0, 2) && Grows(initial[0], f[0]);
      LoopFlow(f);
    }
  }

  /** Whatever the number of passes, the block is still flagged. */
  lemma NeverEnds(n: nat)
    ensures WellFormed(Loop(), Depth()) && IsChain(Loop(), [0]) && !Bytecode.RestsAfter(Loop(), Depth(), [0], n)
  {
    LoopWellFormed();
    LoopIs([0]);
    EntryIs();
    LoopLeast();
    LoopFlow(Final());
    assert Vain(LoopCode(), Final(), 0, 0);
    CycleNeverEnds(LoopCode(), Entry(), {0}, Final(), [0, 0], n);
  }

  /** So verifyMethod does not come to an end on it. */
  method SpinForever(passes: nat) returns (ended: bool)
    ensures !ended
  {
    LoopWellFormed();
    forall n: nat ensures !Bytecode.RestsAfter(Loop(), Depth(), [0], n) { NeverEnds(n); }
    var t, chain;
    ended, t, chain := Bytecode.VerifyMethod(Loop(), Depth(), passes);
  }
}
