/**
 * The register cache of the JIT compiler (src/kaffejit/registers.c and machine.c):
 * machine registers hold the values of frame slots, and are written back when they are
 * needed for something else.  The program behind the cache sees a plain frame.
 *
 * The model covers slots of one word; registers are not of the read-once kind, and
 * none keeps its value over a call.
 */
module Registers {
  const NOREG := -1
  const NOSLOT := -1
  const NEVER := 0xffff_ffff

  datatype Kind = Int | Float | Ref

  /** SlotInfo.modified: the value was written, and it need not be written back at the end of the block. */
  datatype Modified = Modified(write: bool, noWriteback: bool)

  const CLEAN := Modified(false, false)

  /**
   * The slot of each register and when it was last used; the register of each slot and
   * whether it was modified; the frame and the contents of the registers.
   */
  datatype State = State(slotOf: seq<int>, used: seq<int>, regOf: seq<int>, modified: seq<Modified>, frame: seq<int>,
      regs: seq<int>, usecnt: int)

  ghost predicate Sizes(s: State)
  {
    |s.used| == |s.slotOf| == |s.regs| && |s.modified| == |s.regOf| == |s.frame|
  }

  ghost predicate IsReg(s: State, r: int) { 0 <= r < |s.slotOf| }
  ghost predicate IsSlot(s: State, i: int) { 0 <= i < |s.regOf| }

  /** Slots and registers point at each other. */
  ghost predicate Inverse(s: State)
  {
    && (forall i :: IsSlot(s, i) ==> s.regOf[i] == NOREG || (IsReg(s, s.regOf[i]) && s.slotOf[s.regOf[i]] == i))
    && (forall r :: IsReg(s, r) ==> s.slotOf[r] == NOSLOT || (IsSlot(s, s.slotOf[r]) && s.regOf[s.slotOf[r]] == r))
  }

  /** A register that was not written agrees with the frame. */
  ghost predicate Coherent(s: State)
    requires Sizes(s) && Inverse(s)
  {
    forall i :: IsSlot(s, i) && s.regOf[i] != NOREG && !s.modified[i].write ==> s.regs[s.regOf[i]] == s.frame[i]
  }

  ghost predicate Inv(s: State)
  {
    && Sizes(s) && Inverse(s) && Coherent(s)
    && s.usecnt >= 0 && forall r :: IsReg(s, r) ==> 0 <= s.used[r] <= s.usecnt
  }

  /** The value of slot i, wherever it is. */
  ghost function Value(s: State, i: int): int
    requires Sizes(s) && Inverse(s) && IsSlot(s, i)
  {
    if s.regOf[i] == NOREG then s.frame[i] else s.regs[s.regOf[i]]
  }

  /** The plain frame that the program sees. */
  ghost function Plain(s: State): (p: seq<int>)
    requires Sizes(s) && Inverse(s)
    ensures |p| == |s.regOf|
  {
    seq(|s.regOf|, i requires 0 <= i < |s.regOf| => Value(s, i))
  }

  lemma PlainAt(s: State, i: int)
    requires Sizes(s) && Inverse(s) && IsSlot(s, i)
    ensures Plain(s)[i] == Value(s, i)
  {
  }

  // ---------------------------------------------------------------------------
  // Single steps
  // ---------------------------------------------------------------------------

  /** Write a slot back to the frame. */
  function Spill(s: State, i: int): State
    requires |s.modified| == |s.regOf| == |s.frame| && 0 <= i < |s.regOf| && 0 <= s.regOf[i] < |s.regs|
  {
    s.(frame := s.frame[i := s.regs[s.regOf[i]]],
        modified := s.modified[i := s.modified[i].(write := false, noWriteback := false)])
  }

  /** Register r is free afterwards; a value that was written goes to the frame. */
  function Evict(s: State, r: int): State
    requires |s.modified| == |s.regOf| == |s.frame| && |s.regs| == |s.slotOf| && 0 <= r < |s.slotOf|
    requires s.slotOf[r] != NOSLOT ==> 0 <= s.slotOf[r] < |s.regOf| && s.regOf[s.slotOf[r]] == r
  {
    var i := s.slotOf[r];
    if i == NOSLOT then s
    else
      var t := if s.modified[i].write then Spill(s, i) else s;
      t.(regOf := t.regOf[i := NOREG], modified := t.modified[i := CLEAN], slotOf := t.slotOf[r := NOSLOT])
  }

  /** Eviction changes no value. */
  lemma EvictKeeps(s: State, r: int)
    requires Inv(s) && IsReg(s, r)
    ensures Inv(Evict(s, r)) && Evict(s, r).slotOf[r] == NOSLOT && Plain(Evict(s, r)) == Plain(s) && Sizes(s)
    ensures forall q :: IsReg(s, q) && q != r ==> Evict(s, r).slotOf[q] == s.slotOf[q]
    ensures Evict(s, r).regs == s.regs && Evict(s, r).used == s.used && Evict(s, r).usecnt == s.usecnt
    ensures |Evict(s, r).slotOf| == |s.slotOf| && |Evict(s, r).regOf| == |s.regOf|
  {
    var t := Evict(s, r);
    forall j | IsSlot(s, j) ensures Value(t, j) == Value(s, j) {}
  }

  /** Slot i gives up its register, with its value. */
  function Forget(s: State, i: int): State
    requires |s.modified| == |s.regOf| && 0 <= i < |s.regOf| && (s.regOf[i] != NOREG ==> 0 <= s.regOf[i] < |s.slotOf|)
  {
    var t := if s.regOf[i] == NOREG then s else s.(slotOf := s.slotOf[s.regOf[i] := NOSLOT]);
    t.(regOf := s.regOf[i := NOREG], modified := s.modified[i := CLEAN])
  }

  /** Only that slot's value is affected: it falls back to the frame. */
  lemma ForgetKeeps(s: State, i: int)
    requires Inv(s) && IsSlot(s, i)
    ensures Inv(Forget(s, i)) && Forget(s, i).regOf[i] == NOREG && Plain(Forget(s, i)) == Plain(s)[i := s.frame[i]]
  {
    var t := Forget(s, i);
    forall j | IsSlot(s, j) && j != i ensures Value(t, j) == Value(s, j) {}
  }

  /** Free register r takes slot i, which is in none; its contents become v. */
  function Bind(s: State, i: int, r: int, v: int, m: Modified): State
    requires |s.modified| == |s.regOf| && |s.used| == |s.slotOf| == |s.regs| && 0 <= i < |s.regOf|
    requires 0 <= r < |s.slotOf|
  {
    s.(slotOf := s.slotOf[r := i], regOf := s.regOf[i := r], regs := s.regs[r := v], modified := s.modified[i := m],
       used := s.used[r := s.usecnt + 1], usecnt := s.usecnt + 1)
  }

  lemma BindKeeps(s: State, i: int, r: int, v: int, m: Modified)
    requires Inv(s) && IsSlot(s, i) && IsReg(s, r) && s.slotOf[r] == NOSLOT && s.regOf[i] == NOREG
    requires (!m.write ==> v == s.frame[i])
    ensures Inv(Bind(s, i, r, v, m)) && Plain(Bind(s, i, r, v, m)) == Plain(s)[i := v]
  {
    var t := Bind(s, i, r, v, m);
    forall j | IsSlot(s, j) && j != i ensures Value(t, j) == Value(s, j) {}
  }

  /** clobberRegister: evict, and count as a use. */
  function Clobber(s: State, r: int): State
    requires |s.modified| == |s.regOf| == |s.frame| && |s.used| == |s.regs| == |s.slotOf|
    requires (r == NOREG || 0 <= r < |s.slotOf|)
    requires r != NOREG && s.slotOf[r] != NOSLOT ==> 0 <= s.slotOf[r] < |s.regOf| && s.regOf[s.slotOf[r]] == r
  {
    if r == NOREG then s
    else
      var t := Evict(s, r);
      t.(used := t.used[r := t.usecnt + 1], usecnt := t.usecnt + 1)
  }

  lemma ClobberKeeps(s: State, r: int)
    requires Inv(s) && (r == NOREG || IsReg(s, r))
    ensures Inv(Clobber(s, r)) && Plain(Clobber(s, r)) == Plain(s) && (r != NOREG ==> Clobber(s, r).slotOf[r] == NOSLOT)
    ensures |Clobber(s, r).slotOf| == |s.slotOf| && |Clobber(s, r).regOf| == |s.regOf| && Clobber(s, r).regs == s.regs
    ensures forall q :: IsReg(s, q) && q != r ==> Clobber(s, r).slotOf[q] == s.slotOf[q]
    ensures s.usecnt <= Clobber(s, r).usecnt <= s.usecnt + 1
  {
    if r != NOREG {
      EvictKeeps(s, r);
      var t, u := Evict(s, r), Clobber(s, r);
      assert forall j :: IsSlot(s, j) ==> Value(u, j) == Value(t, j);
    }
  }

  // ---------------------------------------------------------------------------
  // The cache
  // ---------------------------------------------------------------------------

  datatype Use = Use(read: bool, write: bool)

  /** The target machine: what each register can hold, and which are reserved. */
  datatype Machine = Machine(types: seq<set<Kind>>, reserved: seq<bool>) {
    predicate Eligible(r: int, kind: Kind)
    {
      0 <= r < |types| && r < |reserved| && !reserved[r] && kind in types[r]
    }
  }

  class RegisterCache {
    const machine: Machine
    var slotOf: seq<int>         // reginfo[].slot
    var used: seq<int>           // reginfo[].used
    var regOf: seq<int>          // SlotInfo.regno
    var modified: seq<Modified>  // SlotInfo.modified
    var usecnt: int
    var frame: seq<int>          // what the generated code sees: the frame ...
    var regs: seq<int>           // ... and the registers

    ghost function Now(): State reads this { State(slotOf, used, regOf, modified, frame, regs, usecnt) }

    ghost predicate Valid()
      reads this
    {
      Inv(Now()) && |machine.types| == |machine.reserved| == |slotOf|
    }

    /** The frame as the program sees it. */
    ghost function Contents(): seq<int>
      requires Valid()
      reads this
    {
      Plain(Now())
    }

    /** initRegisters and initSlots */
    constructor (machine: Machine, frame: seq<int>, regs: seq<int>)
      requires |machine.types| == |machine.reserved| == |regs|
      ensures Valid() && Contents() == frame && this.machine == machine && usecnt == 0
      ensures forall r :: 0 <= r < |slotOf| ==> slotOf[r] == NOSLOT
    {
      this.machine, this.frame, this.regs, this.usecnt := machine, frame, regs, 0;
      slotOf, used := seq(|regs|, i => NOSLOT), seq(|regs|, i => 0);
      regOf, modified := seq(|frame|, i => NOREG), seq(|frame|, i => CLEAN);
      new;
      assert Plain(Now()) == frame;
    }

    /** Pick the least recently used register that can hold the kind. */
    method ChooseRegister(kind: Kind) returns (reg: int)
      requires Valid() && usecnt < NEVER && exists r :: machine.Eligible(r, kind)
      ensures machine.Eligible(reg, kind) && forall r :: machine.Eligible(r, kind) ==> used[reg] <= used[r]
      ensures forall r :: 0 <= r < reg && machine.Eligible(r, kind) ==> used[reg] < used[r]
    {
      ghost var e :| machine.Eligible(e, kind);
      assert IsReg(Now(), e);
      reg := NOREG;
      var least := NEVER;
      for creg := 0 to |slotOf|
        invariant reg == NOREG ==> least == NEVER && forall r :: 0 <= r < creg ==> !machine.Eligible(r, kind)
        invariant reg != NOREG ==> machine.Eligible(reg, kind) && reg < creg && least == used[reg]
        invariant reg != NOREG ==> forall r :: 0 <= r < creg && machine.Eligible(r, kind) ==> used[reg] <= used[r]
        invariant reg != NOREG ==> forall r :: 0 <= r < reg && machine.Eligible(r, kind) ==> used[reg] < used[r]
      {
        assert IsReg(Now(), creg);
        if machine.Eligible(creg, kind) && used[creg] < least {
          least, reg := used[creg], creg;
        }
      }
    }

    /** clobberRegister */
    method ClobberRegister(r: int)
      requires Valid() && (r == NOREG || 0 <= r < |slotOf|)
      modifies this
      ensures Valid() && Now() == Clobber(old(Now()), r) && Contents() == old(Contents())
      ensures r != NOREG ==> 0 <= r < |slotOf| && slotOf[r] == NOSLOT
    {
      ClobberKeeps(Now(), r);
      if r != NOREG {
        EvictRegister(r);
        usecnt := usecnt + 1;
        used := used[r := usecnt];
      }
    }

    /** Write a register back if it was written, and free it. */
    method EvictRegister(r: int)
      requires Valid() && 0 <= r < |slotOf|
      modifies `frame, `regOf, `modified, `slotOf
      ensures Now() == Evict(old(Now()), r) && Valid() && Contents() == old(Contents())
    {
      EvictKeeps(Now(), r);
      var i := slotOf[r];
      if i != NOSLOT {
        if modified[i].write {
          frame := frame[i := regs[regOf[i]]];
          modified := modified[i := CLEAN];
        }
        regOf, modified := regOf[i := NOREG], modified[i := CLEAN];
        slotOf := slotOf[r := NOSLOT];
      }
    }

    /** Drop the register of slot i without writing it back. */
    method ForgetSlot(i: int)
      requires Valid() && 0 <= i < |regOf|
      modifies `regOf, `modified, `slotOf
      ensures Now() == Forget(old(Now()), i) && Valid() && Contents() == old(Contents())[i := frame[i]]
    {
      ForgetKeeps(Now(), i);
      if regOf[i] != NOREG {
        slotOf := slotOf[regOf[i] := NOSLOT];
      }
      regOf, modified := regOf[i := NOREG], modified[i := CLEAN];
    }

    /** slowSlotRegister: give slot i a register of the right kind. */
    method SlowSlotRegister(i: int, kind: Kind, use: Use) returns (reg: int)
      requires Valid() && 0 <= i < |regOf| && (use.read || use.write) && usecnt + 2 < NEVER
      requires !InRegister(i, kind) && exists r :: machine.Eligible(r, kind)
      modifies this
      ensures Valid() && Accessed(old(Now()), Now(), i, reg, use) && machine.Eligible(reg, kind)
      ensures forall r :: machine.Eligible(r, kind) ==> old(used)[reg] <= old(used)[r]
      ensures forall r :: 0 <= r < reg && machine.Eligible(r, kind) ==> old(used)[reg] < old(used)[r]
    {
      ghost var s := Now();
      reg := ChooseRegister(kind);
      SlowKeeps(s, i, reg, use);
      hide Inv, Coherent, Inverse, Accessed, Bind, Clobber, Evict, Forget;
      EvictRegister(reg);
      if use.read {
        ClobberRegister(regOf[i]);
      } else {
        ForgetSlot(i);
      }
      BindSlot(i, reg, use);
    }

    /** Slot i gets register reg; a read loads it from the frame. */
    method BindSlot(i: int, reg: int, use: Use)
      requires Valid() && 0 <= i < |regOf| && 0 <= reg < |slotOf| && slotOf[reg] == NOSLOT && regOf[i] == NOREG
      requires (use.read || use.write)
      modifies this
      ensures Valid()
      ensures var v := if use.read then old(frame[i]) else old(regs[reg]);
              Now() == Bind(old(Now()), i, reg, v, Modified(use.write, false))
      ensures |regOf| == old(|regOf|) && |slotOf| == old(|slotOf|) == |used| && |modified| == |regOf|
      ensures regOf[i] == reg && slotOf[reg] == i && modified[i] == Modified(use.write, false) && used[reg] == usecnt
    {
      BindKeeps(Now(), i, reg, if use.read then frame[i] else regs[reg], Modified(use.write, false));
      slotOf, regOf := slotOf[reg := i], regOf[i := reg];
      if use.read {
        regs := regs[reg := frame[i]];
      }
      modified := modified[i := Modified(use.write, false)];
      usecnt := usecnt + 1;
      used := used[reg := usecnt];
    }

    /** fastSlotRegister: the slot is in a register that can hold the kind. */
    method FastSlotRegister(i: int, ghost kind: Kind, use: Use) returns (reg: int)
      requires Valid() && 0 <= i < |regOf| && InRegister(i, kind)
      modifies this
      ensures Valid() && Accessed(old(Now()), Now(), i, reg, use) && reg == old(regOf[i])
      ensures slotOf == old(slotOf) && regOf == old(regOf) && frame == old(frame) && regs == old(regs)
    {
      FastKeeps(Now(), i, use);
      hide Coherent, Inverse, Plain, Value;
      reg := regOf[i];
      modified := modified[i := modified[i].(write := modified[i].write || use.write)];
      usecnt := usecnt + 1;
      used := used[reg := usecnt];
    }

    /**
     * The macro that picks one of the two.  The register can hold the kind; it is the one the
     * slot is in if that one can, and nothing moves then; otherwise it is the first of the least
     * recently used ones that are not reserved and can.
     */
    method SlotRegister(i: int, kind: Kind, use: Use) returns (reg: int)
      requires Valid() && 0 <= i < |regOf| && (use.read || use.write) && usecnt + 2 < NEVER
      requires exists r :: machine.Eligible(r, kind)
      modifies this
      ensures Valid() && Accessed(old(Now()), Now(), i, reg, use)
      ensures 0 <= reg < |machine.types| && kind in machine.types[reg]
      ensures var r0 := old(regOf[i]);
              && (0 <= r0 < |machine.types| && kind in machine.types[r0] ==>
                    reg == r0 && slotOf == old(slotOf) && regOf == old(regOf) && frame == old(frame) &&
                        regs == old(regs))
              && (!(0 <= r0 < |machine.types| && kind in machine.types[r0]) ==>
                    && !machine.reserved[reg]
                    && (forall r :: 0 <= r < |machine.types| && !machine.reserved[r] && kind in machine.types[r] ==>
                          old(used)[reg] < old(used)[r] || (old(used)[reg] == old(used)[r] && reg <= r)))
    {
      hide Accessed;
      if InRegister(i, kind) {
        reg := FastSlotRegister(i, kind, use);
      } else {
        reg := SlowSlotRegister(i, kind, use);
      }
    }

    /** An instruction that reads slot i. */
    method Read(i: int, kind: Kind) returns (v: int)
      requires Valid() && 0 <= i < |regOf| && usecnt + 2 < NEVER && exists r :: machine.Eligible(r, kind)
      modifies this
      ensures Valid() && |regOf| == old(|regOf|) && Contents() == old(Contents()) && v == old(Contents())[i]
      ensures 0 <= regOf[i] < |machine.types| && kind in machine.types[regOf[i]] && regs[regOf[i]] == v
    {
      var reg := SlotRegister(i, kind, Use(true, false));
      v := regs[reg];
    }

    /** An instruction that writes slot i. */
    method Write(i: int, kind: Kind, v: int)
      requires Valid() && 0 <= i < |regOf| && usecnt + 2 < NEVER && exists r :: machine.Eligible(r, kind)
      modifies this
      ensures Valid() && |regOf| == old(|regOf|) && Contents() == old(Contents())[i := v]
      ensures 0 <= regOf[i] < |machine.types| && kind in machine.types[regOf[i]] && regs[regOf[i]] == v
    {
      var reg := SlotRegister(i, kind, Use(false, true));
      StoreKeeps(Now(), i, v);
      regs := regs[reg := v];
    }

    /** forceRegister: slot i is what register reg holds; another slot there is saved first. */
    method ForceRegister(i: int, reg: int)
      requires Valid() && 0 <= i < |regOf| && 0 <= reg < |slotOf|
      modifies this
      ensures Valid() && |regOf| == old(|regOf|) && Contents() == old(Contents())[i := old(regs)[reg]]
      ensures regOf[i] == reg && slotOf[reg] == i && modified[i] == Modified(true, false) && used[reg] == usecnt
    {
      hide Inv, Coherent, Inverse, Plain, Forget, Clobber, Bind;
      ghost var s := Now();
      ForceKeeps(s, i, reg);
      ForgetSlot(i);
      ClobberRegister(reg);
      BindSlot(i, reg, Use(false, true));
    }

    /** nowritebackSlot */
    method NoWriteback(i: int)
      requires Valid() && 0 <= i < |regOf|
      modifies `modified
      ensures Valid() && Contents() == old(Contents())
      ensures modified == old(modified)[i := old(modified)[i].(noWriteback := true)]
    {
      FlagKeeps(Now(), i);
      modified := modified[i := modified[i].(noWriteback := true)];
    }

    /** endBlock, for one slot. */
    method EndSlot(i: int)
      requires Valid() && 0 <= i < |regOf|
      modifies `frame, `modified
      ensures Valid() && Now() == End(old(Now()), i)
    {
      EndKeeps(Now(), i);
      if modified[i].write && regOf[i] != NOREG {
        if !modified[i].noWriteback {
          frame := frame[i := regs[regOf[i]]];
          modified := modified[i := CLEAN];
        } else {
          modified := modified[i := modified[i].(noWriteback := false)];
        }
      }
    }

    /** One of its three loops. */
    method EndRange(lo: int, hi: int)
      requires Valid() && 0 <= lo && hi <= |regOf|
      modifies `frame, `modified
      ensures Valid() && Contents() == old(Contents())
      ensures forall i :: 0 <= i < |regOf| ==> SavedFrom(old(Now()), Now(), lo, hi, i)
    {
      hide Inv, Coherent, Inverse, Plain, SavedFrom, End;
      ghost var s := Now();
      SavedStart(s, lo);
      var i := lo;
      while i < hi
        invariant lo <= i && (i <= hi || i == lo) && Valid() && Contents() == old(Contents())
        invariant SavedTo(s, Now(), lo, i)
      {
        SavedStep(s, Now(), lo, i);
        EndSlot(i);
        i := i + 1;
      }
      SavedEnd(s, Now(), lo, hi, i);
    }

    /** endBlock: locals, the stack in use and the temporaries in use go to the frame. */
    method EndBlock(maxLocal: int, stkno: int, stackEnd: int, tmpslot: int)
      requires Valid() && 0 <= maxLocal <= stackEnd && 0 <= stkno && 0 <= tmpslot && stackEnd + tmpslot <= |regOf|
      modifies `frame, `modified
      ensures Valid() && Contents() == old(Contents())
      ensures forall i :: Live(maxLocal, stkno, stackEnd, tmpslot, i) && !Discards(old(Now()), i) ==>
                frame[i] == old(Contents())[i] && !Dirty(Now(), i)
      ensures forall i :: 0 <= i < |regOf| && !Live(maxLocal, stkno, stackEnd, tmpslot, i) ==>
                frame[i] == old(frame)[i] && modified[i] == old(modified)[i]
      ensures forall i :: Discards(old(Now()), i) && !(stkno <= i < maxLocal) ==> frame[i] == old(frame)[i]
    {
      hide Coherent, Inverse, Plain, SavedFrom;
      ghost var s := Now();
      EndRange(0, maxLocal);
      ghost var s1 := Now();
      EndRange(stkno, stackEnd);
      ghost var s2 := Now();
      EndRange(stackEnd, stackEnd + tmpslot);
      forall i | Live(maxLocal, stkno, stackEnd, tmpslot, i) && !Discards(s, i)
        ensures frame[i] == Plain(s)[i] && !Dirty(Now(), i)
      {
        SavedThrough(s, s1, s2, Now(), maxLocal, stkno, stackEnd, tmpslot, i);
      }
      forall i | 0 <= i < |regOf|
        ensures !Live(maxLocal, stkno, stackEnd, tmpslot, i) ==> frame[i] == s.frame[i] && modified[i] == s.modified[i]
        ensures Discards(s, i) && !(stkno <= i < maxLocal) ==> frame[i] == s.frame[i]
      {
        SavedNowhere(s, s1, s2, Now(), maxLocal, stkno, stackEnd, tmpslot, i);
      }
    }

    /** startBlock and fixupFunctionCall: no slot is in a register any more. */
    method InvalidateAll()
      requires Sizes(Now()) && Inverse(Now()) && Counts(Now()) && |machine.types| == |machine.reserved| == |slotOf|
      modifies `slotOf, `regOf, `modified
      ensures Valid() && Contents() == frame && forall i :: 0 <= i < |regOf| ==> regOf[i] == NOREG
    {
      var i := |regOf| - 1;
      while i >= 0
        invariant -1 <= i < |regOf| && Sizes(Now()) && Inverse(Now()) && Counts(Now()) && |slotOf| == |machine.types|
        invariant forall j :: i < j < |regOf| ==> regOf[j] == NOREG
      {
        if regOf[i] != NOREG {
          InvalidateKeeps(Now(), i);
          slotOf := slotOf[regOf[i] := NOSLOT];
          regOf, modified := regOf[i := NOREG], modified[i := CLEAN];
        }
        i := i - 1;
      }
      AllInFrame(Now());
    }

    /**
     * The end of one block and the start of the next: live slots keep their values, unless they
     * were marked not to be written back.
     */
    method NextBlock(maxLocal: int, stkno: int, stackEnd: int, tmpslot: int)
      requires Valid() && 0 <= maxLocal <= stackEnd && 0 <= stkno && 0 <= tmpslot && stackEnd + tmpslot <= |regOf|
      modifies this
      ensures Valid() && |regOf| == old(|regOf|)
      ensures forall i :: Live(maxLocal, stkno, stackEnd, tmpslot, i) && !Discards(old(Now()), i) ==>
                Contents()[i] == old(Contents())[i]
      ensures forall i :: 0 <= i < |regOf| && !Live(maxLocal, stkno, stackEnd, tmpslot, i) ==>
                Contents()[i] == old(frame)[i]
      ensures forall i :: Discards(old(Now()), i) && !(stkno <= i < maxLocal) ==> Contents()[i] == old(frame)[i]
      ensures forall i :: 0 <= i < |regOf| ==> regOf[i] == NOREG
    {
      EndBlock(maxLocal, stkno, stackEnd, tmpslot);
      hide Coherent, Plain;
      InvalidateAll();
    }

    /** prepareFunctionCall, for one slot. */
    method SaveSlot(i: int)
      requires Valid() && 0 <= i < |regOf|
      modifies `frame, `modified
      ensures Valid() && Now() == Save(old(Now()), i)
    {
      SaveKeeps(Now(), i);
      if modified[i].write && regOf[i] != NOREG {
        frame := frame[i := regs[regOf[i]]];
        modified := modified[i := CLEAN];
      }
    }

    method SaveRange(lo: int, hi: int)
      requires Valid() && 0 <= lo && hi <= |regOf|
      modifies `frame, `modified
      ensures Valid() && Contents() == old(Contents())
      ensures forall i :: 0 <= i < |regOf| && (lo <= i < hi || old(frame)[i] == old(Contents())[i]) ==>
                frame[i] == old(Contents())[i]
      ensures |frame| == |regOf| && forall i :: 0 <= i < |regOf| && !(lo <= i < hi) ==> frame[i] == old(frame)[i]
      ensures forall i :: lo <= i < hi ==> !Dirty(Now(), i)
    {
      hide Coherent, Inverse, Plain, Save;
      var i := lo;
      while i < hi
        invariant lo <= i && (i <= hi || i == lo) && Valid() && Contents() == old(Contents())
        invariant forall j :: 0 <= j < |regOf| && (lo <= j < i || old(frame)[j] == old(Contents())[j]) ==>
                    frame[j] == old(Contents())[j]
        invariant |frame| == |regOf| && forall j :: 0 <= j < |regOf| && !(lo <= j < i) ==> frame[j] == old(frame)[j]
        invariant forall j :: lo <= j < i ==> !Dirty(Now(), j)
      {
        SaveKeeps(Now(), i);
        SaveSlot(i);
        i := i + 1;
      }
    }

    /**
     * A function call: prepareFunctionCall, a call that may leave anything in the registers,
     * and fixupFunctionCall.  Every live slot keeps its value.
     */
    method Call(maxLocal: int, stkno: int, stackEnd: int, tmpslot: int, left: seq<int>)
      requires Valid() && 0 <= maxLocal <= stackEnd && 0 <= stkno && 0 <= tmpslot && stackEnd + tmpslot <= |regOf|
      requires |left| == |regs|
      modifies this
      ensures Valid() && |regOf| == old(|regOf|)
      ensures forall i :: 0 <= i < |regOf| ==>
                (Contents()[i] ==
                 if Live(maxLocal, stkno, stackEnd, tmpslot, i) then old(Contents())[i] else old(frame)[i])
      ensures forall i :: 0 <= i < |regOf| ==> regOf[i] == NOREG
    {
      SaveRange(0, maxLocal);
      SaveRange(stkno, stackEnd);
      SaveRange(stackEnd, stackEnd + tmpslot);
      hide Coherent, Plain;
      regs := left;
      InvalidateAll();
    }

    /** The macro test: slot i is in a register that can hold the kind. */
    predicate InRegister(i: int, kind: Kind)
      requires 0 <= i < |regOf|
      reads this
    {
      0 <= regOf[i] < |machine.types| && kind in machine.types[regOf[i]]
    }
  }

  /**
   * An access of slot i through register r: a read finds the value and changes none; a write
   * makes the register's contents the slot's value, whatever they are or become.
   */
  ghost predicate Accessed(s: State, t: State, i: int, r: int, use: Use)
  {
    && Inv(s) && Inv(t) && |t.regOf| == |s.regOf| && |t.slotOf| == |s.slotOf| && IsSlot(t, i) && IsReg(t, r)
    && t.regOf[i] == r
    && (use.write ==> t.modified[i].write) && t.used[r] == t.usecnt && s.usecnt < t.usecnt
    && (forall q :: IsReg(s, q) ==> t.used[q] >= s.used[q] && (q != r ==> t.used[q] < t.usecnt))
    && (if use.read then Plain(t) == Plain(s) && t.regs[r] == Plain(s)[i] else Plain(t) == Plain(s)[i := t.regs[r]])
  }

  /** What slowSlotRegister does with register r. */
  ghost function Slow(s: State, i: int, r: int, use: Use): State
    requires Inv(s) && IsSlot(s, i) && IsReg(s, r) && s.regOf[i] != r
  {
    EvictKeeps(s, r);
    var s1 := Evict(s, r);
    SlotKept(s, i, r);
    ReleaseKeeps(s1, i, r, use);
    var s2 := if use.read then Clobber(s1, s1.regOf[i]) else Forget(s1, i);
    Bind(s2, i, r, if use.read then s2.frame[i] else s2.regs[r], Modified(use.write, false))
  }

  lemma SlotKept(s: State, i: int, r: int)
    requires Inv(s) && IsSlot(s, i) && IsReg(s, r) && s.regOf[i] != r
    ensures IsSlot(Evict(s, r), i) && Evict(s, r).regOf[i] == s.regOf[i]
    ensures s.regOf[i] == NOREG || IsReg(Evict(s, r), s.regOf[i])
  {
    EvictKeeps(s, r);
  }

  /** A chain of steps that only make registers more recently used. */
  lemma SlowUsed(s: State, i: int, r: int, use: Use)
    requires Inv(s) && IsSlot(s, i) && IsReg(s, r) && s.regOf[i] != r
    ensures var t := Slow(s, i, r, use);
            |t.used| == |s.used| && forall q :: IsReg(s, q) ==>
                                      t.used[q] >= s.used[q] && (q != r ==> t.used[q] < t.usecnt)
  {
    EvictKeeps(s, r);
    SlotKept(s, i, r);
  }

  lemma SlowKeeps(s: State, i: int, r: int, use: Use)
    requires Inv(s) && IsSlot(s, i) && IsReg(s, r) && s.regOf[i] != r && (use.read || use.write)
    ensures Accessed(s, Slow(s, i, r, use), i, r, use)
    ensures Evict(s, r).regOf[i] == s.regOf[i] && |Evict(s, r).regOf| == |s.regOf| && |Evict(s, r).slotOf| == |s.slotOf|
    ensures s.regOf[i] == NOREG || IsReg(s, s.regOf[i])
    ensures var s1 := Evict(s, r);
            var s2 := if use.read then Clobber(s1, s1.regOf[i]) else Forget(s1, i);
            IsSlot(s2, i) && IsReg(s2, r) && s2.slotOf[r] == NOSLOT && s2.regOf[i] == NOREG
  {
    hide Coherent, Evict, Clobber, Forget, Plain;
    SlowUsed(s, i, r, use);
    EvictKeeps(s, r);
    SlotKept(s, i, r);
    var s1 := Evict(s, r);
    ReleaseKeeps(s1, i, r, use);
    var s2 := if use.read then Clobber(s1, s1.regOf[i]) else Forget(s1, i);
    var v := if use.read then s2.frame[i] else s2.regs[r];
    BindKeeps(s2, i, r, v, Modified(use.write, false));
    PlainAt(s2, i);
  }

  /** The slot leaves its old register, keeping its value if it is going to be read. */
  lemma ReleaseKeeps(s: State, i: int, r: int, use: Use)
    requires Inv(s) && IsSlot(s, i) && IsReg(s, r) && s.regOf[i] != r && s.slotOf[r] == NOSLOT
    requires (s.regOf[i] == NOREG || IsReg(s, s.regOf[i]))
    ensures var t := if use.read then Clobber(s, s.regOf[i]) else Forget(s, i);
            && Inv(t) && IsSlot(t, i) && IsReg(t, r) && t.regOf[i] == NOREG && t.slotOf[r] == NOSLOT
            && |t.regOf| == |s.regOf| && |t.slotOf| == |s.slotOf|
            && t.usecnt >= s.usecnt && Plain(t) == if use.read then Plain(s) else Plain(s)[i := s.frame[i]]
  {
    if use.read { ClobberKeeps(s, s.regOf[i]); } else { ForgetKeeps(s, i); }
  }

  lemma FastKeeps(s: State, i: int, use: Use)
    requires Inv(s) && IsSlot(s, i) && s.regOf[i] != NOREG
    ensures IsReg(s, s.regOf[i])
    ensures var m := s.modified[i];
            Accessed(s, s.(modified := s.modified[i := m.(write := m.write || use.write)],
                used := s.used[s.regOf[i] := s.usecnt + 1],
                     usecnt := s.usecnt + 1), i, s.regOf[i], use)
  {
    var m := s.modified[i];
    var t := s.(modified := s.modified[i := m.(write := m.write || use.write)],
        used := s.used[s.regOf[i] := s.usecnt + 1], usecnt := s.usecnt + 1);
    assert Plain(t) == Plain(s);
    PlainAt(s, i);
  }

  /** Writing the register of a slot that is marked as written changes that slot alone. */
  lemma StoreKeeps(s: State, i: int, v: int)
    requires Inv(s) && IsSlot(s, i) && IsReg(s, s.regOf[i]) && s.modified[i].write
    ensures var t := s.(regs := s.regs[s.regOf[i] := v]); Inv(t) && Plain(t) == Plain(s)[i := v]
  {
    var t := s.(regs := s.regs[s.regOf[i] := v]);
    forall j | IsSlot(s, j) && j != i ensures Value(t, j) == Value(s, j) {}
  }

  lemma ForceKeeps(s: State, i: int, r: int)
    requires Inv(s) && IsSlot(s, i) && IsReg(s, r)
    ensures var s1 := Forget(s, i);
            && Inv(s1) && IsReg(s1, r) && IsSlot(s1, i)
            && var s2 := Clobber(s1, r);
               && Inv(s2) && IsSlot(s2, i) && IsReg(s2, r) && s2.regOf[i] == NOREG && s2.slotOf[r] == NOSLOT
               && |s2.regOf| == |s.regOf|
               && var t := Bind(s2, i, r, s2.regs[r], Modified(true, false));
                  Inv(t) && Plain(t) == Plain(s)[i := s.regs[r]] && t.regOf[i] == r && |t.regOf| == |s.regOf|
  {
    ForgetKeeps(s, i);
    var s1 := Forget(s, i);
    ClobberKeeps(s1, r);
    ForcedFree(s1, i, r);
    var s2 := Clobber(s1, r);
    hide Inv, Clobber, Forget;
    BindKeeps(s2, i, r, s2.regs[r], Modified(true, false));
  }

  lemma ForcedFree(s: State, i: int, r: int)
    requires Inv(s) && IsSlot(s, i) && IsReg(s, r) && s.regOf[i] == NOREG
    ensures Clobber(s, r).regOf[i] == NOREG
  {
    ClobberKeeps(s, r);
  }

  lemma FlagKeeps(s: State, i: int)
    requires Inv(s) && IsSlot(s, i)
    ensures var t := s.(modified := s.modified[i := s.modified[i].(noWriteback := true)]);
            Inv(t) && Plain(t) == Plain(s)
  {
    var t := s.(modified := s.modified[i := s.modified[i].(noWriteback := true)]);
    assert forall j :: IsSlot(s, j) ==> Value(t, j) == Value(s, j);
  }

  // ---------------------------------------------------------------------------
  // Block boundaries and calls
  // ---------------------------------------------------------------------------

  /** The slots in use: locals, the stack from stkno on, and the first temporaries. */
  predicate Live(maxLocal: int, stkno: int, stackEnd: int, tmpslot: int, i: int)
  {
    0 <= i < maxLocal || stkno <= i < stackEnd || stackEnd <= i < stackEnd + tmpslot
  }

  /** Slot i has a value in a register that was marked not to be written back. */
  ghost predicate Discards(s: State, i: int)
  {
    0 <= i < |s.regOf| && i < |s.modified| && s.regOf[i] != NOREG && s.modified[i].write && s.modified[i].noWriteback
  }

  ghost predicate Counts(s: State)
  {
    s.usecnt >= 0 && |s.used| == |s.slotOf| && forall r :: IsReg(s, r) ==> 0 <= s.used[r] <= s.usecnt
  }

  /** endBlock on slot i. */
  ghost function End(s: State, i: int): State
    requires Inv(s) && IsSlot(s, i)
  {
    if s.modified[i].write && s.regOf[i] != NOREG then
      if !s.modified[i].noWriteback then Spill(s, i)
      else s.(modified := s.modified[i := s.modified[i].(noWriteback := false)])
    else s
  }

  lemma EndKeeps(s: State, i: int)
    requires Inv(s) && IsSlot(s, i)
    ensures Inv(End(s, i)) && Plain(End(s, i)) == Plain(s)
    ensures !Discards(s, i) ==> End(s, i).frame[i] == Plain(s)[i] && !Discards(End(s, i), i)
    ensures |End(s, i).regOf| == |s.regOf|
    ensures |End(s, i).modified| == |s.modified| == |End(s, i).frame| == |s.frame| == |s.regOf|
    ensures forall j :: IsSlot(s, j) && j != i ==> End(s, i).frame[j] == s.frame[j]
    ensures forall j :: IsSlot(s, j) && j != i ==>
              (Discards(End(s, i), j) <==> Discards(s, j)) && (Dirty(End(s, i), j) <==> Dirty(s, j)) &&
              End(s, i).modified[j] == s.modified[j]
    ensures Discards(s, i) ==> End(s, i).frame[i] == s.frame[i]
    ensures (Dirty(End(s, i), i) ==> Dirty(s, i)) && (!Discards(s, i) ==> !Dirty(End(s, i), i))
  {
    var t := End(s, i);
    PlainAt(s, i);
    assert forall j :: IsSlot(s, j) ==> Value(t, j) == Value(s, j);
  }

  ghost function Save(s: State, i: int): State
    requires Inv(s) && IsSlot(s, i)
  {
    if s.modified[i].write && s.regOf[i] != NOREG then Spill(s, i) else s
  }

  lemma SaveKeeps(s: State, i: int)
    requires Inv(s) && IsSlot(s, i)
    ensures Inv(Save(s, i)) && Plain(Save(s, i)) == Plain(s) && Save(s, i).frame[i] == Plain(s)[i]
    ensures |Save(s, i).regOf| == |s.regOf| && |Plain(s)| == |s.regOf|
    ensures |Save(s, i).frame| == |s.regOf| == |s.frame|
    ensures forall j :: IsSlot(s, j) && j != i ==> Save(s, i).frame[j] == s.frame[j]
    ensures !Dirty(Save(s, i), i) && forall j :: Dirty(Save(s, i), j) ==> Dirty(s, j)
  {
    var t := Save(s, i);
    PlainAt(s, i);
    assert forall j :: IsSlot(s, j) ==> Value(t, j) == Value(s, j);
  }

  /** Slot i has a value in a register that the frame may not have. */
  ghost predicate Dirty(s: State, i: int)
  {
    0 <= i < |s.regOf| && i < |s.modified| && s.regOf[i] != NOREG && s.modified[i].write
  }

  /**
   * Slot i is in the frame after a loop of endBlock over [lo, hi), if it was there before or is
   * in range, and is not discarded; and the loop changes nothing else.
   */
  ghost predicate SavedFrom(s: State, t: State, lo: int, hi: int, i: int)
  {
    && Inv(s) && Inv(t) && IsSlot(s, i) && IsSlot(t, i)
    && (!Discards(s, i) ==> !Discards(t, i))
    && (!Discards(s, i) && (lo <= i < hi || s.frame[i] == Plain(s)[i]) ==> t.frame[i] == Plain(s)[i])
    && (!(lo <= i < hi) ==> t.modified[i] == s.modified[i] && (Discards(s, i) ==> Discards(t, i)))
    && (!(lo <= i < hi) || Discards(s, i) ==> t.frame[i] == s.frame[i])
    && (Dirty(t, i) ==> Dirty(s, i)) && (lo <= i < hi && !Discards(s, i) ==> !Dirty(t, i))
  }

  ghost predicate SavedTo(s: State, t: State, lo: int, hi: int)
  {
    Inv(s) && Inv(t) && Plain(t) == Plain(s) && |t.regOf| == |s.regOf| &&
        (forall i :: IsSlot(s, i) ==> SavedFrom(s, t, lo, hi, i))
    && forall i :: IsSlot(s, i) && hi <= i ==> (Discards(t, i) <==> Discards(s, i))
  }

  lemma SavedStart(s: State, lo: int)
    requires Inv(s)
    ensures SavedTo(s, s, lo, lo)
  {
  }

  lemma SavedStep(s: State, t: State, lo: int, i: int)
    requires SavedTo(s, t, lo, i) && IsSlot(s, i) && lo <= i
    ensures SavedTo(s, End(t, i), lo, i + 1)
  {
    EndKeeps(t, i);
    hide Inv, Inverse, Coherent, End, Plain;
    forall j | IsSlot(s, j) ensures SavedFrom(s, End(t, i), lo, i + 1, j) { assert SavedFrom(s, t, lo, i, j); }
  }

  lemma SavedEnd(s: State, t: State, lo: int, hi: int, i: int)
    requires SavedTo(s, t, lo, i) && i >= hi && i >= lo && (i <= hi || i == lo)
    ensures forall j :: 0 <= j < |t.regOf| ==> SavedFrom(s, t, lo, hi, j)
  {
    hide Inv, Plain;
    forall j | 0 <= j < |t.regOf| ensures SavedFrom(s, t, lo, hi, j) { assert SavedFrom(s, t, lo, i, j); }
  }

  /** Through the three loops of endBlock. */
  lemma SavedThrough(s: State, s1: State, s2: State, t: State, maxLocal: int, stkno: int, stackEnd: int, tmpslot: int,
                     i: int)
    requires SavedFrom(s, s1, 0, maxLocal, i) && SavedFrom(s1, s2, stkno, stackEnd, i)
    requires SavedFrom(s2, t, stackEnd, stackEnd + tmpslot, i)
    requires Plain(s1) == Plain(s) == Plain(s2) && Live(maxLocal, stkno, stackEnd, tmpslot, i) && !Discards(s, i)
    ensures t.frame[i] == Plain(s)[i] && !Dirty(t, i)
  {
  }

  /** ... and what they leave alone; a slot that only one of them meets is in the frame only if it is not discarded. */
  lemma SavedNowhere(s: State, s1: State, s2: State, t: State, maxLocal: int, stkno: int, stackEnd: int, tmpslot: int,
                     i: int)
    requires SavedFrom(s, s1, 0, maxLocal, i) && SavedFrom(s1, s2, stkno, stackEnd, i) && maxLocal <= stackEnd
    requires SavedFrom(s2, t, stackEnd, stackEnd + tmpslot, i)
    ensures !Live(maxLocal, stkno, stackEnd, tmpslot, i) ==> t.modified[i] == s.modified[i]
    ensures !Live(maxLocal, stkno, stackEnd, tmpslot, i) || (Discards(s, i) && !(stkno <= i < maxLocal)) ==>
            t.frame[i] == s.frame[i]
  {
    hide Inv, Plain, Dirty, Discards;
  }

  lemma InvalidateKeeps(s: State, i: int)
    requires Sizes(s) && Inverse(s) && IsSlot(s, i) && s.regOf[i] != NOREG
    ensures IsReg(s, s.regOf[i])
    ensures var t := s.(slotOf := s.slotOf[s.regOf[i] := NOSLOT], regOf := s.regOf[i := NOREG],
             modified := s.modified[i := CLEAN]); Sizes(t) && Inverse(t)
  {
  }

  lemma AllInFrame(s: State)
    requires Sizes(s) && Inverse(s) && Counts(s) && forall i :: IsSlot(s, i) ==> s.regOf[i] == NOREG
    ensures Inv(s) && Plain(s) == s.frame
  {
  }
}
