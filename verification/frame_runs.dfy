/**
 * When the rerun loop of the frame analysis ends (src/kaffejit/code-analyse.c).
 *
 * The frames settle on the least solution of the flow equations.  After that a block is
 * flagged again only in vain, by a merge that delivers a type to a cell that is unstable
 * already.  The loop ends if and only if such merges form no cycle.
 */
module FrameRuns {
  import opened Frames

  // ---------------------------------------------------------------------------
  // Solutions of the flow equations
  // ---------------------------------------------------------------------------

  /**
   * Frames that contain the initial ones and everything the reached blocks merge; blocks of the
   * chain that they merge into are reached.
   */
  ghost predicate Solution(code: Code, initial: seq<Frame>, reached: set<int>, frames: seq<Frame>)
  {
    && CanStart(code, initial) && |frames| == |initial| && 0 in reached
    && (forall b :: b in reached ==> 0 <= b < |frames| && b in code.order)
    && (forall b :: 0 <= b < |frames| ==> Grows(initial[b], frames[b]))
    && (forall b, k {:trigger Flows(code, reached, frames, b, k)} ::
          b in reached && 0 <= k < |code.blocks[b]| ==> Flows(code, reached, frames, b, k))
  }

  ghost predicate Flows(code: Code, reached: set<int>, frames: seq<Frame>, b: int, k: int)
    requires 0 <= b < |code.blocks| && b < |frames| && 0 <= k < |code.blocks[b]|
  {
    var e := code.blocks[b][k];
    Contained(code, frames, b, frames[b], k) && (IsMerge(e) && e.target in code.order ==> e.target in reached)
  }

  /** The least one. */
  ghost predicate Least(code: Code, initial: seq<Frame>, reached: set<int>, frames: seq<Frame>)
  {
    && Solution(code, initial, reached, frames)
    && (forall r, f {:trigger Solution(code, initial, r, f)} :: Solution(code, initial, r, f) ==>
          reached <= r && forall b :: b in reached ==> Grows(frames[b], f[b]))
  }

  // ---------------------------------------------------------------------------
  // Every run stays below every solution
  // ---------------------------------------------------------------------------

  lemma ApplyGrows(f: Frame, g: Frame, e: Event)
    requires Grows(f, g)
    ensures Grows(Apply(f, e), Apply(g, e))
  {
  }

  lemma {:induction false} ActiveGrows(es: seq<Event>, f: Frame, g: Frame, k: nat)
    requires Grows(f, g) && k <= |es|
    ensures Grows(Active(es, f, k), Active(es, g, k))
    decreases k
  {
    if k > 0 {
      ActiveGrows(es, f, g, k - 1);
      ApplyGrows(Active(es, f, k - 1), Active(es, g, k - 1), es[k - 1]);
    }
  }

  /** Merging what is below a frame into what is below it stays below it. */
  lemma MergedBelow(from: Frame, to: Frame, from': Frame, g: Frame, localsz: int, sp: int)
    requires Grows(from, from') && Grows(to, g) && Below(from', g, localsz, sp)
    ensures Grows(Merged(from, to, localsz, sp), g)
  {
    var r := Merged(from, to, localsz, sp);
    forall m | 0 <= m < |to| ensures Leq(r[m], g[m]) {
      if Seen(localsz, sp, m) { assert Leq(from[m], from'[m]) && Leq(from'[m], g[m]) && Leq(to[m], g[m]); }
    }
  }

  /** The table is below a solution. */
  ghost predicate Under(code: Code, t: Table, reached: set<int>, frames: seq<Frame>)
  {
    && Sizes(code, t) && |frames| == |t.frames|
    && (forall b :: 0 <= b < |frames| ==> Grows(t.frames[b], frames[b]))
    && (forall b :: 0 <= b < |frames| && b in code.order && (t.need[b] || t.done[b]) ==> b in reached)
  }

  lemma {:induction false} ProcessedUnder(code: Code, initial: seq<Frame>, t: Table, reached: set<int>,
                                          frames: seq<Frame>, b: int, k: nat)
    requires Solution(code, initial, reached, frames) && Under(code, t, reached, frames) && b in reached
    requires k <= |code.blocks[b]|
    ensures Under(code, Processed(code, t, b, k), reached, frames)
    decreases k
  {
    if k > 0 {
      ProcessedUnder(code, initial, t, reached, frames, b, k - 1);
      AtIs(code, t, b, k);
      var e := code.blocks[b][k - 1];
      assert Flows(code, reached, frames, b, k - 1);
      if IsMerge(e) {
        var r := Processed(code, t, b, k - 1);
        ActiveGrows(code.blocks[b], t.frames[b], frames[b], k - 1);
        MergedBelow(Active(code.blocks[b], t.frames[b], k - 1), r.frames[e.target],
                    Active(code.blocks[b], frames[b], k - 1), frames[e.target], code.localsz, SpOf(code, e));
      }
    }
  }

  lemma {:induction false} PassUnder(code: Code, initial: seq<Frame>, t: Table, reached: set<int>, frames: seq<Frame>,
                                     i: nat)
    requires Solution(code, initial, reached, frames) && Under(code, t, reached, frames) && i <= |code.order|
    ensures Under(code, PassTo(code, t, i), reached, frames)
    decreases i
  {
    if i > 0 {
      PassUnder(code, initial, t, reached, frames, i - 1);
      var r, b := PassTo(code, t, i - 1), code.order[i - 1];
      if r.need[b] { ProcessedUnder(code, initial, r, reached, frames, b, |code.blocks[b]|); }
    }
  }

  lemma {:induction false} PassesUnder(code: Code, initial: seq<Frame>, t: Table, reached: set<int>, frames: seq<Frame>,
                                       n: nat)
    requires Solution(code, initial, reached, frames) && Under(code, t, reached, frames)
    ensures Under(code, Passes(code, t, n), reached, frames)
    decreases n
  {
    if n > 0 {
      PassesUnder(code, initial, t, reached, frames, n - 1);
      PassUnder(code, initial, Passes(code, t, n - 1), reached, frames, |code.order|);
    }
  }

  // ---------------------------------------------------------------------------
  // What every run keeps
  // ---------------------------------------------------------------------------

  /** Frames only grow, and what is done stays done. */
  ghost predicate Later(t: Table, r: Table)
  {
    && |t.frames| == |r.frames| == |t.done| == |r.done|
    && (forall b :: 0 <= b < |t.frames| ==> Grows(t.frames[b], r.frames[b]) && (t.done[b] ==> r.done[b]))
  }

  lemma LaterTrans(t: Table, r: Table, u: Table)
    requires Later(t, r) && Later(r, u)
    ensures Later(t, u)
  {
    forall b | 0 <= b < |t.frames|
      ensures Grows(t.frames[b], u.frames[b])
    {
      GrowsTrans(t.frames[b], r.frames[b], u.frames[b]);
    }
  }

  /** One processed block. */
  lemma VisitedKeeps(code: Code, t: Table, b: int)
    requires Inv(code, t) && 0 <= b < |code.blocks| && b in code.order
    ensures var r := Processed(code, t, b, |code.blocks[b]|);
            && Inv(code, r) && Later(t, r) && r.done == t.done[b := true]
            && (forall c :: 0 <= c < |t.frames| ==>
                  (r.frames[c] != t.frames[c] ==> r.need[c]) && (c != b && t.need[c] ==> r.need[c]))
  {
    var n := |code.blocks[b]|;
    ProcessedInv(code, t, b, n);
    AtEnd(code, t, Processed(code, t, b, n), b, t.frames[b]);
  }

  lemma {:induction false} PassKeeps(code: Code, t: Table, i: nat)
    requires Inv(code, t) && i <= |code.order|
    ensures Inv(code, PassTo(code, t, i)) && Later(t, PassTo(code, t, i))
    decreases i
  {
    if i > 0 {
      PassKeeps(code, t, i - 1);
      hide Inv, Later, Processed;
      var r, b := PassTo(code, t, i - 1), code.order[i - 1];
      SizesOf(code, t);
      VisitedKeeps(code, r, b);
      if r.need[b] { LaterTrans(t, r, Processed(code, r, b, |code.blocks[b]|)); }
    } else {
      LaterRefl(code, t);
    }
  }

  lemma LaterRefl(code: Code, t: Table)
    requires Sizes(code, t)
    ensures Later(t, t)
  {
  }

  lemma StartKeeps(code: Code, initial: seq<Frame>)
    requires CanStart(code, initial)
    ensures Inv(code, Start(code, initial))
  {
  }

  /** Any number of passes from the start: the invariant, growth, and the first block is flagged or done. */
  lemma {:induction false} RunKeeps(code: Code, initial: seq<Frame>, n: nat)
    requires CanStart(code, initial)
    ensures var t := Passes(code, Start(code, initial), n);
            Inv(code, t) && Later(Start(code, initial), t) && (t.need[0] || t.done[0])
    decreases n
  {
    StartKeeps(code, initial);
    if n == 0 {
      LaterRefl(code, Start(code, initial));
    } else {
      RunKeeps(code, initial, n - 1);
      var t := Passes(code, Start(code, initial), n - 1);
      PassKeeps(code, t, |code.order|);
      LaterTrans(Start(code, initial), t, PassTo(code, t, |code.order|));
      FirstVisited(code, t, |code.order|);
    }
  }

  lemma {:induction false} FirstVisited(code: Code, t: Table, i: nat)
    requires Inv(code, t) && i <= |code.order| && |code.blocks| > 0 && (t.need[0] || t.done[0])
    ensures PassTo(code, t, i).need[0] || PassTo(code, t, i).done[0]
    decreases i
  {
    hide Inv, Processed, Later, Grows;
    SizesOf(code, t);
    if i > 0 {
      FirstVisited(code, t, i - 1);
      PassKeeps(code, t, i - 1);
      var r, b := PassTo(code, t, i - 1), code.order[i - 1];
      FirstKept(code, r, b);
    }
  }

  lemma FirstKept(code: Code, t: Table, b: int)
    requires Inv(code, t) && 0 <= b < |code.blocks| && b in code.order && (t.need[0] || t.done[0])
    ensures var r := Processed(code, t, b, |code.blocks[b]|); r.need[0] || r.done[0]
  {
    VisitedKeeps(code, t, b);
    hide Processed, Grows, Settled, Noted;
  }

  // ---------------------------------------------------------------------------
  // Quiet tables
  // ---------------------------------------------------------------------------

  ghost function DoneSet(t: Table): set<int> { set b | 0 <= b < |t.done| && t.done[b] }

  /** Block b of the chain is flagged. */
  ghost predicate Pending(code: Code, t: Table, b: int) { b in code.order && 0 <= b < |t.need| && t.need[b] }

  /**
   * Processing any block changes no frame: all that is done is settled, and only done blocks of
   * the chain are flagged.
   */
  ghost predicate Quiet(code: Code, t: Table)
  {
    && Inv(code, t)
    && (forall b {:trigger Settled(code, t.frames, b)} :: 0 <= b < |code.blocks| && t.done[b] ==>
          Settled(code, t.frames, b))
    && (forall b :: Pending(code, t, b) ==> t.done[b])
  }

  lemma IdleIsQuiet(code: Code, t: Table)
    requires Inv(code, t) && Idle(code, t)
    ensures Quiet(code, t) && forall b :: !Pending(code, t, b)
  {
    forall b | 0 <= b < |code.blocks| && t.done[b] ensures Settled(code, t.frames, b) { assert b in code.order; }
  }

  lemma QuietSolves(code: Code, initial: seq<Frame>, t: Table)
    requires CanStart(code, initial) && Quiet(code, t) && Later(Start(code, initial), t) && (t.need[0] || t.done[0])
    ensures Solution(code, initial, DoneSet(t), t.frames)
  {
    forall b, k | b in DoneSet(t) && 0 <= k < |code.blocks[b]| ensures Flows(code, DoneSet(t), t.frames, b, k) {
      assert Settled(code, t.frames, b) && Noted(code, t, b) && code.EventOk(code.blocks[b][k]);
      var e := code.blocks[b][k];
      assert IsMerge(e) && Pending(code, t, e.target) ==> t.done[e.target];
    }
    assert Pending(code, t, 0) ==> t.done[0];
  }

  lemma GrowsAnti(a: Frame, b: Frame)
    requires Grows(a, b) && Grows(b, a)
    ensures a == b
  {
    assert forall m :: 0 <= m < |a| ==> a[m] == b[m];
  }

  /** A quiet table reached by the loop is the least solution. */
  lemma QuietIsLeast(code: Code, initial: seq<Frame>, reached: set<int>, frames: seq<Frame>, n: nat)
    requires Least(code, initial, reached, frames) && Quiet(code, Passes(code, Start(code, initial), n))
    ensures var t := Passes(code, Start(code, initial), n);
            DoneSet(t) == reached && forall b :: b in reached ==> 0 <= b < |t.frames| && t.frames[b] == frames[b]
  {
    var t := Passes(code, Start(code, initial), n);
    RunKeeps(code, initial, n);
    QuietSolves(code, initial, t);
    StartUnder(code, initial, reached, frames);
    PassesUnder(code, initial, Start(code, initial), reached, frames, n);
    forall b | b in reached
      ensures 0 <= b < |t.frames| && t.frames[b] == frames[b]
    {
      GrowsAnti(t.frames[b], frames[b]);
    }
  }

  lemma StartUnder(code: Code, initial: seq<Frame>, reached: set<int>, frames: seq<Frame>)
    requires Solution(code, initial, reached, frames)
    ensures Under(code, Start(code, initial), reached, frames)
  {
  }

  // ---------------------------------------------------------------------------
  // A cycle of merges in vain keeps the loop going
  // ---------------------------------------------------------------------------

  /** With these frames, event k of block b flags block c although it is contained in it. */
  ghost predicate VainAt(code: Code, frames: seq<Frame>, b: int, k: int, c: int)
  {
    && 0 <= b < |code.blocks| && b < |frames| && 0 <= k < |code.blocks[b]| && 0 <= c < |frames|
    && IsMerge(code.blocks[b][k]) && code.blocks[b][k].target == c
    && Differs(Active(code.blocks[b], frames[b], k), frames[c], code.localsz, SpOf(code, code.blocks[b][k]))
  }

  ghost predicate Vain(code: Code, frames: seq<Frame>, b: int, c: int) { exists k :: VainAt(code, frames, b, k, c) }

  /** Reached blocks, each of which flags the next in vain. */
  ghost predicate VainPath(code: Code, reached: set<int>, frames: seq<Frame>, path: seq<int>)
  {
    && (forall i :: 0 <= i < |path| ==> path[i] in reached)
    && (forall i :: 0 <= i < |path| - 1 ==> Vain(code, frames, path[i], path[i + 1]))
  }

  ghost predicate IsCycle(path: seq<int>) { |path| >= 2 && path[0] == path[|path| - 1] }

  ghost predicate NoVainCycle(code: Code, reached: set<int>, frames: seq<Frame>)
  {
    forall path :: VainPath(code, reached, frames, path) ==> !IsCycle(path)
  }

  /** Some block of the path is not in its final state. */
  ghost predicate Alive(t: Table, frames: seq<Frame>, path: seq<int>)
  {
    exists i :: 0 <= i < |path| && Unfinished(t, frames, path[i])
  }

  ghost predicate Unfinished(t: Table, frames: seq<Frame>, b: int)
  {
    0 <= b < |t.frames| && b < |frames| && b < |t.done| && b < |t.need| &&
        (t.frames[b] != frames[b] || !t.done[b] || t.need[b])
  }

  /** Within a block, flags once raised stay raised, and frames grow. */
  lemma {:induction false} ProcessedLater(code: Code, t: Table, b: int, j: nat, k: nat, c: int)
    requires code.Valid() && Sizes(code, t) && 0 <= b < |code.blocks| && j <= k <= |code.blocks[b]|
    requires 0 <= c < |code.blocks|
    ensures Grows(Processed(code, t, b, j).frames[c], Processed(code, t, b, k).frames[c])
    ensures Processed(code, t, b, j).need[c] ==> Processed(code, t, b, k).need[c]
    decreases k
  {
    if j < k {
      ProcessedLater(code, t, b, j, k - 1, c);
      AtIs(code, t, b, k);
      var e, r := code.blocks[b][k - 1], Processed(code, t, b, k - 1);
      if IsMerge(e) {
        MergedIs(Active(code.blocks[b], t.frames[b], k - 1), r.frames[e.target], code.localsz, SpOf(code, e));
      }
      GrowsTrans(Processed(code, t, b, j).frames[c], r.frames[c], Processed(code, t, b, k).frames[c]);
    }
  }

  /** A block with its final frame flags its successor on the cycle. */
  lemma FlagsNext(code: Code, t: Table, frames: seq<Frame>, b: int, k: int, c: int)
    requires Inv(code, t) && |frames| == |t.frames| && VainAt(code, frames, b, k, c) && t.frames[b] == frames[b]
    requires t.frames[c] == frames[c]
    requires Processed(code, t, b, |code.blocks[b]|).frames[c] == frames[c]
    ensures Processed(code, t, b, |code.blocks[b]|).need[c]
  {
    hide Inv, Active, Merged, Grows;
    SizesOf(code, t);
    var n := |code.blocks[b]|;
    var r := Processed(code, t, b, k);
    ProcessedLater(code, t, b, 0, k, c);
    ProcessedLater(code, t, b, k, n, c);
    GrowsAnti(r.frames[c], frames[c]);
    AtIs(code, t, b, k + 1);
    ProcessedLater(code, t, b, k + 1, n, c);
  }

  /** So processing a block never brings a cycle to rest. */
  lemma AliveStep(code: Code, t: Table, reached: set<int>, frames: seq<Frame>, path: seq<int>, b: int)
    requires Inv(code, t) && 0 <= b < |code.blocks| && b in code.order && |frames| == |t.frames|
    requires VainPath(code, reached, frames, path) && IsCycle(path)
    requires (forall i :: 0 <= i < |path| ==> 0 <= path[i] < |frames|) && Alive(t, frames, path)
    ensures Alive(Processed(code, t, b, |code.blocks[b]|), frames, path)
  {
    hide Inv, Processed, Later, VainAt, Code.Valid;
    VisitedKeeps(code, t, b);
    SizesOf(code, t);
    var r := Processed(code, t, b, |code.blocks[b]|);
    if !Alive(r, frames, path) {
      var i :| 0 <= i < |path| && Unfinished(t, frames, path[i]);
      assert !Unfinished(r, frames, path[i]);
      var i0 := if i == |path| - 1 then 0 else i;
      assert path[i0] == path[i] == b;
      assert Vain(code, frames, b, path[i0 + 1]);
      var k :| VainAt(code, frames, b, k, path[i0 + 1]);
      assert !Unfinished(r, frames, path[i0 + 1]) && !Unfinished(r, frames, b);
      FlagsNext(code, t, frames, b, k, path[i0 + 1]);
    }
  }

  lemma {:induction false} AlivePass(code: Code, t: Table, reached: set<int>, frames: seq<Frame>, path: seq<int>,
                                     i: nat)
    requires Inv(code, t) && |frames| == |t.frames| && VainPath(code, reached, frames, path) && IsCycle(path)
    requires i <= |code.order|
    requires (forall i :: 0 <= i < |path| ==> 0 <= path[i] < |frames|) && Alive(t, frames, path)
    ensures Alive(PassTo(code, t, i), frames, path)
    decreases i
  {
    if i > 0 {
      AlivePass(code, t, reached, frames, path, i - 1);
      PassKeeps(code, t, i - 1);
      SizesOf(code, t);
      hide Inv, Processed, Later, Alive, VainPath;
      var r, b := PassTo(code, t, i - 1), code.order[i - 1];
      if r.need[b] { AliveStep(code, r, reached, frames, path, b); }
    }
  }

  lemma {:induction false} AliveRun(code: Code, initial: seq<Frame>, reached: set<int>, frames: seq<Frame>,
                                    path: seq<int>, n: nat)
    requires Solution(code, initial, reached, frames) && VainPath(code, reached, frames, path) && IsCycle(path)
    ensures Alive(Passes(code, Start(code, initial), n), frames, path)
    decreases n
  {
    hide Inv, Later, PassTo, Vain, Flows;
    assert forall i :: 0 <= i < |path| ==> 0 <= path[i] < |frames|;
    if n == 0 {
      assert Unfinished(Start(code, initial), frames, path[0]);
    } else {
      AliveRun(code, initial, reached, frames, path, n - 1);
      RunKeeps(code, initial, n - 1);
      AlivePass(code, Passes(code, Start(code, initial), n - 1), reached, frames, path, |code.order|);
    }
  }

  /** With a cycle of merges in vain the loop never ends. */
  lemma CycleNeverEnds(code: Code, initial: seq<Frame>, reached: set<int>, frames: seq<Frame>, path: seq<int>, n: nat)
    requires Least(code, initial, reached, frames) && VainPath(code, reached, frames, path) && IsCycle(path)
    ensures !Idle(code, Passes(code, Start(code, initial), n))
  {
    var t := Passes(code, Start(code, initial), n);
    if Idle(code, t) {
      RunKeeps(code, initial, n);
      IdleIsQuiet(code, t);
      QuietIsLeast(code, initial, reached, frames, n);
      AliveRun(code, initial, reached, frames, path, n);
      AtRest(code, t, reached, frames, path);
    }
  }

  lemma AtRest(code: Code, t: Table, reached: set<int>, frames: seq<Frame>, path: seq<int>)
    requires Sizes(code, t) && (forall c :: !Pending(code, t, c)) && DoneSet(t) == reached
    requires forall c :: c in reached ==>
               c in code.order && 0 <= c < |t.frames| && c < |frames| && t.frames[c] == frames[c]
    requires forall i :: 0 <= i < |path| ==> path[i] in reached
    ensures !Alive(t, frames, path)
  {
    forall i | 0 <= i < |path| ensures !Unfinished(t, frames, path[i]) {
      assert path[i] in DoneSet(t) && !Pending(code, t, path[i]);
    }
  }

  // ---------------------------------------------------------------------------
  // Without such a cycle it ends
  // ---------------------------------------------------------------------------

  // How far a table is from one in which nothing can grow any more.

  ghost function CellGap(t: Type): nat { if t == Unassigned then 2 else if t == Unstable then 0 else 1 }

  ghost function FrameGap(f: Frame): nat { if f == [] then 0 else FrameGap(f[1..]) + CellGap(f[0]) }

  ghost function FramesGap(fs: seq<Frame>): nat { if fs == [] then 0 else FramesGap(fs[1..]) + FrameGap(fs[0]) }

  ghost function DoneGap(done: seq<bool>): nat
  {
    if done == [] then 0 else DoneGap(done[1..]) + if done[0] then 0 else 1
  }

  ghost function Gap(t: Table): nat { FramesGap(t.frames) + DoneGap(t.done) }

  lemma {:induction false} FrameGapShrinks(f: Frame, g: Frame)
    requires Grows(f, g)
    ensures FrameGap(g) <= FrameGap(f) && (f != g ==> FrameGap(g) < FrameGap(f))
    decreases |f|
  {
    if f != [] {
      assert Leq(f[0], g[0]) && Grows(f[1..], g[1..]);
      FrameGapShrinks(f[1..], g[1..]);
      assert f == [f[0]] + f[1..] && g == [g[0]] + g[1..];
    }
  }

  lemma {:induction false} FramesGapShrinks(fs: seq<Frame>, gs: seq<Frame>)
    requires |fs| == |gs| && forall b :: 0 <= b < |fs| ==> Grows(fs[b], gs[b])
    ensures FramesGap(gs) <= FramesGap(fs) && (fs != gs ==> FramesGap(gs) < FramesGap(fs))
    decreases |fs|
  {
    if fs != [] {
      assert Grows(fs[0], gs[0]);
      FrameGapShrinks(fs[0], gs[0]);
      FramesGapShrinks(fs[1..], gs[1..]);
      assert fs == [fs[0]] + fs[1..] && gs == [gs[0]] + gs[1..];
    }
  }

  lemma {:induction false} DoneGapShrinks(d: seq<bool>, e: seq<bool>)
    requires |d| == |e| && forall b :: 0 <= b < |d| && d[b] ==> e[b]
    ensures DoneGap(e) <= DoneGap(d) && (d != e ==> DoneGap(e) < DoneGap(d))
    decreases |d|
  {
    if d != [] {
      DoneGapShrinks(d[1..], e[1..]);
      assert d == [d[0]] + d[1..] && e == [e[0]] + e[1..];
    }
  }

  /** Frames or done flags that change bring the table closer. */
  lemma GapShrinks(t: Table, r: Table)
    requires Later(t, r)
    ensures Gap(r) <= Gap(t) && (t.frames != r.frames || t.done != r.done ==> Gap(r) < Gap(t))
  {
    FramesGapShrinks(t.frames, r.frames);
    DoneGapShrinks(t.done, r.done);
  }

  /** Event j of block b, processed from table t, flags block c. */
  ghost predicate Flags(code: Code, t: Table, b: int, j: int, c: int)
    requires code.Valid() && Sizes(code, t) && 0 <= b < |code.blocks| && 0 <= j < |code.blocks[b]|
    requires 0 <= c < |code.blocks|
  {
    var e, r := code.blocks[b][j], Processed(code, t, b, j);
    && IsMerge(e) && e.target == c
    && (!r.done[c] || Differs(Active(code.blocks[b], t.frames[b], j), r.frames[c], code.localsz, SpOf(code, e)))
  }

  /** A flag that is set after processing block b was set before, or one of the block's merges set it. */
  lemma {:induction false} RaisedBy(code: Code, t: Table, b: int, k: nat, c: int)
    requires code.Valid() && Sizes(code, t) && 0 <= b < |code.blocks| && k <= |code.blocks[b]| && 0 <= c < |code.blocks|
    requires Processed(code, t, b, k).need[c]
    ensures (c != b && t.need[c]) || exists j :: 0 <= j < k && Flags(code, t, b, j, c)
    decreases k
  {
    if k > 0 {
      AtIs(code, t, b, k);
      if Processed(code, t, b, k - 1).need[c] {
        RaisedBy(code, t, b, k - 1, c);
      } else {
        assert Flags(code, t, b, k - 1, c);
      }
    }
  }

  lemma {:induction false} PassLater(code: Code, t: Table, i: nat, j: nat)
    requires Inv(code, t) && i <= j <= |code.order|
    ensures Later(PassTo(code, t, i), PassTo(code, t, j))
    decreases j
  {
    PassKeeps(code, t, i);
    if i == j {
      LaterRefl(code, PassTo(code, t, i));
    } else {
      PassLater(code, t, i, j - 1);
      PassKeeps(code, t, j - 1);
      SizesOf(code, t);
      hide Inv, Processed, Later;
      var r, b := PassTo(code, t, j - 1), code.order[j - 1];
      VisitedKeeps(code, r, b);
      if r.need[b] { LaterTrans(PassTo(code, t, i), r, Processed(code, r, b, |code.blocks[b]|)); }
    }
  }

  lemma Squeezed(t: Table, r: Table, u: Table)
    requires Later(t, r) && Later(r, u) && t.frames == u.frames && t.done == u.done
    ensures r.frames == t.frames && r.done == t.done
  {
    forall b | 0 <= b < |t.frames| ensures r.frames[b] == t.frames[b] { GrowsAnti(t.frames[b], r.frames[b]); }
  }

  /** The whole pass changes neither frames nor done flags. */
  ghost predicate StillPass(code: Code, t: Table)
  {
    && Inv(code, t)
    && PassTo(code, t, |code.order|).frames == t.frames && PassTo(code, t, |code.order|).done == t.done
  }

  lemma StillTo(code: Code, t: Table, i: nat)
    requires StillPass(code, t) && i <= |code.order|
    ensures var r := PassTo(code, t, i); Inv(code, r) && r.frames == t.frames && r.done == t.done
  {
    PassKeeps(code, t, i);
    PassLater(code, t, i, |code.order|);
    Squeezed(t, PassTo(code, t, i), PassTo(code, t, |code.order|));
  }

  /** A block that such a pass comes to is settled if it is done, and it is done if it was flagged. */
  lemma StillVisit(code: Code, t: Table, i: nat)
    requires StillPass(code, t) && i < |code.order|
    ensures var b := code.order[i];
            (t.done[b] ==> Settled(code, t.frames, b)) && (PassTo(code, t, i).need[b] ==> t.done[b])
  {
    hide StillPass, Inv, Processed, Settled;
    StillTo(code, t, 0);
    StillTo(code, t, i);
    StillTo(code, t, i + 1);
    SizesOf(code, t);
    SettledHere(code, PassTo(code, t, i), code.order[i]);
  }

  lemma SettledHere(code: Code, r: Table, b: int)
    requires Inv(code, r) && 0 <= b < |code.blocks| && b in code.order
    requires Visited(code, r, b).frames == r.frames && Visited(code, r, b).done == r.done
    ensures (r.done[b] ==> Settled(code, r.frames, b)) && (r.need[b] ==> r.done[b])
  {
    if r.need[b] {
      ProcessedInv(code, r, b, |code.blocks[b]|);
      hide Processed, Active, Inv;
      forall k | 0 <= k < |code.blocks[b]| ensures Contained(code, r.frames, b, r.frames[b], k) {
        assert Contained(code, Processed(code, r, b, |code.blocks[b]|).frames, b, r.frames[b], k);
      }
    }
  }

  /**
   * Flags during such a pass: none is lost unless its block is done, and none is raised on a
   * block that was neither flagged nor done.
   */
  lemma {:induction false} StillFlags(code: Code, t: Table, i: nat, c: int)
    requires StillPass(code, t) && i <= |code.order| && 0 <= c < |code.blocks|
    ensures t.need[c] ==> PassTo(code, t, i).need[c] || t.done[c]
    ensures PassTo(code, t, i).need[c] ==> t.need[c] || t.done[c]
    decreases i
  {
    hide Inv, Processed, StillPass, Settled;
    StillTo(code, t, 0);
    SizesOf(code, t);
    if i > 0 {
      StillFlags(code, t, i - 1, c);
      StillTo(code, t, i - 1);
      StillVisit(code, t, i - 1);
      var r, b := PassTo(code, t, i - 1), code.order[i - 1];
      if r.need[b] { StillBlock(code, t, r, b, c); }
    }
  }

  lemma StillBlock(code: Code, t: Table, r: Table, b: int, c: int)
    requires Inv(code, t) && Inv(code, r) && r.done == t.done && 0 <= b < |code.blocks| && 0 <= c < |code.blocks|
    requires t.done[b]
    ensures r.need[c] ==> Processed(code, r, b, |code.blocks[b]|).need[c] || t.done[c]
    ensures Processed(code, r, b, |code.blocks[b]|).need[c] ==> (c != b && r.need[c]) || t.need[c] || t.done[c]
  {
    VisitedKeeps(code, r, b);
    SizesOf(code, r);
    var n := |code.blocks[b]|;
    assert Noted(code, t, b);
    hide Inv, Processed, Later;
    if Processed(code, r, b, n).need[c] {
      RaisedBy(code, r, b, n, c);
      if !(c != b && r.need[c]) { var j :| 0 <= j < n && Flags(code, r, b, j, c); }
    }
  }

  lemma StillIsQuiet(code: Code, t: Table)
    requires StillPass(code, t)
    ensures Quiet(code, PassTo(code, t, |code.order|))
  {
    var n := |code.order|;
    var r := PassTo(code, t, n);
    StillTo(code, t, n);
    forall b | 0 <= b < |code.blocks| && r.done[b] ensures Settled(code, r.frames, b) {
      if r.need[b] {
        var j :| 0 <= j < n && code.order[j] == b;
        StillVisit(code, t, j);
      }
    }
    forall b | Pending(code, r, b) ensures r.done[b] {
      StillFlags(code, t, n, b);
      if t.need[b] {
        var j :| 0 <= j < n && code.order[j] == b;
        StillFlags(code, t, j, b);
        StillVisit(code, t, j);
      }
    }
  }

  // From a quiet table on, flags only travel along merges in vain.

  lemma MergedSame(from: Frame, to: Frame, localsz: int, sp: int)
    requires Below(from, to, localsz, sp)
    ensures Merged(from, to, localsz, sp) == to
  {
    var r := Merged(from, to, localsz, sp);
    assert forall m :: 0 <= m < |to| ==> r[m] == to[m];
  }

  lemma {:induction false} QuietBlock(code: Code, t: Table, b: int, k: nat)
    requires Quiet(code, t) && 0 <= b < |code.blocks| && t.done[b] && k <= |code.blocks[b]|
    ensures Processed(code, t, b, k).frames == t.frames && Processed(code, t, b, k).done == t.done
    decreases k
  {
    if k > 0 {
      QuietBlock(code, t, b, k - 1);
      AtIs(code, t, b, k);
      var e := code.blocks[b][k - 1];
      assert Settled(code, t.frames, b) && Contained(code, t.frames, b, t.frames[b], k - 1);
      if IsMerge(e) {
        MergedSame(Active(code.blocks[b], t.frames[b], k - 1), t.frames[e.target], code.localsz, SpOf(code, e));
      }
    }
  }

  lemma QuietVisit(code: Code, t: Table, b: int, c: int)
    requires Quiet(code, t) && 0 <= b < |code.blocks| && t.done[b] && 0 <= c < |code.blocks|
    ensures var r := Processed(code, t, b, |code.blocks[b]|);
            && Quiet(code, r) && r.frames == t.frames && r.done == t.done
            && (Pending(code, r, c) ==> (c != b && Pending(code, t, c)) || (t.done[c] && Vain(code, t.frames, b, c)))
  {
    var n := |code.blocks[b]|;
    var r := Processed(code, t, b, n);
    QuietBlock(code, t, b, n);
    VisitedKeeps(code, t, b);
    assert Noted(code, t, b);
    forall d | Pending(code, r, d)
      ensures r.done[d] && ((d != b && Pending(code, t, d)) || Vain(code, t.frames, b, d))
    {
      RaisedBy(code, t, b, n, d);
      assert t.need[d] ==> Pending(code, t, d);
      if !(d != b && t.need[d]) {
        var j :| 0 <= j < n && Flags(code, t, b, j, d);
        QuietBlock(code, t, b, j);
        assert VainAt(code, t.frames, b, j, d);
      }
    }
  }

  /** A path of m merges in vain ends at block c. */
  ghost predicate HasPath(code: Code, reached: set<int>, frames: seq<Frame>, c: int, m: nat)
  {
    exists path :: |path| == m + 1 && path[m] == c && VainPath(code, reached, frames, path)
  }

  lemma PathOn(code: Code, reached: set<int>, frames: seq<Frame>, b: int, c: int, m: nat)
    requires HasPath(code, reached, frames, b, m) && Vain(code, frames, b, c) && c in reached
    ensures HasPath(code, reached, frames, c, m + 1) && HasPath(code, reached, frames, c, m)
  {
    var path :| |path| == m + 1 && path[m] == b && VainPath(code, reached, frames, path);
    var longer := path + [c];
    assert VainPath(code, reached, frames, longer) && longer[m + 1] == c;
    var tail := longer[1..];
    forall i | 0 <= i < |tail| - 1 ensures Vain(code, frames, tail[i], tail[i + 1]) {
      assert Vain(code, frames, longer[i + 1], longer[i + 2]);
    }
    assert tail[m] == c && VainPath(code, reached, frames, tail);
  }

  /** During a pass over a quiet table: flags of blocks already visited have longer paths behind them. */
  ghost predicate Travelled(code: Code, t: Table, r: Table, i: nat, m: nat)
    requires i <= |code.order|
  {
    && Quiet(code, r) && r.frames == t.frames && r.done == t.done
    && (forall c :: Pending(code, r, c) ==> HasPath(code, DoneSet(t), t.frames, c, m))
    && (forall c :: Pending(code, r, c) ==>
          c in code.order[i..] || HasPath(code, DoneSet(t), t.frames, c, m + 1))
  }

  lemma {:induction false} QuietPass(code: Code, t: Table, i: nat, m: nat)
    requires Quiet(code, t) && i <= |code.order|
    requires forall c :: Pending(code, t, c) ==> HasPath(code, DoneSet(t), t.frames, c, m)
    ensures Travelled(code, t, PassTo(code, t, i), i, m)
    decreases i
  {
    if i == 0 {
      assert code.order[0..] == code.order;
    } else {
      QuietPass(code, t, i - 1, m);
      TravelStep(code, t, PassTo(code, t, i - 1), i, m);
    }
  }

  lemma TravelStep(code: Code, t: Table, r: Table, i: nat, m: nat)
    requires Quiet(code, t) && 0 < i <= |code.order| && Travelled(code, t, r, i - 1, m)
    ensures Travelled(code, t, Visited(code, r, code.order[i - 1]), i, m)
  {
    var b := code.order[i - 1];
    var u := Visited(code, r, b);
    assert r.need[b] ==> Pending(code, r, b);
    if r.need[b] { QuietVisit(code, r, b, b); }
    SizesOf(code, r);
    assert code.order[i - 1..] == [b] + code.order[i..];
    hide Inv, Processed, HasPath, Vain, Settled;
    forall c | Pending(code, u, c)
      ensures HasPath(code, DoneSet(t), t.frames, c, m)
      ensures (c in code.order[i..] || HasPath(code, DoneSet(t), t.frames, c, m + 1))
    {
      if r.need[b] {
        QuietVisit(code, r, b, c);
        if !(c != b && Pending(code, r, c)) { PathOn(code, DoneSet(t), t.frames, b, c, m); }
      }
    }
  }

  /** Different numbers below n are at most n. */
  lemma {:induction false} DistinctFit(s: seq<int>, n: int)
    requires forall k :: 0 <= k < |s| ==> 0 <= s[k] < n
    requires forall i, j :: 0 <= i < j < |s| ==> s[i] != s[j]
    ensures s != [] ==> |s| <= n
    decreases n
  {
    if s != [] {
      assert 0 <= s[0] < n;
      if k :| 0 <= k < |s| && s[k] == n - 1 {
        DistinctFit(s[..k] + s[k + 1..], n - 1);
      } else {
        DistinctFit(s, n - 1);
      }
    }
  }

  /** Without a cycle there are no long paths. */
  lemma NoLongPath(code: Code, reached: set<int>, frames: seq<Frame>, c: int, m: nat)
    requires NoVainCycle(code, reached, frames) && (forall b :: b in reached ==> 0 <= b < |frames|) && m >= |frames|
    ensures !HasPath(code, reached, frames, c, m)
  {
    if HasPath(code, reached, frames, c, m) {
      var path :| |path| == m + 1 && path[m] == c && VainPath(code, reached, frames, path);
      if i, j :| 0 <= i < j < |path| && path[i] == path[j] {
        var loop := path[i..j + 1];
        forall k | 0 <= k < |loop| - 1 ensures Vain(code, frames, loop[k], loop[k + 1]) {
          assert Vain(code, frames, path[i + k], path[i + k + 1]);
        }
        NotCycle(code, reached, frames, loop);
      } else {
        DistinctFit(path, |frames|);
      }
    }
  }

  lemma NotCycle(code: Code, reached: set<int>, frames: seq<Frame>, path: seq<int>)
    requires NoVainCycle(code, reached, frames) && VainPath(code, reached, frames, path)
    ensures !IsCycle(path)
  {
  }

  lemma {:induction false} PassesAdd(code: Code, t: Table, a: nat, b: nat)
    requires code.Valid() && Sizes(code, t)
    ensures Passes(code, Passes(code, t, a), b) == Passes(code, t, a + b)
    decreases b
  {
    if b > 0 { PassesAdd(code, t, a, b - 1); }
  }

  lemma NoPass(code: Code, t: Table)
    requires code.Valid() && Sizes(code, t)
    ensures Passes(code, t, 0) == t
  {
  }

  lemma OnePass(code: Code, t: Table)
    requires code.Valid() && Sizes(code, t)
    ensures Passes(code, t, 1) == PassTo(code, t, |code.order|)
  {
    assert Passes(code, t, 0) == t;
  }

  /** A quiet table without a cycle comes to rest: with every pass the paths behind the flags get longer. */
  lemma {:induction false} EndsSoon(code: Code, t: Table, m: nat) returns (n: nat)
    requires Quiet(code, t) && NoVainCycle(code, DoneSet(t), t.frames)
    requires forall c :: Pending(code, t, c) ==> HasPath(code, DoneSet(t), t.frames, c, m)
    ensures Idle(code, Passes(code, t, n))
    decreases |t.frames| - m
  {
    SizesOf(code, t);
    hide Quiet, NoVainCycle, HasPath, Passes;
    if m >= |t.frames| {
      n := 0;
      forall c | c in code.order && 0 <= c < |t.need| ensures !t.need[c] {
        NoLongPath(code, DoneSet(t), t.frames, c, m);
        assert t.need[c] ==> Pending(code, t, c);
      }
      NoPass(code, t);
    } else {
      var r := PassTo(code, t, |code.order|);
      QuietPass(code, t, |code.order|, m);
      assert r.frames == t.frames && DoneSet(r) == DoneSet(t);
      var n' := EndsSoon(code, r, m + 1);
      OnePass(code, t);
      PassesAdd(code, t, 1, n');
      n := 1 + n';
    }
  }

  /** Whether a cycle is there depends on the frames of the reached blocks alone. */
  lemma SameVain(code: Code, reached: set<int>, f: seq<Frame>, g: seq<Frame>)
    requires NoVainCycle(code, reached, f) && |f| == |g| && forall b :: b in reached ==> 0 <= b < |f| && f[b] == g[b]
    ensures NoVainCycle(code, reached, g)
  {
    forall path | VainPath(code, reached, g, path) ensures !IsCycle(path) {
      forall i | 0 <= i < |path| - 1 ensures Vain(code, f, path[i], path[i + 1]) {
        assert Vain(code, g, path[i], path[i + 1]) && path[i] in reached && path[i + 1] in reached;
        var k :| VainAt(code, g, path[i], k, path[i + 1]);
        assert VainAt(code, f, path[i], k, path[i + 1]);
      }
      NotCycle(code, reached, f, path);
    }
  }

  /** From every pass on, a quiet table is reached: until then every pass brings the table closer. */
  lemma {:induction false} ComesQuiet(code: Code, initial: seq<Frame>, k: nat) returns (n: nat)
    requires CanStart(code, initial)
    ensures Quiet(code, Passes(code, Start(code, initial), n))
    decreases Gap(Passes(code, Start(code, initial), k))
  {
    var t, r := Passes(code, Start(code, initial), k), Passes(code, Start(code, initial), k + 1);
    RunKeeps(code, initial, k);
    PassKeeps(code, t, |code.order|);
    GapShrinks(t, r);
    if t.frames == r.frames && t.done == r.done {
      StillIsQuiet(code, t);
      n := k + 1;
    } else {
      n := ComesQuiet(code, initial, k + 1);
    }
  }

  /** The flow equations have a least solution. */
  lemma LeastExists(code: Code, initial: seq<Frame>) returns (reached: set<int>, frames: seq<Frame>)
    requires CanStart(code, initial)
    ensures Least(code, initial, reached, frames)
  {
    var n := ComesQuiet(code, initial, 0);
    var t := Passes(code, Start(code, initial), n);
    reached, frames := DoneSet(t), t.frames;
    RunKeeps(code, initial, n);
    QuietSolves(code, initial, t);
    forall r, f | Solution(code, initial, r, f)
      ensures reached <= r && forall b :: b in reached ==> Grows(frames[b], f[b])
    {
      StartUnder(code, initial, r, f);
      PassesUnder(code, initial, Start(code, initial), r, f, n);
    }
  }

  lemma NoCycleEnds(code: Code, initial: seq<Frame>, reached: set<int>, frames: seq<Frame>) returns (n: nat)
    requires Least(code, initial, reached, frames) && NoVainCycle(code, reached, frames)
    ensures Idle(code, Passes(code, Start(code, initial), n))
  {
    var k := ComesQuiet(code, initial, 0);
    var t := Passes(code, Start(code, initial), k);
    QuietIsLeast(code, initial, reached, frames, k);
    SameVain(code, reached, frames, t.frames);
    forall c | Pending(code, t, c) ensures HasPath(code, DoneSet(t), t.frames, c, 0) {
      assert c in DoneSet(t) && VainPath(code, DoneSet(t), t.frames, [c]);
    }
    var m := EndsSoon(code, t, 0);
    PassesAdd(code, Start(code, initial), k, m);
    n := k + m;
  }

  /** After n passes no block is flagged. */
  ghost predicate RestsAfter(code: Code, initial: seq<Frame>, n: nat)
    requires CanStart(code, initial)
  {
    Idle(code, Passes(code, Start(code, initial), n))
  }

  /** The rerun loop ends. */
  ghost predicate Ends(code: Code, initial: seq<Frame>)
    requires CanStart(code, initial)
  {
    exists n: nat :: RestsAfter(code, initial, n)
  }

  /**
   * The rerun loop ends if and only if no cycle of reached blocks flags itself in vain, that
   * is, if no cycle of merges delivers to cells that are unstable in the least solution.
   */
  lemma EndsExactly(code: Code, initial: seq<Frame>, reached: set<int>, frames: seq<Frame>)
    requires Least(code, initial, reached, frames)
    ensures Ends(code, initial) <==> NoVainCycle(code, reached, frames)
  {
    if NoVainCycle(code, reached, frames) {
      var n := NoCycleEnds(code, initial, reached, frames);
      assert RestsAfter(code, initial, n);
    } else {
      var path :| VainPath(code, reached, frames, path) && IsCycle(path);
      forall n: nat ensures !RestsAfter(code, initial, n) { CycleNeverEnds(code, initial, reached, frames, path, n); }
    }
  }

  /** When it ends it has processed the reached blocks, and their frames are the least solution. */
  lemma RestIsLeast(code: Code, initial: seq<Frame>, reached: set<int>, frames: seq<Frame>, n: nat)
    requires Least(code, initial, reached, frames) && RestsAfter(code, initial, n)
    ensures var t := Passes(code, Start(code, initial), n);
            DoneSet(t) == reached && forall b :: b in reached ==> 0 <= b < |t.frames| && t.frames[b] == frames[b]
  {
    RunKeeps(code, initial, n);
    IdleIsQuiet(code, Passes(code, Start(code, initial), n));
    QuietIsLeast(code, initial, reached, frames, n);
  }

  /**
   * The assertion behind the loop, that every block of the chain is done, holds if and only if
   * all of them are reached.
   */
  lemma AllProcessed(code: Code, initial: seq<Frame>, reached: set<int>, frames: seq<Frame>, n: nat)
    requires Least(code, initial, reached, frames) && RestsAfter(code, initial, n)
    ensures var t := Passes(code, Start(code, initial), n);
            (forall i :: 0 <= i < |code.order| ==> t.done[code.order[i]]) <==>
              forall i :: 0 <= i < |code.order| ==> code.order[i] in reached
  {
    RestIsLeast(code, initial, reached, frames, n);
    var t := Passes(code, Start(code, initial), n);
    forall i | 0 <= i < |code.order| ensures t.done[code.order[i]] <==> code.order[i] in reached {
      assert t.done[code.order[i]] <==> code.order[i] in DoneSet(t);
    }
  }
}
