/** Divergence is last in, first out: when a branch has split a warp, the fall-through lanes run until the
    last of them has executed `ebreak`, through whatever branches they meet; then the warp is at the branch
    target with exactly the lanes that took it, and the stack is the one before the branch. */
module Reconvergence {
  import opened Word
  import opened Memory
  import opened Isa
  import opened SimtCore
  import opened Divergence

  /** The instruction in execution is a legal branch that some active lanes take and some do not, with
      room on the stack. */
  predicate Splitting(s: Shape, c: Core)
    requires ValidCore(s, c)
  {
    && c.active && c.state.Exec? && Opcode(c.inst) == OP_BRANCH && !BadRegister(c.inst) && LegalBranch(Funct3(c.inst))
    && TakenLanes(s, c) != {} && c.im - TakenLanes(s, c) != {} && |c.warps[c.iw].stack| < STACK_DEPTH
  }

  /** The instruction in execution is `ebreak`, for warp x. */
  predicate Breaking(c: Core, x: nat) { c.active && c.state.Exec? && c.inst == EBREAK && c.iw == x }

  predicate Pushed(w: Warp, u: Warp) {
    && |w.stack| < STACK_DEPTH && |u.stack| == |w.stack| + 1 && u.stack[..|w.stack|] == w.stack && u.valid == w.valid
    && var p := u.stack[|w.stack|].mask; p != {} && u.mask != {} && p !! u.mask && p + u.mask == w.mask
  }

  predicate Popped(w: Warp, u: Warp) {
    && w.stack != [] && u.stack == w.stack[..|w.stack| - 1] && u.valid == w.valid
    && u.pc == w.stack[|w.stack| - 1].pc && u.mask == w.stack[|w.stack| - 1].mask
  }

  lemma {:induction false} SplitPushes(s: Shape, c: Core)
    requires ValidCore(s, c) && Issued(s, c) && Splitting(s, c)
    ensures var w, u := c.warps[c.iw], BranchStep(s, c).warps[c.iw];
            && Pushed(w, u) && u.valid && u.mask == c.im - TakenLanes(s, c)
            && u.stack == w.stack + [Path(Add(c.ip, ImmB(c.inst)), TakenLanes(s, c))]
  {
    hide BranchTaken, LaneRegister, ImmB, Add, ValidWarp;
    var taken := TakenLanes(s, c);
    assert taken <= c.im;
    assert taken + (c.im - taken) == c.im;
  }

  lemma {:induction false} BranchMoves(s: Shape, c: Core)
    requires ValidCore(s, c) && Issued(s, c) && c.active && c.state.Exec?
    ensures var w, u := c.warps[c.iw], BranchStep(s, c).warps[c.iw]; SameMask(u, w) || Pushed(w, u)
  {
    hide BranchTaken, LaneRegister, ImmB, Add, ValidWarp, Opcode, BadRegister;
    var taken := TakenLanes(s, c);
    assert taken <= c.im;
    assert taken + (c.im - taken) == c.im;
    if c.im - taken == {} { assert taken == c.im; }
    if taken == {} { assert c.im - taken == c.im; }
  }

  lemma {:induction false} BreakMoves(s: Shape, c: Core)
    requires ValidCore(s, c)
    ensures var w, u := c.warps[c.iw], BreakStep(s, c).warps[c.iw]; if w.stack != [] then Popped(w, u) else !u.valid && u.stack == []
  {
  }

  /** How a cycle moves a warp: nothing about its lanes changes, or it splits, or an `ebreak` of its own
      takes it to the last deferred path, or ends it. */
  lemma {:induction false} WarpMoves(s: Shape, cid: nat, c: Core, m: Mem, x: nat)
    requires ValidCore(s, c) && ServesMemory(c) && Issued(s, c) && x < s.warps
    ensures var w, u := c.warps[x], CoreStep(s, cid, c, m).warps[x];
            if Breaking(c, x) then (if w.stack != [] then Popped(w, u) else !u.valid && u.stack == [])
            else SameMask(u, w) || Pushed(w, u)
  {
    hide BranchStep, BreakStep, Pushed, Popped, ComputeStep, MemReqStep, MemRespStep, SchedStep, ValidWarp, Load32;
    OthersKept(s, cid, c, m);
    if x == c.iw && c.active && !c.state.Sched? {
      BreakIsSystem();
      if c.state.Exec? && c.inst == EBREAK {
        BreakMoves(s, c);
      } else if c.state.Exec? && Opcode(c.inst) == OP_BRANCH {
        BranchMoves(s, c);
      } else {
        MaskKept(s, cid, c, m);
      }
    }
  }

  lemma {:induction false} BreakIsSystem()
    ensures Opcode(EBREAK) == OP_SYSTEM && !BadRegister(EBREAK)
  {
  }

  // ---- The part of the stack above the split ----------------------------------------------

  /** The warp without the lowest d deferred paths. */
  function Above(w: Warp, d: nat): Warp
    requires d <= |w.stack|
  {
    w.(stack := w.stack[d..])
  }

  predicate SamePrefix(w: Warp, u: Warp, d: nat) { |w.stack| >= d && |u.stack| >= d && u.stack[..d] == w.stack[..d] }

  /** A cycle other than an `ebreak` of the warp with just d paths deferred keeps the lowest d paths, and
      the split of the lanes above them. */
  lemma {:induction false} StepAbove(s: Shape, cid: nat, c: Core, m: Mem, x: nat, d: nat, lanes: set<nat>, retired: set<nat>)
    requires ValidCore(s, c) && ServesMemory(c) && Issued(s, c) && x < s.warps
    requires c.warps[x].valid && |c.warps[x].stack| >= d && !(Breaking(c, x) && |c.warps[x].stack| == d)
    requires Partition(lanes, Above(c.warps[x], d), retired)
    ensures var u := CoreStep(s, cid, c, m).warps[x];
            && u.valid && |u.stack| >= d && SamePrefix(c.warps[x], u, d)
            && Partition(lanes, Above(u, d), if Breaking(c, x) then retired + c.im else retired)
  {
    hide CoreStep, ValidWarp, Separate, Deferred;
    WarpMoves(s, cid, c, m, x);
    var w, u := c.warps[x], CoreStep(s, cid, c, m).warps[x];
    if Breaking(c, x) {
      PopAbove(w, u, d, lanes, retired);
    } else if Pushed(w, u) {
      PushAbove(w, u, d, lanes, retired);
    } else {
      assert Above(u, d).stack == Above(w, d).stack;
    }
  }

  lemma {:induction false} PopAbove(w: Warp, u: Warp, d: nat, lanes: set<nat>, retired: set<nat>)
    requires w.valid && Popped(w, u) && |w.stack| > d && Partition(lanes, Above(w, d), retired)
    ensures SamePrefix(w, u, d) && Partition(lanes, Above(u, d), retired + w.mask)
  {
    var over := w.stack[d..];
    PopSeparate(over);
    assert u.stack[d..] == over[..|over| - 1];
  }

  lemma {:induction false} PushAbove(w: Warp, u: Warp, d: nat, lanes: set<nat>, retired: set<nat>)
    requires w.valid && Pushed(w, u) && |w.stack| >= d && Partition(lanes, Above(w, d), retired)
    ensures SamePrefix(w, u, d) && Partition(lanes, Above(u, d), retired)
  {
    var over, p := w.stack[d..], u.stack[|w.stack|];
    assert u.stack == w.stack + [p];
    assert u.stack[d..] == over + [p];
    PushSeparate(over, p);
    assert (over + [p])[..|over|] == over;
  }

  // ---- From the split to the end of the fall-through lanes --------------------------------

  /** No cycle of the run is an `ebreak` of warp x with just d paths deferred. */
  predicate NotYet(s: Shape, cid: nat, c: Core, mems: seq<Mem>, x: nat, d: nat)
    requires ValidCore(s, c) && ServesMemory(c) && x < s.warps
  {
    forall n | 0 <= n < |mems| && Breaking(CoreRun(s, cid, c, mems[..n]), x) :: |CoreRun(s, cid, c, mems[..n]).warps[x].stack| != d
  }

  lemma {:induction false} NotYetBefore(s: Shape, cid: nat, c: Core, mems: seq<Mem>, x: nat, d: nat)
    requires ValidCore(s, c) && ServesMemory(c) && x < s.warps && mems != [] && NotYet(s, cid, c, mems, x, d)
    ensures NotYet(s, cid, c, mems[..|mems| - 1], x, d)
    ensures var o := CoreRun(s, cid, c, mems[..|mems| - 1]); !(Breaking(o, x) && |o.warps[x].stack| == d)
  {
    hide CoreRun, Breaking, ValidWarp, ServesMemory;
    var before := mems[..|mems| - 1];
    forall n | 0 <= n < |before| && Breaking(CoreRun(s, cid, c, before[..n]), x)
      ensures |CoreRun(s, cid, c, before[..n]).warps[x].stack| != d
    {
      assert before[..n] == mems[..n];
    }
  }

  lemma {:induction false} RunIssued(s: Shape, cid: nat, c: Core, mems: seq<Mem>)
    requires ValidCore(s, c) && ServesMemory(c) && Issued(s, c)
    ensures Issued(s, CoreRun(s, cid, c, mems))
  {
    hide CoreStep, ValidCore, ServesMemory;
    if mems != [] {
      RunIssued(s, cid, c, mems[..|mems| - 1]);
      StepIssued(s, cid, CoreRun(s, cid, c, mems[..|mems| - 1]), mems[|mems| - 1]);
    }
  }

  /** The lanes split off above the d paths stay split into active, deferred and retired ones. */
  lemma {:induction false} RunAbove(s: Shape, cid: nat, c: Core, mems: seq<Mem>, x: nat, d: nat, lanes: set<nat>)
    requires ValidCore(s, c) && ServesMemory(c) && Issued(s, c) && x < s.warps
    requires c.warps[x].valid && |c.warps[x].stack| >= d && NotYet(s, cid, c, mems, x, d)
    requires Partition(lanes, Above(c.warps[x], d), {})
    ensures var o := CoreRun(s, cid, c, mems);
            && o.warps[x].valid && |o.warps[x].stack| >= d && SamePrefix(c.warps[x], o.warps[x], d)
            && Partition(lanes, Above(o.warps[x], d), RetiredBy(s, cid, c, mems)[x])
  {
    hide CoreStep, Partition, Above, ValidWarp, ServesMemory, Breaking, NotYet, Issued;
    if mems == [] {
    } else {
      var before := mems[..|mems| - 1];
      NotYetBefore(s, cid, c, mems, x, d);
      RunAbove(s, cid, c, before, x, d, lanes);
      RunIssued(s, cid, c, before);
      var u := CoreRun(s, cid, c, before);
      StepAbove(s, cid, u, mems[|mems| - 1], x, d, lanes, RetiredBy(s, cid, c, before)[x]);
      RetiredHere(u, RetiredBy(s, cid, c, before), x);
    }
  }

  lemma {:induction false} RetiredHere(c: Core, retired: seq<set<nat>>, x: nat)
    requires c.iw < |retired| && x < |retired|
    ensures RetiredAfter(c, retired)[x] == if Breaking(c, x) then retired[x] + c.im else retired[x]
  {
    assert retired[c.iw] + {} == retired[c.iw];
  }

  /** Last in, first out. A branch splits warp x and leaves it at height d. Run the core on, under any
      memory contents and through any further branches, to the first `ebreak` of the warp with the stack at
      that height. In the cycle after it every fall-through lane has retired, and the warp stands at the
      branch target with exactly the lanes that took the branch and the stack from before it. */
  lemma {:induction false} TakenLanesResume(s: Shape, cid: nat, c: Core, m: Mem, mems: seq<Mem>, after: Mem)
    requires ValidCore(s, c) && ServesMemory(c) && Issued(s, c) && Splitting(s, c)
    requires var start, d := CoreStep(s, cid, c, m), |c.warps[c.iw].stack| + 1;
             var last := CoreRun(s, cid, start, mems);
             && NotYet(s, cid, start, mems, c.iw, d) && Breaking(last, c.iw) && |last.warps[c.iw].stack| == d
    ensures var start := CoreStep(s, cid, c, m);
            var last := CoreRun(s, cid, start, mems);
            var w, u := c.warps[c.iw], CoreStep(s, cid, last, after).warps[c.iw];
            && RetiredBy(s, cid, start, mems)[c.iw] + last.im == c.im - TakenLanes(s, c)
            && u.valid && u.pc == Add(c.ip, ImmB(c.inst)) && u.mask == TakenLanes(s, c) && u.stack == w.stack
  {
    hide CoreRun, ValidWarp, TakenLanes, Opcode, BadRegister, LegalBranch, Funct3, ImmB, Add, BranchStep, BreakStep, NotYet, RetiredBy;
    var start, x, d := CoreStep(s, cid, c, m), c.iw, |c.warps[c.iw].stack| + 1;
    var fallen := c.im - TakenLanes(s, c);
    SplitIsBranch(s, cid, c, m);
    SplitPushes(s, c);
    StepIssued(s, cid, c, m);
    assert start.warps[x].stack[d..] == [];
    RunAbove(s, cid, start, mems, x, d, fallen);
    RunIssued(s, cid, start, mems);
    var last := CoreRun(s, cid, start, mems);
    WarpMoves(s, cid, last, after, x);
    assert last.warps[x].stack[d..] == [] && last.warps[x].stack[..d] == last.warps[x].stack;
    assert start.warps[x].stack[..d] == start.warps[x].stack;
  }

  lemma {:induction false} SplitIsBranch(s: Shape, cid: nat, c: Core, m: Mem)
    requires ValidCore(s, c) && ServesMemory(c) && Splitting(s, c)
    ensures CoreStep(s, cid, c, m) == BranchStep(s, c)
  {
    hide BranchStep, TakenLanes, LegalBranch;
    BreakIsSystem();
  }
}
