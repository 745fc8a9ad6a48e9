/** The divergence stack: at every moment the active lanes, the deferred paths and the lanes that
    have executed `ebreak` partition the lanes a warp started with. */
module Divergence {
  import opened Word
  import opened Memory
  import opened Isa
  import opened SimtCore

  /** The lanes of all deferred paths. */
  function Deferred(stack: seq<Path>): set<nat> {
    if stack == [] then {} else Deferred(stack[..|stack| - 1]) + stack[|stack| - 1].mask
  }

  predicate Separate(stack: seq<Path>) {
    && (forall k | 0 <= k < |stack| :: stack[k].mask != {})
    && (forall j, k | 0 <= j < k < |stack| :: stack[j].mask !! stack[k].mask)
  }

  /** `initial` is split into the active lanes, each deferred path and the retired lanes. */
  predicate Partition(initial: set<nat>, w: Warp, retired: set<nat>) {
    if w.valid then
      && w.mask != {} && Separate(w.stack) && |w.stack| <= STACK_DEPTH
      && w.mask !! Deferred(w.stack) && retired !! w.mask && retired !! Deferred(w.stack)
      && w.mask + Deferred(w.stack) + retired == initial
    else
      retired == initial
  }

  /** Between scheduling and the end of an instruction the core works on the selected warp. */
  predicate Issued(s: Shape, c: Core)
    requires ValidCore(s, c)
  {
    c.active && !c.state.Sched? ==>
      var w := c.warps[c.iw];
      w.valid && c.im == w.mask && c.ip == w.pc && (c.state.MemResp? ==> c.mt in c.im)
  }

  /** Partition for every warp, given what each has retired. */
  predicate CorePartition(s: Shape, initial: seq<set<nat>>, c: Core, retired: seq<set<nat>>)
    requires ValidCore(s, c)
  {
    && |initial| == |retired| == s.warps
    && (forall w | 0 <= w < s.warps :: Partition(initial[w], c.warps[w], retired[w]))
    && Issued(s, c)
  }

  /** The lanes that retire in this cycle: an `ebreak` retires the lanes it was issued for. */
  function Retiring(c: Core): set<nat> {
    if c.active && c.state.Exec? && c.inst == EBREAK then c.im else {}
  }

  function RetiredAfter(c: Core, retired: seq<set<nat>>): seq<set<nat>>
    requires c.iw < |retired|
  {
    retired[c.iw := retired[c.iw] + Retiring(c)]
  }

  lemma {:induction false} DeferredHas(stack: seq<Path>, t: nat)
    ensures t in Deferred(stack) <==> exists k :: 0 <= k < |stack| && t in stack[k].mask
  {
    if stack != [] {
      var n := |stack| - 1;
      DeferredHas(stack[..n], t);
      assert stack[..n] + [stack[n]] == stack;
    }
  }

  /** Popping a separate stack leaves the popped path apart from the rest. */
  lemma {:induction false} PopSeparate(stack: seq<Path>)
    requires Separate(stack) && stack != []
    ensures Separate(stack[..|stack| - 1])
    ensures stack[|stack| - 1].mask !! Deferred(stack[..|stack| - 1])
    ensures Deferred(stack) == Deferred(stack[..|stack| - 1]) + stack[|stack| - 1].mask
  {
    var n := |stack| - 1;
    forall t | t in stack[n].mask ensures t !in Deferred(stack[..n]) {
      DeferredHas(stack[..n], t);
    }
  }

  lemma {:induction false} PushSeparate(stack: seq<Path>, p: Path)
    requires Separate(stack) && p.mask != {} && p.mask !! Deferred(stack)
    ensures Separate(stack + [p])
  {
    forall k | 0 <= k < |stack| ensures stack[k].mask !! p.mask {
      forall t | t in p.mask ensures t !in stack[k].mask {
        DeferredHas(stack, t);
      }
    }
  }

  /** Warps other than the issued one are untouched by a cycle. */
  lemma OthersKept(s: Shape, cid: nat, c: Core, m: Mem)
    requires ValidCore(s, c) && ServesMemory(c)
    ensures forall w | 0 <= w < s.warps && w != c.iw :: CoreStep(s, cid, c, m).warps[w] == c.warps[w]
    ensures !c.active || c.state.Sched? ==> CoreStep(s, cid, c, m).warps == c.warps
  {
    hide ComputeLane, CoreLoad, CommonNext, AllLegal, Diverges, LaneResult, TakenLanes, MemoryAddress, WriteBack;
  }

  predicate SameMask(v: Warp, w: Warp) { v.mask == w.mask && v.stack == w.stack && v.valid == w.valid }

  lemma ComputeKept(s: Shape, cid: nat, c: Core)
    requires ValidCore(s, c) && !BadRegister(c.inst)
    ensures SameMask(ComputeStep(s, cid, c).warps[c.iw], c.warps[c.iw])
  {
    hide ComputeLane, CommonNext, AllLegal, Diverges, LaneResult, WriteBack, BadRegister;
  }

  lemma ServeKept(s: Shape, c: Core, m: Mem)
    requires ValidCore(s, c) && !BadRegister(c.inst)
    ensures SameMask(MemReqStep(s, c).warps[c.iw], c.warps[c.iw])
    ensures SameMask(MemRespStep(s, c, m).warps[c.iw], c.warps[c.iw])
  {
    hide CoreLoad, MemoryAddress, WriteBack, BadRegister;
  }

  /** An instruction other than a branch or `ebreak` keeps mask and stack of its warp. */
  lemma MaskKept(s: Shape, cid: nat, c: Core, m: Mem)
    requires ValidCore(s, c) && ServesMemory(c) && c.active
    requires c.state.Exec? ==> c.inst != EBREAK && Opcode(c.inst) != OP_BRANCH
    ensures SameMask(CoreStep(s, cid, c, m).warps[c.iw], c.warps[c.iw])
  {
    hide ComputeStep, MemReqStep, MemRespStep, BranchStep, BreakStep, Load32, BadRegister;
    if c.state.MemReq? || c.state.MemResp? {
      ServeKept(s, c, m);
    } else if c.state.Exec? && !BadRegister(c.inst) {
      ComputeKept(s, cid, c);
    }
  }

  lemma PushPartition(initial: set<nat>, w: Warp, retired: set<nat>, p: Path, next: word)
    requires w.valid && Partition(initial, w, retired) && |w.stack| < STACK_DEPTH
    requires p.mask <= w.mask && p.mask != {} && w.mask - p.mask != {}
    ensures Partition(initial, w.(stack := w.stack + [p], pc := next, mask := w.mask - p.mask), retired)
  {
    PushSeparate(w.stack, p);
  }

  lemma BranchPartition(s: Shape, c: Core, initial: set<nat>, retired: set<nat>)
    requires ValidCore(s, c) && c.active && c.state.Exec? && Issued(s, c)
    requires Partition(initial, c.warps[c.iw], retired)
    ensures Partition(initial, BranchStep(s, c).warps[c.iw], retired)
  {
    hide BranchTaken, LaneRegister, ImmB, LegalBranch;
    var w, taken := c.warps[c.iw], TakenLanes(s, c);
    assert taken <= w.mask;
    if taken != {} && w.mask - taken != {} && |w.stack| < STACK_DEPTH {
      PushPartition(initial, w, retired, Path(Add(c.ip, ImmB(c.inst)), taken), Add(c.ip, 4));
    } else if w.mask - taken == {} {
      forall t | t in w.mask ensures t in taken {
        assert t !in w.mask - taken;
      }
      assert taken == w.mask;
    } else {
      assert taken == {} ==> w.mask - taken == w.mask;
    }
  }

  lemma BreakPartition(s: Shape, c: Core, initial: set<nat>, retired: set<nat>)
    requires ValidCore(s, c) && c.active && c.state.Exec? && Issued(s, c)
    requires Partition(initial, c.warps[c.iw], retired)
    ensures Partition(initial, BreakStep(s, c).warps[c.iw], retired + c.im)
  {
    var w := c.warps[c.iw];
    if w.stack != [] { PopSeparate(w.stack); }
  }

  /** One cycle keeps the partition of every warp, faulting or not. */
  lemma StepPartition(s: Shape, cid: nat, c: Core, m: Mem, initial: seq<set<nat>>, retired: seq<set<nat>>)
    requires ValidCore(s, c) && ServesMemory(c) && CorePartition(s, initial, c, retired)
    ensures CorePartition(s, initial, CoreStep(s, cid, c, m), RetiredAfter(c, retired))
    ensures Retiring(c) !! retired[c.iw]
  {
    hide Partition, CoreStep, Separate;
    OthersKept(s, cid, c, m);
    StepIssued(s, cid, c, m);
    if c.active && !c.state.Sched? {
      IssuedWarp(s, cid, c, m, initial[c.iw], retired[c.iw]);
    } else {
      assert retired[c.iw] + Retiring(c) == retired[c.iw];
      assert RetiredAfter(c, retired) == retired;
    }
  }

  lemma IssuedWarp(s: Shape, cid: nat, c: Core, m: Mem, initial: set<nat>, retired: set<nat>)
    requires ValidCore(s, c) && ServesMemory(c) && c.active && !c.state.Sched? && Issued(s, c)
    requires Partition(initial, c.warps[c.iw], retired)
    ensures Partition(initial, CoreStep(s, cid, c, m).warps[c.iw], retired + Retiring(c))
    ensures Retiring(c) !! retired
  {
    hide BranchStep, BreakStep;
    if c.state.Exec? && c.inst == EBREAK {
      BreakPartition(s, c, initial, retired);
    } else if c.state.Exec? && Opcode(c.inst) == OP_BRANCH && !BadRegister(c.inst) {
      BranchPartition(s, c, initial, retired);
    } else if !(c.state.Exec? && Opcode(c.inst) == OP_BRANCH) {
      MaskKept(s, cid, c, m);
    }
  }

  lemma StepIssued(s: Shape, cid: nat, c: Core, m: Mem)
    requires ValidCore(s, c) && ServesMemory(c) && Issued(s, c)
    ensures Issued(s, CoreStep(s, cid, c, m))
  {
    hide ComputeLane, CoreLoad, CommonNext, AllLegal, Diverges, LaneResult, TakenLanes, MemoryAddress, WriteBack;
  }

  // ---- Whole runs of a core ---------------------------------------------------------------

  /** The core after one cycle per memory; other cores may change memory between cycles. */
  function CoreRun(s: Shape, cid: nat, c: Core, mems: seq<Mem>): (r: Core)
    requires ValidCore(s, c) && ServesMemory(c)
    ensures ValidCore(s, r) && ServesMemory(r)
  {
    if mems == [] then c else CoreStep(s, cid, CoreRun(s, cid, c, mems[..|mems| - 1]), mems[|mems| - 1])
  }

  /** Everything retired by `ebreak` during the run, warp by warp. */
  function RetiredBy(s: Shape, cid: nat, c: Core, mems: seq<Mem>): (r: seq<set<nat>>)
    requires ValidCore(s, c) && ServesMemory(c)
    ensures |r| == s.warps
  {
    if mems == [] then seq(s.warps, _ => {})
    else RetiredAfter(CoreRun(s, cid, c, mems[..|mems| - 1]), RetiredBy(s, cid, c, mems[..|mems| - 1]))
  }

  function InitialMasks(s: Shape, bsize: word): seq<set<nat>> {
    seq(s.warps, (w: nat) => InitialMask(s, bsize, w))
  }

  /** From the acceptance of a CTA on, under any memory contents, every warp's initial lanes are
      split into active, deferred and retired lanes. */
  lemma {:induction false} RunPartition(s: Shape, cid: nat, c: Core, l: Launch, block: Dim3, mems: seq<Mem>)
    requires ValidCore(s, c) && DividesLaunch(l)
    ensures var start := AcceptCta(s, c, l, block);
            CorePartition(s, InitialMasks(s, l.bsize), CoreRun(s, cid, start, mems), RetiredBy(s, cid, start, mems))
  {
    hide CoreStep, Partition;
    var start := AcceptCta(s, c, l, block);
    if mems == [] {
      forall w | 0 <= w < s.warps ensures Partition(InitialMask(s, l.bsize, w), start.warps[w], {}) {
        FreshPartition(s, l, block, w);
      }
    } else {
      var before := mems[..|mems| - 1];
      RunPartition(s, cid, c, l, block, before);
      StepPartition(s, cid, CoreRun(s, cid, start, before), mems[|mems| - 1], InitialMasks(s, l.bsize), RetiredBy(s, cid, start, before));
    }
  }

  lemma FreshPartition(s: Shape, l: Launch, block: Dim3, w: nat)
    requires DividesLaunch(l) && s.threads >= 1
    ensures Partition(InitialMask(s, l.bsize, w), FreshWarp(s, l, block, w), {})
  {
    var mask := InitialMask(s, l.bsize, w);
    if w * s.threads < l.bsize {
      assert 0 in mask by { assert InBlock(s, l.bsize, w, 0); }
      assert mask + {} + {} == mask;
    } else {
      assert mask == {};
    }
  }

  /** No lane retires twice: what retires in a cycle had not retired before. */
  lemma {:induction false} NoLaneRetiresTwice(s: Shape, cid: nat, c: Core, l: Launch, block: Dim3, mems: seq<Mem>)
    requires ValidCore(s, c) && DividesLaunch(l)
    ensures var start := AcceptCta(s, c, l, block);
            var now := CoreRun(s, cid, start, mems);
            Retiring(now) !! RetiredBy(s, cid, start, mems)[now.iw]
  {
    hide CoreStep, Partition;
    var start := AcceptCta(s, c, l, block);
    RunPartition(s, cid, c, l, block, mems);
    StepPartition(s, cid, CoreRun(s, cid, start, mems), [], InitialMasks(s, l.bsize), RetiredBy(s, cid, start, mems));
  }

  lemma {:induction false} DeferredSize(stack: seq<Path>)
    requires Separate(stack)
    ensures |stack| <= |Deferred(stack)|
  {
    if stack != [] {
      var n := |stack| - 1;
      PopSeparate(stack);
      DeferredSize(stack[..n]);
      var top, rest := stack[n].mask, Deferred(stack[..n]);
      assert |rest + top| == |rest| + |top|;
      assert |top| != 0;
    }
  }

  /** A warp never holds more paths than it has lanes. */
  lemma StackBound(initial: set<nat>, w: Warp, retired: set<nat>)
    requires Partition(initial, w, retired) && w.valid
    ensures |w.stack| + |w.mask| <= |initial|
    ensures |w.stack| + 1 <= |initial|
  {
    DeferredSize(w.stack);
    var d := Deferred(w.stack);
    assert |w.mask + d| == |w.mask| + |d|;
    assert |(w.mask + d) + retired| == |w.mask + d| + |retired|;
    assert |w.mask| != 0;
  }

  /** The branch in execution overflows the divergence stack. */
  predicate Overflows(s: Shape, c: Core)
    requires ValidCore(s, c)
  {
    && c.active && c.state.Exec? && Opcode(c.inst) == OP_BRANCH && !BadRegister(c.inst) && LegalBranch(Funct3(c.inst))
    && TakenLanes(s, c) != {} && c.im - TakenLanes(s, c) != {}
    && |c.warps[c.iw].stack| >= STACK_DEPTH
  }

  /** It raises the fault. */
  lemma {:induction false} OverflowFaults(s: Shape, cid: nat, c: Core, m: Mem)
    requires ValidCore(s, c) && ServesMemory(c) && Overflows(s, c)
    ensures CoreStep(s, cid, c, m).fault && !CoreStep(s, cid, c, m).active
  {
    hide TakenLanes, LegalBranch, ValidWarp, BadRegister;
    assert Opcode(EBREAK) == OP_SYSTEM;
  }

  /** The overflow fault of the eight-entry stack needs a warp that started with ten lanes. */
  lemma OverflowNeedsTenLanes(s: Shape, c: Core, initial: set<nat>, retired: set<nat>)
    requires ValidCore(s, c) && Issued(s, c) && Overflows(s, c)
    requires Partition(initial, c.warps[c.iw], retired)
    ensures |initial| >= STACK_DEPTH + 2
  {
    hide BranchTaken, LaneRegister;
    var w, taken := c.warps[c.iw], TakenLanes(s, c);
    StackBound(initial, w, retired);
    assert w.mask == taken + (w.mask - taken);
    assert |taken + (w.mask - taken)| == |taken| + |w.mask - taken|;
    assert |taken| != 0 && |w.mask - taken| != 0;
  }
}
