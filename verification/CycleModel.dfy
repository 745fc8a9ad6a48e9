/** The reference cycle model as the mutable program it is: a core is an object stepped in place with
    loops over its lanes, the device steps its cores, its dispatcher and its memory. */
module CycleModel {
  import opened Word
  import opened Memory
  import opened Isa
  import opened RoundRobin
  import opened SimtCore
  import opened Kmu
  import opened StoreOrder
  import opened Device

  class CoreUnit {
    const shape: Shape
    const cid: nat
    var state: Fsm
    var active: bool
    var fault: bool
    var rr: nat
    var iw: nat
    var im: set<nat>
    var ip: word
    var inst: word
    var mt: nat
    var cta: Cta
    var warps: seq<Warp>

    function State(): Core
      reads this
    {
      Core(state, active, fault, rr, iw, im, ip, inst, mt, cta, warps)
    }

    ghost predicate Valid()
      reads this
    {
      ValidCore(shape, State()) && ServesMemory(State())
    }

    constructor (s: Shape, id: nat, c: Core)
      requires ValidCore(s, c) && ServesMemory(c)
      ensures Valid() && shape == s && cid == id && State() == c
    {
      shape, cid := s, id;
      state, active, fault, rr, iw, im, ip, inst, mt, cta, warps :=
        c.state, c.active, c.fault, c.rr, c.iw, c.im, c.ip, c.inst, c.mt, c.cta, c.warps;
    }

    /** `accept_cta`: warps and lanes set up one by one. */
    method AcceptCta(l: Launch, block: Dim3)
      requires Valid() && DividesLaunch(l)
      modifies this
      ensures Valid() && State() == SimtCore.AcceptCta(shape, old(State()), l, block)
    {
      hide FreshLane, LinearBlock;
      ghost var goal := SimtCore.AcceptCta(shape, State(), l, block);
      active, fault, state, rr := true, false, Sched, 0;
      cta := Cta(block, l.dim, l.grid, l.args);
      var w := 0;
      while w < shape.warps
        invariant 0 <= w <= shape.warps && |warps| == shape.warps
        invariant State() == goal.(warps := warps)
        invariant forall v | 0 <= v < w :: warps[v] == FreshWarp(shape, l, block, v)
      {
        var fresh' := SetUpWarp(l, block, w);
        warps := warps[w := fresh'];
        w := w + 1;
      }
      assert warps == goal.warps;
    }

    /** Mask and lane registers of warp w, lane by lane. */
    method SetUpWarp(l: Launch, block: Dim3, w: nat) returns (r: Warp)
      requires DividesLaunch(l)
      ensures r == FreshWarp(shape, l, block, w)
    {
      hide FreshLane;
      var mask: set<nat>, lanes: seq<Lane> := {}, [];
      for t := 0 to shape.threads
        invariant |lanes| == t
        invariant forall u | 0 <= u < t :: lanes[u] == FreshLane(l, block, w * shape.threads + u)
        invariant mask == set u: nat | u < t && InBlock(shape, l.bsize, w, u)
      {
        if w * shape.threads + t < l.bsize { mask := mask + {t}; }
        lanes := lanes + [FreshLane(l, block, w * shape.threads + t)];
      }
      r := Warp(l.startup, mask, w * shape.threads < l.bsize, [], lanes);
      assert mask == InitialMask(shape, l.bsize, w);
      assert lanes == FreshWarp(shape, l, block, w).lanes;
    }

    method NextWarp()
      requires Valid()
      modifies this`rr, this`state
      ensures State() == SimtCore.NextWarp(shape, old(State()))
    {
      rr := if iw == shape.warps - 1 then 0 else iw + 1;
      state := Sched;
    }

    method Schedule()
      requires Valid() && state.Sched?
      modifies this
      ensures State() == SchedStep(shape, old(State()))
    {
      var found, sel := FirstFound(ValidFlags(warps), rr);
      if found {
        iw, im, ip, state := sel, warps[sel].mask, warps[sel].pc, Fetch;
      } else {
        active := false;
      }
    }

    method Break()
      requires Valid()
      modifies this
      ensures State() == BreakStep(shape, old(State()))
    {
      var w := warps[iw];
      var n := |w.stack|;
      if n > 0 {
        warps := warps[iw := w.(stack := w.stack[..n - 1], pc := w.stack[n - 1].pc, mask := w.stack[n - 1].mask)];
      } else {
        warps := warps[iw := w.(valid := false)];
      }
      rr := if iw == shape.warps - 1 then 0 else iw + 1;
      state := Sched;
    }

    /** The lanes that take the branch and those that fall through, collected lane by lane. */
    method SplitLanes() returns (taken: set<nat>, fallen: set<nat>)
      requires Valid()
      ensures taken == TakenLanes(shape, State()) && fallen == im - taken
    {
      hide BranchTaken, LaneRegister;
      taken, fallen := {}, {};
      var f3, rs1, rs2 := Funct3(inst), Rs1(inst), Rs2(inst);
      for t := 0 to shape.threads
        invariant taken == set u | u in TakenLanes(shape, State()) && u < t
        invariant fallen == set u | u in im - TakenLanes(shape, State()) && u < t
      {
        if t in im {
          if BranchTaken(f3, LaneRegister(State(), t, rs1), LaneRegister(State(), t, rs2)) {
            taken := taken + {t};
          } else {
            fallen := fallen + {t};
          }
        }
      }
    }

    method Branch()
      requires Valid()
      modifies this
      ensures State() == BranchStep(shape, old(State()))
    {
      hide TakenLanes, ImmB, LegalBranch;
      var w := warps[iw];
      var target, next := Add(ip, ImmB(inst)), Add(ip, 4);
      var taken, fallen := SplitLanes();
      if !LegalBranch(Funct3(inst)) {
        fault, active := true, false;
      } else if taken != {} && fallen != {} {
        if |w.stack| >= STACK_DEPTH {
          fault, active := true, false;
        } else {
          warps := warps[iw := w.(stack := w.stack + [Path(target, taken)], pc := next, mask := fallen)];
        }
      } else if taken != {} {
        warps := warps[iw := w.(pc := target, mask := taken)];
      } else {
        warps := warps[iw := w.(pc := next, mask := fallen)];
      }
      rr := if iw == shape.warps - 1 then 0 else iw + 1;
      state := Sched;
    }

    /** The loop over the lanes: registers are written lane by lane while the flags and the target
        of the warp accumulate. */
    method RunLanes() returns (sum: Summary)
      requires Valid() && !BadRegister(inst)
      modifies this`warps
      ensures sum == LaneLoop(shape, cid, old(State()), shape.threads)
      ensures State() == SetWarp(shape, old(State()), old(warps[iw]).(lanes := ComputedLanes(shape, cid, old(State()))))
    {
      hide ComputeLane, WriteBack, LaneIds, BadRegister;
      ghost var c := State();
      WriteTarget(inst);
      sum := Summary(true, false, None, Add(ip, 4));
      var lanes := warps[iw].lanes;
      for t := 0 to shape.threads
        invariant State() == c && |lanes| == shape.threads
        invariant forall u | 0 <= u < t :: lanes[u] == ComputedLane(shape, cid, c, u)
        invariant forall u | t <= u < shape.threads :: lanes[u] == c.warps[iw].lanes[u]
        invariant sum == LaneLoop(shape, cid, c, t)
      {
        if t in im {
          var out := LaneResult(shape, cid, State(), t);
          sum := Note(inst, sum, out);
          var g := WriteBack(lanes[t].gpr, UsesRd(Opcode(inst)), Rd(inst), out.value);
          lanes := lanes[t := lanes[t].(gpr := g)];
        }
      }
      assert lanes == ComputedLanes(shape, cid, c);
      warps := warps[iw := warps[iw].(lanes := lanes)];
    }

    method Compute()
      requires Valid() && !BadRegister(inst) && inst != EBREAK && !IsMemory(Opcode(inst))
      modifies this
      ensures State() == ComputeStep(shape, cid, old(State()))
    {
      hide LaneResult, AllLegal, Diverges, CommonNext, LaneLoop, ComputedLanes, BadRegister;
      ghost var c := State();
      var sum := RunLanes();
      LoopIsStep(shape, cid, c);
      if !sum.good || sum.diverged {
        fault, active := true, false;
      } else {
        warps := warps[iw := warps[iw].(pc := sum.next)];
      }
      rr := if iw == shape.warps - 1 then 0 else iw + 1;
      state := Sched;
    }

    method Execute()
      requires Valid()
      modifies this
      ensures Valid() && State() == ExecStep(shape, cid, old(State()))
    {
      hide ComputeStep, BranchStep, BreakStep, BadRegister;
      if BadRegister(inst) {
        fault, active, state := true, false, Sched;
      } else if IsMemory(Opcode(inst)) {
        mt, state := 0, MemReq;
      } else if inst == EBREAK {
        Break();
      } else if Opcode(inst) == OP_BRANCH {
        Branch();
      } else {
        Compute();
      }
    }

    method FinishLane()
      requires ValidCore(shape, State())
      modifies this
      ensures State() == Advance(shape, old(State()))
    {
      if mt == shape.threads - 1 {
        warps := warps[iw := warps[iw].(pc := Add(ip, 4))];
        rr := if iw == shape.warps - 1 then 0 else iw + 1;
        state := Sched;
      } else {
        mt, state := mt + 1, MemReq;
      }
    }

    method Respond(m: Mem)
      requires Valid() && state.MemResp? && active
      modifies this
      ensures State() == MemRespStep(shape, old(State()), m)
    {
      hide MemoryAddress, CoreLoad, BadRegister, Advance;
      var lane := warps[iw].lanes[mt];
      var g := lane.gpr;
      if Opcode(inst) == OP_LOAD && Rd(inst) != 0 {
        WriteTarget(inst);
        g := g[Rd(inst) := CoreLoad(m, MemoryAddress(shape, State()), Funct3(inst))];
      }
      g := g[0 := 0];
      warps := warps[iw := warps[iw].(lanes := warps[iw].lanes[mt := lane.(gpr := g)])];
      FinishLane();
    }

    /** `step_core`: one cycle on the memory before the cycle, or the acceptance of a CTA. */
    method Step(m: Mem, fire: bool, l: Launch, block: Dim3) returns (badRead: bool)
      requires Valid() && (fire ==> DividesLaunch(l))
      modifies this
      ensures Valid()
      ensures State() == if fire then SimtCore.AcceptCta(shape, old(State()), l, block) else CoreStep(shape, cid, old(State()), m)
      ensures badRead == (!fire && ReadFails(shape, old(State()), m))
    {
      hide ExecStep, MemRespStep, SchedStep, MemoryAddress, Load32, BadRegister, SimtCore.AcceptCta;
      badRead := !fire && ReadFails(shape, State(), m);
      if fire {
        AcceptCta(l, block);
      } else if active {
        if state.Sched? {
          Schedule();
        } else if state.Fetch? {
          inst := Load32(m, ip);
          state := Exec;
        } else if state.Exec? {
          Execute();
        } else if state.MemReq? {
          if mt in im { state := MemResp; } else { FinishLane(); }
        } else {
          Respond(m);
        }
      }
    }
  }

  lemma WriteTarget(inst: word)
    requires !BadRegister(inst)
    ensures UsesRd(Opcode(inst)) ==> Rd(inst) < 16
  {
  }

  // ---- The loop over the lanes ------------------------------------------------------------

  /** What the loop has found so far: all encodings legal, jump targets differ, the first jump
      target, and where the warp goes. */
  datatype Summary = Summary(good: bool, diverged: bool, first: Option<word>, next: word)

  /** One more active lane. */
  function Note(inst: word, sum: Summary, out: LaneOut): Summary {
    var jumps := Opcode(inst) == OP_JALR;
    Summary(sum.good && out.ok,
            sum.diverged || (jumps && sum.first.Some? && sum.first.value != out.next),
            if jumps && sum.first.None? then Some(out.next) else sum.first,
            if jumps || Opcode(inst) == OP_JAL then out.next else sum.next)
  }

  function LaneLoop(s: Shape, cid: nat, c: Core, t: nat): Summary
    requires ValidCore(s, c) && t <= s.threads
  {
    if t == 0 then Summary(true, false, None, Add(c.ip, 4))
    else
      var sum := LaneLoop(s, cid, c, t - 1);
      if t - 1 in c.im then Note(c.inst, sum, LaneResult(s, cid, c, t - 1)) else sum
  }

  lemma {:induction false} LoopLegal(s: Shape, cid: nat, c: Core, t: nat)
    requires ValidCore(s, c) && t <= s.threads
    ensures LaneLoop(s, cid, c, t).good <==> forall u | u in c.im && u < t :: LaneResult(s, cid, c, u).ok
  {
    hide LaneResult;
    if t > 0 { LoopLegal(s, cid, c, t - 1); }
  }

  lemma {:induction false} LoopJumps(s: Shape, cid: nat, c: Core, t: nat)
    requires ValidCore(s, c) && t <= s.threads && Opcode(c.inst) == OP_JALR
    ensures var sum, l := LaneLoop(s, cid, c, t), LowestFrom(c.im, s.threads, 0);
            && (sum.first.Some? <==> l < t)
            && (sum.first.Some? ==> sum.first.value == LaneResult(s, cid, c, l).next)
            && (sum.diverged <==> exists u | u in c.im && u < t :: LaneResult(s, cid, c, u).next != LaneResult(s, cid, c, l).next)
            && (!sum.diverged ==> sum.next == if l < t then LaneResult(s, cid, c, l).next else Add(c.ip, 4))
  {
    hide LaneResult;
    if t > 0 { LoopJumps(s, cid, c, t - 1); }
  }

  lemma {:induction false} LoopStraight(s: Shape, cid: nat, c: Core, t: nat)
    requires ValidCore(s, c) && t <= s.threads && Opcode(c.inst) != OP_JALR
    ensures var sum, l := LaneLoop(s, cid, c, t), LowestFrom(c.im, s.threads, 0);
            !sum.diverged && sum.next == if l < t then LaneResult(s, cid, c, l).next else Add(c.ip, 4)
  {
    hide LaneResult;
    if t > 0 {
      var l := LowestFrom(c.im, s.threads, 0);
      LoopStraight(s, cid, c, t - 1);
      if t - 1 in c.im { SameTarget(s, cid, c, l, t - 1); }
    }
  }

  /** Except at indirect jumps the next pc does not depend on the lane. */
  lemma SameTarget(s: Shape, cid: nat, c: Core, t: nat, u: nat)
    requires ValidCore(s, c) && t < s.threads && u < s.threads && Opcode(c.inst) != OP_JALR
    ensures LaneResult(s, cid, c, t).next == LaneResult(s, cid, c, u).next
    ensures Opcode(c.inst) != OP_JAL ==> LaneResult(s, cid, c, u).next == Add(c.ip, 4)
  {
    hide AluImm, AluReg, Csr, ImmI, ImmJ, ImmU;
  }

  /** The loop decides legality, divergence and the next pc as the whole active mask does. */
  lemma {:induction false} LoopIsStep(s: Shape, cid: nat, c: Core)
    requires ValidCore(s, c)
    ensures var sum := LaneLoop(s, cid, c, s.threads);
            && sum.good == AllLegal(s, cid, c) && sum.diverged == Diverges(s, cid, c)
            && (!sum.diverged ==> sum.next == CommonNext(s, cid, c))
  {
    hide LaneResult, LaneLoop;
    LoopLegal(s, cid, c, s.threads);
    if Opcode(c.inst) == OP_JALR {
      LoopJumps(s, cid, c, s.threads);
    } else {
      LoopStraight(s, cid, c, s.threads);
    }
  }
}
