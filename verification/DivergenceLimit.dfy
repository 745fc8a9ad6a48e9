/** Ten lanes are enough to overflow the divergence stack: a loop that counts each lane's number down and
    branches away at zero sends off one lane a round, and the ninth finds eight paths already deferred. */
module DivergenceLimit {
  import opened Word
  import opened Memory
  import opened Isa
  import opened RoundRobin
  import opened SimtCore
  import opened Divergence
  import opened Instructions

  const TEN := Shape(1, 1, 10)

  /** t0 gets the lane's number; then, over and over: count t0 down, leave at zero, jump back. */
  const GET_LANE: word := 0xccf0_22f3
  const COUNT: word := 0xfff2_8293
  const LEAVE: word := 0x0002_8463
  const BACK: word := 0xff9f_f06f

  predicate Coded(m: Mem, p: word) {
    && p + 16 <= WORD_SPAN && Load32(m, p) == GET_LANE && Load32(m, p + 4) == COUNT && Load32(m, p + 8) == LEAVE
    && Load32(m, p + 12) == BACK
  }

  /** Neither a memory access nor `ebreak`, and not a jump that lanes can disagree on. */
  predicate Computes(i: word) {
    !BadRegister(i) && !IsMemory(Opcode(i)) && i != EBREAK && Opcode(i) != OP_BRANCH && Opcode(i) != OP_JALR
  }

  lemma {:induction false} GetsLane(ip: word, g: Registers, ids: Ids)
    ensures Computes(GET_LANE) && UsesRd(Opcode(GET_LANE)) && Rd(GET_LANE) == 5
    ensures ComputeLane(GET_LANE, ip, g, ids) == LaneOut(true, ids.lane, Add(ip, 4))
  {
    hide AluImm, AluReg, Add;
  }

  lemma {:induction false} CountFields()
    ensures Opcode(COUNT) == OP_IMM && Funct3(COUNT) == 0 && Rs1(COUNT) == 5 && Rd(COUNT) == 5 && ImmI(COUNT) == WORD_SPAN - 1
    ensures !BadRegister(COUNT)
  {
  }

  lemma {:induction false} BackFields()
    ensures Opcode(BACK) == OP_JAL && Rd(BACK) == 0 && ImmJ(BACK) == WORD_SPAN - 8 && !BadRegister(BACK)
  {
    hide Opcode, Rd, Rs1, Rs2, ImmJ;
    JumpLow(0, 0xff, 1, 0x3fc, 1);
    ReadJal(0, -8);
    assert BACK == JumpWord(0, 0xff, 1, 0x3fc, 1) == Encode(Jal(0, -8));
  }

  lemma {:induction false} CountsDown(ip: word, g: Registers, ids: Ids)
    ensures Computes(COUNT) && UsesRd(Opcode(COUNT)) && Rd(COUNT) == 5
    ensures ComputeLane(COUNT, ip, g, ids) == LaneOut(true, Add(g[5], WORD_SPAN - 1), Add(ip, 4))
  {
    hide Csr, AluReg, Add, Opcode, Funct3, Rs1, Rs2, Rd, ImmI, BadRegister, Shamt;
    CountFields();
  }

  lemma {:induction false} JumpsBack(ip: word, g: Registers, ids: Ids)
    ensures Computes(BACK) && Rd(BACK) == 0
    ensures ComputeLane(BACK, ip, g, ids).ok && ComputeLane(BACK, ip, g, ids).next == Add(ip, WORD_SPAN - 8)
  {
    hide Csr, AluReg, AluImm, Add, Opcode, Funct3, Rs1, Rs2, Rd, ImmJ, BadRegister;
    BackFields();
  }

  lemma {:induction false} LeavesAtZero()
    ensures Opcode(LEAVE) == OP_BRANCH && Funct3(LEAVE) == 0 && Rs1(LEAVE) == 5 && Rs2(LEAVE) == 0
    ensures !BadRegister(LEAVE) && LEAVE != EBREAK
  {
  }

  // ---- Instructions of three cycles -------------------------------------------------------

  lemma {:induction false} RunConcat(s: Shape, cid: nat, c: Core, a: seq<Mem>, b: seq<Mem>)
    requires ValidCore(s, c) && ServesMemory(c)
    ensures CoreRun(s, cid, c, a + b) == CoreRun(s, cid, CoreRun(s, cid, c, a), b)
  {
    hide CoreStep, ValidCore, ServesMemory;
    if b == [] {
      assert a + b == a;
    } else {
      var n := |b| - 1;
      RunConcat(s, cid, c, a, b[..n]);
      assert (a + b)[..|a + b| - 1] == a + b[..n] && (a + b)[|a + b| - 1] == b[n];
    }
  }

  /** A core about to select its one warp. */
  predicate Ready(c: Core) { ValidCore(TEN, c) && c.active && c.state.Sched? && c.warps[0].valid }

  /** The core with the warp's next instruction in execution. */
  function Issue(c: Core, m: Mem): (r: Core)
    requires Ready(c)
    ensures ValidCore(TEN, r)
  {
    c.(iw := 0, im := c.warps[0].mask, ip := c.warps[0].pc, inst := Load32(m, c.warps[0].pc), state := Exec)
  }

  lemma {:induction false} TwoCycles(c: Core, m: Mem)
    requires Ready(c)
    ensures ServesMemory(c) && CoreRun(TEN, 0, c, [m, m]) == Issue(c, m)
  {
    hide Load32;
    var flags := ValidFlags(c.warps);
    assert At(1, 0, 0) == 0 && FlagAt(flags, 0, 0);
    assert CoreRun(TEN, 0, c, []) == c;
    assert [m][..0] == [] && CoreRun(TEN, 0, c, [m]) == SchedStep(TEN, c);
    assert [m, m][..1] == [m];
  }

  lemma {:induction false} ThreeCycles(c: Core, m: Mem)
    requires Ready(c)
    ensures ServesMemory(c) && CoreRun(TEN, 0, c, [m, m, m]) == ExecStep(TEN, 0, Issue(c, m))
  {
    hide Load32, ExecStep;
    TwoCycles(c, m);
    assert [m, m, m][..2] == [m, m];
  }

  // ---- The rounds -------------------------------------------------------------------------

  /** The lanes still in the loop after r rounds. */
  function Left(r: nat): set<nat> { set t: nat | t < 10 && Stays(r, t) }

  predicate Stays(r: nat, t: nat) { t == 0 || t > r }

  lemma {:induction false} ZeroStays(r: nat)
    ensures 0 in Left(r)
  {
    assert Stays(r, 0);
  }

  /** At an address of the code, after r lanes have left and with k taken off every lane's number. */
  predicate Looping(c: Core, pc: word, r: nat, k: nat) {
    && Ready(c) && c.warps[0].pc == pc && c.warps[0].mask == Left(r) && |c.warps[0].stack| == r
    && forall t | t in Left(r) :: c.warps[0].lanes[t].gpr[5] == (t - k) % WORD_SPAN && c.warps[0].lanes[t].gpr[0] == 0
  }

  /** A computation in all lanes alike as to where it goes. */
  lemma {:induction false} ComputeAlike(e: Core, next: word)
    requires ValidCore(TEN, e) && e.iw == 0 && Computes(e.inst) && e.im != {}
    requires forall t | t in e.im :: LaneResult(TEN, 0, e, t).ok && LaneResult(TEN, 0, e, t).next == next
    ensures var o := ExecStep(TEN, 0, e);
            && ValidCore(TEN, o) && o.active == e.active && o.state.Sched?
            && o.warps[0].mask == e.warps[0].mask && o.warps[0].stack == e.warps[0].stack
            && o.warps[0].valid == e.warps[0].valid && o.warps[0].pc == next
            && forall t | t in e.im :: o.warps[0].lanes[t].gpr ==
                 WriteBack(e.warps[0].lanes[t].gpr, UsesRd(Opcode(e.inst)), Rd(e.inst), LaneResult(TEN, 0, e, t).value)
  {
    hide LaneResult, BadRegister, ValidWarp, WriteBack, Opcode, Rd;
    var t :| t in e.im;
    var l := LowestFrom(e.im, 10, 0);
    assert l in e.im;
  }

  lemma {:induction false} GetLaneStep(c: Core, m: Mem, p: word)
    requires Ready(c) && Coded(m, p) && c.warps[0].pc == p && c.warps[0].mask == Left(0) && c.warps[0].stack == []
    requires forall t | t in Left(0) :: c.warps[0].lanes[t].gpr[0] == 0
    ensures Looping(ExecStep(TEN, 0, Issue(c, m)), p + 4, 0, 0)
  {
    hide Load32, ComputeLane, Computes, UsesRd, Opcode, Rd, ExecStep;
    var e := Issue(c, m);
    assert 0 in Left(0);
    forall t | t in e.im ensures LaneResult(TEN, 0, e, t) == LaneOut(true, t, p + 4) {
      GetsLane(p, e.warps[0].lanes[t].gpr, LaneIds(TEN, 0, e.cta, 0, t, e.warps[0].lanes[t]));
    }
    GetsLane(p, e.warps[0].lanes[0].gpr, LaneIds(TEN, 0, e.cta, 0, 0, e.warps[0].lanes[0]));
    ComputeAlike(e, p + 4);
  }

  lemma {:induction false} CountStep(c: Core, m: Mem, p: word, r: nat)
    requires Coded(m, p) && Looping(c, p + 4, r, r) && r <= 8
    ensures Looping(ExecStep(TEN, 0, Issue(c, m)), p + 8, r, r + 1)
  {
    hide Load32, ComputeLane, Computes, UsesRd, Opcode, Rd, ExecStep, LaneIds, Stays;
    var e := Issue(c, m);
    ZeroStays(r);
    forall t | t in e.im
      ensures LaneResult(TEN, 0, e, t) == LaneOut(true, (t - (r + 1)) % WORD_SPAN, p + 8)
    {
      CountsDown(p + 4, e.warps[0].lanes[t].gpr, LaneIds(TEN, 0, e.cta, 0, t, e.warps[0].lanes[t]));
      OneLess(t, r);
    }
    CountsDown(p + 4, e.warps[0].lanes[0].gpr, LaneIds(TEN, 0, e.cta, 0, 0, e.warps[0].lanes[0]));
    ComputeAlike(e, p + 8);
  }

  lemma {:induction false} OneLess(t: nat, r: nat)
    requires t < 10 && r <= 8
    ensures Add((t - r) % WORD_SPAN, WORD_SPAN - 1) == (t - (r + 1)) % WORD_SPAN
  {
  }

  lemma {:induction false} BackStep(c: Core, m: Mem, p: word, r: nat)
    requires Coded(m, p) && Looping(c, p + 12, r, r) && r <= 8
    ensures Looping(ExecStep(TEN, 0, Issue(c, m)), p + 4, r, r)
  {
    hide Load32, ComputeLane, Computes, UsesRd, Opcode, Rd, ExecStep, LaneIds, Stays;
    var e := Issue(c, m);
    ZeroStays(r);
    assert Add(p + 12, WORD_SPAN - 8) == p + 4;
    forall t | t in e.im ensures LaneResult(TEN, 0, e, t).ok && LaneResult(TEN, 0, e, t).next == p + 4 {
      JumpsBack(p + 12, e.warps[0].lanes[t].gpr, LaneIds(TEN, 0, e.cta, 0, t, e.warps[0].lanes[t]));
    }
    JumpsBack(p + 12, e.warps[0].lanes[0].gpr, LaneIds(TEN, 0, e.cta, 0, 0, e.warps[0].lanes[0]));
    ComputeAlike(e, p + 4);
  }

  /** In round r + 1 exactly lane r + 1 takes the branch. */
  lemma {:induction false} LeaveTaken(c: Core, m: Mem, p: word, r: nat)
    requires Coded(m, p) && Looping(c, p + 8, r, r + 1) && r <= 8
    ensures TakenLanes(TEN, Issue(c, m)) == {r + 1} && Left(r) - {r + 1} == Left(r + 1) && 0 in Left(r + 1)
    ensures LegalBranch(Funct3(Issue(c, m).inst))
  {
    hide Load32, Rs1, Rs2, Funct3, Opcode, BadRegister;
    LeavesAtZero();
    var e := Issue(c, m);
    forall t | t in e.im ensures BranchTaken(0, LaneRegister(e, t, 5), LaneRegister(e, t, 0)) <==> t == r + 1 {
    }
    assert r + 1 in e.im by { assert Stays(r, r + 1); }
    assert Stays(r + 1, 0);
  }

  lemma {:induction false} LeaveStep(c: Core, m: Mem, p: word, r: nat)
    requires Coded(m, p) && Looping(c, p + 8, r, r + 1) && r < 8
    ensures Looping(ExecStep(TEN, 0, Issue(c, m)), p + 12, r + 1, r + 1)
  {
    hide Load32, BadRegister, Opcode, Rd, Funct3, Rs1, Rs2, LegalBranch, TakenLanes, BranchTaken, LaneRegister, ImmB, Stays;
    LeavesAtZero();
    LeaveTaken(c, m, p, r);
    assert Issue(c, m).im == Left(r);
  }

  lemma {:induction false} OneRound(c: Core, m: Mem, p: word, r: nat)
    requires Coded(m, p) && Looping(c, p + 4, r, r) && r < 8
    ensures ServesMemory(c) && Looping(CoreRun(TEN, 0, c, Cycles(m, 9)), p + 4, r + 1, r + 1)
  {
    hide Load32, Looping, ExecStep, Issue, CoreRun;
    ThreeMore(c, m, p + 4, r, r);
    CountStep(c, m, p, r);
    var c1 := ExecStep(TEN, 0, Issue(c, m));
    ThreeMore(c1, m, p + 8, r, r + 1);
    LeaveStep(c1, m, p, r);
    var c2 := ExecStep(TEN, 0, Issue(c1, m));
    ThreeMore(c2, m, p + 12, r + 1, r + 1);
    BackStep(c2, m, p, r + 1);
    RunConcat(TEN, 0, c, Cycles(m, 3), Cycles(m, 6));
    RunConcat(TEN, 0, c1, Cycles(m, 3), Cycles(m, 3));
    assert Cycles(m, 9) == Cycles(m, 3) + Cycles(m, 6) && Cycles(m, 6) == Cycles(m, 3) + Cycles(m, 3);
  }

  function Cycles(m: Mem, n: nat): seq<Mem> { seq(n, _ => m) }

  lemma {:induction false} ThreeMore(c: Core, m: Mem, pc: word, r: nat, k: nat)
    requires Looping(c, pc, r, k)
    ensures Ready(c) && ValidCore(TEN, c) && ServesMemory(c) && CoreRun(TEN, 0, c, Cycles(m, 3)) == ExecStep(TEN, 0, Issue(c, m))
  {
    hide ExecStep, Issue, CoreRun;
    ThreeCycles(c, m);
    assert Cycles(m, 3) == [m, m, m];
  }

  lemma {:induction false} Rounds(c: Core, m: Mem, p: word, r: nat)
    requires Coded(m, p) && Looping(c, p + 4, 0, 0) && r <= 8
    ensures ValidCore(TEN, c) && ServesMemory(c) && Looping(CoreRun(TEN, 0, c, Cycles(m, 9 * r)), p + 4, r, r)
  {
    hide Load32, CoreRun, Looping, ExecStep, ValidCore;
    LoopingReady(c, p + 4, 0, 0);
    if r == 0 {
      assert Cycles(m, 0) == [];
      NoCycles(c);
    } else {
      Rounds(c, m, p, r - 1);
      OneRound(CoreRun(TEN, 0, c, Cycles(m, 9 * (r - 1))), m, p, r - 1);
      RunConcat(TEN, 0, c, Cycles(m, 9 * (r - 1)), Cycles(m, 9));
      assert Cycles(m, 9 * r) == Cycles(m, 9 * (r - 1)) + Cycles(m, 9);
    }
  }

  lemma {:induction false} NoCycles(c: Core)
    requires ValidCore(TEN, c) && ServesMemory(c)
    ensures CoreRun(TEN, 0, c, []) == c
  {
  }

  /** The ninth branch overflows. */
  lemma {:induction false} NinthOverflows(c: Core, m: Mem, p: word)
    requires Coded(m, p) && Looping(c, p + 8, 8, 9)
    ensures Overflows(TEN, Issue(c, m))
  {
    hide Load32, ValidWarp, TakenLanes, LegalBranch, Funct3;
    LeaveTaken(c, m, p, 8);
  }

  /** A CTA of ten lanes started on this code overflows the stack in cycle 80: the bound of ten is met. */
  lemma {:induction false} TenLanesOverflow(c: Core, l: Launch, block: Dim3, m: Mem)
    requires ValidCore(TEN, c) && DividesLaunch(l) && l.bsize == 10 && Coded(m, l.startup)
    ensures var start := AcceptCta(TEN, c, l, block);
            |InitialMask(TEN, l.bsize, 0)| == STACK_DEPTH + 2 && Overflows(TEN, CoreRun(TEN, 0, start, Cycles(m, 80)))
            && CoreStep(TEN, 0, CoreRun(TEN, 0, start, Cycles(m, 80)), m).fault
  {
    hide Load32, CoreRun, ValidWarp, ExecStep, Issue, Overflows, Looping;
    var p, c0 := l.startup, AcceptCta(TEN, c, l, block);
    TenStart(c, l, block);
    TenLanes();
    ThreeCycles(c0, m);
    GetLaneStep(c0, m, p);
    var c1 := ExecStep(TEN, 0, Issue(c0, m));
    LoopingReady(c1, p + 4, 0, 0);
    Rounds(c1, m, p, 8);
    var c2 := CoreRun(TEN, 0, c1, Cycles(m, 72));
    ThreeMore(c2, m, p + 4, 8, 8);
    CountStep(c2, m, p, 8);
    var c3 := ExecStep(TEN, 0, Issue(c2, m));
    LoopingReady(c3, p + 8, 8, 9);
    TwoCycles(c3, m);
    NinthOverflows(c3, m, p);
    OverflowFaults(TEN, 0, Issue(c3, m), m);
    RunConcat(TEN, 0, c0, Cycles(m, 3), Cycles(m, 77));
    RunConcat(TEN, 0, c1, Cycles(m, 72), Cycles(m, 5));
    RunConcat(TEN, 0, c2, Cycles(m, 3), Cycles(m, 2));
    assert Cycles(m, 3) == [m, m, m] && Cycles(m, 2) == [m, m];
    assert Cycles(m, 80) == Cycles(m, 3) + Cycles(m, 77);
    assert Cycles(m, 77) == Cycles(m, 72) + Cycles(m, 5);
    assert Cycles(m, 5) == Cycles(m, 3) + Cycles(m, 2);
  }

  lemma {:induction false} LoopingReady(c: Core, pc: word, r: nat, k: nat)
    requires Looping(c, pc, r, k)
    ensures Ready(c) && ValidCore(TEN, c) && ServesMemory(c)
  {
  }

  lemma {:induction false} TenStart(c: Core, l: Launch, block: Dim3)
    requires ValidCore(TEN, c) && DividesLaunch(l) && l.bsize == 10
    ensures var start := AcceptCta(TEN, c, l, block);
            && Ready(start) && start.warps[0].pc == l.startup && start.warps[0].mask == Left(0) && start.warps[0].stack == []
            && InitialMask(TEN, l.bsize, 0) == Left(0)
            && forall t | t in Left(0) :: start.warps[0].lanes[t].gpr[0] == 0
  {
    hide LaneTid, LinearBlock;
    forall t: nat ensures t in InitialMask(TEN, 10, 0) <==> t in Left(0) {
      assert InBlock(TEN, 10, 0, t) <==> t < 10;
    }
  }

  lemma {:induction false} TenLanes()
    ensures |Left(0)| == 10
  {
    var s := {0, 1, 2, 3, 4, 5, 6, 7, 8, 9};
    assert forall t :: t in s <==> t in Left(0);
    assert Left(0) == s;
  }
}
