/** Whose turn it is in the scalar simulator, and when its comparison across a warp strikes. */
module SimulatorOrder {
  import opened Word
  import opened Arith
  import opened Memory
  import opened Isa
  import opened Interleaving
  import opened Scalar
  import opened RoundRobin
  import opened SimtCore
  import opened CoreRefinement
  import opened Kmu
  import opened DeviceRefinement
  import opened Iss
  import opened EndToEnd
  import opened Instructions
  import opened InstructionMeaning
  import opened CoreFaults

  // ---- Every thread gets its turn ---------------------------------------------------------

  /** The next call executes an instruction. */
  predicate Steps(s: IssState) { !s.aborted && !IssDone(s) && s.rr < |s.cores| }

  /** It is an instruction of thread i. */
  predicate Serves(s: IssState, i: nat) { Steps(s) && Scan(Running(s.cores), s.rr, 0) == Some(i) }

  lemma {:induction false} NextAround(n: nat, i: nat)
    requires i < n
    ensures (i + 1) % n == Successor(i, n)
  {
    if i + 1 < n {
      QuotientUnique(i + 1, n, 0, i + 1);
    } else {
      QuotientUnique(i + 1, n, 1, 0);
    }
  }

  lemma {:induction false} StepThreadOthers(s: IssState, i: nat, x: nat)
    requires i < |s.cores| && x < |s.cores| && x != i
    ensures StepThread(s, i).cores[x] == s.cores[x]
  {
    hide Perform, Clashes, Load32, FaultedThread;
  }

  /** A call that serves another thread leaves i as it is and brings its turn closer. */
  lemma {:induction false} TurnComes(s: IssState, i: nat)
    requires Steps(s) && i < |s.cores| && !s.cores[i].halted && !Serves(s, i)
    ensures var o := IssStep(s);
            && |o.cores| == |s.cores| && o.rr < |s.cores| && o.cores[i] == s.cores[i]
            && Distance(|s.cores|, o.rr, i) < Distance(|s.cores|, s.rr, i)
  {
    hide StepThread, Scan, Distance;
    var flags := Running(s.cores);
    SelectionApproaches(flags, s.rr, i);
    var sel := Scan(flags, s.rr, 0).value;
    NextAround(|flags|, sel);
    StepThreadOthers(s.(rr := (sel + 1) % |s.cores|), sel, i);
  }

  lemma {:induction false} TurnsUsedUp(s: IssState, i: nat, n: nat)
    requires i < |s.cores| && !s.cores[i].halted && s.rr < |s.cores|
    requires forall k | 0 <= k < n :: Steps(IssRun(s, k)) && !Serves(IssRun(s, k), i)
    ensures var o := IssRun(s, n);
            o.rr < |s.cores| && o.cores[i] == s.cores[i] && Distance(|s.cores|, o.rr, i) + n < |s.cores|
  {
    hide IssStep, Serves, Steps, Distance;
    if n == 0 {
      DistanceSmall(|s.cores|, s.rr, i);
    } else {
      TurnsUsedUp(s, i, n - 1);
      TurnComes(IssRun(s, n - 1), i);
    }
  }

  lemma {:induction false} DistanceSmall(n: nat, p: nat, x: nat)
    requires p < n && x < n
    ensures Distance(n, p, x) < n
  {
  }

  /** Among as many calls as there are threads, each executing an instruction, every running thread is
      served. */
  lemma {:induction false} EveryThreadServed(s: IssState, i: nat, n: nat)
    requires i < |s.cores| && !s.cores[i].halted && s.rr < |s.cores| && n >= |s.cores|
    requires forall k | 0 <= k < n :: Steps(IssRun(s, k))
    ensures exists k :: 0 <= k < n && Serves(IssRun(s, k), i)
  {
    hide Steps, Serves, IssRun, Distance;
    if forall k | 0 <= k < n :: !Serves(IssRun(s, k), i) {
      TurnsUsedUp(s, i, n);
    }
  }

  // ---- Faults -----------------------------------------------------------------------------

  /** A fault is the end: the simulator is done and no further call changes anything; nor after an access
      outside memory, which ends the process. */
  lemma {:induction false} FaultEnds(s: IssState, n: nat)
    requires s.faulted || s.aborted
    ensures (s.faulted ==> IssDone(s)) && IssRun(s, n) == s
  {
    hide StepThread, Scan;
    if n > 0 { FaultEnds(s, n - 1); }
  }

  /** What a word that is no instruction does to its thread: it halts; memory and the other threads stay. A
      load or store with a width there is none of still counts as executed, reading zero. */
  lemma {:induction false} FaultingThread(s: IssState, i: nat)
    requires i < |s.cores| && Span(s.mem, s.cores[i].pc, 4) && !Clashes(s.cores, i, Load32(s.mem, s.cores[i].pc))
    requires Disassemble(Load32(s.mem, s.cores[i].pc)) == None
    ensures var o, t, w := StepThread(s, i), s.cores[i], Load32(s.mem, s.cores[i].pc);
            var u := o.cores[i];
            && o.faulted && o.aborted == s.aborted && o.mem == s.mem && u.halted && u.ids == t.ids
            && (forall k | 0 <= k < |s.cores| && k != i :: o.cores[k] == s.cores[k])
            && if BadRegister(w) || !IsMemory(Opcode(w)) then u.pc == t.pc && u.gpr == t.gpr
               else u.pc == Sum(t.pc, 4) && if Opcode(w) == OP_LOAD then Gets(t, u, Rd(w), 0) else Keeps(t, u)
  {
    hide Disassemble, Perform, Opcode, BadRegister, Rd, Load32, Clashes, Retire, Sum;
    var t, w := s.cores[i], Load32(s.mem, s.cores[i].pc);
    UnreadFaults(s.mem, t, w);
    if !BadRegister(w) {
      RetireGets(t, w, 0, Add(t.pc, 4));
      Add4(t.pc);
      LoadsUseRd(w);
    }
    var u := StepThread(s, i).cores[i];
    assert u == FaultedThread(t, w);
  }

  lemma {:induction false} LoadsUseRd(w: word)
    ensures Opcode(w) == OP_LOAD ==> UsesRd(Opcode(w))
    ensures Opcode(w) == OP_STORE ==> !UsesRd(Opcode(w))
  {
    hide Opcode;
  }

  // ---- The comparison across a warp -------------------------------------------------------

  /** The threads have the identity registers they were launched with. */
  predicate Launched(j: Job, cores: seq<Thread>)
    requires GoodJob(j)
  {
    |cores| == Total(j) && forall i | 0 <= i < |cores| :: IsThread(j, TidOf(j, i)) && cores[i].ids == Seed(j, TidOf(j, i)).ids
  }

  /** Two numbers are of one warp: same block, same warp of the block. */
  predicate OneWarp(j: Job, i: nat, k: nat)
    requires j.launch.bsize >= 1 && j.shape.threads >= 1
  {
    TidOf(j, i).block == TidOf(j, k).block && TidOf(j, i).warp == TidOf(j, k).warp
  }

  lemma {:induction false} WarpOfThreads(j: Job, cores: seq<Thread>, i: nat, k: nat)
    requires GoodJob(j) && Launched(j, cores) && i < |cores| && k < |cores|
    ensures SameWarp(cores[i], cores[k]) <==> OneWarp(j, i, k)
  {
    hide Blocks, Unlinear;
    JobSizes(j);
    var a, b := TidOf(j, i), TidOf(j, k);
    PosUnlinear(a.block, j.launch.grid);
    PosUnlinear(b.block, j.launch.grid);
    SmallWarp(j, a);
    SmallWarp(j, b);
  }

  lemma {:induction false} SmallWarp(j: Job, k: Tid)
    requires GoodJob(j) && IsThread(j, k)
    ensures Seed(j, k).ids.warp == k.warp && Seed(j, k).ids.block == Unlinear(k.block, j.launch.grid)
  {
    hide Blocks, Unlinear;
    JobSizes(j);
    WarpNumber(k.warp, j.shape.threads, k.lane, j.launch.bsize);
  }

  lemma {:induction false} WarpNumber(w: nat, threads: nat, lane: nat, bsize: word)
    requires lane < threads && w * threads + lane < bsize
    ensures (w * threads + lane) / threads == w && Wrap(w) == w
  {
    QuotientUnique(w * threads + lane, threads, w, lane);
    Grows(w, threads);
  }

  /** Thread k of the warp of thread i runs, stands at the same place and would jump elsewhere. */
  predicate JumpsApart(j: Job, cores: seq<Thread>, i: nat, k: nat, jump: Instruction)
    requires i < |cores| && k < |cores| && j.launch.bsize >= 1 && j.shape.threads >= 1 && Legal(jump) && jump.Jalr?
  {
    k != i && OneWarp(j, i, k) && !cores[k].halted && cores[k].pc == cores[i].pc && Apart(cores[i].gpr, cores[k].gpr, jump)
  }

  /** The comparison stops thread i exactly at an indirect jump at which another running thread of its warp,
      by thread numbers, stands as well and would jump elsewhere. */
  lemma {:induction false} ClashIff(j: Job, cores: seq<Thread>, i: nat, w: word)
    requires GoodJob(j) && Launched(j, cores) && i < |cores| && j.launch.bsize >= 1 && j.shape.threads >= 1
    ensures Clashes(cores, i, w) <==>
              IsIndirect(w) && exists k :: 0 <= k < |cores| && JumpsApart(j, cores, i, k, Disassemble(w).value)
  {
    hide Launched, OneWarp, SameWarp, Disassemble, Opcode, BadRegister, Apart, JalrTarget, Legal;
    JalrRead(w);
    if IsIndirect(w) {
      IndirectLegal(w);
      forall k | 0 <= k < |cores| ensures Clash(cores, i, k, w) <==> JumpsApart(j, cores, i, k, Disassemble(w).value) {
        WarpOfThreads(j, cores, i, k);
        TargetsApart(w, cores[i].gpr, cores[k].gpr);
      }
    }
  }

  lemma {:induction false} TargetsApart(w: word, g: Registers, h: Registers)
    requires IsIndirect(w)
    ensures Apart(g, h, Disassemble(w).value) <==> JalrTarget(h[Rs1(w) % 16], w) != JalrTarget(g[Rs1(w) % 16], w)
  {
    hide Opcode, Rd, Rs1, ImmI, TwosComplement, Disassemble, Add, Sum, BadRegister;
    JalrRead(w);
    RegistersExist(w);
    AddsOffset(g[Rs1(w)], ImmI(w));
    AddsOffset(h[Rs1(w)], ImmI(w));
  }

  lemma {:induction false} RegistersExist(w: word)
    requires IsIndirect(w)
    ensures Rs1(w) < 16 && Rs1(w) % 16 == Rs1(w)
  {
    hide Opcode, Rd, Rs1, ImmI, Disassemble, BadRegister;
    JalrRead(w);
    BadRegisters(w);
  }
}
