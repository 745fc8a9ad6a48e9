/** Which core a block lands on is visible to a kernel only through its physical thread number. What is
    computed from that number may differ between two placements; as long as it reaches no address, no
    stored value, no branch and no indirect jump, the memory does not. */
module Placement {
  import opened Word
  import opened Arith
  import opened Memory
  import opened Isa
  import opened Interleaving
  import opened Scalar
  import opened SimtCore
  import opened CoreRefinement
  import opened Kmu
  import opened Device
  import opened DeviceRefinement
  import opened DeviceRuns
  import opened Iss
  import opened EndToEnd

  // ---- Registers that hold what depends on the placement ----------------------------------

  /** The result of the instruction depends on the placement, given the registers that do. */
  predicate Derives(inst: word, d: set<nat>) {
    var op := Opcode(inst);
    if op == OP_IMM then Rs1(inst) in d
    else if op == OP_REG then Rs1(inst) in d || Rs2(inst) in d
    else op == OP_SYSTEM && CsrNumber(inst) == 0xccd
  }

  /** The registers that depend on the placement after the instruction. */
  function Derived(inst: word, d: set<nat>): set<nat> {
    if !UsesRd(Opcode(inst)) || Rd(inst) == 0 then d
    else if Derives(inst, d) then d + {Rd(inst)} else d - {Rd(inst)}
  }

  /** The instruction would show the placement: in an address, a stored value, a branch or a target. */
  predicate Leaks(inst: word, d: set<nat>) {
    var op := Opcode(inst);
    || ((op == OP_LOAD || op == OP_JALR) && Rs1(inst) in d)
    || ((op == OP_STORE || op == OP_BRANCH) && (Rs1(inst) in d || Rs2(inst) in d))
  }

  /** Two threads at the same place that differ at most in the physical number and in the registers d. */
  predicate Alike(t: Thread, u: Thread, d: set<nat>) {
    && u.pc == t.pc && u.halted == t.halted && u.ids == t.ids.(physical := u.ids.physical)
    && 0 !in d && forall r | 0 <= r < 16 && r !in d :: u.gpr[r] == t.gpr[r]
  }

  lemma CsrAlike(ids: Ids, number: nat, p: word)
    ensures Csr(ids.(physical := p), number).Some? == Csr(ids, number).Some?
    ensures number != 0xccd ==> Csr(ids.(physical := p), number) == Csr(ids, number)
  {
  }

  /** How the two effects of one instruction compare. */
  predicate EffectsAlike(inst: word, d: set<nat>, e: Effect, o: Effect) {
    match (e, o)
    case (Compute(x, next), Compute(y, other)) => next == other && (!Derives(inst, d) ==> x == y)
    case _ => e == o
  }

  lemma DecodeAlike(inst: word, t: Thread, u: Thread, d: set<nat>)
    requires Alike(t, u, d) && !Leaks(inst, d)
    ensures EffectsAlike(inst, d, Decode(inst, t.pc, t.gpr, t.ids), Decode(inst, u.pc, u.gpr, u.ids))
  {
    hide AluImm, AluReg, BranchTaken, Csr, ImmI, ImmS, ImmB, ImmJ, ImmU, JalrTarget, Funct3, Funct7;
    if Opcode(inst) == OP_SYSTEM { CsrAlike(t.ids, CsrNumber(inst), u.ids.physical); }
  }

  lemma RetireAlike(inst: word, t: Thread, u: Thread, d: set<nat>, x: word, y: word, next: word)
    requires Alike(t, u, d) && !BadRegister(inst) && (!Derives(inst, d) ==> x == y)
    ensures Alike(Retire(t, inst, x, next), Retire(u, inst, y, next), Derived(inst, d))
  {
    hide Derives;
  }

  /** A step that does not leak takes both threads alike, to the same memory. */
  lemma StepAlike(m: Mem, t: Thread, u: Thread, d: set<nat>)
    requires Alike(t, u, d) && Step(m, t).Done? && !Leaks(Load32(m, t.pc), d)
    ensures Step(m, u).Done? && Step(m, u).mem == Step(m, t).mem
    ensures Alike(Step(m, t).thread, Step(m, u).thread, Derived(Load32(m, t.pc), d))
  {
    hide Decode, Load32, ScalarLoad, ScalarStore, BadRegister, Derives, Derived, Retire, Leaks;
    var inst := Load32(m, t.pc);
    DecodeAlike(inst, t, u, d);
    DecodeLegal(inst, t.pc, t.gpr, t.ids);
    DecodeLegal(inst, u.pc, u.gpr, u.ids);
    HaltDerives(inst, t, d);
    match Decode(inst, t.pc, t.gpr, t.ids)
    case Halt =>
    case Compute(x, next) =>
      var y := Decode(inst, u.pc, u.gpr, u.ids).value;
      RetireAlike(inst, t, u, d, x, y, next);
    case Jump(next) => RetireAlike(inst, t, u, d, 0, 0, next);
    case LoadFrom(addr, f3) =>
      var x := ScalarLoad(m, addr, f3);
      RetireAlike(inst, t, u, d, x, x, Add(t.pc, 4));
    case StoreTo(addr, f3, data) => RetireAlike(inst, t, u, d, 0, 0, Add(t.pc, 4));
  }

  lemma HaltDerives(inst: word, t: Thread, d: set<nat>)
    ensures Decode(inst, t.pc, t.gpr, t.ids) == Halt ==> Derived(inst, d) == d
  {
    hide AluImm, AluReg, Csr, BranchTaken;
  }

  // ---- Jobs that differ only in placement -------------------------------------------------

  /** The same job with blocks placed as the scalar simulator assumes. */
  function AtScalarHomes(j: Job): (r: Job)
    requires GoodJob(j)
    ensures GoodJob(r) && ScalarHomes(r)
  {
    j.(home := seq(|j.home|, (b: nat) => b % j.shape.cores))
  }

  lemma SeedPlaced(j: Job, k: Tid)
    requires GoodJob(j) && IsThread(j, k)
    ensures IsThread(AtScalarHomes(j), k) && Alike(Seed(j, k), Seed(AtScalarHomes(j), k), {})
  {
  }

  lemma SeedPlacedAt(j: Job, k: Tid)
    requires GoodJob(j)
    ensures k in Seeds(j) <==> IsThread(j, k)
    ensures k in Seeds(AtScalarHomes(j)) <==> IsThread(j, k)
    ensures IsThread(j, k) <==> IsThread(AtScalarHomes(j), k)
    ensures IsThread(j, k) ==> Seeds(j)[k] == Seed(j, k) && Seeds(AtScalarHomes(j))[k] == Seed(AtScalarHomes(j), k)
  {
    hide Seed, GoodJob;
    SeedKeys(j);
    SeedKeys(AtScalarHomes(j));
  }

  /** The registers of thread k that depend on the placement after the schedule. */
  function DerivedAt(j: Job, schedule: seq<Tid>, k: Tid): set<nat>
    requires GoodJob(j)
  {
    if schedule == [] then {}
    else
      var n := |schedule| - 1;
      var d := DerivedAt(j, schedule[..n], k);
      if schedule[n] != k then d
      else
        match Run(MACHINE, Seeded(j), schedule[..n])
        case Some(u) => if k in u.threads then Derived(Load32(u.mem, u.threads[k].pc), d) else d
        case None => d
  }

  /** After the schedule, the next instruction of thread k would show the placement. */
  predicate LeaksAt(j: Job, schedule: seq<Tid>, k: Tid)
    requires GoodJob(j)
  {
    match Run(MACHINE, Seeded(j), schedule)
    case Some(u) => CanStep(MACHINE, u, k) && Leaks(Load32(u.mem, u.threads[k].pc), DerivedAt(j, schedule, k))
    case None => false
  }

  /** In no reachable state an instruction shows the placement. */
  ghost predicate KeepsPlace(j: Job)
    requires GoodJob(j)
  {
    forall schedule: seq<Tid>, k: Tid :: !LeaksAt(j, schedule, k)
  }

  /** The states two placements reach by the same schedule. */
  ghost predicate StatesAlike(j: Job, schedule: seq<Tid>, s: Sys<Tid, Thread>, o: Sys<Tid, Thread>)
    requires GoodJob(j)
  {
    && o.mem == s.mem && o.threads.Keys == s.threads.Keys
    && forall k | k in s.threads :: Alike(s.threads[k], o.threads[k], DerivedAt(j, schedule, k))
  }

  lemma SeedsAlike(j: Job)
    requires GoodJob(j)
    ensures StatesAlike(j, [], Seeded(j), Seeded(AtScalarHomes(j)))
  {
    hide Seed, Seeds, IsThread, GoodJob;
    forall k
      ensures k in Seeds(j) <==> k in Seeds(AtScalarHomes(j))
      ensures k in Seeds(j) ==> Alike(Seeds(j)[k], Seeds(AtScalarHomes(j))[k], {})
    {
      SeedPlacedAt(j, k);
      if IsThread(j, k) { SeedPlaced(j, k); }
    }
  }

  lemma {:induction false} DerivedNext(j: Job, schedule: seq<Tid>, s: Sys<Tid, Thread>, k: Tid, x: Tid)
    requires GoodJob(j) && Run(MACHINE, Seeded(j), schedule) == Some(s) && k in s.threads
    ensures DerivedAt(j, schedule + [k], x) ==
            if x == k then Derived(Load32(s.mem, s.threads[k].pc), DerivedAt(j, schedule, k)) else DerivedAt(j, schedule, x)
  {
    hide Run, Derived, Load32, Seeded, GoodJob;
    assert (schedule + [k])[..|schedule + [k]| - 1] == schedule;
  }

  lemma {:induction false} StatesStep(j: Job, schedule: seq<Tid>, s: Sys<Tid, Thread>, o: Sys<Tid, Thread>, k: Tid)
    requires GoodJob(j) && KeepsPlace(j) && Run(MACHINE, Seeded(j), schedule) == Some(s) && StatesAlike(j, schedule, s, o)
    requires CanStep(MACHINE, s, k)
    ensures CanStep(MACHINE, o, k) && StatesAlike(j, schedule + [k], StepOf(MACHINE, s, k), StepOf(MACHINE, o, k))
  {
    hide Step, Leaks, Alike, Run, Derived, Load32, GoodJob, DerivedAt;
    assert !LeaksAt(j, schedule, k);
    StepAlike(s.mem, s.threads[k], o.threads[k], DerivedAt(j, schedule, k));
    AlikeHalted(s.threads[k], o.threads[k], DerivedAt(j, schedule, k));
    forall x | x in s.threads
      ensures Alike(StepOf(MACHINE, s, k).threads[x], StepOf(MACHINE, o, k).threads[x], DerivedAt(j, schedule + [k], x))
    {
      DerivedNext(j, schedule, s, k, x);
    }
  }

  lemma AlikeHalted(t: Thread, u: Thread, d: set<nat>)
    requires Alike(t, u, d)
    ensures u.halted == t.halted
  {
  }

  /** The same schedule, step for step, under the other placement: the same memory throughout, and
      threads that differ only in what they derived from the placement. */
  lemma {:induction false} RunPlaced(j: Job, schedule: seq<Tid>)
    requires GoodJob(j) && KeepsPlace(j) && Run(MACHINE, Seeded(j), schedule).Some?
    ensures Run(MACHINE, Seeded(AtScalarHomes(j)), schedule).Some?
    ensures StatesAlike(j, schedule, Run(MACHINE, Seeded(j), schedule).value, Run(MACHINE, Seeded(AtScalarHomes(j)), schedule).value)
  {
    hide AtScalarHomes, GoodJob, Seeded, CanStep, StepOf, StatesAlike, KeepsPlace;
    if schedule == [] {
      SeedsAlike(j);
    } else {
      var n := |schedule| - 1;
      RunPlaced(j, schedule[..n]);
      assert schedule[..n] + [schedule[n]] == schedule;
      StatesStep(j, schedule[..n], Run(MACHINE, Seeded(j), schedule[..n]).value,
                 Run(MACHINE, Seeded(AtScalarHomes(j)), schedule[..n]).value, schedule[n]);
    }
  }

  lemma {:induction false} CompletesPlaced(j: Job, schedule: seq<Tid>)
    requires GoodJob(j) && KeepsPlace(j) && Completes(MACHINE, Seeded(j), schedule)
    ensures Completes(MACHINE, Seeded(AtScalarHomes(j)), schedule)
    ensures Run(MACHINE, Seeded(AtScalarHomes(j)), schedule).value.mem == Run(MACHINE, Seeded(j), schedule).value.mem
  {
    hide AtScalarHomes, GoodJob, Seeded, Run, KeepsPlace, Alike, DerivedAt;
    RunPlaced(j, schedule);
    var s, o := Run(MACHINE, Seeded(j), schedule).value, Run(MACHINE, Seeded(AtScalarHomes(j)), schedule).value;
    forall k | k in o.threads ensures o.threads[k].halted {
      AlikeHalted(s.threads[k], o.threads[k], DerivedAt(j, schedule, k));
    }
  }

  // ---- Every run has a placement ----------------------------------------------------------

  lemma StartDispatch(j: Job, g: Gpu)
    requires Started(j, g)
    ensures KmuRel(j, g.kmu, 0)
  {
    hide NoValidWarp, ValidCore, ServesMemory;
    JobSizes(j);
  }

  lemma CycleKmu(s: Shape, g: Gpu)
    requires ValidGpu(s, g) && DividesLaunch(g.kmu.launch)
    ensures Cycle(s, g, IDLE).kmu == KmuStep(g.kmu, IDLE, ReadyFlags(g.cores))
    ensures Fired(g) == Dispatch(g.kmu, ReadyFlags(g.cores)) && (Fired(g).Some? ==> Fired(g).value < s.cores)
  {
    hide ValidCore, ServesMemory, KmuStep, DividesLaunch;
  }

  lemma {:induction false} DispatchCount(j: Job, g: Gpu, n: nat)
    requires Started(j, g) && DividesLaunch(g.kmu.launch)
    ensures KmuRel(j, GpuRun(j.shape, g, n).kmu, |Homes(j.shape, g, n)|)
    ensures forall b | 0 <= b < |Homes(j.shape, g, n)| :: Homes(j.shape, g, n)[b] < j.shape.cores
  {
    hide ValidGpu, DividesLaunch, KmuStep, KmuRel, Cycle, Started, GoodJob, Fired;
    StartedParts(j, g);
    if n == 0 {
      StartDispatch(j, g);
    } else {
      DispatchCount(j, g, n - 1);
      var u := GpuRun(j.shape, g, n - 1);
      CycleKmu(j.shape, u);
      KmuAdvances(j, u.kmu, |Homes(j.shape, g, n - 1)|, ReadyFlags(u.cores));
    }
  }

  /** The job with the placement this run chose; blocks not dispatched are put anywhere. */
  function AsPlaced(j: Job, g: Gpu, n: nat): Job
    requires ValidGpu(j.shape, g) && DividesLaunch(g.kmu.launch)
  {
    var h := Homes(j.shape, g, n);
    j.(home := seq(|j.home|, (b: nat) => if b < |h| then h[b] else 0))
  }

  lemma {:induction false} PlacedJob(j: Job, g: Gpu, n: nat)
    requires Started(j, g) && DividesLaunch(g.kmu.launch) && CleanRun(j, g, n)
    ensures var r := AsPlaced(j, g, n);
            Started(r, g) && CleanRun(r, g, n) && Homes(r.shape, g, n) <= r.home
  {
    hide Homes, GpuRun, Faulty, KeepsToKernel, NoValidWarp, ValidCore, ServesMemory;
    DispatchCount(j, g, n);
    var h := Homes(j.shape, g, n);
    assert h == AsPlaced(j, g, n).home[..|h|];
  }

  /** What a completed device run says about the scalar simulator's threads: the schedule of the device
      is complete for them as well, and ends in the memory of the device. */
  lemma DeviceSchedule(j: Job, g: Gpu, n: nat) returns (schedule: seq<Tid>)
    requires Started(j, g) && DividesLaunch(g.kmu.launch) && CleanRun(j, g, n) && !Busy(GpuRun(j.shape, g, n))
    requires GoodJob(AsPlaced(j, g, n)) && KeepsPlace(AsPlaced(j, g, n))
    ensures GoodJob(j) && Completes(MACHINE, Seeded(AtScalarHomes(j)), schedule)
    ensures Run(MACHINE, Seeded(AtScalarHomes(j)), schedule).value.mem == GpuRun(j.shape, g, n).mem
  {
    hide Run, GpuRun, Busy, CleanRun, Homes, Started, Completes, Seeded, Cycle, KeepsPlace, GoodJob;
    StartedParts(j, g);
    PlacedJob(j, g, n);
    schedule := BusyFallsComplete(AsPlaced(j, g, n), g, n);
    CompletesPlaced(AsPlaced(j, g, n), schedule);
    SameScalarJob(j, g, n);
  }

  /** Wherever the dispatcher placed the blocks: if the kernel keeps its place to itself and is
      race-free, a clean device run to its end and a fault-free scalar run to its end leave the same
      memory. */
  lemma {:induction false} PlacementIrrelevant(j: Job, g: Gpu, n: nat, p: nat)
    requires Started(j, g) && DividesLaunch(g.kmu.launch) && CleanRun(j, g, n) && !Busy(GpuRun(j.shape, g, n))
    requires GoodJob(AsPlaced(j, g, n)) && KeepsPlace(AsPlaced(j, g, n)) && RaceFreeJob(AtScalarHomes(j))
    requires Sound(IssRun(IssStart(j), p)) && IssDone(IssRun(IssStart(j), p))
    ensures IssRun(IssStart(j), p).mem == GpuRun(j.shape, g, n).mem
  {
    hide Run, IssRun, GpuRun, IssDone, Sound, Busy, CleanRun, Homes, Started, Completes, RaceFree, Seeded, Cycle, KeepsPlace,
      GoodJob, LaunchFits, LaunchAccepted, Contexts, IssStart, AtScalarHomes, AsPlaced, RaceFreeJob, ScalarHomes, DividesLaunch;
    StartedParts(j, g);
    var first := DeviceSchedule(j, g, n);
    SameScalarJob(j, g, n);
    ScheduleAgrees(AtScalarHomes(j), first, p);
  }

  /** Moreover the scalar simulator has to complete, after as many instructions as the device executed
      lane by lane, unless its comparison across a warp stops it. */
  lemma PlacementMustAgree(j: Job, g: Gpu, n: nat) returns (schedule: seq<Tid>)
    requires Started(j, g) && DividesLaunch(g.kmu.launch) && CleanRun(j, g, n) && !Busy(GpuRun(j.shape, g, n))
    requires GoodJob(AsPlaced(j, g, n)) && KeepsPlace(AsPlaced(j, g, n)) && RaceFreeJob(AtScalarHomes(j))
    requires forall q: nat :: !ClashNext(IssRun(IssStart(j), q))
    ensures Completes(MACHINE, Seeded(AtScalarHomes(j)), schedule)
    ensures Sound(IssRun(IssStart(j), |schedule|)) && IssDone(IssRun(IssStart(j), |schedule|))
    ensures IssRun(IssStart(j), |schedule|).mem == GpuRun(j.shape, g, n).mem
  {
    hide Run, IssRun, GpuRun, IssDone, Sound, Busy, CleanRun, Homes, Started, Completes, RaceFree, Seeded, Cycle, KeepsPlace,
      GoodJob, LaunchFits, LaunchAccepted, Contexts, ClashNext;
    schedule := DeviceSchedule(j, g, n);
    StartedParts(j, g);
    SameScalarJob(j, g, n);
    SimulatorFollows(AtScalarHomes(j), schedule);
  }

  lemma SameScalarJob(j: Job, g: Gpu, n: nat)
    requires GoodJob(j) && ValidGpu(j.shape, g) && DividesLaunch(g.kmu.launch) && GoodJob(AsPlaced(j, g, n))
    ensures AtScalarHomes(AsPlaced(j, g, n)) == AtScalarHomes(j)
    ensures IssStart(AtScalarHomes(j)) == IssStart(j)
  {
    hide Homes;
    assert AtScalarHomes(AsPlaced(j, g, n)).home == AtScalarHomes(j).home;
  }
}
