/** The smallest launch on two cores: one block of one thread, and a kernel that is just `ebreak`. From
    any state at rest it completes in five cycles, so the hypotheses of the device theorems can be met;
    launched a second time it runs on the other core, where the scalar simulator does not expect it. */
module SmallestLaunch {
  import opened Word
  import opened Memory
  import opened Isa
  import opened Interleaving
  import opened Scalar
  import opened RoundRobin
  import opened SimtCore
  import opened CoreRefinement
  import opened Kmu
  import opened StoreOrder
  import opened Device
  import opened DeviceRefinement
  import opened DeviceRuns
  import opened EndToEnd
  import opened DispatchOrder

  const SHAPE := Shape(2, 1, 1)
  const ONE := Dim3(1, 1, 1)
  const FIRST := Dim3(0, 0, 0)
  const TEXT: set<int> := {KERNEL_BASE, KERNEL_BASE + 1, KERNEL_BASE + 2, KERNEL_BASE + 3}
  const LAUNCH := Launch(KERNEL_BASE, 0, ONE, ONE, 1)

  /** Memory up to the kernel, and the kernel: the bytes of `ebreak`. */
  function Image(): Mem {
    seq(KERNEL_BASE - MBASE, (_: nat) => 0) + [0x73, 0, 0x10, 0]
  }

  /** The job with its block on core p. */
  function JobAt(p: nat): Job { Job(SHAPE, LAUNCH, Image(), TEXT, [p]) }

  lemma {:induction false} JobGood(p: nat)
    requires p < 2
    ensures GoodJob(JobAt(p)) && DividesLaunch(LAUNCH)
  {
  }

  lemma {:induction false} FetchBreak()
    ensures Span(Image(), KERNEL_BASE, 4) && Load32(Image(), KERNEL_BASE) == EBREAK
  {
    var m, a := Image(), KERNEL_BASE;
    assert ReadBytes(m, a + 4, 0) == 0;
    assert ReadBytes(m, a + 3, 1) == 0;
    assert ReadBytes(m, a + 2, 2) == 0x10;
    assert ReadBytes(m, a + 1, 3) == 0x1000;
    assert ReadBytes(m, a, 4) == EBREAK;
  }

  // ---- The core that gets the block -------------------------------------------------------

  ghost predicate Free(c: Core) {
    ValidCore(SHAPE, c) && ServesMemory(c) && Resting(c) && !c.fault && NoValidWarp(c)
  }

  /** Core c after the dispatch and k of its cycles. */
  function Stage(c: Core, k: nat): Core {
    var accepted := AcceptCta(SHAPE, c, LAUNCH, FIRST);
    var w := accepted.warps[0];
    var fetching := accepted.(iw := 0, im := w.mask, ip := KERNEL_BASE, state := Fetch);
    var executing := fetching.(inst := EBREAK, state := Exec);
    var done := executing.(warps := [w.(valid := false)], state := Sched);
    if k == 0 then accepted else if k == 1 then fetching else if k == 2 then executing else if k == 3 then done
    else done.(active := false)
  }

  lemma {:induction false} FreshMask()
    ensures InitialMask(SHAPE, 1, 0) == {0}
  {
    assert InBlock(SHAPE, 1, 0, 0);
  }

  lemma {:induction false} StageValid(c: Core, k: nat)
    requires ValidCore(SHAPE, c)
    ensures ValidCore(SHAPE, Stage(c, k)) && ServesMemory(Stage(c, k)) && !Stage(c, k).fault && Stage(c, k).warps[0].stack == []
    ensures |Stage(c, k).warps| == 1 && Stage(c, k).warps[0].valid == (k <= 2) && Stage(c, k).active == (k <= 3)
    ensures Stage(c, k).warps[0].mask == {0} && Stage(c, k).warps[0].pc == KERNEL_BASE
    ensures Stage(c, k).state == if k == 1 then Fetch else if k == 2 then Exec else Sched
    ensures Stage(c, k).rr == 0 && Stage(c, k).iw == 0
    ensures k == 1 || k == 2 ==> Stage(c, k).im == {0} && Stage(c, k).ip == KERNEL_BASE
    ensures k == 2 ==> Stage(c, k).inst == EBREAK
  {
    FreshMask();
  }

  lemma {:induction false} StageStep(c: Core, i: nat, k: nat)
    requires ValidCore(SHAPE, c) && k <= 3
    ensures ValidCore(SHAPE, Stage(c, k)) && ServesMemory(Stage(c, k))
    ensures CoreStep(SHAPE, i, Stage(c, k), Image()) == Stage(c, k + 1)
    ensures CoreClean(TEXT, SHAPE, Stage(c, k), Image()) && PendingStore(SHAPE, Stage(c, k)) == None
  {
    hide Load32, Image, AcceptCta, LegalShift;
    StageValid(c, k);
    var d := Stage(c, k);
    FetchBreak();
    EbreakShift();
    if k == 0 {
      ScanAtOnce(ValidFlags(d.warps), 0);
    } else if k == 3 {
      ScanNone(ValidFlags(d.warps), 0, 0);
    } else if k == 2 {
      BreakStage(c);
    }
  }

  lemma {:induction false} EbreakShift()
    ensures LegalShift(EBREAK) && !BadRegister(EBREAK) && Opcode(EBREAK) == OP_SYSTEM
  {
  }

  lemma {:induction false} BreakStage(c: Core)
    requires ValidCore(SHAPE, c)
    ensures ValidCore(SHAPE, Stage(c, 2)) && BreakStep(SHAPE, Stage(c, 2)) == Stage(c, 3)
  {
    StageValid(c, 2);
    assert Stage(c, 2).warps[0 := Stage(c, 3).warps[0]] == Stage(c, 3).warps;
  }

  // ---- The device -------------------------------------------------------------------------

  /** Right after the launch pulse, the pointer at core p. */
  ghost predicate Begins(g: Gpu, p: nat) {
    && p < 2 && g.kmu == Kmu(LAUNCH, g.kmu.argsSize, FIRST, true, p) && |g.cores| == 2 && g.mem == Image()
    && Free(g.cores[0]) && Free(g.cores[1])
  }

  /** The device k cycles after the dispatch. */
  function Later(g: Gpu, p: nat, k: nat): Gpu
    requires |g.cores| == 2 && p < 2
  {
    Gpu(Kmu(LAUNCH, g.kmu.argsSize, FIRST, false, 1 - p), g.cores[p := Stage(g.cores[p], k)], Image(), g.failed)
  }

  lemma {:induction false} BeginsStarted(g: Gpu, p: nat)
    requires Begins(g, p)
    ensures StartedAtRest(JobAt(p), g)
  {
    hide NoValidWarp;
    JobGood(p);
  }

  /** A cycle in which neither core drives a transaction. */
  lemma {:induction false} NoTransactions(s: Shape, cores: seq<Core>, m: Mem)
    requires |cores| == 2 && ValidCore(s, cores[0]) && ValidCore(s, cores[1])
    requires PendingStore(s, cores[0]) == None && PendingStore(s, cores[1]) == None
    ensures Sort(Firsts(Pending(s, cores))) == [] && !AnyStoreFails(m, []) && ApplyStores(m, []) == m
  {
    hide PendingStore, ValidCore;
    assert cores[..1][..0] == [] && cores[..1][0] == cores[0];
    assert Pending(s, cores[..1][..0]) == [];
    assert Pending(s, cores[..1]) == [];
    assert Pending(s, cores) == [];
  }

  lemma {:induction false} FreeCore(c: Core, i: nat)
    requires Free(c)
    ensures PendingStore(SHAPE, c) == None && CoreStep(SHAPE, i, c, Image()) == c && CoreClean(TEXT, SHAPE, c, Image())
    ensures !ReadFails(SHAPE, c, Image()) && !PackFails(SHAPE, c, Image())
  {
    hide Image;
  }

  lemma {:induction false} Dispatches(g: Gpu, p: nat)
    requires Begins(g, p)
    ensures ValidGpu(SHAPE, g) && Fired(g) == Some(p) && Cycle(SHAPE, g, IDLE) == Later(g, p, 0)
    ensures !Faulty(g) && KeepsToKernel(TEXT, SHAPE, g) && DividesLaunch(LAUNCH)
  {
    hide Image, AcceptCta, CoreStep, CoreClean, PendingStore, ReadFails, PackFails, ValidCore, ServesMemory, NoValidWarp;
    JobGood(p);
    ScanAtOnce(ReadyFlags(g.cores), p);
    FreeCore(g.cores[0], 0);
    FreeCore(g.cores[1], 1);
    NoTransactions(SHAPE, g.cores, Image());
    StageValid(g.cores[p], 0);
    StagePacks(g.cores[p], 0);
    assert NextCores(SHAPE, g, Some(p)) == Later(g, p, 0).cores;
  }

  lemma {:induction false} StagePacks(c: Core, k: nat)
    requires ValidCore(SHAPE, c)
    ensures ValidCore(SHAPE, Stage(c, k)) && !PackFails(SHAPE, Stage(c, k), Image()) && !ReadFails(SHAPE, Stage(c, k), Image())
  {
    hide Image, Stage;
    StageValid(c, k);
    FetchBreak();
  }

  lemma {:induction false} NextStage(g: Gpu, p: nat, k: nat)
    requires Begins(g, p) && k <= 3
    ensures ValidGpu(SHAPE, Later(g, p, k)) && Fired(Later(g, p, k)) == None
    ensures Cycle(SHAPE, Later(g, p, k), IDLE) == Later(g, p, k + 1)
    ensures !Faulty(Later(g, p, k)) && KeepsToKernel(TEXT, SHAPE, Later(g, p, k))
  {
    hide Image, AcceptCta, Stage, CoreStep, CoreClean, PendingStore, ReadFails, PackFails, ValidCore, ServesMemory, NoValidWarp;
    var c, u := g.cores[p], Later(g, p, k);
    StageStep(c, p, k);
    StageValid(c, k);
    StageValid(c, k + 1);
    StagePacks(c, k);
    StagePacks(c, k + 1);
    FreeCore(g.cores[0], 0);
    FreeCore(g.cores[1], 1);
    NoTransactions(SHAPE, u.cores, Image());
    assert NextCores(SHAPE, u, None) == Later(g, p, k + 1).cores;
  }

  lemma {:induction false} AtTheEnd(g: Gpu, p: nat)
    requires Begins(g, p)
    ensures ValidGpu(SHAPE, Later(g, p, 4)) && !Faulty(Later(g, p, 4)) && !Busy(Later(g, p, 4))
  {
    hide Stage, Image, ValidCore, ServesMemory, NoValidWarp;
    StageValid(g.cores[p], 4);
  }

  lemma {:induction false} RunStages(g: Gpu, p: nat, n: nat)
    requires Begins(g, p) && n <= 5
    ensures ValidGpu(SHAPE, g) && DividesLaunch(LAUNCH) && DividesLaunch(g.kmu.launch)
    ensures GpuRun(SHAPE, g, n) == if n == 0 then g else Later(g, p, n - 1)
    ensures Homes(SHAPE, g, n) == if n == 0 then [] else [p]
    ensures CleanRun(JobAt(p), g, n)
  {
    hide Cycle, Fired, Stage, Image, KeepsToKernel, Faulty, ValidGpu, Free;
    Dispatches(g, p);
    if n > 0 {
      RunStages(g, p, n - 1);
      if n >= 2 { NextStage(g, p, n - 2); }
      AtTheEnd(g, p);
      if n <= 4 { NextStage(g, p, n - 1); }
    }
  }

  /** From the launch pulse on the device completes the job in five cycles, wherever the pointer stood;
      and the job is race-free. */
  lemma {:induction false} Completes(g: Gpu, p: nat)
    requires Begins(g, p)
    ensures DeviceCompletes(JobAt(p), g, 5) && StartedAtRest(JobAt(p), g) && RaceFreeJob(JobAt(p))
    ensures ScalarHomes(JobAt(p)) <==> p == 0
  {
    hide Stage, Image, Seed, GpuRun, CleanRun, Busy, Homes, Free, NoValidWarp;
    RunStages(g, p, 5);
    AtTheEnd(g, p);
    BeginsStarted(g, p);
    SeedsComplete(JobAt(p));
    assert 0 % SHAPE.cores == 0;
  }

  // ---- Two launches in a row --------------------------------------------------------------

  function IdleCore(): Core {
    Core(Sched, false, false, 0, 0, {}, 0, 0, 0, Cta(FIRST, ONE, ONE, 0),
         [Warp(0, {}, false, [], [Lane(ZERO_REGISTERS, FIRST, 0)])])
  }

  /** After reset and the first launch pulse. */
  function Begin(): Gpu { Gpu(Kmu(LAUNCH, 0, FIRST, true, 0), [IdleCore(), IdleCore()], Image(), false) }

  lemma {:induction false} BeginBegins()
    ensures Begins(Begin(), 0)
  {
    hide Image;
  }

  lemma {:induction false} PulseBegins(g: Gpu)
    requires AtRestNow(SHAPE, g) && g.kmu.launch == LAUNCH && g.kmu.rr == 1 && g.mem == Image()
    ensures Fired(g) == None && Begins(Cycle(SHAPE, g, PULSE), 1)
  {
    hide Image, ValidCore, ServesMemory, NoValidWarp, Cycle, AtRestNow;
    JobGood(1);
    LaunchPulse(JobAt(1), g);
    PulsedKmu(g);
  }

  lemma {:induction false} PulsedKmu(g: Gpu)
    requires AtRestNow(SHAPE, g) && g.kmu.launch == LAUNCH && Fired(g) == None
    ensures var k := Cycle(SHAPE, g, PULSE).kmu; k == Kmu(LAUNCH, k.argsSize, FIRST, true, g.kmu.rr)
  {
    hide ValidCore, ServesMemory, NoValidWarp, NextCores, Sort, Pending, ApplyStores, AnyReadFails, AnyStoreFails, AnyPackFails;
  }

  /** The same launch twice in a row. The device completes both; the first ran where the scalar simulator
      assumes, the second did not. */
  lemma {:induction false} TwoLaunches()
    ensures DeviceCompletes(JobAt(0), Begin(), 5) && ScalarHomes(JobAt(0))
    ensures var again := Relaunched(JobAt(0), Begin(), 5);
            DeviceCompletes(JobAt(1), again, 5) && !ScalarHomes(JobAt(1)) && RaceFreeJob(JobAt(1))
  {
    hide Image, Cycle, Stage, DeviceCompletes, StartedAtRest, ScalarHomes, AtRestNow, RaceFreeJob, GpuRun, Homes;
    BeginBegins();
    Completes(Begin(), 0);
    RunStages(Begin(), 0, 5);
    CompletesAtRest(JobAt(0), Begin(), 5);
    PulseBegins(GpuRun(SHAPE, Begin(), 5));
    Completes(Relaunched(JobAt(0), Begin(), 5), 1);
  }
}
