/** Where the first blocks of a launch go. Until every core has had a block, the dispatcher hands one
    out in every cycle, to the cores in order from its pointer on; so a grid of at most one block a core
    is placed as the scalar simulator assumes exactly when the pointer stands at the first core. */
module DispatchOrder {
  import opened Word
  import opened Arith
  import opened Memory
  import opened Isa
  import opened Interleaving
  import opened Scalar
  import opened RoundRobin
  import opened SimtCore
  import opened CoreRefinement
  import opened Kmu
  import opened StoreOrder
  import opened Device
  import opened DeviceRefinement
  import opened DeviceRuns
  import opened Iss
  import opened EndToEnd

  /** The core has nothing to do and waits in SCHED, as after reset and after every finished CTA. */
  predicate Resting(c: Core) { !c.active && c.state.Sched? }

  /** A launch from rest, with the dispatcher's pointer at an existing core. */
  ghost predicate StartedAtRest(j: Job, g: Gpu) {
    Started(j, g) && g.kmu.rr < j.shape.cores && forall i | 0 <= i < |g.cores| :: Resting(g.cores[i])
  }

  /** The cores from offset n on have had no block. */
  ghost predicate RestFrom(s: Shape, rr: nat, n: nat, cores: seq<Core>)
    requires s.cores >= 1 && |cores| == s.cores
  {
    forall d | n <= d < s.cores :: Resting(cores[At(s.cores, rr, d)])
  }

  /** What the first n cycles leave: n blocks out, one to each core from the pointer on. */
  ghost predicate Filling(j: Job, g: Gpu, n: nat)
    requires ValidGpu(j.shape, g) && DividesLaunch(g.kmu.launch)
  {
    var u := GpuRun(j.shape, g, n);
    && Homes(j.shape, g, n) == seq(n, (b: nat) => At(j.shape.cores, g.kmu.rr, b))
    && u.kmu.rr == At(j.shape.cores, g.kmu.rr, n)
    && KmuRel(j, u.kmu, n) && RestFrom(j.shape, g.kmu.rr, n, u.cores)
  }

  lemma {:induction false} ScanAtOnce(flags: seq<bool>, rr: nat)
    requires rr < |flags| && flags[rr]
    ensures Scan(flags, rr, 0) == Some(rr)
  {
    assert At(|flags|, rr, 0) == rr;
    assert FlagAt(flags, rr, 0);
  }

  /** Different offsets below the number of entries are different entries. */
  lemma OffsetsDiffer(n: nat, rr: nat, i: nat, k: nat)
    requires rr < n && i < k < n
    ensures At(n, rr, i) != At(n, rr, k)
  {
    if rr + i < n {
      QuotientUnique(rr + i, n, 0, rr + i);
    } else {
      QuotientUnique(rr + i, n, 1, rr + i - n);
    }
    if rr + k < n {
      QuotientUnique(rr + k, n, 0, rr + k);
    } else {
      QuotientUnique(rr + k, n, 1, rr + k - n);
    }
  }

  lemma SuccessorAt(n: nat, rr: nat, k: nat)
    requires n >= 1
    ensures Successor(At(n, rr, k), n) == At(n, rr, k + 1)
  {
    hide At;
    AtNext(n, rr, k);
    SuccessorMod(n, At(n, rr, k));
  }

  lemma SuccessorMod(n: nat, x: nat)
    requires x < n
    ensures Successor(x, n) == (x + 1) % n
  {
    if x == n - 1 {
      QuotientUnique(x + 1, n, 1, 0);
    } else {
      QuotientUnique(x + 1, n, 0, x + 1);
    }
  }

  /** The dispatcher fires to the core under its pointer. */
  lemma FiresUnderPointer(s: Shape, g: Gpu)
    requires ValidGpu(s, g) && g.kmu.running && g.kmu.rr < s.cores && Resting(g.cores[g.kmu.rr])
    ensures Fired(g) == Some(g.kmu.rr)
  {
    hide ValidCore, ServesMemory, Scan;
    ScanAtOnce(ReadyFlags(g.cores), g.kmu.rr);
  }

  /** A resting core that gets no block rests on. */
  lemma RestsOn(s: Shape, g: Gpu, i: nat)
    requires ValidGpu(s, g) && DividesLaunch(g.kmu.launch) && i < s.cores && Resting(g.cores[i]) && Fired(g) != Some(i)
    ensures Resting(Cycle(s, g, IDLE).cores[i])
  {
    hide ValidCore, ServesMemory, CoreStep, Sort, Pending, ApplyStores, KmuStep, AnyReadFails, AnyStoreFails, AnyPackFails,
      AcceptCta, DividesLaunch, Dispatch;
    IdleStays(s, i, g.cores[i], g.mem);
  }

  lemma WalkKeepsPointer(k: Kmu)
    ensures Walk(k).rr == k.rr
  {
  }

  lemma PointerMoves(s: Shape, g: Gpu)
    requires ValidGpu(s, g) && DividesLaunch(g.kmu.launch)
    ensures Cycle(s, g, IDLE).kmu == KmuStep(g.kmu, IDLE, ReadyFlags(g.cores))
    ensures Cycle(s, g, IDLE).kmu.rr ==
            match Fired(g)
            case Some(i) => Successor(i, s.cores)
            case None => g.kmu.rr
    ensures Fired(g).Some? ==> Fired(g).value < s.cores
  {
    hide ValidCore, ServesMemory, NextCores, Sort, Pending, ApplyStores, AnyReadFails, AnyStoreFails, AnyPackFails, DividesLaunch,
      Walk, Scan;
    if Fired(g).Some? { WalkKeepsPointer(g.kmu.(rr := Successor(Fired(g).value, s.cores))); }
  }

  lemma FillStart(j: Job, g: Gpu)
    requires StartedAtRest(j, g) && DividesLaunch(g.kmu.launch)
    ensures Filling(j, g, 0)
  {
    hide NoValidWarp, ValidCore, ServesMemory, DividesLaunch;
    JobSizes(j);
    QuotientUnique(g.kmu.rr, j.shape.cores, 0, g.kmu.rr);
  }

  lemma FillNext(j: Job, g: Gpu, n: nat)
    requires StartedAtRest(j, g) && DividesLaunch(g.kmu.launch) && Filling(j, g, n)
    requires n < j.shape.cores && n < Blocks(j.launch.grid)
    ensures Filling(j, g, n + 1)
  {
    hide NoValidWarp, ValidCore, ServesMemory, Cycle, DividesLaunch, KmuStep, Dispatch, Blocks, Pos, Resting, At, Fired;
    var s, u := j.shape, GpuRun(j.shape, g, n);
    var k := At(s.cores, g.kmu.rr, n);
    assert Resting(u.cores[k]);
    FiresUnderPointer(s, u);
    PointerMoves(s, u);
    SuccessorAt(s.cores, g.kmu.rr, n);
    KmuAdvances(j, u.kmu, n, ReadyFlags(u.cores));
    FiredIsDispatch(u);
    var after := GpuRun(s, g, n + 1);
    forall d | n + 1 <= d < s.cores ensures Resting(after.cores[At(s.cores, g.kmu.rr, d)]) {
      OffsetsDiffer(s.cores, g.kmu.rr, n, d);
      RestsOn(s, u, At(s.cores, g.kmu.rr, d));
    }
    assert Homes(s, g, n + 1) == Homes(s, g, n) + [k];
  }

  lemma FiredIsDispatch(g: Gpu)
    ensures Fired(g) == Dispatch(g.kmu, ReadyFlags(g.cores))
  {
  }

  lemma {:induction false} Fills(j: Job, g: Gpu, n: nat)
    requires StartedAtRest(j, g) && DividesLaunch(g.kmu.launch) && n <= j.shape.cores && n <= Blocks(j.launch.grid)
    ensures Filling(j, g, n)
  {
    hide StartedAtRest, Filling, DividesLaunch, Blocks;
    AtRest(j, g);
    if n == 0 {
      FillStart(j, g);
    } else {
      Fills(j, g, n - 1);
      FillNext(j, g, n - 1);
    }
  }

  lemma AtRest(j: Job, g: Gpu)
    requires StartedAtRest(j, g)
    ensures Started(j, g) && GoodJob(j) && ValidGpu(j.shape, g) && g.kmu.rr < j.shape.cores && g.kmu.launch == j.launch
  {
  }

  /** Blocks already handed out stay where they are. */
  lemma {:induction false} HomesGrow(s: Shape, g: Gpu, n: nat, m: nat)
    requires ValidGpu(s, g) && DividesLaunch(g.kmu.launch) && n <= m
    ensures Homes(s, g, n) <= Homes(s, g, m)
  {
    hide ValidGpu, DividesLaunch, Fired, Cycle;
    if n < m { HomesGrow(s, g, n, m - 1); }
  }

  lemma {:induction false} HomesAtMost(s: Shape, g: Gpu, n: nat)
    requires ValidGpu(s, g) && DividesLaunch(g.kmu.launch)
    ensures |Homes(s, g, n)| <= n
  {
    hide ValidGpu, DividesLaunch, Fired, Cycle;
    if n > 0 { HomesAtMost(s, g, n - 1); }
  }

  /** Block b, if it is among the first as many as there are cores, runs on the core b places from the
      pointer, however the run goes on. */
  lemma {:induction false} FirstBlocks(j: Job, g: Gpu, n: nat, b: nat)
    requires StartedAtRest(j, g) && DividesLaunch(g.kmu.launch) && b < |Homes(j.shape, g, n)| && b < j.shape.cores
    requires b < Blocks(j.launch.grid)
    ensures Homes(j.shape, g, n)[b] == At(j.shape.cores, g.kmu.rr, b)
  {
    hide StartedAtRest, DividesLaunch, GpuRun, Homes, At, Blocks;
    AtRest(j, g);
    HomesAtMost(j.shape, g, n);
    Fills(j, g, b + 1);
    HomesGrow(j.shape, g, b + 1, n);
    assert Homes(j.shape, g, b + 1)[b] == At(j.shape.cores, g.kmu.rr, b);
  }

  /** The scalar simulator assumes the right cores for a grid of at most one block a core exactly when
      the dispatcher's pointer starts at the first core. */
  lemma SmallGridHomes(j: Job, g: Gpu, n: nat)
    requires DeviceCompletes(j, g, n) && StartedAtRest(j, g) && Blocks(j.launch.grid) <= j.shape.cores
    ensures ScalarHomes(j) <==> g.kmu.rr == 0
  {
    hide Started, StartedAtRest, DividesLaunch, GpuRun, Homes, CleanRun, Busy, Blocks, NoValidWarp, Run, Completes;
    AtRest(j, g);
    JobSizes(j);
    var schedule := BusyFallsComplete(j, g, n);
    forall b | 0 <= b < |j.home| ensures j.home[b] == At(j.shape.cores, g.kmu.rr, b) {
      FirstBlocks(j, g, n, b);
    }
    QuotientUnique(g.kmu.rr, j.shape.cores, 0, g.kmu.rr);
    assert j.home[0] == g.kmu.rr;
    assert 0 % j.shape.cores == 0;
  }

  // ---- The next launch --------------------------------------------------------------------

  const PULSE := Inputs(false, 0, 0, true)

  /** Nothing runs: the dispatcher stands still, and every core rests without fault or valid warp. */
  ghost predicate AtRestNow(s: Shape, g: Gpu) {
    && ValidGpu(s, g) && !g.kmu.running && g.kmu.rr < s.cores
    && forall i | 0 <= i < |g.cores| :: Resting(g.cores[i]) && !g.cores[i].fault && NoValidWarp(g.cores[i])
  }

  lemma {:induction false} NothingPending(s: Shape, cores: seq<Core>)
    requires forall i | 0 <= i < |cores| :: ValidCore(s, cores[i]) && Resting(cores[i])
    ensures Pending(s, cores) == []
  {
    hide ValidCore;
    if cores != [] { NothingPending(s, cores[..|cores| - 1]); }
  }

  /** The launch pulse on a device at rest starts the job its registers describe, and leaves the
      dispatcher's pointer where it stands. */
  lemma LaunchPulse(j: Job, g: Gpu)
    requires GoodJob(j) && AtRestNow(j.shape, g) && g.kmu.launch == j.launch && g.mem == j.image
    ensures Fired(g) == None
    ensures StartedAtRest(j, Cycle(j.shape, g, PULSE)) && Cycle(j.shape, g, PULSE).kmu.rr == g.kmu.rr
  {
    hide NoValidWarp, ValidCore, ServesMemory, GoodJob;
    NothingPending(j.shape, g.cores);
    PulseLaunches(j);
    forall i | 0 <= i < j.shape.cores ensures NextCore(j.shape, g, None, i) == g.cores[i] {
      IdleStays(j.shape, i, g.cores[i], g.mem);
    }
    assert NextCores(j.shape, g, None) == g.cores;
    assert Sort(Firsts([])) == [] && ApplyStores(g.mem, []) == g.mem;
  }

  lemma PulseLaunches(j: Job)
    requires GoodJob(j)
    ensures j.launch.bsize != 0 && NonEmpty(j.launch.grid) && Blocks(j.launch.grid) <= WORD_SPAN
  {
    JobSizes(j);
  }

  /** A core that becomes idle without a fault waits in SCHED. */
  lemma IdleWaits(s: Shape, cid: nat, c: Core, m: Mem)
    requires ValidCore(s, c) && ServesMemory(c) && (!c.active ==> c.state.Sched?)
    ensures var o := CoreStep(s, cid, c, m); !o.active ==> o.state.Sched?
  {
    hide ComputeLane, CoreLoad, CommonNext, AllLegal, Diverges, LaneResult, TakenLanes, MemoryAddress, WriteBack, LegalBranch,
      BadRegister, Load32, ValidWarp;
  }

  ghost predicate IdleInSched(g: Gpu) { forall i | 0 <= i < |g.cores| :: !g.cores[i].active ==> g.cores[i].state.Sched? }

  lemma CycleIdles(s: Shape, g: Gpu)
    requires ValidGpu(s, g) && DividesLaunch(g.kmu.launch) && IdleInSched(g)
    ensures IdleInSched(Cycle(s, g, IDLE))
  {
    hide ValidCore, ServesMemory, CoreStep, Sort, Pending, ApplyStores, KmuStep, AnyReadFails, AnyStoreFails, AnyPackFails,
      DividesLaunch, Fired;
    forall i | 0 <= i < s.cores ensures !NextCore(s, g, Fired(g), i).active ==> NextCore(s, g, Fired(g), i).state.Sched? {
      IdleWaits(s, i, g.cores[i], g.mem);
    }
  }

  lemma {:induction false} RunIdles(s: Shape, g: Gpu, n: nat)
    requires ValidGpu(s, g) && DividesLaunch(g.kmu.launch) && IdleInSched(g)
    ensures IdleInSched(GpuRun(s, g, n))
  {
    hide ValidGpu, DividesLaunch, Cycle, IdleInSched;
    if n > 0 {
      RunIdles(s, g, n - 1);
      CycleIdles(s, GpuRun(s, g, n - 1));
    }
  }

  lemma {:induction false} PointerInside(s: Shape, g: Gpu, n: nat)
    requires ValidGpu(s, g) && DividesLaunch(g.kmu.launch) && g.kmu.rr < s.cores
    ensures GpuRun(s, g, n).kmu.rr < s.cores
  {
    hide ValidGpu, DividesLaunch, Cycle;
    if n > 0 {
      PointerInside(s, g, n - 1);
      PointerMoves(s, GpuRun(s, g, n - 1));
    }
  }

  /** A device that completes a launch is at rest again. */
  lemma {:induction false} CompletesAtRest(j: Job, g: Gpu, n: nat)
    requires DeviceCompletes(j, g, n) && StartedAtRest(j, g)
    ensures AtRestNow(j.shape, GpuRun(j.shape, g, n))
  {
    hide Started, DividesLaunch, GpuRun, Homes, Cycle, Blocks, NoValidWarp, Run, Completes, ValidCore, ServesMemory;
    AtRest(j, g);
    RunIdles(j.shape, g, n);
    PointerInside(j.shape, g, n);
    var schedule := BusyFallsComplete(j, g, n);
    assert !Faulty(GpuRun(j.shape, g, n));
  }

  /** The device after a completed launch and the pulse of the next one, which the registers describe. */
  function Relaunched(j: Job, g: Gpu, n: nat): Gpu
    requires ValidGpu(j.shape, g) && DividesLaunch(g.kmu.launch)
  {
    Cycle(j.shape, GpuRun(j.shape, g, n), PULSE)
  }

  /** The next job: the same launch on the memory the last one left, its blocks where they will run. */
  function NextJob(j: Job, m: Mem, home: seq<nat>): Job { j.(image := m, home := home) }

  /** Launching the same small grid twice: when the device completes the second launch as well, its
      blocks ran where the scalar simulator assumes exactly when the first had given every core a block. */
  lemma {:induction false} SecondLaunchHomes(j: Job, g: Gpu, n: nat, home: seq<nat>, p: nat)
    requires DeviceCompletes(j, g, n) && StartedAtRest(j, g) && g.kmu.rr == 0 && Blocks(j.launch.grid) <= j.shape.cores
    requires DeviceCompletes(NextJob(j, GpuRun(j.shape, g, n).mem, home), Relaunched(j, g, n), p)
    ensures StartedAtRest(NextJob(j, GpuRun(j.shape, g, n).mem, home), Relaunched(j, g, n))
    ensures ScalarHomes(NextJob(j, GpuRun(j.shape, g, n).mem, home)) <==> Blocks(j.launch.grid) == j.shape.cores
  {
    hide Started, StartedAtRest, DividesLaunch, GpuRun, Homes, CleanRun, Busy, Blocks, NoValidWarp, Cycle, ScalarHomes, AtRestNow,
      GoodJob;
    AtRest(j, g);
    var next := NextJob(j, GpuRun(j.shape, g, n).mem, home);
    StartedParts(next, Relaunched(j, g, n));
    RunKeepsLaunch(j.shape, g, n);
    CompletesAtRest(j, g, n);
    PointerAfter(j, g, n);
    LaunchPulse(next, GpuRun(j.shape, g, n));
    SmallGridHomes(next, Relaunched(j, g, n), p);
  }

  lemma {:induction false} RunKeepsLaunch(s: Shape, g: Gpu, n: nat)
    requires ValidGpu(s, g) && DividesLaunch(g.kmu.launch)
    ensures ValidGpu(s, GpuRun(s, g, n)) && GpuRun(s, g, n).kmu.launch == g.kmu.launch
  {
  }

  lemma {:induction false} PointerRests(j: Job, g: Gpu, n: nat, m: nat)
    requires Started(j, g) && DividesLaunch(g.kmu.launch) && n <= m && KmuRel(j, GpuRun(j.shape, g, n).kmu, Blocks(j.launch.grid))
    ensures GpuRun(j.shape, g, m).kmu == GpuRun(j.shape, g, n).kmu
  {
    hide Started, DividesLaunch, Cycle, Blocks, Pos, Scan;
    StartedParts(j, g);
    if n < m {
      PointerRests(j, g, n, m - 1);
      PointerMoves(j.shape, GpuRun(j.shape, g, m - 1));
    }
  }

  /** A grid of at most one block a core moves the pointer on by as many cores, and nothing moves it
      back before the next launch: that one again starts at the first core exactly when this one gave
      every core a block. */
  lemma {:induction false} PointerAfter(j: Job, g: Gpu, n: nat)
    requires DeviceCompletes(j, g, n) && StartedAtRest(j, g) && Blocks(j.launch.grid) <= j.shape.cores
    ensures GpuRun(j.shape, g, n).kmu.rr == At(j.shape.cores, g.kmu.rr, Blocks(j.launch.grid))
    ensures g.kmu.rr == 0 ==> (GpuRun(j.shape, g, n).kmu.rr == 0 <==> Blocks(j.launch.grid) == j.shape.cores)
  {
    hide Started, StartedAtRest, DividesLaunch, GpuRun, Homes, CleanRun, Busy, Blocks, NoValidWarp, Run, Completes, KmuRel;
    AtRest(j, g);
    JobSizes(j);
    var blocks := Blocks(j.launch.grid);
    var schedule := BusyFallsComplete(j, g, n);
    HomesAtMost(j.shape, g, n);
    Fills(j, g, blocks);
    PointerRests(j, g, blocks, n);
    if blocks < j.shape.cores {
      QuotientUnique(blocks, j.shape.cores, 0, blocks);
    } else {
      QuotientUnique(blocks, j.shape.cores, 1, 0);
    }
  }

  // ---- Agreement without an assumption on the placement -----------------------------------

  /** A race-free launch of at most one block a core, from rest with the pointer at the first core: when
      the device completes it, the scalar simulator completes it too and leaves the same memory. */
  lemma SmallGridsAgree(j: Job, g: Gpu, n: nat) returns (schedule: seq<Tid>)
    requires DeviceCompletes(j, g, n) && StartedAtRest(j, g) && g.kmu.rr == 0
    requires Blocks(j.launch.grid) <= j.shape.cores && RaceFreeJob(j)
    requires forall q: nat :: !ClashNext(IssRun(IssStart(j), q))
    ensures Completes(MACHINE, Seeded(j), schedule)
    ensures Sound(IssRun(IssStart(j), |schedule|)) && IssDone(IssRun(IssStart(j), |schedule|))
    ensures IssRun(IssStart(j), |schedule|).mem == GpuRun(j.shape, g, n).mem
  {
    hide Run, IssRun, GpuRun, IssDone, Sound, Busy, CleanRun, Homes, Started, Completes, RaceFree, Seeded, IssStart, Cycle, ClashNext,
      ScalarHomes, Blocks, StartedAtRest, DeviceCompletes;
    SmallGridHomes(j, g, n);
    schedule := SimulatorMustAgree(j, g, n);
  }
}
