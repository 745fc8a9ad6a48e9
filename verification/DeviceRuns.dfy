/** From one clean cycle to whole clean runs: the stores of a cycle, the dispatch, and the schedule
    of scalar steps a run amounts to. */
module DeviceRuns {
  import opened Word
  import opened Arith
  import opened Memory
  import opened Isa
  import opened Interleaving
  import opened Scalar
  import opened RoundRobin
  import opened SimtCore
  import opened Divergence
  import opened CoreRefinement
  import opened Kmu
  import opened StoreOrder
  import opened Device
  import opened DeviceRefinement

  // ---- Phase two: the stores of the cycle, in sorted order --------------------------------

  lemma StoreKeepsText(text: set<int>, image: Mem, m: Mem, addr: word, f3: nat, data: word)
    requires TextSame(text, image, m) && LegalStore(f3) && Contained(addr, f3) && Span(m, addr, AccessSize(f3))
    requires forall b | addr <= b < addr + AccessSize(f3) :: b !in text
    ensures TextSame(text, image, StoreRef(m, CoreStore(addr, f3, data)))
  {
    hide StoreRef, CoreStore, WriteBytes;
    StoresAgree(m, addr, f3, data);
    var after := ScalarStore(m, addr, f3, data);
    forall b | b in text ensures Peek(after, b) == Peek(image, b) {
      if MBASE <= b < MBASE + |m| { WriteAt(m, addr, AccessSize(f3), data, b); }
      assert Peek(m, b) == Peek(image, b);
    }
  }

  lemma SameAccess(text: set<int>, s: Shape, c: Core, m: Mem, m1: Mem)
    requires ValidCore(s, c) && GoodAccess(text, s, c, m) && |m1| == |m|
    ensures GoodAccess(text, s, c, m1)
  {
    hide MemoryAddress;
  }

  lemma GoodStore(text: set<int>, s: Shape, c: Core, m: Mem, image: Mem)
    requires ValidCore(s, c) && Stores(s, c) && GoodAccess(text, s, c, m) && TextSame(text, image, m)
    ensures TextSame(text, image, StoreRef(m, PendingStore(s, c).value))
  {
    hide MemoryAddress, StoreRef, CoreStore, TextSame, LaneRegister;
    StoreKeepsText(text, image, m, MemoryAddress(s, c), Funct3(c.inst), LaneRegister(c, c.mt, Rs2(c.inst)));
  }

  /** After a store request the core is still busy. */
  lemma StoringStays(s: Shape, cid: nat, c: Core, m: Mem)
    requires ValidCore(s, c) && ServesMemory(c) && Stores(s, c)
    ensures c.active && CoreStep(s, cid, c, m).active
  {
    hide MemoryAddress, CoreStore, LaneRegister;
  }

  lemma StoreMoves(j: Job, g: Gpu, cores: seq<Core>, fired: nat, threads: Threads, i: nat, m: Mem)
      returns (schedule: seq<Tid>, after: Threads)
    requires ValidGpu(j.shape, g) && CleanCycle(j, g) && TextSame(j.text, j.image, g.mem) && i < j.shape.cores
    requires CoresRel(j, cores, fired, threads) && cores[i] == g.cores[i] && Stores(j.shape, g.cores[i])
    requires TextSame(j.text, j.image, m)
    ensures var m1 := StoreRef(m, PendingStore(j.shape, g.cores[i]).value);
            Run(MACHINE, Sys(threads, m), schedule) == Some(Sys(after, m1)) && TextSame(j.text, j.image, m1)
    ensures CoresRel(j, cores[i := CoreStep(j.shape, i, cores[i], g.mem)], fired, after)
  {
    hide CoreRel, CoreStep, NoValidWarp, Unstarted, DoneOrHoused, BlockOf, GoodJob, Domain, Run, ValidCore, ServesMemory,
      GoodAccess, StoreRef, PendingStore, Step;
    var c := cores[i];
    assert Hosts(j, i, c, fired, threads);
    assert CoreClean(j.text, j.shape, c, g.mem);
    StoringStays(j.shape, i, c, g.mem);
    SameAccess(j.text, j.shape, c, g.mem, m);
    GoodStore(j.text, j.shape, c, m, j.image);
    var f, b := FrameOf(j), BlockOf(j, c);
    var k := Tid(b, c.iw, c.mt);
    StoreIsStep(f, i, c, m, b, threads);
    StoreRel(f, i, c, g.mem, b, threads);
    schedule, after := [k], threads[k := threads[k].(pc := Add(c.ip, 4))];
    OneStep(Sys(threads, m), k, after[k], StoreRef(m, PendingStore(j.shape, c).value));
    CtaKept(j.shape, i, c, g.mem);
    MoveCore(j, cores, fired, threads, i, CoreStep(j.shape, i, c, g.mem), after);
  }

  function Owners(q: seq<Owned>): (r: set<nat>)
    ensures forall i :: i in r <==> exists x :: x in q && x.1 == i
  {
    set x | x in q :: x.1
  }

  lemma OwnersNext(q: seq<Owned>, n: nat)
    requires DistinctOwners(q) && n < |q|
    ensures q[n].1 in Owners(q[n..])
    ensures Owners(q[n + 1..]) == Owners(q[n..]) - {q[n].1}
  {
    assert q[n..] == [q[n]] + q[n + 1..];
  }

  /** Every entry is what its core stores in this cycle. */
  ghost predicate OwnsStores(s: Shape, g: Gpu, q: seq<Owned>)
    requires ValidGpu(s, g)
  {
    DistinctOwners(q) && forall x | x in q :: x.1 < s.cores && PendingStore(s, g.cores[x.1]) == Some(x.0)
  }

  lemma {:induction false} ApplyNext(m: Mem, q: seq<Owned>, n: nat)
    requires n < |q|
    ensures ApplyStores(m, Firsts(q)[..n + 1]) == StoreRef(ApplyStores(m, Firsts(q)[..n]), q[n].0)
  {
    hide StoreRef;
    assert Firsts(q)[..n + 1][..n] == Firsts(q)[..n];
  }

  /** The first n transactions have been applied, each as the scalar store of its lane. */
  lemma {:induction false} StorePhase(j: Job, g: Gpu, fired: nat, threads: Threads, q: seq<Owned>, n: nat)
      returns (schedule: seq<Tid>, after: Threads)
    requires ValidGpu(j.shape, g) && CleanCycle(j, g) && TextSame(j.text, j.image, g.mem)
    requires OwnsStores(j.shape, g, q) && n <= |q|
    requires CoresRel(j, Moved(j.shape, g, Owners(q)), fired, threads)
    ensures var m := ApplyStores(g.mem, Firsts(q)[..n]);
            Run(MACHINE, Sys(threads, g.mem), schedule) == Some(Sys(after, m)) && TextSame(j.text, j.image, m)
    ensures CoresRel(j, Moved(j.shape, g, Owners(q[n..])), fired, after)
  {
    hide CoreStep, CoresRel, CleanCycle, Run, Moved, TextSame, PendingStore, ApplyStores, Owners, ValidCore, ServesMemory;
    if n == 0 {
      schedule, after := [], threads;
      EmptyRun(Sys(threads, g.mem));
      assert q[0..] == q && Firsts(q)[..0] == [];
      assert ApplyStores(g.mem, []) == g.mem by { NoStores(g.mem); }
    } else {
      var before, middle := StorePhase(j, g, fired, threads, q, n - 1);
      var m := ApplyStores(g.mem, Firsts(q)[..n - 1]);
      OwnersNext(q, n - 1);
      ApplyNext(g.mem, q, n - 1);
      assert q[n - 1] in q;
      var waiting, i := Owners(q[n - 1..]), q[n - 1].1;
      MovedOne(j.shape, g, waiting, i);
      var more, last := StoreMoves(j, g, Moved(j.shape, g, waiting), fired, middle, i, m);
      schedule, after := before + more, last;
      RunAppend(MACHINE, Sys(threads, g.mem), before, more);
    }
  }

  lemma {:induction false} NoStores(m: Mem)
    ensures ApplyStores(m, []) == m
  {
  }

  lemma {:induction false} WaitingOwners(s: Shape, g: Gpu, q: seq<Owned>)
    requires ValidGpu(s, g) && multiset(q) == multiset(Pending(s, g.cores))
    ensures Waiting(s, g, s.cores) == Owners(q)
    ensures DistinctOwners(q) ==> OwnsStores(s, g, q)
  {
    hide PendingStore, Pending, ValidCore, ServesMemory;
    var p := Pending(s, g.cores);
    PendingOwners(s, g.cores);
    forall x ensures x in q <==> x in p {
      assert x in multiset(q) <==> x in multiset(p);
    }
    forall i: nat ensures i in Waiting(s, g, s.cores) <==> i in Owners(q) {
      if i in Waiting(s, g, s.cores) { assert (PendingStore(s, g.cores[i]).value, i) in q; }
    }
  }

  // ---- Phase three: the dispatch ----------------------------------------------------------

  lemma FreshLaneMatches(j: Job, i: nat, c: Core, k: Tid)
    requires GoodJob(j) && IsThread(j, k) && ValidCore(j.shape, c) && j.home[k.block] == i
    requires j.launch.grid.x * j.launch.grid.y >= 1 && Blocks(j.launch.grid) < WORD_SPAN && DividesLaunch(j.launch)
    ensures LaneMatches(j.shape, i, AcceptCta(j.shape, c, j.launch, Unlinear(k.block, j.launch.grid)), k.warp, k.lane, Seed(j, k))
  {
    hide Unlinear, ScalarIds, LaneIds, FreshLane, Blocks;
    SeedIsFresh(j, k);
    FreshRegisters(j.launch, Unlinear(k.block, j.launch.grid), Place(j, k));
    assert k.warp * j.shape.threads < j.launch.bsize;
  }

  lemma FreshRegisters(l: Launch, block: Dim3, i: nat)
    requires DividesLaunch(l)
    ensures FreshLane(l, block, i).gpr == ZERO_REGISTERS && ZERO_REGISTERS[0] == 0
  {
  }

  /** A freshly accepted CTA matches its seeded threads. */
  lemma AcceptRel(j: Job, i: nat, c: Core, b: nat, block: Dim3, threads: Threads)
    requires GoodJob(j) && Domain(j, threads) && Unstarted(j, b, threads) && ValidCore(j.shape, c) && DividesLaunch(j.launch)
    requires b < Blocks(j.launch.grid) && j.home[b] == i
    requires Inside(block, j.launch.grid) && Pos(block, j.launch.grid) == b
    ensures CoreRel(FrameOf(j), i, AcceptCta(j.shape, c, j.launch, block), b, threads)
  {
    hide Partition, LaneMatches, AcceptCta, Pos, Blocks, Seed, IsThread;
    JobSizes(j);
    UnlinearPos(block, j.launch.grid);
    var f, c' := FrameOf(j), AcceptCta(j.shape, c, j.launch, block);
    forall w, t | 0 <= w < j.shape.warps && t in InitialMask(j.shape, j.launch.bsize, w)
      ensures Tid(b, w, t) in threads && LaneMatches(j.shape, i, c', w, t, threads[Tid(b, w, t)])
    {
      BlockThread(j, Tid(b, w, t));
      FreshLaneMatches(j, i, c, Tid(b, w, t));
    }
    NoneHalted(j, b, threads);
    AcceptedParts(j.shape, c, j.launch, block);
    forall w | 0 <= w < j.shape.warps ensures Partition(InitialMask(j.shape, j.launch.bsize, w), c'.warps[w], {}) {
      FreshPartition(j.shape, j.launch, block, w);
    }
  }

  lemma BlockThread(j: Job, k: Tid)
    requires k.block < Blocks(j.launch.grid) && k.warp < j.shape.warps && k.lane in InitialMask(j.shape, j.launch.bsize, k.warp)
    ensures IsThread(j, k)
  {
  }

  lemma AcceptedParts(s: Shape, c: Core, l: Launch, block: Dim3)
    requires ValidCore(s, c) && DividesLaunch(l)
    ensures var c' := AcceptCta(s, c, l, block);
            c'.state.Sched? && c'.active && !c'.fault && c'.cta.block == block
            && |c'.warps| == s.warps && forall w | 0 <= w < s.warps :: c'.warps[w] == FreshWarp(s, l, block, w)
  {
  }

  lemma NoneHalted(j: Job, b: nat, threads: Threads)
    requires Unstarted(j, b, threads)
    ensures HaltedSets(j.shape, j.launch.bsize, b, threads) == seq(j.shape.warps, _ => {})
  {
    forall w | 0 <= w < j.shape.warps ensures HaltedLanes(j.shape, j.launch.bsize, b, threads, w) == {} {}
  }

  /** Handing the next block to an idle core at home there. */
  lemma FirePhase(j: Job, cores: seq<Core>, fired: nat, threads: Threads, i: nat, block: Dim3)
    requires CoresRel(j, cores, fired, threads) && i < |cores| && !cores[i].active && DividesLaunch(j.launch)
    requires fired < Blocks(j.launch.grid) && j.home[fired] == i
    requires Inside(block, j.launch.grid) && Pos(block, j.launch.grid) == fired
    ensures ValidCore(j.shape, cores[i])
    ensures CoresRel(j, cores[i := AcceptCta(j.shape, cores[i], j.launch, block)], fired + 1, threads)
  {
    hide CoreRel, AcceptCta, Pos, NoValidWarp, Seed, BlockHalted, Blocks;
    assert Hosts(j, i, cores[i], fired, threads);
    var c := AcceptCta(j.shape, cores[i], j.launch, block);
    AcceptRel(j, i, cores[i], fired, block, threads);
    AcceptedParts(j.shape, cores[i], j.launch, block);
    var moved := cores[i := c];
    forall x | 0 <= x < |moved| ensures Hosts(j, x, moved[x], fired + 1, threads) {
    }
    forall d | 0 <= d < fired + 1 ensures Housed(j, moved, d) || BlockHalted(d, threads) {
      if d < fired && Housed(j, cores, d) { assert j.home[d] != i; }
    }
  }

  lemma KmuAdvances(j: Job, k: Kmu, fired: nat, ready: seq<bool>)
    requires GoodJob(j) && KmuRel(j, k, fired)
    ensures KmuRel(j, KmuStep(k, IDLE, ready), if Dispatch(k, ready).Some? then fired + 1 else fired)
  {
    hide Pos, Blocks, Scan;
    if Dispatch(k, ready).Some? {
      WalkNext(k.(rr := Successor(Dispatch(k, ready).value, |ready|)));
    }
  }

  // ---- One cycle --------------------------------------------------------------------------

  function After(g: Gpu, fired: nat): nat { if Fired(g).Some? then fired + 1 else fired }

  /** The dispatch of this cycle goes where the job says. */
  ghost predicate AtHome(j: Job, g: Gpu, fired: nat) {
    Fired(g).Some? ==> fired < |j.home| && j.home[fired] == Fired(g).value
  }

  lemma FiredCore(s: Shape, g: Gpu)
    requires ValidGpu(s, g) && Fired(g).Some?
    ensures Fired(g).value < s.cores && g.kmu.running && !g.cores[Fired(g).value].active
    ensures Moved(s, g, {})[Fired(g).value] == g.cores[Fired(g).value]
  {
    hide CoreStep, ValidCore, Scan;
    var i := Fired(g).value;
    assert ReadyFlags(g.cores)[i];
    IdleStays(s, i, g.cores[i], g.mem);
  }

  lemma CoresAfter(s: Shape, g: Gpu)
    requires ValidGpu(s, g) && DividesLaunch(g.kmu.launch)
    ensures Cycle(s, g, IDLE).cores ==
            match Fired(g)
            case Some(i) => Moved(s, g, {})[i := AcceptCta(s, g.cores[i], g.kmu.launch, g.kmu.block)]
            case None => Moved(s, g, {})
  {
    hide CoreStep, AcceptCta, ValidCore, ServesMemory, DividesLaunch, Sort, Pending, Dispatch, ApplyStores, KmuStep, AnyReadFails, AnyStoreFails, AnyPackFails;
  }

  /** A clean cycle is a series of scalar steps followed by at most one dispatch. */
  lemma CycleSimulated(j: Job, g: Gpu, fired: nat, threads: Threads) returns (schedule: seq<Tid>, after: Threads)
    requires DeviceRel(j, g, fired, threads) && CleanCycle(j, g) && AtHome(j, g, fired) && DividesLaunch(j.launch)
    ensures Run(MACHINE, Sys(threads, g.mem), schedule) == Some(Sys(after, Cycle(j.shape, g, IDLE).mem))
    ensures DeviceRel(j, Cycle(j.shape, g, IDLE), After(g, fired), after)
  {
    hide CoreStep, CleanCycle, Run, Moved, TextSame, Pending, ApplyStores, Owners, ValidCore, ServesMemory, AllHosted, DoneOrHoused,
      Unstarted, Waiting, Sort, AcceptCta, Pos, NextCore, Blocks, KmuStep;
    var p := Pending(j.shape, g.cores);
    PendingOwners(j.shape, g.cores);
    var first, middle := QuietPhase(j, g, fired, threads, j.shape.cores);
    var q := MoveOwners(p, Sort(Firsts(p)));
    WaitingOwners(j.shape, g, q);
    var second, last := StorePhase(j, g, fired, middle, q, |q|);
    assert Firsts(q)[..|q|] == Firsts(q);
    assert Owners(q[|q|..]) == {};
    schedule, after := first + second, last;
    RunAppend(MACHINE, Sys(threads, g.mem), first, second);
    CoresAfter(j.shape, g);
    KmuAdvances(j, g.kmu, fired, ReadyFlags(g.cores));
    if Fired(g).Some? {
      FiredCore(j.shape, g);
      FirePhase(j, Moved(j.shape, g, {}), fired, after, Fired(g).value, g.kmu.block);
    }
  }

  // ---- Whole runs -------------------------------------------------------------------------

  /** The device right after the launch pulse of job j: the dispatcher is at block zero, every core
      idle with no warp left, and memory is the job's image. */
  ghost predicate Started(j: Job, g: Gpu) {
    && GoodJob(j) && ValidGpu(j.shape, g) && Launched(g.kmu) && g.kmu.launch == j.launch && g.mem == j.image
    && forall i | 0 <= i < j.shape.cores :: !g.cores[i].active && !g.cores[i].fault && NoValidWarp(g.cores[i])
  }

  lemma JobDivides(j: Job)
    requires GoodJob(j)
    ensures DividesLaunch(j.launch)
  {
    JobSizes(j);
    DimPositions(j, 0);
  }

  /** Through n cycles top-level `fault` stays low and every core keeps to its kernel. */
  ghost predicate CleanRun(j: Job, g: Gpu, n: nat)
    requires ValidGpu(j.shape, g) && DividesLaunch(g.kmu.launch)
  {
    && (forall k | 0 <= k <= n :: !Faulty(GpuRun(j.shape, g, k)))
    && (forall k | 0 <= k < n :: KeepsToKernel(j.text, j.shape, GpuRun(j.shape, g, k)))
  }

  ghost predicate KeepsToKernel(text: set<int>, s: Shape, g: Gpu)
    requires ValidGpu(s, g)
  {
    forall i | 0 <= i < s.cores :: CoreClean(text, s, g.cores[i], g.mem)
  }

  /** A fault raised in a cycle shows at the top after it. */
  lemma FaultShows(j: Job, g: Gpu)
    requires ValidGpu(j.shape, g) && DividesLaunch(g.kmu.launch)
    requires !Faulty(g) && !Faulty(Cycle(j.shape, g, IDLE)) && KeepsToKernel(j.text, j.shape, g)
    ensures CleanCycle(j, g)
  {
    hide CoreStep, AcceptCta, ValidCore, CoreClean, Sort, Pending, Dispatch, ApplyStores, ServesMemory, DividesLaunch;
    CoresAfter(j.shape, g);
    if Fired(g).Some? { FiredCore(j.shape, g); }
    var after := Cycle(j.shape, g, IDLE);
    forall i | 0 <= i < j.shape.cores ensures !CoreStep(j.shape, i, g.cores[i], g.mem).fault {
      if Fired(g) == Some(i) {
        IdleStays(j.shape, i, g.cores[i], g.mem);
      } else {
        assert after.cores[i] == CoreStep(j.shape, i, g.cores[i], g.mem);
      }
    }
  }

  lemma SeedsComplete(j: Job)
    requires GoodJob(j)
    ensures Domain(j, Seeds(j)) && Unstarted(j, 0, Seeds(j))
  {
    hide Seed, GoodJob;
    forall k ensures k in Seeds(j) <==> IsThread(j, k) {
      if IsThread(j, k) { assert k == Tid(k.block, k.warp, k.lane); }
    }
  }

  lemma StartRelated(j: Job, g: Gpu)
    requires Started(j, g)
    ensures DeviceRel(j, g, 0, Seeds(j))
  {
    hide Seed, Seeds, IsThread;
    SeedsComplete(j);
    JobSizes(j);
  }

  lemma CleanPrefix(j: Job, g: Gpu, n: nat)
    requires ValidGpu(j.shape, g) && DividesLaunch(g.kmu.launch) && n >= 1 && CleanRun(j, g, n)
    ensures CleanRun(j, g, n - 1)
    ensures CleanCycle(j, GpuRun(j.shape, g, n - 1))
  {
    hide Cycle, CleanCycle, KeepsToKernel, ValidGpu, DividesLaunch, Faulty;
    assert !Faulty(GpuRun(j.shape, g, n - 1)) && !Faulty(GpuRun(j.shape, g, n));
    FaultShows(j, GpuRun(j.shape, g, n - 1));
  }

  /** The schedule brings the seeded threads to the given threads and memory. */
  ghost predicate Reaches(j: Job, schedule: seq<Tid>, threads: Threads, m: Mem)
    requires GoodJob(j)
  {
    Run(MACHINE, Seeded(j), schedule) == Some(Sys(threads, m))
  }

  lemma OneMoreCycle(j: Job, g: Gpu, fired: nat, before: seq<Tid>, middle: Threads)
      returns (schedule: seq<Tid>, threads: Threads)
    requires GoodJob(j) && DeviceRel(j, g, fired, middle) && CleanCycle(j, g) && AtHome(j, g, fired)
    requires Reaches(j, before, middle, g.mem) && DividesLaunch(j.launch)
    ensures Reaches(j, schedule, threads, Cycle(j.shape, g, IDLE).mem)
    ensures DeviceRel(j, Cycle(j.shape, g, IDLE), After(g, fired), threads)
  {
    hide Run, Cycle, CleanCycle, ValidGpu, DividesLaunch, CoresRel, KmuRel, TextSame, GoodJob, Seeds, After, AtHome;
    var more, last := CycleSimulated(j, g, fired, middle);
    schedule, threads := before + more, last;
    RunAppend(MACHINE, Seeded(j), before, more);
  }

  /** A clean run of the device is a schedule of scalar steps: it ends with the memory and the
      threads the schedule ends with. */
  lemma {:induction false} RunSimulated(j: Job, g: Gpu, n: nat) returns (schedule: seq<Tid>, threads: Threads)
    requires Started(j, g) && DividesLaunch(g.kmu.launch) && CleanRun(j, g, n) && Homes(j.shape, g, n) <= j.home
    ensures Reaches(j, schedule, threads, GpuRun(j.shape, g, n).mem)
    ensures DeviceRel(j, GpuRun(j.shape, g, n), |Homes(j.shape, g, n)|, threads)
  {
    hide Reaches, DeviceRel, Cycle, CleanCycle, CleanRun, Seeds, Started, ValidGpu, DividesLaunch, AtHome, After, GoodJob;
    StartedParts(j, g);
    if n == 0 {
      schedule, threads := [], Seeds(j);
      StartReaches(j);
      StartRelated(j, g);
    } else {
      CleanPrefix(j, g, n);
      HomesNext(j, g, n);
      var before, middle := RunSimulated(j, g, n - 1);
      schedule, threads := OneMoreCycle(j, GpuRun(j.shape, g, n - 1), |Homes(j.shape, g, n - 1)|, before, middle);
    }
  }

  lemma StartReaches(j: Job)
    requires GoodJob(j)
    ensures Reaches(j, [], Seeds(j), j.image)
  {
  }

  lemma StartedParts(j: Job, g: Gpu)
    requires Started(j, g)
    ensures GoodJob(j) && ValidGpu(j.shape, g) && g.kmu.launch == j.launch && g.mem == j.image
  {
  }

  lemma HomesNext(j: Job, g: Gpu, n: nat)
    requires ValidGpu(j.shape, g) && DividesLaunch(g.kmu.launch) && n >= 1 && Homes(j.shape, g, n) <= j.home
    ensures Homes(j.shape, g, n - 1) <= j.home
    ensures var u, fired := GpuRun(j.shape, g, n - 1), |Homes(j.shape, g, n - 1)|;
            AtHome(j, u, fired) && |Homes(j.shape, g, n)| == After(u, fired)
  {
    hide Cycle, ValidGpu, DividesLaunch, Dispatch;
  }

  // ---- When busy falls --------------------------------------------------------------------

  lemma IdleDone(j: Job, g: Gpu, fired: nat, threads: Threads)
    requires DeviceRel(j, g, fired, threads) && !Busy(g)
    ensures forall k | k in threads :: threads[k].halted
    ensures forall i | 0 <= i < |g.cores| :: NoValidWarp(g.cores[i])
  {
    hide CoreRel, Seed, NoValidWarp, ValidCore, ServesMemory;
    forall k | k in threads ensures threads[k].halted {
      assert IsThread(j, k);
      assert Housed(j, g.cores, k.block) || BlockHalted(k.block, threads);
    }
    forall i | 0 <= i < |g.cores| ensures NoValidWarp(g.cores[i]) {
      assert Hosts(j, i, g.cores[i], fired, threads);
    }
  }

  /** When busy falls after a clean run, every thread of every CTA has reached its `ebreak` and no
      core holds a valid warp: the run is a complete schedule of the scalar threads. */
  lemma BusyFallsComplete(j: Job, g: Gpu, n: nat) returns (schedule: seq<Tid>)
    requires Started(j, g) && DividesLaunch(g.kmu.launch) && CleanRun(j, g, n) && Homes(j.shape, g, n) <= j.home
    requires !Busy(GpuRun(j.shape, g, n))
    ensures Completes(MACHINE, Seeded(j), schedule)
    ensures Run(MACHINE, Seeded(j), schedule).value.mem == GpuRun(j.shape, g, n).mem
    ensures forall i | 0 <= i < j.shape.cores :: NoValidWarp(GpuRun(j.shape, g, n).cores[i])
    ensures Homes(j.shape, g, n) == j.home
    ensures forall k | k in Seeds(j) :: Halts(MACHINE, Seeded(j), schedule, k) == 1
  {
    hide Run, Halts, Busy, CleanRun, Started, CoresRel, Faulty, NoValidWarp, ValidGpu, DividesLaunch, Cycle, GoodJob, Seeds;
    StartedParts(j, g);
    var threads: Threads;
    schedule, threads := RunSimulated(j, g, n);
    var u := GpuRun(j.shape, g, n);
    IdleDone(j, u, |Homes(j.shape, g, n)|, threads);
    NotRunning(u);
    AllDispatched(j, u, |Homes(j.shape, g, n)|, threads);
    forall k | k in Seeds(j) ensures Halts(MACHINE, Seeded(j), schedule, k) == 1 {
      SeedRuns(j, k);
      HaltsOnce(MACHINE, Seeded(j), schedule, k);
    }
  }

  lemma SeedRuns(j: Job, k: Tid)
    requires GoodJob(j) && k in Seeds(j)
    ensures !Seeds(j)[k].halted
  {
    SeedsComplete(j);
  }

  lemma AllDispatched(j: Job, g: Gpu, fired: nat, threads: Threads)
    requires DeviceRel(j, g, fired, threads) && !g.kmu.running
    ensures fired == |j.home| && |g.cores| == j.shape.cores
  {
  }

  lemma NotRunning(g: Gpu)
    requires !Busy(g)
    ensures !g.kmu.running
  {
  }
}
