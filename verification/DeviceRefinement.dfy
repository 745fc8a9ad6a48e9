/** The device refines its scalar threads: every fault-free run from a launch is some schedule of
    scalar steps on the same memory. */
module DeviceRefinement {
  import opened Word
  import opened Arith
  import opened Memory
  import opened Isa
  import opened Interleaving
  import opened Scalar
  import opened RoundRobin
  import opened SimtCore
  import opened Divergence
  import opened CoreRefinement
  import opened Kmu
  import opened StoreOrder
  import opened Device

  // ---- Jobs -------------------------------------------------------------------------------

  /** A launch: the machine, the launch registers, the memory, the bytes of it that are code, and for
      each block the core that runs it. */
  datatype Job = Job(shape: Shape, launch: Launch, image: Mem, text: set<int>, home: seq<nat>)

  /** What the runtime checks before it launches. */
  predicate GoodJob(j: Job) {
    && ValidShape(j.shape) && NonEmpty(j.launch.grid) && NonEmpty(j.launch.dim)
    && j.launch.bsize == Blocks(j.launch.dim) && j.launch.bsize <= j.shape.warps * j.shape.threads
    && Blocks(j.launch.grid) * j.launch.bsize < WORD_SPAN
    && |j.home| == Blocks(j.launch.grid) && (forall b | 0 <= b < |j.home| :: j.home[b] < j.shape.cores)
  }

  function FrameOf(j: Job): Frame { Frame(j.shape, j.launch.bsize, j.image, j.text) }

  predicate IsThread(j: Job, k: Tid) {
    k.block < Blocks(j.launch.grid) && k.warp < j.shape.warps && InBlock(j.shape, j.launch.bsize, k.warp, k.lane)
  }

  lemma JobSizes(j: Job)
    requires GoodJob(j)
    ensures var g, d := j.launch.grid, j.launch.dim;
            && 1 <= Blocks(g) < WORD_SPAN && g.x * g.y >= 1
            && 1 <= j.launch.bsize && 1 <= d.x * d.y <= j.launch.bsize
  {
    var g, d := j.launch.grid, j.launch.dim;
    Grows(Blocks(g), j.launch.bsize);
    Grows(d.x * d.y, d.z);
  }

  /** Position of a thread in its block. */
  function Place(j: Job, k: Tid): nat { k.warp * j.shape.threads + k.lane }

  /** What the scalar simulator tells the thread at place `local` of block b about itself. */
  function ScalarIds(j: Job, b: nat, local: nat): Ids
    requires GoodJob(j) && b < Blocks(j.launch.grid) && local < j.launch.bsize
  {
    JobSizes(j);
    var lanes := j.shape.warps * j.shape.threads;
    Ids(Wrap(b * j.launch.bsize + local), Unlinear(local, j.launch.dim), Unlinear(b, j.launch.grid),
        j.launch.dim, j.launch.grid, j.launch.args,
        Wrap(j.home[b] * lanes + local), Wrap(local / j.shape.threads), Wrap(local % j.shape.threads))
  }

  /** The scalar context at launch. */
  function Seed(j: Job, k: Tid): Thread
    requires GoodJob(j) && IsThread(j, k)
  {
    Thread(j.launch.startup, ZERO_REGISTERS, false, ScalarIds(j, k.block, Place(j, k)))
  }

  /** All scalar threads at launch. */
  function Seeds(j: Job): Threads
    requires GoodJob(j)
  {
    map b, w, t | 0 <= b < Blocks(j.launch.grid) && 0 <= w < j.shape.warps && 0 <= t < j.shape.threads
                  && IsThread(j, Tid(b, w, t)) :: Tid(b, w, t) := Seed(j, Tid(b, w, t))
  }

  function Seeded(j: Job): Sys<Tid, Thread>
    requires GoodJob(j)
  {
    Sys(Seeds(j), j.image)
  }

  lemma DimPositions(j: Job, i: nat)
    requires GoodJob(j) && i < j.launch.bsize
    ensures DividesLaunch(j.launch)
    ensures j.launch.dim.x * j.launch.dim.y >= 1
    ensures LaneTid(j.launch, i) == Unlinear(i, j.launch.dim)
  {
    JobSizes(j);
    var d := j.launch.dim;
    assert Mul(d.x, d.y) == d.x * d.y;
    DivShrinks(i, d.x);
    DivShrinks(i, d.x * d.y);
  }

  lemma GlobalNumber(j: Job, b: nat, i: nat)
    requires GoodJob(j) && b < Blocks(j.launch.grid) && i < j.launch.bsize
    ensures b * j.launch.bsize + i < WORD_SPAN
    ensures b < WORD_SPAN && Wrap(Mul(b, j.launch.bsize) + i) == b * j.launch.bsize + i
  {
    hide Blocks;
    JobSizes(j);
    var n := Blocks(j.launch.grid);
    MulMono(j.launch.bsize, b, n);
    SmallWrap(b, j.launch.bsize, b * j.launch.bsize, i);
  }

  lemma Wrapped(x: nat)
    requires x < WORD_SPAN
    ensures Wrap(x) == x
  {
  }

  lemma SmallWrap(b: word, size: word, p: nat, i: nat)
    requires p == b * size && p + i < WORD_SPAN
    ensures Wrap(Mul(b, size) + i) == p + i
  {
    assert Mul(b, size) == p;
  }

  /** The lane registers a core sets up for block b are those of the scalar contexts. */
  lemma SeedIsFresh(j: Job, k: Tid)
    requires GoodJob(j) && IsThread(j, k)
    ensures j.launch.grid.x * j.launch.grid.y >= 1 && Blocks(j.launch.grid) < WORD_SPAN
    ensures var block := Unlinear(k.block, j.launch.grid);
            DividesLaunch(j.launch) &&
            ScalarIds(j, k.block, Place(j, k)) ==
            LaneIds(j.shape, j.home[k.block], Cta(block, j.launch.dim, j.launch.grid, j.launch.args), k.warp, k.lane,
                    FreshLane(j.launch, block, Place(j, k)))
  {
    hide Blocks, Unlinear, LinearBlock, LaneTid, Wrap, Mul;
    JobSizes(j);
    var b, i := k.block, Place(j, k);
    DimPositions(j, i);
    PosUnlinear(b, j.launch.grid);
    LinearBlockIsPos(Unlinear(b, j.launch.grid), j.launch.grid);
    GlobalNumber(j, b, i);
    QuotientUnique(i, j.shape.threads, k.warp, k.lane);
    Wrapped(b * j.launch.bsize + i);
  }

  // ---- The relation between a device and its threads --------------------------------------

  ghost predicate Domain(j: Job, threads: Threads) { forall k :: k in threads <==> IsThread(j, k) }

  ghost predicate BlockHalted(b: nat, threads: Threads) {
    forall k | k in threads && k.block == b :: threads[k].halted
  }

  ghost predicate NoValidWarp(c: Core) { forall w | 0 <= w < |c.warps| :: !c.warps[w].valid }

  function BlockOf(j: Job, c: Core): nat { Pos(c.cta.block, j.launch.grid) }

  /** Core i runs a dispatched block that is at home there, or has nothing left to run. */
  ghost predicate Hosts(j: Job, i: nat, c: Core, fired: nat, threads: Threads) {
    && ValidCore(j.shape, c) && ServesMemory(c) && !c.fault
    && if c.active then
         BlockOf(j, c) < fired <= |j.home| && j.home[BlockOf(j, c)] == i && CoreRel(FrameOf(j), i, c, BlockOf(j, c), threads)
       else NoValidWarp(c)
  }

  ghost predicate Housed(j: Job, cores: seq<Core>, b: nat) {
    && b < |j.home| && j.home[b] < |cores|
    && cores[j.home[b]].active && BlockOf(j, cores[j.home[b]]) == b
  }

  ghost predicate AllHosted(j: Job, cores: seq<Core>, fired: nat, threads: Threads) {
    |cores| == j.shape.cores && forall i | 0 <= i < |cores| :: Hosts(j, i, cores[i], fired, threads)
  }

  ghost predicate DoneOrHoused(j: Job, cores: seq<Core>, fired: nat, threads: Threads) {
    forall b | 0 <= b < fired :: Housed(j, cores, b) || BlockHalted(b, threads)
  }

  ghost predicate Unstarted(j: Job, fired: nat, threads: Threads) {
    GoodJob(j) && forall k | k in threads && k.block >= fired :: IsThread(j, k) && threads[k] == Seed(j, k)
  }

  /** Blocks not yet dispatched are as seeded, dispatched ones run on their core or have ended. */
  ghost predicate CoresRel(j: Job, cores: seq<Core>, fired: nat, threads: Threads) {
    && GoodJob(j) && Domain(j, threads) && fired <= Blocks(j.launch.grid)
    && AllHosted(j, cores, fired, threads) && DoneOrHoused(j, cores, fired, threads) && Unstarted(j, fired, threads)
  }

  ghost predicate KmuRel(j: Job, k: Kmu, fired: nat) {
    && k.launch == j.launch && fired <= Blocks(j.launch.grid)
    && (k.running <==> fired < Blocks(j.launch.grid))
    && (k.running ==> Inside(k.block, j.launch.grid) && Pos(k.block, j.launch.grid) == fired)
  }

  ghost predicate DeviceRel(j: Job, g: Gpu, fired: nat, threads: Threads) {
    && ValidGpu(j.shape, g) && KmuRel(j, g.kmu, fired) && TextSame(j.text, j.image, g.mem)
    && CoresRel(j, g.cores, fired, threads)
  }

  // ---- One core moves, the others do not notice -------------------------------------------

  ghost predicate SameBlock(b: nat, threads: Threads, after: Threads) {
    forall k: Tid | k.block == b :: (k in threads <==> k in after) && (k in threads ==> after[k] == threads[k])
  }

  lemma CoreRelFrame(f: Frame, cid: nat, c: Core, b: nat, threads: Threads, after: Threads)
    requires CoreRel(f, cid, c, b, threads) && SameBlock(b, threads, after)
    ensures CoreRel(f, cid, c, b, after)
  {
    hide Partition, LaneMatches, Decoded, ServesMemory, Issued;
    forall w | 0 <= w < f.shape.warps
      ensures HaltedLanes(f.shape, f.bsize, b, threads, w) == HaltedLanes(f.shape, f.bsize, b, after, w)
    {
    }
    assert HaltedSets(f.shape, f.bsize, b, threads) == HaltedSets(f.shape, f.bsize, b, after);
  }

  /** A core without valid warps has brought all threads of its block to their end. */
  lemma FinishedBlock(j: Job, i: nat, c: Core, b: nat, threads: Threads)
    requires GoodJob(j) && Domain(j, threads) && CoreRel(FrameOf(j), i, c, b, threads) && NoValidWarp(c)
    ensures BlockHalted(b, threads)
  {
    hide LaneMatches, Decoded, ServesMemory, Issued, Separate;
    var f := FrameOf(j);
    var h := HaltedSets(f.shape, f.bsize, b, threads);
    forall k | k in threads && k.block == b ensures threads[k].halted {
      assert IsThread(j, k);
      assert k.lane in InitialMask(f.shape, f.bsize, k.warp);
      assert Partition(InitialMasks(f.shape, f.bsize)[k.warp], c.warps[k.warp], h[k.warp]);
      assert k.lane in h[k.warp];
    }
  }

  /** The threads of block b have moved, all others are where they were. */
  ghost predicate OnlyBlock(b: nat, threads: Threads, after: Threads) {
    after.Keys == threads.Keys && forall k | k in threads && k.block != b :: after[k] == threads[k]
  }

  lemma OthersHost(j: Job, cores: seq<Core>, fired: nat, threads: Threads, i: nat, after: Threads, x: nat)
    requires AllHosted(j, cores, fired, threads) && i < |cores| && cores[i].active && x < |cores| && x != i
    requires OnlyBlock(BlockOf(j, cores[i]), threads, after)
    ensures Hosts(j, x, cores[x], fired, after)
  {
    hide CoreRel, NoValidWarp, ServesMemory;
    assert Hosts(j, i, cores[i], fired, threads);
    assert Hosts(j, x, cores[x], fired, threads);
    if cores[x].active {
      CoreRelFrame(FrameOf(j), x, cores[x], BlockOf(j, cores[x]), threads, after);
    }
  }

  lemma MoveCore(j: Job, cores: seq<Core>, fired: nat, threads: Threads, i: nat, c: Core, after: Threads)
    requires CoresRel(j, cores, fired, threads) && i < |cores| && cores[i].active
    requires var b := BlockOf(j, cores[i]);
             OnlyBlock(b, threads, after) && CoreRel(FrameOf(j), i, c, b, after) && c.cta == cores[i].cta
    requires !c.fault && (!c.active ==> NoValidWarp(c))
    ensures CoresRel(j, cores[i := c], fired, after)
  {
    hide CoreRel, NoValidWarp, BlockOf, GoodJob, Seed, IsThread, BlockHalted;
    var b, moved := BlockOf(j, cores[i]), cores[i := c];
    assert Domain(j, after);
    assert Hosts(j, i, cores[i], fired, threads);
    assert BlockOf(j, c) == b by { SameCta(j, c, cores[i]); }
    RelValid(FrameOf(j), i, c, b, after);
    forall x | 0 <= x < |moved| ensures Hosts(j, x, moved[x], fired, after) {
      if x != i { OthersHost(j, cores, fired, threads, i, after, x); }
    }
    forall d | 0 <= d < fired ensures Housed(j, moved, d) || BlockHalted(d, after) {
      if d == b {
        if !c.active { FinishedBlock(j, i, c, b, after); }
      } else {
        OtherBlock(j, cores, fired, threads, i, c, after, d);
      }
    }
    assert Unstarted(j, fired, after);
  }

  lemma SameCta(j: Job, c: Core, d: Core)
    requires c.cta == d.cta
    ensures BlockOf(j, c) == BlockOf(j, d)
  {
  }

  lemma RelValid(f: Frame, cid: nat, c: Core, b: nat, threads: Threads)
    requires CoreRel(f, cid, c, b, threads)
    ensures ValidCore(f.shape, c) && ServesMemory(c)
  {
  }

  lemma OtherBlock(j: Job, cores: seq<Core>, fired: nat, threads: Threads, i: nat, c: Core, after: Threads, d: nat)
    requires DoneOrHoused(j, cores, fired, threads) && i < |cores| && d < fired && d != BlockOf(j, cores[i])
    requires OnlyBlock(BlockOf(j, cores[i]), threads, after)
    ensures Housed(j, cores[i := c], d) || BlockHalted(d, after)
  {
    hide BlockOf;
    if Housed(j, cores, d) {
      assert j.home[d] != i;
    } else {
      assert BlockHalted(d, threads);
      forall k | k in after && k.block == d ensures after[k].halted {
        assert k in threads.Keys;
      }
    }
  }

  // ---- Which cycles are clean -------------------------------------------------------------

  /** The assumptions on a program in one cycle of a core: it fetches from its kernel image, shifts
      with legal encodings and accesses memory inside words. */
  ghost predicate CoreClean(text: set<int>, s: Shape, c: Core, m: Mem)
    requires ValidCore(s, c)
  {
    && (c.active && c.state.Fetch? ==> InText(text, c.ip) && Span(m, c.ip, 4))
    && (c.active && c.state.Exec? ==> LegalShift(c.inst))
    && (Loads(s, c) || Stores(s, c) ==> GoodAccess(text, s, c, m))
  }

  lemma CtaKept(s: Shape, cid: nat, c: Core, m: Mem)
    requires ValidCore(s, c) && ServesMemory(c)
    ensures CoreStep(s, cid, c, m).cta == c.cta
  {
    hide ComputeLane, CoreLoad, CommonNext, AllLegal, Diverges, LaneResult, TakenLanes, MemoryAddress, WriteBack, LegalBranch, BadRegister;
  }

  /** Without a fault a core goes idle only when none of its warps is valid. */
  lemma StopsWhenDone(s: Shape, cid: nat, c: Core, m: Mem)
    requires ValidCore(s, c) && ServesMemory(c) && c.active && !CoreStep(s, cid, c, m).active && !CoreStep(s, cid, c, m).fault
    ensures NoValidWarp(CoreStep(s, cid, c, m))
  {
    hide ComputeLane, CoreLoad, CommonNext, AllLegal, Diverges, LaneResult, TakenLanes, MemoryAddress, WriteBack, LegalBranch, BadRegister;
    if c.state.Sched? { NothingValid(c); }
  }

  lemma NothingValid(c: Core)
    requires Scan(ValidFlags(c.warps), c.rr, 0).None? && c.rr < |c.warps|
    ensures NoValidWarp(c)
  {
    var flags := ValidFlags(c.warps);
    ScanNone(flags, c.rr, 0);
    forall w | 0 <= w < |c.warps| ensures !c.warps[w].valid {
      AtDistance(|flags|, c.rr, w);
      assert !FlagAt(flags, c.rr, Distance(|flags|, c.rr, w));
    }
  }

  /** What an active core that does not store in this cycle does. */
  lemma CycleKinds(text: set<int>, s: Shape, cid: nat, c: Core, m: Mem)
    requires ValidCore(s, c) && ServesMemory(c) && c.active && !Stores(s, c) && !c.fault
    requires CoreClean(text, s, c, m) && !CoreStep(s, cid, c, m).fault
    ensures Quiet(s, c) || Executes(s, cid, c) || Loads(s, c)
  {
    hide ComputeLane, CommonNext, AllLegal, Diverges, LaneResult, TakenLanes, MemoryAddress, WriteBack, LegalShift, LegalBranch, GoodAccess, BranchStep, BreakStep, ComputeStep;
  }

  // ---- Phase one: cores that do not store -------------------------------------------------

  lemma CoreMoves(j: Job, i: nat, c: Core, m: Mem, b: nat, threads: Threads) returns (schedule: seq<Tid>, after: Threads)
    requires CoreRel(FrameOf(j), i, c, b, threads) && c.active && !c.fault && !Stores(j.shape, c)
    requires CoreClean(j.text, j.shape, c, m) && TextSame(j.text, j.image, m) && !CoreStep(j.shape, i, c, m).fault
    ensures Run(MACHINE, Sys(threads, m), schedule) == Some(Sys(after, m))
    ensures OnlyBlock(b, threads, after) && CoreRel(FrameOf(j), i, CoreStep(j.shape, i, c, m), b, after)
  {
    hide CoreRel, CoreStep, Quiet, Executes, Loads, Stores, Step, GoodAccess;
    var f := FrameOf(j);
    RelParts(f, i, c, b, threads);
    CycleKinds(j.text, j.shape, i, c, m);
    if Quiet(j.shape, c) {
      QuietRel(f, i, c, m, b, threads);
      schedule, after := [], threads;
    } else if Executes(j.shape, i, c) {
      schedule, after := ExecMoves(f, i, c, m, b, threads);
    } else {
      var k := Tid(b, c.iw, c.mt);
      LoadIsStep(f, i, c, m, b, threads);
      LoadRel(f, i, c, m, b, threads);
      schedule, after := [k], threads[k := Loaded(j.shape, c, m, threads[k])];
      OneStep(Sys(threads, m), k, after[k], m);
    }
  }

  lemma {:induction false} OneStep(s: Sys<Tid, Thread>, k: Tid, t: Thread, m: Mem)
    requires k in s.threads && !s.threads[k].halted && Step(s.mem, s.threads[k]) == Done(t, m)
    ensures Run(MACHINE, s, [k]) == Some(Sys(s.threads[k := t], m))
  {
    hide Step;
    assert CanStep(MACHINE, s, k);
    assert Run(MACHINE, s, []) == Some(s);
    RunSnoc(MACHINE, s, [], s, k);
    assert [] + [k] == [k];
  }

  lemma ExecMoves(f: Frame, cid: nat, c: Core, m: Mem, b: nat, threads: Threads) returns (schedule: seq<Tid>, after: Threads)
    requires CoreRel(f, cid, c, b, threads) && c.active && Executes(f.shape, cid, c) && TextSame(f.text, f.image, m)
    ensures Run(MACHINE, Sys(threads, m), schedule) == Some(Sys(after, m))
    ensures OnlyBlock(b, threads, after) && CoreRel(f, cid, CoreStep(f.shape, cid, c, m), b, after)
  {
    hide CoreRel, CoreStep, Executed, Step;
    var u := ExecUpdates(f, cid, c, b, threads);
    RelParts(f, cid, c, b, threads);
    MaskInBlock(f, cid, c, b, threads);
    forall k | k in u ensures StepsTo(MACHINE, Sys(threads, m), k, u[k]) {
      ExecutedIsStep(f, cid, c, m, b, threads, k.lane);
      assert k == Tid(b, c.iw, k.lane);
    }
    ExecRel(f, cid, c, m, b, threads);
    schedule := RunEach(MACHINE, Sys(threads, m), u);
    after := threads + u;
  }

  /** The cores after the cycle, except those still waiting for their turn. */
  function Moved(s: Shape, g: Gpu, waiting: set<nat>): (r: seq<Core>)
    requires ValidGpu(s, g)
    ensures |r| == s.cores
    ensures forall i | 0 <= i < s.cores :: r[i] == if i in waiting then g.cores[i] else CoreStep(s, i, g.cores[i], g.mem)
  {
    seq(s.cores, i requires 0 <= i < s.cores => if i in waiting then g.cores[i] else CoreStep(s, i, g.cores[i], g.mem))
  }

  lemma MovedOne(s: Shape, g: Gpu, waiting: set<nat>, i: nat)
    requires ValidGpu(s, g) && i in waiting && i < s.cores
    ensures Moved(s, g, waiting - {i}) == Moved(s, g, waiting)[i := CoreStep(s, i, g.cores[i], g.mem)]
  {
    hide CoreStep, ValidCore;
  }

  /** No core faults, now or through this cycle, and every core is clean. */
  ghost predicate CleanCycle(j: Job, g: Gpu)
    requires ValidGpu(j.shape, g)
  {
    forall i | 0 <= i < j.shape.cores ::
      && CoreClean(j.text, j.shape, g.cores[i], g.mem)
      && !CoreStep(j.shape, i, g.cores[i], g.mem).fault
  }

  lemma MoveHosted(j: Job, g: Gpu, cores: seq<Core>, fired: nat, threads: Threads, i: nat)
      returns (schedule: seq<Tid>, after: Threads)
    requires ValidGpu(j.shape, g) && CleanCycle(j, g) && TextSame(j.text, j.image, g.mem) && i < j.shape.cores
    requires CoresRel(j, cores, fired, threads) && cores[i] == g.cores[i] && !Stores(j.shape, g.cores[i])
    ensures Run(MACHINE, Sys(threads, g.mem), schedule) == Some(Sys(after, g.mem))
    ensures CoresRel(j, cores[i := CoreStep(j.shape, i, cores[i], g.mem)], fired, after)
  {
    hide CoreRel, CoreClean, CoreStep, NoValidWarp, Unstarted, DoneOrHoused, BlockOf, GoodJob, Domain, Run, ValidCore, ServesMemory;
    var c := cores[i];
    assert Hosts(j, i, c, fired, threads);
    if c.active {
      var b := BlockOf(j, c);
      schedule, after := CoreMoves(j, i, c, g.mem, b, threads);
      CtaKept(j.shape, i, c, g.mem);
      if !CoreStep(j.shape, i, c, g.mem).active { StopsWhenDone(j.shape, i, c, g.mem); }
      MoveCore(j, cores, fired, threads, i, CoreStep(j.shape, i, c, g.mem), after);
    } else {
      IdleStays(j.shape, i, c, g.mem);
      schedule, after := [], threads;
      EmptyRun(Sys(threads, g.mem));
      assert cores[i := c] == cores;
    }
  }

  lemma IdleStays(s: Shape, i: nat, c: Core, m: Mem)
    requires ValidCore(s, c) && ServesMemory(c) && !c.active
    ensures CoreStep(s, i, c, m) == c
  {
  }

  lemma {:induction false} EmptyRun(s: Sys<Tid, Thread>)
    ensures Run(MACHINE, s, []) == Some(s)
  {
  }

  function Waiting(s: Shape, g: Gpu, n: nat): set<nat>
    requires ValidGpu(s, g)
  {
    set i: nat | 0 <= i < s.cores && (i >= n || Stores(s, g.cores[i]))
  }

  lemma WaitingNext(s: Shape, g: Gpu, n: nat)
    requires ValidGpu(s, g) && n < s.cores
    ensures Waiting(s, g, n + 1) == if Stores(s, g.cores[n]) then Waiting(s, g, n) else Waiting(s, g, n) - {n}
    ensures n in Waiting(s, g, n)
  {
    hide Stores, ValidCore;
  }

  /** The first n cores that do not store have moved. */
  lemma {:induction false} QuietPhase(j: Job, g: Gpu, fired: nat, threads: Threads, n: nat)
      returns (schedule: seq<Tid>, after: Threads)
    requires DeviceRel(j, g, fired, threads) && CleanCycle(j, g) && n <= j.shape.cores
    ensures Run(MACHINE, Sys(threads, g.mem), schedule) == Some(Sys(after, g.mem))
    ensures CoresRel(j, Moved(j.shape, g, Waiting(j.shape, g, n)), fired, after)
  {
    hide CoreStep, CoresRel, CleanCycle, Stores, Run, Waiting, ValidGpu, Moved, KmuRel, TextSame;
    DeviceParts(j, g, fired, threads);
    if n == 0 {
      schedule, after := [], threads;
      EmptyRun(Sys(threads, g.mem));
      NobodyMoved(j.shape, g);
    } else {
      var before, middle := QuietPhase(j, g, fired, threads, n - 1);
      WaitingNext(j.shape, g, n - 1);
      if Stores(j.shape, g.cores[n - 1]) {
        schedule, after := before, middle;
      } else {
        var cores := Moved(j.shape, g, Waiting(j.shape, g, n - 1));
        var more, last := MoveHosted(j, g, cores, fired, middle, n - 1);
        MovedOne(j.shape, g, Waiting(j.shape, g, n - 1), n - 1);
        schedule, after := before + more, last;
        RunAppend(MACHINE, Sys(threads, g.mem), before, more);
      }
    }
  }

  lemma DeviceParts(j: Job, g: Gpu, fired: nat, threads: Threads)
    requires DeviceRel(j, g, fired, threads)
    ensures ValidGpu(j.shape, g) && |g.cores| == j.shape.cores && TextSame(j.text, j.image, g.mem)
    ensures CoresRel(j, g.cores, fired, threads)
  {
  }

  lemma NobodyMoved(s: Shape, g: Gpu)
    requires ValidGpu(s, g)
    ensures Moved(s, g, Waiting(s, g, 0)) == g.cores
  {
    hide CoreStep, Stores, ValidCore;
    forall i | 0 <= i < s.cores ensures i in Waiting(s, g, 0) {}
  }
}
