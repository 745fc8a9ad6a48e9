/** The register port of the dispatcher, by the names the runtime uses (sw/runtime/gpu/gpu.h): what a host
    has written last to each register is the launch, and the launch pulse starts just that. */
module RegisterPort {
  import opened Word
  import opened Memory
  import opened Isa
  import opened RoundRobin
  import opened SimtCore
  import opened Kmu
  import opened StoreOrder
  import opened Device
  import opened CoreRefinement
  import opened DeviceRefinement
  import opened DeviceRuns
  import opened Iss
  import opened Placement
  import opened DispatchOrder
  import opened Instructions

  datatype Field = StartupPc | LaunchArgs | LaunchArgsSize | Threads(axis: Axis) | Grid(axis: Axis) | BlockSize

  /** `GPU_DCR_STARTUP_PC` to `GPU_DCR_BLOCK_SIZE`. */
  function Address(f: Field): word {
    match f
    case StartupPc => 0x10
    case LaunchArgs => 0x11
    case LaunchArgsSize => 0x12
    case Threads(a) => 0x13 + Instructions.Place(a)
    case Grid(a) => 0x16 + Instructions.Place(a)
    case BlockSize => 0x19
  }

  /** What a register holds. */
  function Holds(k: Kmu, f: Field): word {
    match f
    case StartupPc => k.launch.startup
    case LaunchArgs => k.launch.args
    case LaunchArgsSize => k.argsSize
    case Threads(a) => Coordinate(k.launch.dim, a)
    case Grid(a) => Coordinate(k.launch.grid, a)
    case BlockSize => k.launch.bsize
  }

  predicate SameWalk(k: Kmu, l: Kmu) { l.block == k.block && l.running == k.running && l.rr == k.rr }

  /** A write changes the register at its address and no other, and never the walk over the grid. */
  lemma {:induction false} WriteSets(k: Kmu, addr: word, data: word, f: Field)
    ensures Holds(DcrWrite(k, addr, data), f) == if Address(f) == addr then data else Holds(k, f)
    ensures SameWalk(k, DcrWrite(k, addr, data))
  {
  }

  /** The registers are all there is to the launch. */
  lemma {:induction false} HoldsAll(k: Kmu, l: Kmu)
    requires SameWalk(k, l) && forall f: Field :: Holds(k, f) == Holds(l, f)
    ensures k == l
  {
    assert Holds(k, StartupPc) == Holds(l, StartupPc) && Holds(k, LaunchArgs) == Holds(l, LaunchArgs);
    assert Holds(k, LaunchArgsSize) == Holds(l, LaunchArgsSize) && Holds(k, BlockSize) == Holds(l, BlockSize);
    assert Holds(k, Threads(X)) == Holds(l, Threads(X)) && Holds(k, Threads(Y)) == Holds(l, Threads(Y));
    assert Holds(k, Threads(Z)) == Holds(l, Threads(Z)) && Holds(k, Grid(X)) == Holds(l, Grid(X));
    assert Holds(k, Grid(Y)) == Holds(l, Grid(Y)) && Holds(k, Grid(Z)) == Holds(l, Grid(Z));
  }

  /** Writes to different addresses commute. */
  lemma {:induction false} WritesCommute(k: Kmu, a: word, x: word, b: word, y: word)
    requires a != b
    ensures DcrWrite(DcrWrite(k, a, x), b, y) == DcrWrite(DcrWrite(k, b, y), a, x)
  {
    hide DcrWrite, Holds, Address;
    var ab, ba := DcrWrite(DcrWrite(k, a, x), b, y), DcrWrite(DcrWrite(k, b, y), a, x);
    forall f: Field ensures Holds(ab, f) == Holds(ba, f) {
      WriteSets(k, a, x, f);
      WriteSets(k, b, y, f);
      WriteSets(DcrWrite(k, a, x), b, y, f);
      WriteSets(DcrWrite(k, b, y), a, x, f);
    }
    WriteSets(k, a, x, StartupPc);
    WriteSets(k, b, y, StartupPc);
    WriteSets(DcrWrite(k, a, x), b, y, StartupPc);
    WriteSets(DcrWrite(k, b, y), a, x, StartupPc);
    HoldsAll(ab, ba);
  }

  // ---- Sequences of writes ----------------------------------------------------------------

  datatype Write = Write(addr: word, data: word)

  function WriteAll(k: Kmu, ws: seq<Write>): Kmu {
    if ws == [] then k else DcrWrite(WriteAll(k, ws[..|ws| - 1]), ws[|ws| - 1].addr, ws[|ws| - 1].data)
  }

  function LastWrite(ws: seq<Write>, addr: word): Option<word> {
    if ws == [] then None
    else if ws[|ws| - 1].addr == addr then Some(ws[|ws| - 1].data) else LastWrite(ws[..|ws| - 1], addr)
  }

  /** Each register holds what was last written to its address, or what it held before. */
  lemma {:induction false} LastWriteHolds(k: Kmu, ws: seq<Write>, f: Field)
    ensures Holds(WriteAll(k, ws), f) == match LastWrite(ws, Address(f)) case None => Holds(k, f) case Some(d) => d
    ensures SameWalk(k, WriteAll(k, ws))
  {
    hide DcrWrite, Holds, Address;
    if ws != [] {
      LastWriteHolds(k, ws[..|ws| - 1], f);
      WriteSets(WriteAll(k, ws[..|ws| - 1]), ws[|ws| - 1].addr, ws[|ws| - 1].data, f);
    }
  }

  /** The launch a register belongs to. */
  function Wanted(l: Launch, f: Field): Option<word> {
    match f
    case StartupPc => Some(l.startup)
    case LaunchArgs => Some(l.args)
    case LaunchArgsSize => None
    case Threads(a) => Some(Coordinate(l.dim, a))
    case Grid(a) => Some(Coordinate(l.grid, a))
    case BlockSize => Some(l.bsize)
  }

  /** The last write to each register of the launch is that of l. */
  ghost predicate Programs(ws: seq<Write>, l: Launch) {
    forall f: Field | Wanted(l, f).Some? :: LastWrite(ws, Address(f)) == Wanted(l, f)
  }

  /** Whatever the registers held before, they then hold the launch. */
  lemma {:induction false} ProgramsLaunch(k: Kmu, ws: seq<Write>, l: Launch)
    requires Programs(ws, l)
    ensures WriteAll(k, ws).launch == l && SameWalk(k, WriteAll(k, ws))
  {
    hide WriteAll, LastWrite, Address;
    var u := WriteAll(k, ws);
    forall f: Field | Wanted(l, f).Some? ensures Holds(u, f) == Wanted(l, f).value {
      LastWriteHolds(k, ws, f);
    }
    LastWriteHolds(k, ws, StartupPc);
    assert Holds(u, StartupPc) == l.startup && Holds(u, LaunchArgs) == l.args && Holds(u, BlockSize) == l.bsize;
    assert Holds(u, Threads(X)) == l.dim.x && Holds(u, Threads(Y)) == l.dim.y && Holds(u, Threads(Z)) == l.dim.z;
    assert Holds(u, Grid(X)) == l.grid.x && Holds(u, Grid(Y)) == l.grid.y && Holds(u, Grid(Z)) == l.grid.z;
  }

  /** The writes of the runtime for a launch. */
  function Programming(l: Launch, size: word): seq<Write> {
    [Write(0x10, l.startup), Write(0x11, l.args), Write(0x12, size), Write(0x13, l.dim.x), Write(0x14, l.dim.y),
     Write(0x15, l.dim.z), Write(0x16, l.grid.x), Write(0x17, l.grid.y), Write(0x18, l.grid.z), Write(0x19, l.bsize)]
  }

  /** They program it, in any order. */
  lemma {:induction false} RuntimePrograms(l: Launch, size: word)
    ensures Programs(Programming(l, size), l)
  {
    var ws := Programming(l, size);
    forall f: Field | Wanted(l, f).Some? ensures LastWrite(ws, Address(f)) == Wanted(l, f) {
      Recalled(ws, Address(f) - 0x10);
    }
  }

  /** With one write an address, the last write is the write. */
  lemma {:induction false} Recalled(ws: seq<Write>, i: nat)
    requires i < |ws| && forall a, b | 0 <= a < b < |ws| :: ws[a].addr != ws[b].addr
    ensures LastWrite(ws, ws[i].addr) == Some(ws[i].data)
  {
    if i < |ws| - 1 { Recalled(ws[..|ws| - 1], i); }
  }

  // ---- The port of the scalar simulator ---------------------------------------------------

  function SimulatorWrites(l: Launch, ws: seq<Write>): Launch {
    if ws == [] then l else RegisterWritten(SimulatorWrites(l, ws[..|ws| - 1]), ws[|ws| - 1].addr, ws[|ws| - 1].data)
  }

  lemma {:induction false} SameRegister(k: Kmu, addr: word, data: word)
    ensures RegisterWritten(k.launch, addr, data) == DcrWrite(k, addr, data).launch
  {
  }

  /** The same writes leave the same launch in the dispatcher and in the scalar simulator. */
  lemma {:induction false} SamePort(k: Kmu, ws: seq<Write>)
    ensures SimulatorWrites(k.launch, ws) == WriteAll(k, ws).launch
  {
    hide RegisterWritten, DcrWrite;
    if ws != [] {
      SamePort(k, ws[..|ws| - 1]);
      SameRegister(WriteAll(k, ws[..|ws| - 1]), ws[|ws| - 1].addr, ws[|ws| - 1].data);
    }
  }

  /** So a programmed simulator holds the launch as well. */
  lemma {:induction false} ProgramsSimulator(l: Launch, ws: seq<Write>, wanted: Launch)
    requires Programs(ws, wanted)
    ensures SimulatorWrites(l, ws) == wanted
  {
    hide Programs, WriteAll, SimulatorWrites;
    var k := RESET_KMU.(launch := l);
    SamePort(k, ws);
    ProgramsLaunch(k, ws, wanted);
  }

  /** After reset both hold the launch of one thread at the start of the kernel area. */
  lemma {:induction false} ResetLaunches()
    ensures RESET_KMU.launch == RESET_LAUNCH && LaunchAccepted(RESET_LAUNCH) && LaunchRight(RESET_LAUNCH)
    ensures ThreadCount(RESET_LAUNCH) == 1 && RESET_LAUNCH.startup == KERNEL_BASE && !RESET_KMU.running
  {
  }

  /** The launch pulse starts the walk at the first block exactly when neither the grid nor the block is
      empty. */
  lemma {:induction false} PulseStarts(k: Kmu, ready: seq<bool>)
    ensures var u := KmuStep(k, PULSE, ready);
            u == k.(block := Dim3(0, 0, 0), running := u.running) && (u.running <==> NonEmpty(k.launch.grid) && k.launch.bsize >= 1)
  {
  }

  /** Otherwise nothing is dispatched, whatever ran before the pulse and whichever cores are ready. */
  lemma {:induction false} EmptyLaunchFiresNothing(k: Kmu, ready: seq<bool>, readies: seq<seq<bool>>)
    requires !NonEmpty(k.launch.grid) || k.launch.bsize == 0
    ensures Fires(KmuStep(k, PULSE, ready), readies) == [] && !KmuRun(KmuStep(k, PULSE, ready), readies).running
  {
    hide KmuStep, Scan;
    PulseStarts(k, ready);
    var u := KmuStep(k, PULSE, ready);
    if readies != [] {
      EmptyLaunchFiresNothing(k, ready, readies[..|readies| - 1]);
      StandsStill(KmuRun(u, readies[..|readies| - 1]), readies[|readies| - 1]);
    }
  }

  lemma {:induction false} StandsStill(k: Kmu, ready: seq<bool>)
    requires !k.running
    ensures Dispatch(k, ready) == None && KmuStep(k, IDLE, ready) == k
  {
  }

  // ---- A device programmed over the port --------------------------------------------------

  function WriteInput(w: Write): Inputs { Inputs(true, w.addr, w.data, false) }

  /** A cycle of a device at rest that writes a register changes nothing else. */
  lemma {:induction false} RestWrites(s: Shape, g: Gpu, w: Write)
    requires AtRestNow(s, g)
    ensures Fired(g) == None
    ensures Cycle(s, g, WriteInput(w)) == g.(kmu := DcrWrite(g.kmu, w.addr, w.data)) && AtRestNow(s, Cycle(s, g, WriteInput(w)))
  {
    hide NoValidWarp, ValidCore, ServesMemory, DcrWrite;
    NothingPending(s, g.cores);
    forall i | 0 <= i < s.cores ensures NextCore(s, g, None, i) == g.cores[i] {
      IdleStays(s, i, g.cores[i], g.mem);
    }
    assert NextCores(s, g, None) == g.cores;
    assert Sort(Firsts([])) == [] && ApplyStores(g.mem, []) == g.mem;
    WriteSets(g.kmu, w.addr, w.data, StartupPc);
  }

  /** The device after a cycle for each write. */
  ghost function WriteCycles(s: Shape, g: Gpu, ws: seq<Write>): (r: Gpu)
    requires AtRestNow(s, g)
    ensures AtRestNow(s, r) && r == g.(kmu := WriteAll(g.kmu, ws))
  {
    hide AtRestNow, Cycle, DcrWrite, Fired;
    if ws == [] then g
    else
      var before := WriteCycles(s, g, ws[..|ws| - 1]);
      RestWrites(s, before, ws[|ws| - 1]);
      Cycle(s, before, WriteInput(ws[|ws| - 1]))
  }

  /** The device after these cycles and the launch pulse. */
  ghost function Programmed(s: Shape, g: Gpu, ws: seq<Write>): Gpu
    requires AtRestNow(s, g)
  {
    AtRestFires(s, WriteCycles(s, g, ws));
    Cycle(s, WriteCycles(s, g, ws), PULSE)
  }

  lemma {:induction false} AtRestFires(s: Shape, g: Gpu)
    requires AtRestNow(s, g)
    ensures ValidGpu(s, g) && Fired(g) == None
  {
  }

  /** The core has just been given the block. */
  predicate AtBlock(c: Core, block: Dim3, l: Launch) {
    c.active && c.cta == Cta(block, l.dim, l.grid, l.args) && forall w | 0 <= w < |c.warps| :: c.warps[w].pc == l.startup
  }

  /** From any device at rest: writing the registers of a good job and pulsing the launch starts that job,
      and however the run goes, its j-th dispatch takes the block with index j to a core. */
  lemma {:induction false} ProgrammedDispatches(j: Job, g: Gpu, ws: seq<Write>, n: nat)
    requires GoodJob(j) && AtRestNow(j.shape, g) && g.mem == j.image && Programs(ws, j.launch)
    ensures var u := Programmed(j.shape, g, ws);
            && StartedAtRest(j, u) && u.kmu.rr == g.kmu.rr && DividesLaunch(j.launch) && DividesLaunch(u.kmu.launch)
            && ValidGpu(j.shape, u) && j.launch.grid.x * j.launch.grid.y >= 1
            && (Fired(GpuRun(j.shape, u, n)).Some? ==>
                  var b, i := |Homes(j.shape, u, n)|, Fired(GpuRun(j.shape, u, n)).value;
                  && b < Blocks(j.launch.grid) <= WORD_SPAN && i < j.shape.cores
                  && AtBlock(GpuRun(j.shape, u, n + 1).cores[i], Unlinear(b, j.launch.grid), j.launch))
  {
    hide AtRestNow, Cycle, WriteAll, Programs, GpuRun, Homes, NoValidWarp, ValidCore, ServesMemory;
    ProgramsLaunch(g.kmu, ws, j.launch);
    var rest := WriteCycles(j.shape, g, ws);
    AtRestFires(j.shape, rest);
    LaunchPulse(j, rest);
    JobDivides(j);
    JobSizes(j);
    var u := Programmed(j.shape, g, ws);
    AtRest(j, u);
    if Fired(GpuRun(j.shape, u, n)).Some? {
      DispatchCount(j, u, n);
      NextDispatch(j, u, n);
    }
  }

  lemma {:induction false} NextDispatch(j: Job, u: Gpu, n: nat)
    requires GoodJob(j) && ValidGpu(j.shape, u) && u.kmu.launch == j.launch && DividesLaunch(u.kmu.launch)
    requires KmuRel(j, GpuRun(j.shape, u, n).kmu, |Homes(j.shape, u, n)|) && Fired(GpuRun(j.shape, u, n)).Some?
    ensures j.launch.grid.x * j.launch.grid.y >= 1 && NonEmpty(j.launch.grid)
    ensures var b, i := |Homes(j.shape, u, n)|, Fired(GpuRun(j.shape, u, n)).value;
            && b < Blocks(j.launch.grid) <= WORD_SPAN && i < j.shape.cores
            && AtBlock(GpuRun(j.shape, u, n + 1).cores[i], Unlinear(b, j.launch.grid), j.launch)
  {
    hide Blocks, Pos, Homes, ValidCore, ServesMemory, CoreStep, KmuStep, Sort, Pending, ApplyStores, AnyReadFails, AnyStoreFails,
      AnyPackFails, Scan, Unlinear;
    JobSizes(j);
    var v := GpuRun(j.shape, u, n);
    UnlinearPos(v.kmu.block, j.launch.grid);
    assert GpuRun(j.shape, u, n + 1) == Cycle(j.shape, v, IDLE);
  }
}
