/** The claim the final memory comparison rests on: for race-free kernels the device and the scalar
    simulator leave the same memory. */
module EndToEnd {
  import opened Word
  import opened Arith
  import opened Memory
  import opened Isa
  import opened Interleaving
  import opened Scalar
  import opened RoundRobin
  import opened SimtCore
  import opened CoreRefinement
  import opened Kmu
  import opened Device
  import opened DeviceRefinement
  import opened DeviceRuns
  import opened Iss
  import Runtime

  // ---- Thread numbers and grid positions --------------------------------------------------

  function Total(j: Job): nat { Blocks(j.launch.grid) * j.launch.bsize }

  function IndexOf(j: Job, k: Tid): nat { k.block * j.launch.bsize + Place(j, k) }

  function TidOf(j: Job, i: nat): Tid
    requires j.launch.bsize >= 1 && j.shape.threads >= 1
  {
    var local := i % j.launch.bsize;
    DivShrinks(i, j.launch.bsize);
    DivShrinks(local, j.shape.threads);
    Tid(i / j.launch.bsize, local / j.shape.threads, local % j.shape.threads)
  }

  lemma IndexInRange(j: Job, k: Tid)
    requires GoodJob(j) && IsThread(j, k)
    ensures IndexOf(j, k) < Total(j) && TidOf(j, IndexOf(j, k)) == k
  {
    hide Blocks;
    JobSizes(j);
    ThreadNumbering(Blocks(j.launch.grid), j.launch.bsize, k.block, Place(j, k), 0);
    QuotientUnique(Place(j, k), j.shape.threads, k.warp, k.lane);
  }

  lemma TidInGrid(j: Job, i: nat)
    requires GoodJob(j) && i < Total(j)
    ensures IsThread(j, TidOf(j, i)) && IndexOf(j, TidOf(j, i)) == i
  {
    hide Blocks;
    JobSizes(j);
    ThreadNumbering(Blocks(j.launch.grid), j.launch.bsize, 0, 0, i);
    var local := i % j.launch.bsize;
    DivBelow(local, j.shape.threads, j.shape.warps);
  }

  /** Blocks are at home where the scalar simulator assumes them. */
  predicate ScalarHomes(j: Job) {
    j.shape.cores >= 1 && forall b | 0 <= b < |j.home| :: j.home[b] == b % j.shape.cores
  }

  lemma JobLaunches(j: Job)
    requires GoodJob(j)
    ensures LaunchFits(j.launch) && LaunchAccepted(j.launch) && Divisible(j.shape, j.launch)
    ensures Total(j) == Blocks(j.launch.grid) * j.launch.bsize == ThreadCount(j.launch)
  {
    JobSizes(j);
    AcceptedIff(j.launch);
  }

  lemma SmallUnlinear(i: nat, d: Dim3)
    requires NonEmpty(d) && d.x * d.y >= 1 && i < Blocks(d) && Blocks(d) < WORD_SPAN && Mul(d.x, d.y) >= 1
    ensures Unlinear(i, d) == Dim3(Wrap(i % d.x), Wrap(i / d.x % d.y), Wrap(i / Mul(d.x, d.y)))
  {
    hide Blocks;
    ProductExact(d);
    DivShrinks(i, d.x);
    DivShrinks(i, d.x * d.y);
  }

  lemma SmallNumber(j: Job, i: nat)
    requires GoodJob(j) && i < Total(j)
    ensures i < WORD_SPAN && i / j.launch.bsize < Blocks(j.launch.grid) && i % j.launch.bsize < j.launch.bsize
    ensures i / j.launch.bsize * j.launch.bsize + i % j.launch.bsize == i
  {
    hide Blocks;
    JobSizes(j);
    ThreadNumbering(Blocks(j.launch.grid), j.launch.bsize, 0, 0, i);
  }

  /** The context the simulator sets up for number i is the seed of the thread at that position. */
  lemma ContextIsSeed(j: Job, i: nat)
    requires GoodJob(j) && ScalarHomes(j) && i < Total(j)
    ensures Divisible(j.shape, j.launch) && IsThread(j, TidOf(j, i))
    ensures Context(j.shape, j.launch, i) == Seed(j, TidOf(j, i))
  {
    hide Blocks, Unlinear, Mul, LaunchFits, LaunchAccepted;
    JobSizes(j);
    JobLaunches(j);
    SmallNumber(j, i);
    TidInGrid(j, i);
    var local, block := i % j.launch.bsize, i / j.launch.bsize;
    SmallUnlinear(local, j.launch.dim);
    SmallUnlinear(block, j.launch.grid);
    assert Place(j, TidOf(j, i)) == local;
  }

  // ---- Simulator states as systems of threads ---------------------------------------------

  function SysOf(j: Job, s: IssState): Sys<Tid, Thread>
    requires GoodJob(j) && |s.cores| == Total(j)
  {
    SeedKeys(j);
    Sys(map k | k in Seeds(j) :: ContextOf(j, s.cores, k), s.mem)
  }

  function ContextOf(j: Job, cores: seq<Thread>, k: Tid): Thread
    requires GoodJob(j) && IsThread(j, k) && |cores| == Total(j)
  {
    IndexInRange(j, k);
    cores[IndexOf(j, k)]
  }

  lemma SeedKeys(j: Job)
    requires GoodJob(j)
    ensures forall k :: k in Seeds(j) <==> IsThread(j, k)
  {
    SeedsComplete(j);
  }

  function IssStart(j: Job): IssState
    requires GoodJob(j)
  {
    JobLaunches(j);
    IssState(Contexts(j.shape, j.launch), 0, false, false, j.image)
  }

  lemma LaunchIsSeeded(j: Job)
    requires GoodJob(j) && ScalarHomes(j)
    ensures |IssStart(j).cores| == Total(j) && SysOf(j, IssStart(j)) == Seeded(j)
  {
    hide Seed, Context, IndexOf, TidOf, LaunchAccepted, LaunchFits, ThreadCount, Divisible;
    JobLaunches(j);
    SeedKeys(j);
    forall k | IsThread(j, k) ensures ContextOf(j, IssStart(j).cores, k) == Seed(j, k) {
      IndexInRange(j, k);
      ContextIsSeed(j, IndexOf(j, k));
    }
    assert SysOf(j, IssStart(j)).threads == Seeds(j);
  }

  lemma ContextUpdate(j: Job, cores: seq<Thread>, i: nat, t: Thread, k: Tid)
    requires GoodJob(j) && IsThread(j, k) && |cores| == Total(j) && i < Total(j)
    ensures ContextOf(j, cores[i := t], k) == if k == TidOf(j, i) then t else ContextOf(j, cores, k)
  {
    IndexInRange(j, k);
    TidInGrid(j, i);
  }

  lemma SysUpdate(j: Job, s: IssState, i: nat, t: Thread, m: Mem)
    requires GoodJob(j) && |s.cores| == Total(j) && i < Total(j)
    ensures IsThread(j, TidOf(j, i)) && TidOf(j, i) in SysOf(j, s).threads
    ensures SysOf(j, s).threads[TidOf(j, i)] == s.cores[i]
    ensures SysOf(j, s.(cores := s.cores[i := t], mem := m)) == Sys(SysOf(j, s).threads[TidOf(j, i) := t], m)
  {
    hide IndexOf, TidOf, Seeds, GoodJob;
    TidInGrid(j, i);
    SeedKeys(j);
    var after := s.cores[i := t];
    forall k | IsThread(j, k)
      ensures ContextOf(j, after, k) == if k == TidOf(j, i) then t else ContextOf(j, s.cores, k)
    {
      ContextUpdate(j, s.cores, i, t, k);
    }
    assert ContextOf(j, s.cores, TidOf(j, i)) == s.cores[i];
    assert SysOf(j, s.(cores := after, mem := m)).threads == SysOf(j, s).threads[TidOf(j, i) := t];
  }

  // ---- A simulator run is a schedule ------------------------------------------------------

  predicate Sound(s: IssState) { !s.faulted && !s.aborted }

  lemma StepThreadIsStep(s: IssState, i: nat)
    requires i < |s.cores| && Sound(s) && !s.cores[i].halted && Sound(StepThread(s, i))
    ensures Step(s.mem, s.cores[i]).Done?
    ensures var o := Step(s.mem, s.cores[i]); StepThread(s, i) == s.(cores := s.cores[i := o.thread], mem := o.mem)
  {
    hide Perform, Clashes, FaultedThread, Load32;
  }

  lemma StepThreadRuns(j: Job, s: IssState, i: nat)
    requires GoodJob(j) && |s.cores| == Total(j) && i < Total(j)
    requires Sound(s) && !s.cores[i].halted && Sound(StepThread(s, i))
    ensures j.launch.bsize >= 1
    ensures CanStep(MACHINE, SysOf(j, s), TidOf(j, i))
    ensures StepOf(MACHINE, SysOf(j, s), TidOf(j, i)) == SysOf(j, StepThread(s, i))
  {
    hide Step, StepThread, SysOf, TidOf, GoodJob;
    StepThreadIsStep(s, i);
    var o := Step(s.mem, s.cores[i]);
    SysUpdate(j, s, i, o.thread, o.mem);
    SysMem(j, s);
  }

  lemma SysMem(j: Job, s: IssState)
    requires GoodJob(j) && |s.cores| == Total(j)
    ensures SysOf(j, s).mem == s.mem
  {
  }

  /** A step of a simulator that is not done executes the instruction of one running thread. */
  lemma StepPicks(s: IssState) returns (i: nat)
    requires !s.aborted && !IssDone(s) && s.rr < |s.cores|
    ensures i < |s.cores| && !s.cores[i].halted && IssStep(s) == StepThread(s.(rr := (i + 1) % |s.cores|), i)
    ensures IssStep(s).rr < |s.cores|
    ensures Scan(Running(s.cores), s.rr, 0) == Some(i)
  {
    hide StepThread;
    SomeoneRuns(s);
    i := Scan(Running(s.cores), s.rr, 0).value;
    assert Running(s.cores)[i];
  }

  lemma StaysSound(s: IssState)
    requires Sound(IssStep(s))
    ensures Sound(s)
  {
    hide Perform, Clashes, FaultedThread, Load32;
  }

  lemma RotationIrrelevant(j: Job, s: IssState, r: nat)
    requires GoodJob(j) && |s.cores| == Total(j)
    ensures SysOf(j, s.(rr := r)) == SysOf(j, s)
  {
  }

  /** A fault-free run of the simulator is a schedule of the threads, one step per call until every
      thread has halted. */
  lemma {:induction false} IssIsSchedule(j: Job, s: IssState, n: nat) returns (schedule: seq<Tid>)
    requires GoodJob(j) && |s.cores| == Total(j) && s.rr < |s.cores| && Sound(IssRun(s, n))
    ensures Sound(s) && IssRun(s, n).rr < |s.cores|
    ensures Run(MACHINE, SysOf(j, s), schedule) == Some(SysOf(j, IssRun(s, n)))
    ensures |schedule| <= n
    ensures !IssDone(IssRun(s, n)) ==> |schedule| == n
  {
    hide IssStep, SysOf, Run, GoodJob, Sound;
    if n == 0 {
      schedule := [];
      NoSteps(SysOf(j, s));
    } else {
      var u := IssRun(s, n - 1);
      StaysSound(u);
      schedule := IssIsSchedule(j, s, n - 1);
      if IssDone(u) {
        DoneStays(u);
      } else {
        var k := OneCall(j, u);
        RunSnoc(MACHINE, SysOf(j, s), schedule, SysOf(j, u), k);
        schedule := schedule + [k];
      }
    }
  }

  lemma {:induction false} NoSteps(s: Sys<Tid, Thread>)
    ensures Run(MACHINE, s, []) == Some(s)
  {
  }

  lemma DoneStays(s: IssState)
    requires IssDone(s)
    ensures IssStep(s) == s
  {
  }

  /** The call executes thread i next. */
  ghost predicate Picks(u: IssState, i: nat) {
    && i < |u.cores| && !u.cores[i].halted
    && IssStep(u) == StepThread(u.(rr := (i + 1) % |u.cores|), i)
  }

  lemma PickedRuns(j: Job, u: IssState, i: nat)
    requires GoodJob(j) && |u.cores| == Total(j) && Sound(u) && Sound(IssStep(u)) && Picks(u, i)
    ensures j.launch.bsize >= 1 && j.shape.threads >= 1
    ensures CanStep(MACHINE, SysOf(j, u), TidOf(j, i))
    ensures StepOf(MACHINE, SysOf(j, u), TidOf(j, i)) == SysOf(j, IssStep(u))
  {
    hide StepThread, SysOf, GoodJob, CanStep, StepOf, IssStep, TidOf;
    var turned := u.(rr := (i + 1) % |u.cores|);
    SeedDivisors(j);
    StepThreadRuns(j, turned, i);
    RotationIrrelevant(j, u, turned.rr);
  }

  lemma OneCall(j: Job, u: IssState) returns (k: Tid)
    requires GoodJob(j) && |u.cores| == Total(j) && u.rr < |u.cores| && Sound(u) && Sound(IssStep(u)) && !IssDone(u)
    ensures CanStep(MACHINE, SysOf(j, u), k) && StepOf(MACHINE, SysOf(j, u), k) == SysOf(j, IssStep(u))
    ensures IssStep(u).rr < |u.cores|
  {
    hide StepThread, SysOf, GoodJob, CanStep, StepOf, IssStep, IssDone, TidOf;
    var i := StepPicks(u);
    PickedRuns(j, u, i);
    SeedDivisors(j);
    k := TidOf(j, i);
  }

  lemma SeedDivisors(j: Job)
    requires GoodJob(j)
    ensures j.launch.bsize >= 1 && j.shape.threads >= 1
  {
    JobSizes(j);
  }

  /** A finished, fault-free simulator has run a complete schedule. */
  lemma IssCompletes(j: Job, s: IssState, n: nat) returns (schedule: seq<Tid>)
    requires GoodJob(j) && |s.cores| == Total(j) && s.rr < |s.cores|
    requires Sound(IssRun(s, n)) && IssDone(IssRun(s, n))
    ensures Completes(MACHINE, SysOf(j, s), schedule)
    ensures Run(MACHINE, SysOf(j, s), schedule).value.mem == IssRun(s, n).mem
  {
    hide Run, IssRun;
    schedule := IssIsSchedule(j, s, n);
    AllContextsHalted(j, IssRun(s, n));
    SysMem(j, IssRun(s, n));
  }

  lemma AllContextsHalted(j: Job, s: IssState)
    requires GoodJob(j) && |s.cores| == Total(j) && (forall i | 0 <= i < |s.cores| :: s.cores[i].halted)
    ensures AllHalted(MACHINE, SysOf(j, s))
  {
    forall k | IsThread(j, k) ensures ContextOf(j, s.cores, k).halted {
      IndexInRange(j, k);
    }
    SeedKeys(j);
  }

  // ---- The two simulators agree -----------------------------------------------------------

  ghost predicate RaceFreeJob(j: Job)
    requires GoodJob(j)
  {
    RaceFree(MACHINE, Seeded(j))
  }

  /** The device ran job j cleanly for n cycles and is no longer busy. */
  ghost predicate DeviceCompletes(j: Job, g: Gpu, n: nat) {
    && Started(j, g) && DividesLaunch(g.kmu.launch) && CleanRun(j, g, n) && Homes(j.shape, g, n) <= j.home
    && !Busy(GpuRun(j.shape, g, n))
  }

  lemma StartSizes(j: Job)
    requires GoodJob(j)
    ensures |IssStart(j).cores| == Total(j) && IssStart(j).rr < |IssStart(j).cores|
  {
    hide Blocks, LaunchAccepted, LaunchFits, ThreadCount, Divisible;
    JobSizes(j);
    JobLaunches(j);
    MulMono(Blocks(j.launch.grid), 0, j.launch.bsize);
  }

  /** A finished, fault-free simulator has the memory of every complete schedule of a race-free job. */
  lemma {:induction false} ScheduleAgrees(j: Job, complete: seq<Tid>, p: nat)
    requires GoodJob(j) && ScalarHomes(j) && RaceFreeJob(j) && Completes(MACHINE, Seeded(j), complete)
    requires Sound(IssRun(IssStart(j), p)) && IssDone(IssRun(IssStart(j), p))
    ensures IssRun(IssStart(j), p).mem == Run(MACHINE, Seeded(j), complete).value.mem
  {
    hide Run, IssRun, IssDone, Sound, Completes, RaceFree, Seeded, IssStart, GoodJob, ScalarHomes;
    StartSizes(j);
    LaunchIsSeeded(j);
    MachineIsLocal();
    var second := IssCompletes(j, IssStart(j), p);
    ScheduleIndependence(MACHINE, Seeded(j), complete, second);
  }

  /** For a race-free job a clean run of the device to its end and a fault-free run of the scalar
      simulator to its end leave the same memory. */
  lemma {:induction false} SimulatorsAgree(j: Job, g: Gpu, n: nat, p: nat)
    requires DeviceCompletes(j, g, n) && ScalarHomes(j) && RaceFreeJob(j)
    requires Sound(IssRun(IssStart(j), p)) && IssDone(IssRun(IssStart(j), p))
    ensures IssRun(IssStart(j), p).mem == GpuRun(j.shape, g, n).mem
  {
    hide Run, IssRun, GpuRun, IssDone, Sound, Busy, CleanRun, Homes, Started, Completes, RaceFree, Seeded, IssStart, Cycle;
    StartedParts(j, g);
    var first := BusyFallsComplete(j, g, n);
    ScheduleAgrees(j, first, p);
  }

  // ---- The scalar simulator must finish as well -------------------------------------------

  /** The instruction executed next meets a differing jump target in its warp. */
  predicate ClashNext(s: IssState) {
    match Scan(Running(s.cores), s.rr, 0)
    case Some(i) => Clashes(s.cores, i, Load32(s.mem, s.cores[i].pc))
    case None => false
  }

  lemma StepIsSound(s: IssState, i: nat)
    requires i < |s.cores| && Sound(s) && !s.cores[i].halted && Step(s.mem, s.cores[i]).Done?
    requires !Clashes(s.cores, i, Load32(s.mem, s.cores[i].pc))
    ensures Sound(StepThread(s, i))
  {
    hide Perform, Clashes, FaultedThread, Load32;
  }

  /** The thread at index i has not halted in this reachable state, so it can step. */
  lemma {:induction false} PickedCanStep(j: Job, complete: seq<Tid>, schedule: seq<Tid>, u: IssState, i: nat)
    requires GoodJob(j) && RaceFreeJob(j) && Completes(MACHINE, Seeded(j), complete)
    requires |u.cores| == Total(j) && i < |u.cores| && !u.cores[i].halted
    requires Run(MACHINE, Seeded(j), schedule) == Some(SysOf(j, u))
    ensures Step(u.mem, u.cores[i]).Done?
  {
    hide Step, SysOf, GoodJob, RaceFree, Completes, Run, TidOf, Seeded;
    SeedDivisors(j);
    MachineIsLocal();
    SysUpdate(j, u, i, u.cores[i], u.mem);
    SysMem(j, u);
    NoScheduleFaults(MACHINE, Seeded(j), complete, schedule, TidOf(j, i));
  }

  /** Once the device has completed a race-free job, the scalar simulator cannot fault or abort,
      except where the comparison across a warp stops it. */
  lemma IssKeepsGoing(j: Job, complete: seq<Tid>, p: nat)
    requires GoodJob(j) && ScalarHomes(j) && RaceFreeJob(j) && Completes(MACHINE, Seeded(j), complete)
    requires Sound(IssRun(IssStart(j), p)) && !ClashNext(IssRun(IssStart(j), p))
    ensures Sound(IssRun(IssStart(j), p + 1))
  {
    hide Run, IssStep, SysOf, GoodJob, Completes, RaceFreeJob, Sound, IssDone, IssStart, StepThread, Clashes, Running;
    StartSizes(j);
    LaunchIsSeeded(j);
    var u := IssRun(IssStart(j), p);
    var schedule := IssIsSchedule(j, IssStart(j), p);
    if IssDone(u) {
      DoneStays(u);
    } else {
      NotAborted(u);
      var i := StepPicks(u);
      PickedCanStep(j, complete, schedule, u, i);
      TurnedSound(u, (i + 1) % |u.cores|);
      StepIsSound(u.(rr := (i + 1) % |u.cores|), i);
    }
  }

  lemma NotAborted(s: IssState)
    requires Sound(s)
    ensures !s.aborted
  {
  }

  lemma TurnedSound(s: IssState, r: nat)
    requires Sound(s)
    ensures Sound(s.(rr := r))
  {
  }

  lemma {:induction false} IssStaysSound(j: Job, complete: seq<Tid>, p: nat)
    requires GoodJob(j) && ScalarHomes(j) && RaceFreeJob(j) && Completes(MACHINE, Seeded(j), complete)
    requires forall q: nat :: !ClashNext(IssRun(IssStart(j), q))
    ensures Sound(IssRun(IssStart(j), p))
  {
    hide IssStep, ClashNext, RaceFreeJob, Completes, GoodJob;
    if p > 0 {
      IssStaysSound(j, complete, p - 1);
      IssKeepsGoing(j, complete, p - 1);
    }
  }

  lemma AllHaltedDone(j: Job, s: IssState)
    requires GoodJob(j) && |s.cores| == Total(j) && AllHalted(MACHINE, SysOf(j, s)) && s.cores != []
    ensures IssDone(s)
  {
    hide GoodJob, Seeds, TidOf, IndexOf;
    forall i | 0 <= i < |s.cores| ensures s.cores[i].halted {
      SeedDivisors(j);
      SysUpdate(j, s, i, s.cores[i], s.mem);
    }
  }

  /** Once a race-free job has a complete schedule and its warps never disagree on an indirect jump in
      the simulator, the simulator completes after exactly as many instructions, in the same memory. */
  lemma {:induction false} SimulatorFollows(j: Job, complete: seq<Tid>)
    requires GoodJob(j) && ScalarHomes(j) && RaceFreeJob(j) && Completes(MACHINE, Seeded(j), complete)
    requires forall q: nat :: !ClashNext(IssRun(IssStart(j), q))
    ensures Sound(IssRun(IssStart(j), |complete|)) && IssDone(IssRun(IssStart(j), |complete|))
    ensures IssRun(IssStart(j), |complete|).mem == Run(MACHINE, Seeded(j), complete).value.mem
  {
    hide Run, IssRun, IssDone, Sound, Completes, RaceFree, Seeded, IssStart, ClashNext, GoodJob, ScalarHomes;
    StartSizes(j);
    LaunchIsSeeded(j);
    MachineIsLocal();
    var p := |complete|;
    IssStaysSound(j, complete, p);
    var schedule := IssIsSchedule(j, IssStart(j), p);
    if !IssDone(IssRun(IssStart(j), p)) {
      LengthDecides(MACHINE, Seeded(j), complete, schedule);
      CompletesHalts(j, schedule, IssRun(IssStart(j), p));
    }
    ScheduleAgrees(j, complete, p);
  }

  /** When the device completes a race-free job whose warps never disagree on an indirect jump in
      the simulator, the simulator completes too, after as many instructions as the device executed
      lane by lane (the length of its schedule), and leaves the same memory. */
  lemma SimulatorMustAgree(j: Job, g: Gpu, n: nat) returns (schedule: seq<Tid>)
    requires DeviceCompletes(j, g, n) && ScalarHomes(j) && RaceFreeJob(j)
    requires forall q: nat :: !ClashNext(IssRun(IssStart(j), q))
    ensures Completes(MACHINE, Seeded(j), schedule) && Run(MACHINE, Seeded(j), schedule).value.mem == GpuRun(j.shape, g, n).mem
    ensures Sound(IssRun(IssStart(j), |schedule|)) && IssDone(IssRun(IssStart(j), |schedule|))
    ensures IssRun(IssStart(j), |schedule|).mem == GpuRun(j.shape, g, n).mem
  {
    hide Run, IssRun, GpuRun, IssDone, Sound, Busy, CleanRun, Homes, Started, Completes, RaceFree, Seeded, IssStart, Cycle, ClashNext;
    StartedParts(j, g);
    schedule := BusyFallsComplete(j, g, n);
    SimulatorFollows(j, schedule);
  }

  lemma {:induction false} CompletesHalts(j: Job, schedule: seq<Tid>, s: IssState)
    requires GoodJob(j) && |s.cores| == Total(j) && s.rr < |s.cores|
    requires Completes(MACHINE, Seeded(j), schedule) && Run(MACHINE, Seeded(j), schedule) == Some(SysOf(j, s))
    ensures IssDone(s)
  {
    hide Run, SysOf, GoodJob, Seeded;
    AllHaltedDone(j, s);
  }

  // ---- Requests of the runtime ------------------------------------------------------------

  /** Every launch the runtime lets through is a good job, and the scalar simulator accepts it. */
  lemma AcceptedRequestIsJob(q: Runtime.Request, s: Shape, startup: word, args: word, image: Mem, text: set<int>, home: seq<nat>)
    requires ValidShape(s) && s.warps * s.threads < WORD_SPAN && Runtime.DimensionsOk(q, s.warps * s.threads)
    requires |home| == Blocks(q.grid) && forall b | 0 <= b < |home| :: home[b] < s.cores
    ensures Blocks(q.dim) < WORD_SPAN
    ensures var l := Launch(startup, args, q.dim, q.grid, Blocks(q.dim));
            GoodJob(Job(s, l, image, text, home)) && LaunchFits(l) && LaunchAccepted(l)
  {
    hide Blocks, Runtime.DimensionsOk, LaunchFits, LaunchAccepted;
    Runtime.DimensionsExact(q, s.warps * s.threads);
    JobLaunches(Job(s, Launch(startup, args, q.dim, q.grid, Blocks(q.dim)), image, text, home));
  }
}
