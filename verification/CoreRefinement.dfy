/** A core simulates the scalar threads of its resident CTA: at every cycle each lane's registers
    and position are those of its thread, and a cycle is a handful of scalar steps. */
module CoreRefinement {
  import opened Word
  import opened Memory
  import opened Isa
  import opened Interleaving
  import opened Scalar
  import opened RoundRobin
  import opened SimtCore
  import opened Divergence
  import opened LaneSteps

  /** A thread of the grid: CTA in dispatch order, warp and lane inside it. */
  datatype Tid = Tid(block: nat, warp: nat, lane: nat)

  type Threads = map<Tid, Thread>

  // ---- Kernel text ------------------------------------------------------------------------

  predicate InText(text: set<int>, a: word) { forall b | a <= b < a + 4 :: b in text }

  /** Memory still holds the code as it was loaded. */
  predicate TextSame(text: set<int>, image: Mem, m: Mem) {
    |m| == |image| && forall b | b in text :: Peek(m, b) == Peek(image, b)
  }

  lemma TextFetch(text: set<int>, image: Mem, m: Mem, a: word)
    requires TextSame(text, image, m) && InText(text, a)
    ensures Load32(m, a) == Load32(image, a)
  {
    if Span(image, a, 4) { ReadsAgree(image, m, a, 4); }
  }

  // ---- Where a lane stands ----------------------------------------------------------------

  /** The pc of the most recently deferred path that holds lane t. */
  function FindPath(stack: seq<Path>, t: nat): Option<word> {
    if stack == [] then None
    else
      var n := |stack| - 1;
      if t in stack[n].mask then Some(stack[n].pc) else FindPath(stack[..n], t)
  }

  function Where(w: Warp, t: nat): Option<word> {
    if !w.valid then None else if t in w.mask then Some(w.pc) else FindPath(w.stack, t)
  }

  /** The lane has performed the memory instruction in progress: a load in its response cycle, a
      store already in its request cycle. */
  predicate Served(c: Core, t: nat) {
    (c.state.MemReq? && t < c.mt)
    || (c.state.MemResp? && (t < c.mt || (t == c.mt && Opcode(c.inst) == OP_STORE)))
  }

  function Standing(c: Core, w: nat, t: nat): Option<word>
    requires w < |c.warps|
  {
    if c.active && w == c.iw && t in c.im && Served(c, t) then Some(Add(c.ip, 4)) else Where(c.warps[w], t)
  }

  // ---- The relation -----------------------------------------------------------------------

  function HaltedLanes(s: Shape, bsize: word, b: nat, threads: Threads, w: nat): set<nat> {
    set t | t in InitialMask(s, bsize, w) && Tid(b, w, t) in threads && threads[Tid(b, w, t)].halted
  }

  function HaltedSets(s: Shape, bsize: word, b: nat, threads: Threads): seq<set<nat>> {
    seq(s.warps, (w: nat) => HaltedLanes(s, bsize, b, threads, w))
  }

  predicate LaneMatches(s: Shape, cid: nat, c: Core, w: nat, t: nat, th: Thread)
    requires ValidCore(s, c) && w < s.warps && t < s.threads
  {
    var lane := c.warps[w].lanes[t];
    && th.ids == LaneIds(s, cid, c.cta, w, t, lane)
    && match Standing(c, w, t)
       case Some(pc) => !th.halted && th.pc == pc && th.gpr == lane.gpr && lane.gpr[0] == 0
       case None => th.halted
  }

  /** The issued instruction was fetched from the kernel image. */
  predicate Decoded(text: set<int>, image: Mem, c: Core) {
    c.active && (c.state.Exec? || c.state.MemReq? || c.state.MemResp?) ==>
      InText(text, c.ip) && Span(image, c.ip, 4) && c.inst == Load32(image, c.ip)
  }

  /** What a job fixes for a core: the machine shape, the CTA size, the memory at launch and the bytes
      of it that are code. */
  datatype Frame = Frame(shape: Shape, bsize: word, image: Mem, text: set<int>)

  predicate CoreRel(f: Frame, cid: nat, c: Core, b: nat, threads: Threads) {
    && ValidCore(f.shape, c) && ServesMemory(c) && Decoded(f.text, f.image, c)
    && (forall w, t | 0 <= w < f.shape.warps && t in InitialMask(f.shape, f.bsize, w) :: Tid(b, w, t) in threads)
    && CorePartition(f.shape, InitialMasks(f.shape, f.bsize), c, HaltedSets(f.shape, f.bsize, b, threads))
    && (forall w, t | 0 <= w < f.shape.warps && t in InitialMask(f.shape, f.bsize, w) ::
          LaneMatches(f.shape, cid, c, w, t, threads[Tid(b, w, t)]))
  }

  lemma {:induction false} FindPathNone(stack: seq<Path>, t: nat)
    ensures FindPath(stack, t).None? <==> t !in Deferred(stack)
  {
    if stack != [] { FindPathNone(stack[..|stack| - 1], t); }
  }

  // ---- Cycles in which no thread moves ----------------------------------------------------

  /** The cycle moves no thread: scheduling, fetching, starting a memory instruction, skipping an
      inactive lane, requesting a load, or completing a store. */
  predicate Quiet(s: Shape, c: Core)
    requires ValidCore(s, c)
  {
    !c.active ||
    match c.state
    case Sched => true
    case Fetch => true
    case Exec => !BadRegister(c.inst) && IsMemory(Opcode(c.inst))
    case MemReq => PendingStore(s, c).None?
    case MemResp => Opcode(c.inst) == OP_STORE
  }

  lemma QuietLane(s: Shape, cid: nat, c: Core, m: Mem, w: nat, t: nat)
    requires ValidCore(s, c) && ServesMemory(c) && Issued(s, c) && Quiet(s, c) && w < s.warps && t < s.threads
    requires c.warps[w].lanes[t].gpr[0] == 0 || Standing(c, w, t).None? || !c.active
    ensures var c' := CoreStep(s, cid, c, m);
            Standing(c', w, t) == Standing(c, w, t)
            && c'.cta == c.cta && (c'.warps[w].lanes[t] == c.warps[w].lanes[t])
  {
    hide CoreLoad, CoreStore, BadRegister, ImmI, ImmS, FindPath, MemoryAddress, LaneRegister, ComputeStep, BranchStep, BreakStep, Load32, Scan;
    var lane := c.warps[w].lanes[t];
    if c.active && c.state.MemResp? && w == c.iw && t == c.mt {
      assert Standing(c, w, t).Some?;
      assert lane.gpr[0 := 0] == lane.gpr;
      assert lane.(gpr := lane.gpr[0 := 0]) == lane;
    }
  }

  lemma QuietDecoded(f: Frame, cid: nat, c: Core, m: Mem)
    requires ValidCore(f.shape, c) && ServesMemory(c) && Decoded(f.text, f.image, c) && Quiet(f.shape, c)
    requires TextSame(f.text, f.image, m) && (c.active && c.state.Fetch? ==> InText(f.text, c.ip) && Span(m, c.ip, 4))
    ensures Decoded(f.text, f.image, CoreStep(f.shape, cid, c, m))
    ensures Retiring(c) == {}
  {
    hide CoreLoad, CoreStore, BadRegister, ImmI, ImmS, Load32, MemoryAddress, LaneRegister, WriteBack;
    if c.active && c.state.Fetch? { TextFetch(f.text, f.image, m, c.ip); }
  }

  lemma RelStanding(f: Frame, cid: nat, c: Core, b: nat, threads: Threads, w: nat, t: nat)
    requires CoreRel(f, cid, c, b, threads) && w < f.shape.warps && t in InitialMask(f.shape, f.bsize, w)
    ensures t < f.shape.threads && Tid(b, w, t) in threads
    ensures LaneMatches(f.shape, cid, c, w, t, threads[Tid(b, w, t)])
    ensures Standing(c, w, t).None? || c.warps[w].lanes[t].gpr[0] == 0
  {
  }

  /** A quiet cycle keeps the relation with no scalar step at all. */
  lemma QuietRel(f: Frame, cid: nat, c: Core, m: Mem, b: nat, threads: Threads)
    requires CoreRel(f, cid, c, b, threads) && Quiet(f.shape, c)
    requires TextSame(f.text, f.image, m) && (c.active && c.state.Fetch? ==> InText(f.text, c.ip) && Span(m, c.ip, 4))
    ensures CoreRel(f, cid, CoreStep(f.shape, cid, c, m), b, threads)
  {
    hide CoreStep, Partition, Standing, Quiet, Decoded;
    var halted := HaltedSets(f.shape, f.bsize, b, threads);
    var c' := CoreStep(f.shape, cid, c, m);
    QuietDecoded(f, cid, c, m);
    StepPartition(f.shape, cid, c, m, InitialMasks(f.shape, f.bsize), halted);
    assert halted[c.iw] + {} == halted[c.iw];
    assert RetiredAfter(c, halted) == halted;
    forall w, t | 0 <= w < f.shape.warps && t in InitialMask(f.shape, f.bsize, w)
      ensures LaneMatches(f.shape, cid, c', w, t, threads[Tid(b, w, t)])
    {
      RelStanding(f, cid, c, b, threads, w, t);
      QuietLane(f.shape, cid, c, m, w, t);
    }
  }

  // ---- Executing an instruction on all active lanes ---------------------------------------

  /** The cycle executes an instruction that is not a memory access, without faulting. */
  predicate Executes(s: Shape, cid: nat, c: Core)
    requires ValidCore(s, c)
  {
    && c.active && c.state.Exec? && !BadRegister(c.inst) && !IsMemory(Opcode(c.inst))
    && LegalShift(c.inst) && !ExecStep(s, cid, c).fault && !c.fault
  }

  /** What the thread of active lane t becomes. */
  function Executed(s: Shape, cid: nat, c: Core, t: nat, th: Thread): Thread
    requires ValidCore(s, c) && t < s.threads
  {
    if c.inst == EBREAK then th.(halted := true)
    else if Opcode(c.inst) == OP_BRANCH then
      th.(pc := if t in TakenLanes(s, c) then Add(c.ip, ImmB(c.inst)) else Add(c.ip, 4))
    else
      var out := LaneResult(s, cid, c, t);
      th.(gpr := WriteBack(th.gpr, !BadRegister(c.inst) && UsesRd(Opcode(c.inst)), Rd(c.inst), out.value), pc := out.next)
  }

  lemma NoFault(s: Shape, cid: nat, c: Core)
    requires ValidCore(s, c) && Executes(s, cid, c) && c.inst != EBREAK
    ensures Opcode(c.inst) == OP_BRANCH ==>
              LegalBranch(Funct3(c.inst)) &&
              (TakenLanes(s, c) != {} && c.im - TakenLanes(s, c) != {} ==> |c.warps[c.iw].stack| < STACK_DEPTH)
    ensures Opcode(c.inst) != OP_BRANCH ==> AllLegal(s, cid, c) && !Diverges(s, cid, c)
  {
    hide BadRegister, LegalShift, LegalBranch, BranchTaken, ComputeLane, LaneRegister, CommonNext;
  }

  /** The scalar step of an active lane's thread is what the core does to the lane. */
  lemma ExecutedIsStep(f: Frame, cid: nat, c: Core, m: Mem, b: nat, threads: Threads, t: nat)
    requires CoreRel(f, cid, c, b, threads) && Executes(f.shape, cid, c) && TextSame(f.text, f.image, m)
    requires t in c.im && t in InitialMask(f.shape, f.bsize, c.iw)
    ensures Tid(b, c.iw, t) in threads
    ensures var th := threads[Tid(b, c.iw, t)];
            !th.halted && Step(m, th) == Done(Executed(f.shape, cid, c, t, th), m)
  {
    hide Partition, Step, BadRegister, LegalShift, ComputeLane, BranchTaken, Load32, WriteBack;
    RelStanding(f, cid, c, b, threads, c.iw, t);
    var th := threads[Tid(b, c.iw, t)];
    TextFetch(f.text, f.image, m, c.ip);
    assert Standing(c, c.iw, t) == Some(c.ip);
    assert Fetches(m, th, c.inst);
    if c.inst == EBREAK {
      BreakStepAgrees(m, th);
    } else {
      NoFault(f.shape, cid, c);
      if Opcode(c.inst) == OP_BRANCH {
        BranchStepAgrees(m, th, c.inst);
      } else {
        assert LaneResult(f.shape, cid, c, t).ok;
        ComputeStepAgrees(m, th, c.inst);
      }
    }
  }

  /** The threads of the active lanes after the instruction. */
  function ExecUpdates(f: Frame, cid: nat, c: Core, b: nat, threads: Threads): Threads
    requires CoreRel(f, cid, c, b, threads)
  {
    map k | k in threads && k.block == b && k.warp == c.iw && k.lane in c.im ::
      Executed(f.shape, cid, c, k.lane, threads[k])
  }

  lemma ExecHalted(f: Frame, cid: nat, c: Core, b: nat, threads: Threads)
    requires CoreRel(f, cid, c, b, threads) && Executes(f.shape, cid, c)
    requires c.im <= InitialMask(f.shape, f.bsize, c.iw)
    ensures HaltedSets(f.shape, f.bsize, b, threads + ExecUpdates(f, cid, c, b, threads)) ==
            RetiredAfter(c, HaltedSets(f.shape, f.bsize, b, threads))
  {
    hide Partition, LaneMatches, LaneResult, TakenLanes, BadRegister, LegalShift, WriteBack, ExecStep;
    var u := ExecUpdates(f, cid, c, b, threads);
    var after := threads + u;
    var h := HaltedSets(f.shape, f.bsize, b, threads);
    forall w | 0 <= w < f.shape.warps
      ensures HaltedLanes(f.shape, f.bsize, b, after, w) == RetiredAfter(c, h)[w]
    {
      if w != c.iw {
        assert forall t :: Tid(b, w, t) !in u;
      } else {
        forall t | t in InitialMask(f.shape, f.bsize, w)
          ensures after[Tid(b, w, t)].halted <==> threads[Tid(b, w, t)].halted || t in Retiring(c)
        {
        }
      }
    }
  }

  /** The issued warp in the middle of a run. */
  predicate IssuedLane(f: Frame, cid: nat, c: Core, retired: set<nat>, t: nat, th: Thread) {
    && ValidCore(f.shape, c) && Executes(f.shape, cid, c) && Issued(f.shape, c)
    && Partition(InitialMask(f.shape, f.bsize, c.iw), c.warps[c.iw], retired)
    && t in InitialMask(f.shape, f.bsize, c.iw) && LaneMatches(f.shape, cid, c, c.iw, t, th)
  }

  lemma BreakLane(f: Frame, cid: nat, c: Core, retired: set<nat>, t: nat, th: Thread)
    requires IssuedLane(f, cid, c, retired, t, th) && c.inst == EBREAK
    ensures LaneMatches(f.shape, cid, BreakStep(f.shape, c), c.iw, t,
                        if t in c.im then Executed(f.shape, cid, c, t, th) else th)
  {
    hide BadRegister, LegalShift, ExecStep;
    var w := c.warps[c.iw];
    FindPathNone(w.stack, t);
    if w.stack != [] {
      PopSeparate(w.stack);
      FindPathNone(w.stack[..|w.stack| - 1], t);
    }
  }

  lemma BranchLane(f: Frame, cid: nat, c: Core, retired: set<nat>, t: nat, th: Thread)
    requires IssuedLane(f, cid, c, retired, t, th) && c.inst != EBREAK && Opcode(c.inst) == OP_BRANCH
    ensures LaneMatches(f.shape, cid, BranchStep(f.shape, c), c.iw, t,
                        if t in c.im then Executed(f.shape, cid, c, t, th) else th)
  {
    hide BadRegister, LegalShift, ExecStep, BranchTaken, LegalBranch, LaneRegister, ImmB;
    NoFault(f.shape, cid, c);
    var w, taken := c.warps[c.iw], TakenLanes(f.shape, c);
    FindPathNone(w.stack, t);
    assert t in c.im && t !in taken ==> t in c.im - taken;
  }

  /** A legal computation: registers of the active lanes and the pc of the warp change. */
  lemma ComputeShape(s: Shape, cid: nat, c: Core, t: nat)
    requires ValidCore(s, c) && Executes(s, cid, c) && c.inst != EBREAK && Opcode(c.inst) != OP_BRANCH && t < s.threads
    ensures var w, w', lane := c.warps[c.iw], ComputeStep(s, cid, c).warps[c.iw], c.warps[c.iw].lanes[t];
            && w'.mask == w.mask && w'.stack == w.stack && w'.valid == w.valid && w'.pc == CommonNext(s, cid, c)
            && w'.lanes[t] == if t in c.im
                              then lane.(gpr := WriteBack(lane.gpr, UsesRd(Opcode(c.inst)), Rd(c.inst), LaneResult(s, cid, c, t).value))
                              else lane
    ensures ComputeStep(s, cid, c).cta == c.cta && ComputeStep(s, cid, c).iw == c.iw
  {
    hide LegalShift, ComputeLane, WriteBack, LaneResult, CommonNext;
    NoFault(s, cid, c);
  }

  lemma ComputeLaneMatches(f: Frame, cid: nat, c: Core, retired: set<nat>, t: nat, th: Thread)
    requires IssuedLane(f, cid, c, retired, t, th) && c.inst != EBREAK && Opcode(c.inst) != OP_BRANCH
    ensures LaneMatches(f.shape, cid, ComputeStep(f.shape, cid, c), c.iw, t,
                        if t in c.im then Executed(f.shape, cid, c, t, th) else th)
  {
    hide LegalShift, ExecStep, ComputeStep, LaneResult, CommonNext, Partition, AllLegal, Diverges, BadRegister;
    ComputeShape(f.shape, cid, c, t);
    NoFault(f.shape, cid, c);
    if t in c.im {
      SameNext(f.shape, cid, c, t);
      assert Standing(c, c.iw, t) == Some(c.ip);
      var c', th' := ComputeStep(f.shape, cid, c), Executed(f.shape, cid, c, t, th);
      assert th'.gpr == c'.warps[c.iw].lanes[t].gpr && th'.gpr[0] == 0;
    }
  }

  /** Without divergence the common target is every active lane's own. */
  lemma SameNext(s: Shape, cid: nat, c: Core, t: nat)
    requires ValidCore(s, c) && t in c.im && !Diverges(s, cid, c) && AllLegal(s, cid, c) && c.inst != EBREAK
    ensures LaneResult(s, cid, c, t).next == CommonNext(s, cid, c)
  {
    var l := LowestFrom(c.im, s.threads, 0);
    if Opcode(c.inst) == OP_JALR {
      hide ComputeLane;
      assert l in c.im;
    }
  }

  lemma OtherLane(f: Frame, cid: nat, c: Core, m: Mem, w: nat, t: nat, th: Thread)
    requires ValidCore(f.shape, c) && ServesMemory(c) && Executes(f.shape, cid, c)
    requires w < f.shape.warps && w != c.iw && t < f.shape.threads && LaneMatches(f.shape, cid, c, w, t, th)
    ensures LaneMatches(f.shape, cid, CoreStep(f.shape, cid, c, m), w, t, th)
  {
    hide BadRegister, LegalShift, ComputeLane, BranchTaken, LegalBranch, LaneRegister, AllLegal, Diverges, CommonNext, WriteBack, FindPath;
    OthersKept(f.shape, cid, c, m);
  }

  /** An executed instruction keeps the relation when every active lane's thread takes its step. */
  lemma ExecRel(f: Frame, cid: nat, c: Core, m: Mem, b: nat, threads: Threads)
    requires CoreRel(f, cid, c, b, threads) && Executes(f.shape, cid, c)
    ensures CoreRel(f, cid, CoreStep(f.shape, cid, c, m), b, threads + ExecUpdates(f, cid, c, b, threads))
  {
    hide Partition, LaneMatches, BadRegister, LegalShift, BreakStep, BranchStep, ComputeStep, Executed;
    var h := HaltedSets(f.shape, f.bsize, b, threads);
    var u := ExecUpdates(f, cid, c, b, threads);
    var after := threads + u;
    MaskInBlock(f, cid, c, b, threads);
    StepPartition(f.shape, cid, c, m, InitialMasks(f.shape, f.bsize), h);
    ExecHalted(f, cid, c, b, threads);
    var c' := CoreStep(f.shape, cid, c, m);
    forall w, t | 0 <= w < f.shape.warps && t in InitialMask(f.shape, f.bsize, w)
      ensures LaneMatches(f.shape, cid, c', w, t, after[Tid(b, w, t)])
    {
      var th := threads[Tid(b, w, t)];
      if w != c.iw {
        OtherLane(f, cid, c, m, w, t, th);
      } else if c.inst == EBREAK {
        BreakLane(f, cid, c, h[w], t, th);
      } else if Opcode(c.inst) == OP_BRANCH {
        BranchLane(f, cid, c, h[w], t, th);
      } else {
        ComputeLaneMatches(f, cid, c, h[w], t, th);
      }
    }
  }

  /** The lanes an instruction was issued for are lanes of the block. */
  lemma MaskInBlock(f: Frame, cid: nat, c: Core, b: nat, threads: Threads)
    requires CoreRel(f, cid, c, b, threads) && c.active && !c.state.Sched?
    ensures c.im <= InitialMask(f.shape, f.bsize, c.iw)
  {
    hide LaneMatches, Separate;
    assert Partition(InitialMask(f.shape, f.bsize, c.iw), c.warps[c.iw], HaltedSets(f.shape, f.bsize, b, threads)[c.iw]);
  }

  // ---- Memory accesses, one lane at a time ------------------------------------------------

  /** The access is legal, stays in one word of memory, and a store keeps off the kernel image. */
  predicate GoodAccess(text: set<int>, s: Shape, c: Core, m: Mem)
    requires ValidCore(s, c)
  {
    var a, f3 := MemoryAddress(s, c), Funct3(c.inst);
    && Contained(a, f3) && Span(m, a - a % 4, 4) && Span(m, a, AccessSize(f3))
    && if Opcode(c.inst) == OP_LOAD then LegalLoad(f3)
       else LegalStore(f3) && forall b | a <= b < a + AccessSize(f3) :: b !in text
  }

  predicate Loads(s: Shape, c: Core)
    requires ValidCore(s, c)
  {
    c.active && c.state.MemResp? && Opcode(c.inst) == OP_LOAD
  }

  predicate Stores(s: Shape, c: Core)
    requires ValidCore(s, c)
  {
    PendingStore(s, c).Some?
  }

  /** The thread served in this cycle. */
  function Loaded(s: Shape, c: Core, m: Mem, th: Thread): Thread
    requires ValidCore(s, c) && ServesMemory(c) && Loads(s, c)
  {
    th.(gpr := WriteBack(th.gpr, true, Rd(c.inst), CoreLoad(m, MemoryAddress(s, c), Funct3(c.inst))), pc := Add(c.ip, 4))
  }

  lemma ServedThread(f: Frame, cid: nat, c: Core, b: nat, threads: Threads)
    requires CoreRel(f, cid, c, b, threads) && (Loads(f.shape, c) || Stores(f.shape, c))
    ensures c.mt in c.im && c.mt in InitialMask(f.shape, f.bsize, c.iw)
    ensures var k := Tid(b, c.iw, c.mt);
            k in threads && !threads[k].halted && threads[k].pc == c.ip
            && threads[k].gpr == c.warps[c.iw].lanes[c.mt].gpr && threads[k].gpr[0] == 0
            && threads[k].ids == LaneIds(f.shape, cid, c.cta, c.iw, c.mt, c.warps[c.iw].lanes[c.mt])
  {
    hide BadRegister, Partition, MemoryAddress, CoreStore;
    MaskInBlock(f, cid, c, b, threads);
    RelStanding(f, cid, c, b, threads, c.iw, c.mt);
  }

  lemma LoadIsStep(f: Frame, cid: nat, c: Core, m: Mem, b: nat, threads: Threads)
    requires CoreRel(f, cid, c, b, threads) && Loads(f.shape, c) && GoodAccess(f.text, f.shape, c, m) && TextSame(f.text, f.image, m)
    ensures var k := Tid(b, c.iw, c.mt);
            k in threads && !threads[k].halted && Step(m, threads[k]) == Done(Loaded(f.shape, c, m, threads[k]), m)
  {
    hide CoreRel, Step, BadRegister, WriteBack, CoreLoad, Contained, ImmI, ImmS, Load32;
    RelParts(f, cid, c, b, threads);
    ServedThread(f, cid, c, b, threads);
    TextFetch(f.text, f.image, m, c.ip);
    LoadStepAgrees(m, threads[Tid(b, c.iw, c.mt)], c.inst);
  }

  lemma RelParts(f: Frame, cid: nat, c: Core, b: nat, threads: Threads)
    requires CoreRel(f, cid, c, b, threads)
    ensures ValidCore(f.shape, c) && ServesMemory(c) && Decoded(f.text, f.image, c) && Issued(f.shape, c)
  {
  }

  /** The store's scalar step, on whatever memory other cores' stores of the cycle have left. */
  lemma StoreIsStep(f: Frame, cid: nat, c: Core, m: Mem, b: nat, threads: Threads)
    requires CoreRel(f, cid, c, b, threads) && Stores(f.shape, c) && GoodAccess(f.text, f.shape, c, m) && TextSame(f.text, f.image, m)
    ensures var k := Tid(b, c.iw, c.mt);
            k in threads && !threads[k].halted
            && Step(m, threads[k]) == Done(threads[k].(pc := Add(c.ip, 4)), StoreRef(m, PendingStore(f.shape, c).value))
  {
    hide CoreRel, Step, BadRegister, WriteBack, CoreStore, Contained, ImmI, ImmS, Load32, StoreRef;
    RelParts(f, cid, c, b, threads);
    ServedThread(f, cid, c, b, threads);
    TextFetch(f.text, f.image, m, c.ip);
    StoreStepAgrees(m, threads[Tid(b, c.iw, c.mt)], c.inst);
  }

  lemma HaltedKept(s: Shape, bsize: word, b: nat, threads: Threads, k: Tid, th: Thread)
    requires k in threads && th.halted == threads[k].halted
    ensures HaltedSets(s, bsize, b, threads[k := th]) == HaltedSets(s, bsize, b, threads)
  {
    forall w | 0 <= w < s.warps
      ensures HaltedLanes(s, bsize, b, threads[k := th], w) == HaltedLanes(s, bsize, b, threads, w)
    {
    }
  }

  lemma LoadLane(f: Frame, cid: nat, c: Core, m: Mem, w: nat, t: nat, th: Thread)
    requires ValidCore(f.shape, c) && ServesMemory(c) && Issued(f.shape, c) && Loads(f.shape, c)
    requires w < f.shape.warps && t < f.shape.threads && LaneMatches(f.shape, cid, c, w, t, th)
    ensures LaneMatches(f.shape, cid, CoreStep(f.shape, cid, c, m), w, t,
                        if w == c.iw && t == c.mt then Loaded(f.shape, c, m, th) else th)
  {
    hide BadRegister, WriteBack, CoreLoad, MemoryAddress, FindPath;
  }

  lemma StoreLane(f: Frame, cid: nat, c: Core, m: Mem, w: nat, t: nat, th: Thread)
    requires ValidCore(f.shape, c) && ServesMemory(c) && Issued(f.shape, c) && Stores(f.shape, c)
    requires w < f.shape.warps && t < f.shape.threads && LaneMatches(f.shape, cid, c, w, t, th)
    ensures LaneMatches(f.shape, cid, CoreStep(f.shape, cid, c, m), w, t,
                        if w == c.iw && t == c.mt then th.(pc := Add(c.ip, 4)) else th)
  {
    hide BadRegister, WriteBack, CoreStore, MemoryAddress, FindPath;
  }

  /** A load response keeps the relation when the served lane's thread takes its step. */
  lemma LoadRel(f: Frame, cid: nat, c: Core, m: Mem, b: nat, threads: Threads)
    requires CoreRel(f, cid, c, b, threads) && Loads(f.shape, c)
    ensures Tid(b, c.iw, c.mt) in threads
    ensures CoreRel(f, cid, CoreStep(f.shape, cid, c, m), b,
                    threads[Tid(b, c.iw, c.mt) := Loaded(f.shape, c, m, threads[Tid(b, c.iw, c.mt)])])
  {
    hide Partition, LaneMatches, WriteBack, BadRegister, CoreLoad, MemoryAddress;
    ServedThread(f, cid, c, b, threads);
    var k, h := Tid(b, c.iw, c.mt), HaltedSets(f.shape, f.bsize, b, threads);
    var after := threads[k := Loaded(f.shape, c, m, threads[k])];
    HaltedKept(f.shape, f.bsize, b, threads, k, after[k]);
    StepPartition(f.shape, cid, c, m, InitialMasks(f.shape, f.bsize), h);
    assert h[c.iw] + {} == h[c.iw];
    assert RetiredAfter(c, h) == h;
    forall w, t | 0 <= w < f.shape.warps && t in InitialMask(f.shape, f.bsize, w)
      ensures LaneMatches(f.shape, cid, CoreStep(f.shape, cid, c, m), w, t, after[Tid(b, w, t)])
    {
      LoadLane(f, cid, c, m, w, t, threads[Tid(b, w, t)]);
    }
  }

  /** A store request keeps the relation when the served lane's thread takes its step. */
  lemma StoreRel(f: Frame, cid: nat, c: Core, m: Mem, b: nat, threads: Threads)
    requires CoreRel(f, cid, c, b, threads) && Stores(f.shape, c)
    ensures Tid(b, c.iw, c.mt) in threads
    ensures CoreRel(f, cid, CoreStep(f.shape, cid, c, m), b,
                    threads[Tid(b, c.iw, c.mt) := threads[Tid(b, c.iw, c.mt)].(pc := Add(c.ip, 4))])
  {
    hide Partition, LaneMatches, BadRegister, CoreStore, MemoryAddress;
    ServedThread(f, cid, c, b, threads);
    var k, h := Tid(b, c.iw, c.mt), HaltedSets(f.shape, f.bsize, b, threads);
    var after := threads[k := threads[k].(pc := Add(c.ip, 4))];
    HaltedKept(f.shape, f.bsize, b, threads, k, after[k]);
    StepPartition(f.shape, cid, c, m, InitialMasks(f.shape, f.bsize), h);
    assert h[c.iw] + {} == h[c.iw];
    assert RetiredAfter(c, h) == h;
    forall w, t | 0 <= w < f.shape.warps && t in InitialMask(f.shape, f.bsize, w)
      ensures LaneMatches(f.shape, cid, CoreStep(f.shape, cid, c, m), w, t, after[Tid(b, w, t)])
    {
      StoreLane(f, cid, c, m, w, t, threads[Tid(b, w, t)]);
    }
  }
}
