/** One core of the reference cycle model (`step_core` and `accept_cta` of
    sw/sim/hm/difftest.cpp), the twin of hw/verilog/vsrc/Riscv/Core.sv. Masks are sets of lanes. */
module SimtCore {
  import opened Word
  import opened Memory
  import opened Isa
  import opened RoundRobin

  const STACK_DEPTH := 8

  datatype Fsm = Sched | Fetch | Exec | MemReq | MemResp

  /** A deferred path of a diverged warp. */
  datatype Path = Path(pc: word, mask: set<nat>)

  datatype Lane = Lane(gpr: Registers, tid: Dim3, gid: word)

  datatype Warp = Warp(pc: word, mask: set<nat>, valid: bool, stack: seq<Path>, lanes: seq<Lane>)

  datatype Cta = Cta(block: Dim3, dim: Dim3, grid: Dim3, args: word)

  datatype Core = Core(state: Fsm, active: bool, fault: bool, rr: nat, iw: nat, im: set<nat>, ip: word,
                       inst: word, mt: nat, cta: Cta, warps: seq<Warp>)

  /** Cores, warps per core and threads per warp. */
  datatype Shape = Shape(cores: nat, warps: nat, threads: nat)

  /** The launch registers of the dispatcher. */
  datatype Launch = Launch(startup: word, args: word, dim: Dim3, grid: Dim3, bsize: word)

  predicate ValidShape(s: Shape) { s.cores >= 1 && s.warps >= 1 && s.threads >= 1 }

  predicate Lanes(mask: set<nat>, threads: nat) { forall t | t in mask :: t < threads }

  predicate ValidWarp(s: Shape, w: Warp) {
    && |w.lanes| == s.threads && Lanes(w.mask, s.threads)
    && (forall k | 0 <= k < |w.stack| :: Lanes(w.stack[k].mask, s.threads))
  }

  /** The shape of the register file, arrays and counters. */
  predicate ValidCore(s: Shape, c: Core) {
    && ValidShape(s) && |c.warps| == s.warps && (forall w | 0 <= w < s.warps :: ValidWarp(s, c.warps[w]))
    && c.rr < s.warps && c.iw < s.warps && c.mt < s.threads && Lanes(c.im, s.threads)
  }

  function Wrap(x: int): word { x % WORD_SPAN }

  // ---- Accepting a CTA --------------------------------------------------------------------

  predicate DividesLaunch(l: Launch) {
    l.dim.x != 0 && l.dim.y != 0 && Mul(l.dim.x, l.dim.y) != 0
  }

  function LinearBlock(block: Dim3, grid: Dim3): word {
    Add(Mul(Add(Mul(block.z, grid.y), block.y), grid.x), block.x)
  }

  function LaneTid(l: Launch, i: nat): Dim3
    requires DividesLaunch(l)
  {
    Dim3(Wrap(i % l.dim.x), Wrap(i / l.dim.x % l.dim.y), Wrap(i / Mul(l.dim.x, l.dim.y)))
  }

  function FreshLane(l: Launch, block: Dim3, i: nat): Lane
    requires DividesLaunch(l)
  {
    Lane(ZERO_REGISTERS, LaneTid(l, i), Wrap(Mul(LinearBlock(block, l.grid), l.bsize) + i))
  }

  predicate InBlock(s: Shape, bsize: nat, w: nat, t: nat) {
    t < s.threads && w * s.threads + t < bsize
  }

  function InitialMask(s: Shape, bsize: word, w: nat): set<nat> {
    set t: nat | t < s.threads && InBlock(s, bsize, w, t)
  }

  function FreshWarp(s: Shape, l: Launch, block: Dim3, w: nat): Warp
    requires DividesLaunch(l)
  {
    Warp(l.startup, InitialMask(s, l.bsize, w), w * s.threads < l.bsize, [],
         seq(s.threads, (t: nat) => FreshLane(l, block, w * s.threads + t)))
  }

  function AcceptCta(s: Shape, c: Core, l: Launch, block: Dim3): (r: Core)
    requires DividesLaunch(l)
    ensures ValidCore(s, c) ==> ValidCore(s, r) && ServesMemory(r)
  {
    c.(active := true, fault := false, state := Sched, rr := 0,
       cta := Cta(block, l.dim, l.grid, l.args),
       warps := seq(s.warps, (w: nat) => FreshWarp(s, l, block, w)))
  }

  // ---- One cycle --------------------------------------------------------------------------

  function ValidFlags(warps: seq<Warp>): (flags: seq<bool>)
    ensures |flags| == |warps| && forall w | 0 <= w < |warps| :: flags[w] == warps[w].valid
  {
    seq(|warps|, w requires 0 <= w < |warps| => warps[w].valid)
  }

  function NextWarp(s: Shape, c: Core): (r: Core)
    ensures ValidCore(s, c) ==> ValidCore(s, r)
  {
    c.(rr := Successor(c.iw, s.warps), state := Sched)
  }

  function SetWarp(s: Shape, c: Core, w: Warp): (r: Core)
    requires ValidCore(s, c) && ValidWarp(s, w)
    ensures ValidCore(s, r)
  {
    c.(warps := c.warps[c.iw := w])
  }

  function Stop(c: Core): Core { c.(fault := true, active := false) }

  function SchedStep(s: Shape, c: Core): (r: Core)
    requires ValidCore(s, c) && c.state.Sched?
    ensures ValidCore(s, r) && !r.state.MemReq? && !r.state.MemResp?
  {
    match Scan(ValidFlags(c.warps), c.rr, 0)
    case Some(sel) =>
      c.(iw := sel, im := c.warps[sel].mask, ip := c.warps[sel].pc, state := Fetch)
    case None => c.(active := false)
  }

  function LaneRegister(c: Core, t: nat, r: nat): word
    requires c.iw < |c.warps| && t < |c.warps[c.iw].lanes|
  {
    c.warps[c.iw].lanes[t].gpr[r % 16]
  }

  /** `ebreak`: the warp resumes its most recently deferred path, or retires. */
  function BreakStep(s: Shape, c: Core): (r: Core)
    requires ValidCore(s, c)
    ensures ValidCore(s, r) && r.state.Sched?
  {
    var w := c.warps[c.iw];
    var n := |w.stack|;
    NextWarp(s, SetWarp(s, c, if n > 0 then w.(stack := w.stack[..n - 1], pc := w.stack[n - 1].pc, mask := w.stack[n - 1].mask)
                           else w.(valid := false)))
  }

  function TakenLanes(s: Shape, c: Core): set<nat>
    requires ValidCore(s, c)
  {
    set t | t in c.im && BranchTaken(Funct3(c.inst), LaneRegister(c, t, Rs1(c.inst)), LaneRegister(c, t, Rs2(c.inst)))
  }

  /** A branch: the fall-through lanes run first, the taken lanes are deferred on the stack. */
  function BranchStep(s: Shape, c: Core): (r: Core)
    requires ValidCore(s, c)
    ensures ValidCore(s, r) && r.state.Sched?
  {
    var w := c.warps[c.iw];
    var taken := TakenLanes(s, c);
    var fallen := c.im - taken;
    var target, next := Add(c.ip, ImmB(c.inst)), Add(c.ip, 4);
    NextWarp(s,
             if !LegalBranch(Funct3(c.inst)) then Stop(c)
             else if taken != {} && fallen != {} then
               if |w.stack| >= STACK_DEPTH then Stop(c)
               else SetWarp(s, c, w.(stack := w.stack + [Path(target, taken)], pc := next, mask := fallen))
             else if taken != {} then SetWarp(s, c, w.(pc := target, mask := taken))
             else SetWarp(s, c, w.(pc := next, mask := fallen)))
  }

  datatype LaneOut = LaneOut(ok: bool, value: word, next: word)

  /** What one lane computes for an instruction that is neither memory, branch nor `ebreak`. */
  function ComputeLane(inst: word, ip: word, g: Registers, ids: Ids): LaneOut {
    var op, f3 := Opcode(inst), Funct3(inst);
    var a, b := g[Rs1(inst) % 16], g[Rs2(inst) % 16];
    var next := Add(ip, 4);
    if op == OP_LUI then LaneOut(true, ImmU(inst), next)
    else if op == OP_AUIPC then LaneOut(true, Add(ip, ImmU(inst)), next)
    else if op == OP_IMM then
      LaneOut(true, AluImm(f3, a, ImmI(inst), Shamt(inst), CoreShiftIsArithmetic(inst)), next)
    else if op == OP_REG then LaneOut(true, AluReg(f3, Funct7(inst), a, b), next)
    else if op == OP_JAL then LaneOut(true, next, Add(ip, ImmJ(inst)))
    else if op == OP_JALR then LaneOut(true, next, JalrTarget(a, inst))
    else if op == OP_SYSTEM then
      if f3 != 2 || Rs1(inst) != 0 then LaneOut(false, 0, next)
      else
        match Csr(ids, CsrNumber(inst))
        case Some(v) => LaneOut(true, v, next)
        case None => LaneOut(false, 0, next)
    else LaneOut(false, 0, next)
  }

  function LaneIds(s: Shape, cid: nat, cta: Cta, w: nat, t: nat, lane: Lane): Ids {
    Ids(lane.gid, lane.tid, cta.block, cta.dim, cta.grid, cta.args,
        Wrap(cid * (s.warps * s.threads) + w * s.threads + t), Wrap(w), Wrap(t))
  }

  function LaneResult(s: Shape, cid: nat, c: Core, t: nat): LaneOut
    requires ValidCore(s, c) && t < s.threads
  {
    var lane := c.warps[c.iw].lanes[t];
    ComputeLane(c.inst, c.ip, lane.gpr, LaneIds(s, cid, c.cta, c.iw, t, lane))
  }

  /** Lowest active lane at t or above; `threads` when there is none. */
  function LowestFrom(mask: set<nat>, threads: nat, t: nat): (l: nat)
    requires t <= threads
    ensures t <= l <= threads && (l < threads ==> l in mask)
    ensures forall u | t <= u < l :: u !in mask
    decreases threads - t
  {
    if t == threads || t in mask then t else LowestFrom(mask, threads, t + 1)
  }

  predicate AllLegal(s: Shape, cid: nat, c: Core)
    requires ValidCore(s, c)
  {
    forall t | t in c.im :: LaneResult(s, cid, c, t).ok
  }

  /** Active lanes disagree on the target of an indirect jump. */
  predicate Diverges(s: Shape, cid: nat, c: Core)
    requires ValidCore(s, c)
  {
    Opcode(c.inst) == OP_JALR &&
    exists t, u | t in c.im && u in c.im :: LaneResult(s, cid, c, t).next != LaneResult(s, cid, c, u).next
  }

  function CommonNext(s: Shape, cid: nat, c: Core): word
    requires ValidCore(s, c)
  {
    var l := LowestFrom(c.im, s.threads, 0);
    if l < s.threads then LaneResult(s, cid, c, l).next else Add(c.ip, 4)
  }

  /** Lane t after the instruction: an active lane writes its result. */
  function ComputedLane(s: Shape, cid: nat, c: Core, t: nat): Lane
    requires ValidCore(s, c) && !BadRegister(c.inst) && t < s.threads
  {
    var lane := c.warps[c.iw].lanes[t];
    if t in c.im then lane.(gpr := WriteBack(lane.gpr, UsesRd(Opcode(c.inst)), Rd(c.inst), LaneResult(s, cid, c, t).value))
    else lane
  }

  function ComputedLanes(s: Shape, cid: nat, c: Core): (r: seq<Lane>)
    requires ValidCore(s, c) && !BadRegister(c.inst)
    ensures |r| == s.threads
  {
    seq(s.threads, (t: nat) requires t < s.threads => ComputedLane(s, cid, c, t))
  }

  function ComputeStep(s: Shape, cid: nat, c: Core): (r: Core)
    requires ValidCore(s, c) && !BadRegister(c.inst)
    ensures ValidCore(s, r) && r.state.Sched?
  {
    var w := c.warps[c.iw];
    var lanes := ComputedLanes(s, cid, c);
    NextWarp(s,
             if !AllLegal(s, cid, c) || Diverges(s, cid, c) then Stop(SetWarp(s, c, w.(lanes := lanes)))
             else SetWarp(s, c, w.(lanes := lanes, pc := CommonNext(s, cid, c))))
  }

  predicate IsMemory(op: nat) { op == OP_LOAD || op == OP_STORE }

  /** While lanes are being served the issued instruction is a legal memory instruction. */
  predicate ServesMemory(c: Core) {
    c.state.MemReq? || c.state.MemResp? ==> IsMemory(Opcode(c.inst)) && !BadRegister(c.inst)
  }

  function ExecStep(s: Shape, cid: nat, c: Core): (r: Core)
    requires ValidCore(s, c)
    ensures ValidCore(s, r) && ServesMemory(r)
  {
    if BadRegister(c.inst) then Stop(c).(state := Sched)
    else if IsMemory(Opcode(c.inst)) then c.(mt := 0, state := MemReq)
    else if c.inst == EBREAK then BreakStep(s, c)
    else if Opcode(c.inst) == OP_BRANCH then BranchStep(s, c)
    else ComputeStep(s, cid, c)
  }

  function MemoryAddress(s: Shape, c: Core): word
    requires ValidCore(s, c)
  {
    Add(LaneRegister(c, c.mt, Rs1(c.inst)), if Opcode(c.inst) == OP_LOAD then ImmI(c.inst) else ImmS(c.inst))
  }

  /** The lane after the current one, or the end of the instruction. */
  function Advance(s: Shape, c: Core): (r: Core)
    requires ValidCore(s, c)
    ensures ValidCore(s, r) && !r.state.MemResp? && r.inst == c.inst
  {
    if c.mt == s.threads - 1 then NextWarp(s, SetWarp(s, c, c.warps[c.iw].(pc := Add(c.ip, 4))))
    else c.(mt := c.mt + 1, state := MemReq)
  }

  function MemReqStep(s: Shape, c: Core): (r: Core)
    requires ValidCore(s, c)
    ensures ValidCore(s, r) && r.inst == c.inst
  {
    if c.mt !in c.im then Advance(s, c) else c.(state := MemResp)
  }

  function MemRespStep(s: Shape, c: Core, m: Mem): (r: Core)
    requires ValidCore(s, c) && !BadRegister(c.inst)
    ensures ValidCore(s, r) && r.inst == c.inst
  {
    var w := c.warps[c.iw];
    var lane := w.lanes[c.mt];
    var value := CoreLoad(m, MemoryAddress(s, c), Funct3(c.inst));
    var g := WriteBack(lane.gpr, Opcode(c.inst) == OP_LOAD, Rd(c.inst), value);
    Advance(s, SetWarp(s, c, w.(lanes := w.lanes[c.mt := lane.(gpr := g)])))
  }

  /** `step_core` without a dispatch: reads see the memory before the cycle. */
  function CoreStep(s: Shape, cid: nat, c: Core, m: Mem): (r: Core)
    requires ValidCore(s, c) && ServesMemory(c)
    ensures ValidCore(s, r) && ServesMemory(r)
  {
    if !c.active then c
    else
      match c.state
      case Sched => SchedStep(s, c)
      case Fetch => c.(inst := Load32(m, c.ip), state := Exec)
      case Exec => ExecStep(s, cid, c)
      case MemReq => MemReqStep(s, c)
      case MemResp => MemRespStep(s, c, m)
  }

  /** The transaction the core drives in this cycle. */
  function PendingStore(s: Shape, c: Core): Option<Store>
    requires ValidCore(s, c)
  {
    if c.active && c.state.MemReq? && c.mt in c.im && Opcode(c.inst) == OP_STORE then
      Some(CoreStore(MemoryAddress(s, c), Funct3(c.inst), LaneRegister(c, c.mt, Rs2(c.inst))))
    else None
  }

  /** The cycle reads outside memory, which raises the failure flag of the model. */
  predicate ReadFails(s: Shape, c: Core, m: Mem)
    requires ValidCore(s, c)
  {
    c.active &&
    ((c.state.Fetch? && !Span(m, c.ip, 4)) ||
     (c.state.MemResp? && Opcode(c.inst) == OP_LOAD && Rd(c.inst) != 0 &&
      !Span(m, MemoryAddress(s, c) - MemoryAddress(s, c) % 4, 4)))
  }

  /** Recording the state for comparison reads the word of a load under way, which can fail as well. */
  predicate PackFails(s: Shape, c: Core, m: Mem)
    requires ValidCore(s, c)
  {
    c.state.MemResp? && c.mt in c.im && Opcode(c.inst) == OP_LOAD &&
    !Span(m, MemoryAddress(s, c) - MemoryAddress(s, c) % 4, 4)
  }
}
