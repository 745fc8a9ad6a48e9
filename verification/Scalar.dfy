/** The scalar thread of the instruction-set simulator (sw/sim/sm/iss.cpp): one RV32E context
    executing against byte memory. */
module Scalar {
  import opened Word
  import opened Memory
  import opened Isa
  import opened Interleaving

  datatype Thread = Thread(pc: word, gpr: Registers, halted: bool, ids: Ids)

  /** What an instruction asks for before memory is consulted. */
  datatype Effect =
    | Illegal
    | Halt
    | Compute(value: word, next: word)
    | Jump(next: word)
    | LoadFrom(addr: word, f3: nat)
    | StoreTo(addr: word, f3: nat, data: word)

  /** The decode switch of `step_core`. */
  function Decode(inst: word, pc: word, g: Registers, ids: Ids): (e: Effect) {
    var op, f3, f7 := Opcode(inst), Funct3(inst), Funct7(inst);
    if BadRegister(inst) then Illegal
    else
      var a := if UsesRs1(op) then g[Rs1(inst)] else 0;
      var b := if UsesRs2(op) then g[Rs2(inst)] else 0;
      var next := Add(pc, 4);
      if op == OP_LUI then Compute(ImmU(inst), next)
      else if op == OP_AUIPC then Compute(Add(pc, ImmU(inst)), next)
      else if op == OP_IMM then
        Compute(AluImm(f3, a, ImmI(inst), Shamt(inst), ScalarShiftIsArithmetic(inst)), next)
      else if op == OP_REG then Compute(AluReg(f3, f7, a, b), next)
      else if op == OP_LOAD then
        if LegalLoad(f3) then LoadFrom(Add(a, ImmI(inst)), f3) else Illegal
      else if op == OP_STORE then
        if LegalStore(f3) then StoreTo(Add(a, ImmS(inst)), f3, b) else Illegal
      else if op == OP_BRANCH then
        if !LegalBranch(f3) then Illegal
        else Jump(if BranchTaken(f3, a, b) then Add(pc, ImmB(inst)) else next)
      else if op == OP_JAL then Compute(next, Add(pc, ImmJ(inst)))
      else if op == OP_JALR then Compute(next, JalrTarget(a, inst))
      else if op == OP_SYSTEM then
        if inst == EBREAK then Halt
        else if f3 == 2 && Rs1(inst) == 0 then
          match Csr(ids, CsrNumber(inst))
          case Some(v) => Compute(v, next)
          case None => Illegal
        else Illegal
      else Illegal
  }

  function Retire(t: Thread, inst: word, value: word, next: word): Thread
    requires !BadRegister(inst)
  {
    t.(gpr := WriteBack(t.gpr, UsesRd(Opcode(inst)), Rd(inst), value),
       pc := next)
  }

  lemma DecodeLegal(inst: word, pc: word, g: Registers, ids: Ids)
    ensures Decode(inst, pc, g, ids) != Illegal ==> !BadRegister(inst)
    ensures Decode(inst, pc, g, ids).LoadFrom? ==> LegalLoad(Decode(inst, pc, g, ids).f3)
    ensures Decode(inst, pc, g, ids).StoreTo? ==> LegalStore(Decode(inst, pc, g, ids).f3)
  {
  }

  function Perform(m: Mem, t: Thread, inst: word): (o: Outcome<Thread>) {
    var e := Decode(inst, t.pc, t.gpr, t.ids);
    DecodeLegal(inst, t.pc, t.gpr, t.ids);
    match e
    case Illegal => Fault
    case Halt => Done(t.(halted := true), m)
    case Compute(value, next) => Done(Retire(t, inst, value, next), m)
    case Jump(next) => Done(Retire(t, inst, 0, next), m)
    case LoadFrom(addr, f3) =>
      if !Span(m, addr, AccessSize(f3)) then Abort
      else Done(Retire(t, inst, ScalarLoad(m, addr, f3), Add(t.pc, 4)), m)
    case StoreTo(addr, f3, data) =>
      if !Span(m, addr, AccessSize(f3)) then Abort
      else Done(Retire(t, inst, 0, Add(t.pc, 4)), ScalarStore(m, addr, f3, data))
  }

  /** `step_core` of the simulator, without its comparison across the lanes of a warp. */
  function Step(m: Mem, t: Thread): (o: Outcome<Thread>) {
    if t.halted then Fault
    else if !Span(m, t.pc, 4) then Abort else Perform(m, t, Load32(m, t.pc))
  }

  /** `ebreak` is the only instruction that stops a thread. */
  lemma OnlyBreakHalts(m: Mem, t: Thread)
    requires !t.halted && Step(m, t).Done?
    ensures Step(m, t).thread.halted <==> Load32(m, t.pc) == EBREAK
  {
    hide Load32, AluImm, AluReg, ScalarLoad, ScalarStore, WriteBack, Csr, BranchTaken;
    var inst := Load32(m, t.pc);
    BreakDecodes(inst, t);
  }

  lemma BreakDecodes(inst: word, t: Thread)
    ensures Decode(inst, t.pc, t.gpr, t.ids) == Halt <==> inst == EBREAK
  {
    hide AluImm, AluReg, Csr, BranchTaken;
  }

  // ---- Footprints -------------------------------------------------------------------------

  function Bytes(a: int, len: nat): (r: set<int>)
    ensures forall b :: b in r <==> a <= b < a + len
    decreases len
  {
    if len == 0 then {} else {a} + Bytes(a + 1, len - 1)
  }

  /** Bytes the next instruction writes. */
  function Writes(m: Mem, t: Thread): set<int> {
    if t.halted then {}
    else
      match Decode(Load32(m, t.pc), t.pc, t.gpr, t.ids)
      case StoreTo(addr, f3, _) => Bytes(addr, AccessSize(f3))
      case _ => {}
  }

  /** Bytes the next instruction fetches, reads or writes. */
  function Touches(m: Mem, t: Thread): set<int> {
    if t.halted then {}
    else
      Bytes(t.pc, 4) +
      match Decode(Load32(m, t.pc), t.pc, t.gpr, t.ids)
      case LoadFrom(addr, f3) => Bytes(addr, AccessSize(f3))
      case StoreTo(addr, f3, _) => Bytes(addr, AccessSize(f3))
      case _ => {}
  }

  lemma {:induction false} ReadsAgree(m1: Mem, m2: Mem, a: int, len: nat)
    requires MBASE <= a && a + len <= MBASE + |m1|
    requires AgreeOn(m1, m2, Bytes(a, len))
    ensures ReadBytes(m1, a, len) == ReadBytes(m2, a, len)
    decreases len
  {
    if len > 0 {
      assert Peek(m1, a) == Peek(m2, a);
      ReadsAgree(m1, m2, a + 1, len - 1);
    }
  }

  lemma StepKeepsSize(m: Mem, t: Thread)
    requires !t.halted && Step(m, t).Done?
    ensures |Step(m, t).mem| == |m|
  {
    match Decode(Load32(m, t.pc), t.pc, t.gpr, t.ids)
    case StoreTo(addr, f3, data) =>
    case _ =>
  }

  /** An instruction depends on memory only through the bytes it touches. */
  lemma StepLocal(m1: Mem, m2: Mem, t: Thread)
    requires !t.halted && AgreeOn(m1, m2, Touches(m1, t))
    ensures Touches(m2, t) == Touches(m1, t) && Writes(m2, t) == Writes(m1, t)
    ensures Step(m2, t).Done? == Step(m1, t).Done?
    ensures Step(m1, t).Done? ==> Step(m2, t).thread == Step(m1, t).thread
  {
    if Span(m1, t.pc, 4) {
      ReadsAgree(m1, m2, t.pc, 4);
      var inst := Load32(m1, t.pc);
      match Decode(inst, t.pc, t.gpr, t.ids)
      case LoadFrom(addr, f3) =>
        if Span(m1, addr, AccessSize(f3)) { ReadsAgree(m1, m2, addr, AccessSize(f3)); }
      case _ =>
    }
  }

  /** A step changes no byte outside its write footprint. */
  lemma StepFrame(m: Mem, t: Thread, b: int)
    requires !t.halted && Step(m, t).Done? && b !in Writes(m, t)
    ensures Peek(Step(m, t).mem, b) == Peek(m, b)
  {
    StepKeepsSize(m, t);
    match Decode(Load32(m, t.pc), t.pc, t.gpr, t.ids)
    case StoreTo(addr, f3, data) =>
      if MBASE <= b < MBASE + |m| { WriteAt(m, addr, AccessSize(f3), data, b); }
    case _ =>
  }

  /** What a step writes does not depend on the rest of memory. */
  lemma StepWrites(m1: Mem, m2: Mem, t: Thread, b: int)
    requires !t.halted && AgreeOn(m1, m2, Touches(m1, t)) && Step(m1, t).Done?
    requires b in Writes(m1, t)
    ensures Step(m2, t).Done?
    ensures Peek(Step(m1, t).mem, b) == Peek(Step(m2, t).mem, b)
  {
    StepLocal(m1, m2, t);
    ReadsAgree(m1, m2, t.pc, 4);
    match Decode(Load32(m1, t.pc), t.pc, t.gpr, t.ids)
    case StoreTo(addr, f3, data) =>
      WriteDigit(m1, addr, AccessSize(f3), data, b - addr);
      WriteDigit(m2, addr, AccessSize(f3), data, b - addr);
    case _ =>
  }

  lemma WritesTouched(m: Mem, t: Thread)
    ensures Writes(m, t) <= Touches(m, t)
  {
  }

  /** The scalar thread as a machine of the interleaving theory. */
  const MACHINE: Machine<Thread> :=
    Machine((t: Thread) => t.halted,
            (m: Mem, t: Thread) => Step(m, t),
            (m: Mem, t: Thread) => Touches(m, t),
            (m: Mem, t: Thread) => Writes(m, t))

  lemma MachineIsLocal()
    ensures Local(MACHINE)
  {
    hide Step, Touches, Writes;
    forall m: Mem, t: Thread | !t.halted && Step(m, t).Done?
      ensures Writes(m, t) <= Touches(m, t) && |Step(m, t).mem| == |m|
      ensures forall b | b !in Writes(m, t) :: Peek(Step(m, t).mem, b) == Peek(m, b)
    {
      WritesTouched(m, t);
      StepKeepsSize(m, t);
      forall b | b !in Writes(m, t) ensures Peek(Step(m, t).mem, b) == Peek(m, b) {
        StepFrame(m, t, b);
      }
    }
    forall m1: Mem, m2: Mem, t: Thread | !t.halted && AgreeOn(m1, m2, Touches(m1, t))
      ensures SameStep(MACHINE, m1, m2, t)
    {
      StepLocal(m1, m2, t);
      if Step(m1, t).Done? {
        forall b | b in Writes(m1, t) ensures Peek(Step(m1, t).mem, b) == Peek(Step(m2, t).mem, b) {
          StepWrites(m1, m2, t, b);
        }
      }
    }
  }
}
