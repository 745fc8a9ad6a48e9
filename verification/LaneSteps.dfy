/** Lane by lane, what a core does to a lane is one scalar step of the lane's thread. */
module LaneSteps {
  import opened Word
  import opened Memory
  import opened Isa
  import opened Interleaving
  import opened Scalar
  import opened SimtCore

  /** The scalar thread is about to execute `inst` fetched from memory. */
  predicate Fetches(m: Mem, t: Thread, inst: word) {
    !t.halted && Span(m, t.pc, 4) && Load32(m, t.pc) == inst
  }

  /** On encodings both decoders understand alike, a legal lane computation of the core is the
      scalar one, and the two reject the same instructions. */
  lemma DecodersAgree(inst: word, pc: word, g: Registers, ids: Ids)
    requires !BadRegister(inst) && !IsMemory(Opcode(inst)) && inst != EBREAK && Opcode(inst) != OP_BRANCH
    requires LegalShift(inst)
    ensures var out := ComputeLane(inst, pc, g, ids);
            Decode(inst, pc, g, ids) == if out.ok then Compute(out.value, out.next) else Illegal
  {
    hide AluImm, AluReg, ImmI, ImmJ, ImmU, Csr, CoreShiftIsArithmetic, ScalarShiftIsArithmetic, LegalShift;
    if Opcode(inst) == OP_IMM && Funct3(inst) == 5 {
      ShiftDecodersAgree(inst);
    } else if Opcode(inst) == OP_IMM {
      ShiftFlagUnused(Funct3(inst), g[Rs1(inst)], ImmI(inst), Shamt(inst));
    }
  }

  lemma ShiftFlagUnused(f3: nat, a: word, imm: word, shamt: nat)
    requires f3 != 5
    ensures AluImm(f3, a, imm, shamt, true) == AluImm(f3, a, imm, shamt, false)
  {
  }

  lemma ComputeStepAgrees(m: Mem, t: Thread, inst: word)
    requires Fetches(m, t, inst)
    requires !BadRegister(inst) && !IsMemory(Opcode(inst)) && inst != EBREAK && Opcode(inst) != OP_BRANCH
    requires LegalShift(inst) && ComputeLane(inst, t.pc, t.gpr, t.ids).ok
    ensures var out := ComputeLane(inst, t.pc, t.gpr, t.ids);
            Step(m, t) == Done(t.(gpr := WriteBack(t.gpr, UsesRd(Opcode(inst)), Rd(inst), out.value), pc := out.next), m)
  {
    hide Decode, ComputeLane, WriteBack, BadRegister, LegalShift;
    DecodersAgree(inst, t.pc, t.gpr, t.ids);
  }

  lemma BreakStepAgrees(m: Mem, t: Thread)
    requires Fetches(m, t, EBREAK)
    ensures Step(m, t) == Done(t.(halted := true), m)
  {
    hide Decode, Load32, WriteBack, ScalarLoad, ScalarStore, WriteBytes, BadRegister, Retire;
    BreakDecodes(EBREAK, t);
  }

  lemma BranchStepAgrees(m: Mem, t: Thread, inst: word)
    requires Fetches(m, t, inst) && !BadRegister(inst) && Opcode(inst) == OP_BRANCH && LegalBranch(Funct3(inst))
    requires t.gpr[0] == 0
    ensures var taken := BranchTaken(Funct3(inst), t.gpr[Rs1(inst) % 16], t.gpr[Rs2(inst) % 16]);
            Step(m, t) == Done(t.(pc := if taken then Add(t.pc, ImmB(inst)) else Add(t.pc, 4)), m)
  {
    hide BranchTaken, ImmB, LegalBranch, Load32;
    assert t.gpr[0 := 0] == t.gpr;
  }

  lemma LoadStepAgrees(m: Mem, t: Thread, inst: word)
    requires Fetches(m, t, inst) && !BadRegister(inst) && Opcode(inst) == OP_LOAD && LegalLoad(Funct3(inst))
    requires var addr := Add(t.gpr[Rs1(inst) % 16], ImmI(inst));
             Contained(addr, Funct3(inst)) && Span(m, addr - addr % 4, 4)
    ensures var addr := Add(t.gpr[Rs1(inst) % 16], ImmI(inst));
            Step(m, t) == Done(t.(gpr := WriteBack(t.gpr, true, Rd(inst), CoreLoad(m, addr, Funct3(inst))), pc := Add(t.pc, 4)), m)
  {
    hide CoreLoad, ScalarLoad, ImmI, Load32, Contained;
    var addr := Add(t.gpr[Rs1(inst) % 16], ImmI(inst));
    LoadsAgree(m, addr, Funct3(inst));
    assert Decode(inst, t.pc, t.gpr, t.ids) == LoadFrom(addr, Funct3(inst));
  }

  lemma StoreStepAgrees(m: Mem, t: Thread, inst: word)
    requires Fetches(m, t, inst) && !BadRegister(inst) && Opcode(inst) == OP_STORE && LegalStore(Funct3(inst))
    requires t.gpr[0] == 0
    requires var addr := Add(t.gpr[Rs1(inst) % 16], ImmS(inst));
             Contained(addr, Funct3(inst)) && Span(m, addr, AccessSize(Funct3(inst)))
    ensures var addr := Add(t.gpr[Rs1(inst) % 16], ImmS(inst));
            Step(m, t) == Done(t.(pc := Add(t.pc, 4)), StoreRef(m, CoreStore(addr, Funct3(inst), t.gpr[Rs2(inst) % 16])))
  {
    hide CoreStore, ScalarStore, StoreRef, ImmS, Load32, Contained;
    var addr := Add(t.gpr[Rs1(inst) % 16], ImmS(inst));
    StoresAgree(m, addr, Funct3(inst), t.gpr[Rs2(inst) % 16]);
    assert Decode(inst, t.pc, t.gpr, t.ids) == StoreTo(addr, Funct3(inst), t.gpr[Rs2(inst) % 16]);
    assert t.gpr[0 := 0] == t.gpr;
  }
}
