/** Exactly when a core faults: the word in execution is no instruction, active lanes disagree on the
    target of an indirect jump, or a branch that splits the warp finds the divergence stack full. */
module CoreFaults {
  import opened Word
  import opened Memory
  import opened Isa
  import opened Scalar
  import opened SimtCore
  import opened Divergence
  import opened Instructions
  import opened InstructionMeaning

  predicate IsIndirect(w: word) { Disassemble(w).Some? && Disassemble(w).value.Jalr? && Legal(Disassemble(w).value) }

  /** Where an indirect jump takes a lane with these registers. */
  function Target(g: Registers, rs1: nat, offset: int): nat
    requires rs1 < 16
  {
    Sum(g[rs1], offset) - Sum(g[rs1], offset) % 2
  }

  predicate Apart(g: Registers, h: Registers, i: Instruction)
    requires Legal(i) && i.Jalr?
  {
    Target(g, i.rs1, i.offset) != Target(h, i.rs1, i.offset)
  }

  /** Two active lanes jump to different places. */
  predicate Disagree(s: Shape, c: Core)
    requires ValidCore(s, c)
  {
    IsIndirect(c.inst) &&
    exists t, u | t in c.im && u in c.im :: Apart(c.warps[c.iw].lanes[t].gpr, c.warps[c.iw].lanes[u].gpr, Disassemble(c.inst).value)
  }

  lemma {:induction false} ReadsComputes(w: word, pc: word, g: Registers, ids: Ids)
    requires !BadRegister(w) && !IsMemory(Opcode(w)) && w != EBREAK && Opcode(w) != OP_BRANCH
    ensures ComputeLane(w, pc, g, ids).ok <==> Disassemble(w).Some?
  {
    hide AluImm, AluReg, Opcode, Rd, Rs1, Rs2, Funct3, Funct7, CsrNumber, ImmI, ImmJ, ImmU, TwosComplement, Add, CsrNamed, Csr, JalrTarget;
    NamesCsr(ids, CsrNumber(w));
  }

  lemma {:induction false} ReadsBranch(w: word)
    requires !BadRegister(w) && Opcode(w) == OP_BRANCH
    ensures Disassemble(w).Some? <==> LegalBranch(Funct3(w))
  {
    hide Opcode, Rd, Rs1, Rs2, Funct3, ImmB, TwosComplement, TestNamed, LegalBranch;
    TestsBranch(Funct3(w), 0, 0);
  }

  lemma {:induction false} JalrRead(w: word)
    ensures IsIndirect(w) <==> Opcode(w) == OP_JALR && !BadRegister(w)
    ensures IsIndirect(w) ==> Disassemble(w).value == Jalr(Rd(w), Rs1(w), TwosComplement(ImmI(w)))
  {
    hide Opcode, Rd, Rs1, Rs2, Funct3, Funct7, CsrNumber, ImmI, ImmJ, ImmS, ImmB, TwosComplement, CsrNamed, TestNamed;
    ImmIRange(w);
    if !BadRegister(w) { BadRegisters(w); }
  }

  lemma {:induction false} LaneJumps(w: word, pc: word, g: Registers, ids: Ids)
    requires IsIndirect(w)
    ensures ComputeLane(w, pc, g, ids).next == Target(g, Disassemble(w).value.rs1, Disassemble(w).value.offset)
  {
    hide Opcode, Rd, Rs1, Rs2, Funct3, ImmI, TwosComplement, Disassemble, AluImm, AluReg, Csr, IsIndirect, BadRegister, Add, Sum, Legal;
    JalrRead(w);
    if !BadRegister(w) { BadRegisters(w); }
    AddsOffset(g[Rs1(w)], ImmI(w));
  }

  lemma {:induction false} DivergesDisagree(s: Shape, cid: nat, c: Core)
    requires ValidCore(s, c) && !BadRegister(c.inst)
    ensures Diverges(s, cid, c) <==> Disagree(s, c)
  {
    hide ComputeLane, Target, Disassemble, Opcode, BadRegister, LaneIds, IsIndirect;
    JalrRead(c.inst);
    if Opcode(c.inst) == OP_JALR {
      IndirectLegal(c.inst);
      forall t | t in c.im
        ensures LaneResult(s, cid, c, t).next ==
                  Target(c.warps[c.iw].lanes[t].gpr, Disassemble(c.inst).value.rs1, Disassemble(c.inst).value.offset)
      {
        var lane := c.warps[c.iw].lanes[t];
        LaneJumps(c.inst, c.ip, lane.gpr, LaneIds(s, cid, c.cta, c.iw, t, lane));
      }
    }
  }

  lemma {:induction false} IndirectLegal(w: word)
    requires IsIndirect(w)
    ensures Disassemble(w).Some? && Legal(Disassemble(w).value) && Disassemble(w).value.Jalr?
  {
  }

  lemma {:induction false} ComputeFaults(s: Shape, cid: nat, c: Core)
    requires ValidCore(s, c) && !c.fault && c.im != {}
    requires !BadRegister(c.inst) && !IsMemory(Opcode(c.inst)) && c.inst != EBREAK && Opcode(c.inst) != OP_BRANCH
    ensures ComputeStep(s, cid, c).fault <==> Disassemble(c.inst) == None || Disagree(s, c)
  {
    hide ComputeLane, LaneIds, Disassemble, Disagree, Diverges, ComputedLanes, CommonNext, BadRegister, Opcode;
    DivergesDisagree(s, cid, c);
    forall t | t in c.im ensures LaneResult(s, cid, c, t).ok <==> Disassemble(c.inst).Some? {
      var lane := c.warps[c.iw].lanes[t];
      ReadsComputes(c.inst, c.ip, lane.gpr, LaneIds(s, cid, c.cta, c.iw, t, lane));
    }
    var t :| t in c.im;
    assert LaneResult(s, cid, c, t).ok <==> Disassemble(c.inst).Some?;
  }

  lemma {:induction false} BranchFaults(s: Shape, c: Core)
    requires ValidCore(s, c) && !c.fault && c.active && c.state.Exec? && Opcode(c.inst) == OP_BRANCH && !BadRegister(c.inst)
    ensures BranchStep(s, c).fault <==> Disassemble(c.inst) == None || Overflows(s, c)
  {
    hide Disassemble, Opcode, BadRegister, LegalBranch, TakenLanes, ValidWarp;
    ReadsBranch(c.inst);
  }

  /** The register of a load or store does not exist. Its minor opcode is not looked at by a core. */
  predicate NoInstruction(w: word) { if IsMemory(Opcode(w)) then BadRegister(w) else Disassemble(w) == None }

  /** A cycle of a fault-free core raises the fault exactly when the word in execution is no instruction,
      the active lanes disagree on an indirect jump, or the stack overflows; the core then stops. */
  lemma {:induction false} FaultsIff(s: Shape, cid: nat, c: Core, m: Mem)
    requires ValidCore(s, c) && ServesMemory(c) && !c.fault && (c.state.Exec? ==> c.im != {})
    ensures CoreStep(s, cid, c, m).fault <==>
              c.active && c.state.Exec? && (NoInstruction(c.inst) || Disagree(s, c) || Overflows(s, c))
    ensures CoreStep(s, cid, c, m).fault ==> !CoreStep(s, cid, c, m).active
  {
    hide Disassemble, Opcode, BadRegister, LegalBranch, TakenLanes, ValidWarp, ComputedLanes, CommonNext, AllLegal, Diverges, Disagree, Load32,
      CoreLoad, WriteBack, MemoryAddress;
    if c.active && c.state.Exec? {
      UnreadBad(c.inst);
      JalrRead(c.inst);
      if BadRegister(c.inst) {
        NoDisagreement(s, c);
      } else if IsMemory(Opcode(c.inst)) {
        NoDisagreement(s, c);
      } else if c.inst == EBREAK {
        BreakReads();
        NoDisagreement(s, c);
      } else if Opcode(c.inst) == OP_BRANCH {
        BranchFaults(s, c);
        NoDisagreement(s, c);
      } else {
        ComputeFaults(s, cid, c);
      }
    }
  }

  lemma {:induction false} UnreadBad(w: word)
    ensures BadRegister(w) ==> Disassemble(w) == None
  {
    hide Opcode, BadRegister;
  }

  lemma {:induction false} BreakReads()
    ensures Disassemble(EBREAK) == Some(Ebreak) && Opcode(EBREAK) == OP_SYSTEM && !BadRegister(EBREAK)
  {
    hide Disassemble, Opcode, Rd, Rs1, Rs2, Funct3, Encode;
    BreakRead();
    BreakWord();
    BreakOpcode();
  }

  lemma {:induction false} BreakOpcode()
    ensures Opcode(EBREAK) == OP_SYSTEM && !BadRegister(EBREAK)
  {
  }

  lemma {:induction false} NoDisagreement(s: Shape, c: Core)
    requires ValidCore(s, c)
    ensures Disagree(s, c) ==> Opcode(c.inst) == OP_JALR && !BadRegister(c.inst)
  {
    hide Disassemble, Opcode, BadRegister, ValidWarp, Apart, IsIndirect;
    JalrRead(c.inst);
  }
}
