/** When the device raises its failure flag: in the cycles of an instruction for which the thread of the
    scalar simulator would run out of memory. */
module DeviceFailure {
  import opened Word
  import opened Memory
  import opened Isa
  import opened Scalar
  import opened SimtCore
  import opened Kmu
  import opened StoreOrder
  import opened Device
  import opened Instructions
  import opened InstructionMeaning

  /** The thread of the lane being served: only its registers matter here. */
  predicate OfLane(s: Shape, c: Core, t: Thread)
    requires ValidCore(s, c)
  {
    t.gpr == c.warps[c.iw].lanes[c.mt].gpr
  }

  /** Memory ends at a word boundary, so an access inside a word is in memory when the word is. */
  lemma {:induction false} WordInMemory(m: Mem, a: word, bytes: nat)
    requires |m| % 4 == 0 && 1 <= bytes && a % 4 + bytes <= 4
    ensures Span(m, a - a % 4, 4) <==> Span(m, a, bytes)
  {
  }

  lemma {:induction false} FetchFailsIff(s: Shape, c: Core, m: Mem, t: Thread)
    requires ValidCore(s, c) && c.active && c.state.Fetch? && !t.halted && t.pc == c.ip
    ensures ReadFails(s, c, m) <==> !Span(m, t.pc, 4)
    ensures ReadFails(s, c, m) ==> Step(m, t) == Interleaving.Abort
  {
    hide Perform, Load32;
  }

  lemma {:induction false} LoadAddress(s: Shape, c: Core, t: Thread)
    requires ValidCore(s, c) && OfLane(s, c, t) && Opcode(c.inst) == OP_LOAD && Disassemble(c.inst).Some?
    ensures Legal(Disassemble(c.inst).value)
    ensures Access(Disassemble(c.inst).value, t) == Some((MemoryAddress(s, c), AccessSize(Funct3(c.inst)))) && LegalLoad(Funct3(c.inst))
  {
    hide Opcode, Rd, Rs1, Funct3, ImmI, ImmS, TwosComplement, Add, Sum, BadRegister, ValidWarp;
    DisassembledLegal(c.inst);
    BadRegisters(c.inst);
    FieldRanges(c.inst);
    AddsOffset(t.gpr[Rs1(c.inst)], ImmI(c.inst));
  }

  lemma {:induction false} StoreAddress(s: Shape, c: Core, t: Thread)
    requires ValidCore(s, c) && OfLane(s, c, t) && Opcode(c.inst) == OP_STORE && Disassemble(c.inst).Some?
    ensures Legal(Disassemble(c.inst).value)
    ensures Access(Disassemble(c.inst).value, t) == Some((MemoryAddress(s, c), AccessSize(Funct3(c.inst)))) && LegalStore(Funct3(c.inst))
  {
    hide Opcode, Rd, Rs1, Funct3, ImmI, ImmS, TwosComplement, Add, Sum, BadRegister, ValidWarp;
    DisassembledLegal(c.inst);
    BadRegisters(c.inst);
    FieldRanges(c.inst);
    AddsOffset(t.gpr[Rs1(c.inst)], ImmS(c.inst));
  }

  lemma {:induction false} DisassembledLegal(w: word)
    requires Disassemble(w).Some?
    ensures Legal(Disassemble(w).value) && !BadRegister(w)
  {
    hide TwosComplement, Opcode, Funct3, Rs1, Rs2, Rd, ImmI, ImmS, ImmB, ImmJ, CsrNumber, Legal;
    ReadLegal(w);
  }

  /** A load under way: recording the core raises the flag exactly when the lane's thread would run out of
      memory on it, and the response raises it again unless the result is thrown away. */
  lemma {:induction false} LoadFailsIff(s: Shape, c: Core, m: Mem, t: Thread)
    requires ValidCore(s, c) && OfLane(s, c, t) && Opcode(c.inst) == OP_LOAD && Disassemble(c.inst).Some?
    requires c.active && c.state.MemResp? && c.mt in c.im && |m| % 4 == 0 && Contained(MemoryAddress(s, c), Funct3(c.inst))
    ensures Legal(Disassemble(c.inst).value)
    ensures PackFails(s, c, m) <==> !Reaches(Disassemble(c.inst).value, m, t)
    ensures ReadFails(s, c, m) <==> Rd(c.inst) != 0 && !Reaches(Disassemble(c.inst).value, m, t)
  {
    hide Disassemble, Legal, Access, MemoryAddress, Opcode, Funct3, Rd, Span, ValidWarp;
    LoadAddress(s, c, t);
    WordInMemory(m, MemoryAddress(s, c), AccessSize(Funct3(c.inst)));
  }

  /** A store raises it exactly when the thread would run out of memory on it. */
  lemma {:induction false} StoreFailsIff(s: Shape, c: Core, m: Mem, t: Thread)
    requires ValidCore(s, c) && OfLane(s, c, t) && Opcode(c.inst) == OP_STORE && Disassemble(c.inst).Some?
    requires c.active && c.state.MemReq? && c.mt in c.im && Contained(MemoryAddress(s, c), Funct3(c.inst))
    ensures Legal(Disassemble(c.inst).value) && PendingStore(s, c).Some?
    ensures StoreFails(m, PendingStore(s, c).value) <==> !Reaches(Disassemble(c.inst).value, m, t)
  {
    hide Disassemble, Legal, Access, MemoryAddress, Opcode, Funct3, Rs2, CoreStore, MaskBit, StoreFails;
    StoreAddress(s, c, t);
    var f3 := Funct3(c.inst);
    MaskedOutside(m, MemoryAddress(s, c), f3, LaneRegister(c, c.mt, Rs2(c.inst)));
  }

  lemma {:induction false} MaskedOutside(m: Mem, a: word, f3: nat, data: word)
    requires LegalStore(f3) && Contained(a, f3)
    ensures StoreFails(m, CoreStore(a, f3, data)) <==> !Span(m, a, AccessSize(f3))
  {
    hide MaskBit;
    var st := CoreStore(a, f3, data);
    assert st.mask == CoreStore(a, f3, 0).mask && st.addr == a - a % 4;
    forall b | 0 <= b < 4 ensures MaskBit(st.mask, b) <==> a % 4 <= b < a % 4 + AccessSize(f3) {
      MaskBits(a, f3, b);
    }
    var first, last := a % 4, a % 4 + AccessSize(f3) - 1;
    assert MaskBit(st.mask, first) && MaskBit(st.mask, last);
  }

  /** A store of the cycle lies outside memory. */
  predicate CoreStoreFails(s: Shape, c: Core, m: Mem)
    requires ValidCore(s, c)
  {
    PendingStore(s, c).Some? && StoreFails(m, PendingStore(s, c).value)
  }

  lemma {:induction false} SomeStoreFails(s: Shape, cores: seq<Core>, m: Mem)
    requires forall i | 0 <= i < |cores| :: ValidCore(s, cores[i])
    ensures AnyStoreFails(m, Sort(Firsts(Pending(s, cores)))) <==> exists i :: 0 <= i < |cores| && CoreStoreFails(s, cores[i], m)
  {
    hide StoreFails, PendingStore, Sort, Pending, ValidCore;
    var pending := Pending(s, cores);
    var stores := Sort(Firsts(pending));
    PendingOwners(s, cores);
    assert multiset(stores) == multiset(Firsts(pending));
    if k :| 0 <= k < |stores| && StoreFails(m, stores[k]) {
      assert stores[k] in multiset(stores);
      var i :| 0 <= i < |Firsts(pending)| && Firsts(pending)[i] == stores[k];
      assert pending[i] in pending && CoreStoreFails(s, cores[pending[i].1], m);
    }
    if i :| 0 <= i < |cores| && CoreStoreFails(s, cores[i], m) {
      var x := (PendingStore(s, cores[i]).value, i);
      var k :| 0 <= k < |pending| && pending[k] == x;
      assert Firsts(pending)[k] == x.0;
      assert x.0 in multiset(stores);
      var n :| 0 <= n < |stores| && stores[n] == x.0;
    }
  }

  /** The flag after a cycle: it was up before, or a core read outside memory in the cycle or has such a load
      under way after it, or one of the stores of the cycle lies outside. */
  lemma {:induction false} FailedIff(s: Shape, g: Gpu, inputs: Inputs)
    requires ValidGpu(s, g) && (Fired(g).Some? ==> DividesLaunch(g.kmu.launch))
    ensures var r := Cycle(s, g, inputs);
            r.failed <==>
              || g.failed
              || (exists i :: 0 <= i < s.cores && ReadFails(s, g.cores[i], g.mem))
              || (exists i :: 0 <= i < s.cores && PackFails(s, r.cores[i], r.mem))
              || (exists i :: 0 <= i < s.cores && CoreStoreFails(s, g.cores[i], g.mem))
  {
    hide ReadFails, PackFails, CoreStoreFails, NextCores, KmuStep, Sort, ApplyStores, Fired, ValidCore, ServesMemory, Pending;
    SomeStoreFails(s, g.cores, g.mem);
  }
}
