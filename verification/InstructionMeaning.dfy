/** What every RV32E instruction does to a thread and to memory, said in integers and single bits, and
    the proof that the decode switch does that (The RISC-V Instruction Set Manual, Volume I, sections 2.4
    to 2.8). Nothing here is defined by way of the switch or the arithmetic it calls. */
module InstructionMeaning {
  import opened Word
  import opened Arith
  import opened Memory
  import opened Isa
  import opened Interleaving
  import opened Scalar
  import opened SimtCore
  import opened LaneSteps
  import opened Instructions

  // ---- Results of the arithmetic functions ------------------------------------------------

  predicate Bit(a: word, i: nat) { a / Pow2(i) % 2 == 1 }

  /** v is f of a and b. */
  predicate Result(f: Arithmetic, a: word, b: word, v: word) {
    match f
    case ADD => v == (a + b) % 0x1_0000_0000
    case SUB => v == (a - b) % 0x1_0000_0000
    case SLT => v == if TwosComplement(a) < TwosComplement(b) then 1 else 0
    case SLTU => v == if a < b then 1 else 0
    case AND => forall i | 0 <= i < 32 :: Bit(v, i) <==> Bit(a, i) && Bit(b, i)
    case OR => forall i | 0 <= i < 32 :: Bit(v, i) <==> Bit(a, i) || Bit(b, i)
    case XOR => forall i | 0 <= i < 32 :: Bit(v, i) <==> Bit(a, i) != Bit(b, i)
    case SLL => v == a * Pow2(b % 32) % 0x1_0000_0000
    case SRL => v * Pow2(b % 32) <= a < (v + 1) * Pow2(b % 32)
    case SRA => TwosComplement(v) * Pow2(b % 32) <= TwosComplement(a) < (TwosComplement(v) + 1) * Pow2(b % 32)
  }

  predicate Passes(t: Test, a: word, b: word) {
    match t
    case EQ => a == b
    case NE => a != b
    case LT => TwosComplement(a) < TwosComplement(b)
    case GE => TwosComplement(a) >= TwosComplement(b)
    case LTU => a < b
    case GEU => a >= b
  }

  lemma {:induction false} BitwiseBit(gate: Gate, a: nat, b: nat, n: nat, i: nat)
    requires i < n
    ensures Bitwise(gate, a, b, n) / Pow2(i) % 2 == 1 <==> Gated(gate, a / Pow2(i) % 2 == 1, b / Pow2(i) % 2 == 1)
  {
    var rest := Bitwise(gate, a / 2, b / 2, n - 1);
    var r := Bitwise(gate, a, b, n);
    assert r / 2 == rest && (r % 2 == 1 <==> Gated(gate, a % 2 == 1, b % 2 == 1));
    if i == 0 {
      assert Pow2(0) == 1;
    } else {
      BitwiseBit(gate, a / 2, b / 2, n - 1, i - 1);
      assert Pow2(i) == 2 * Pow2(i - 1);
      DivDiv(r, 2, Pow2(i - 1));
      DivDiv(a, 2, Pow2(i - 1));
      DivDiv(b, 2, Pow2(i - 1));
    }
  }

  lemma {:induction false} BitwiseResult(f: Arithmetic, a: word, b: word)
    requires f.AND? || f.OR? || f.XOR?
    ensures Result(f, a, b, if f.AND? then And(a, b) else if f.OR? then Or(a, b) else Xor(a, b))
  {
    var gate := if f.AND? then AndGate else if f.OR? then OrGate else XorGate;
    var v := BitwiseWord(gate, a, b);
    forall i | 0 <= i < 32 ensures Bit(v, i) <==> Gated(gate, Bit(a, i), Bit(b, i)) {
      BitwiseBit(gate, a, b, 32, i);
    }
  }

  lemma {:induction false} ShrResult(a: nat, d: nat)
    requires d >= 1
    ensures a / d * d <= a < (a / d + 1) * d
  {
  }

  lemma {:induction false} SraResult(a: word, n: nat)
    ensures var v := Sra(a, n); TwosComplement(v) * Pow2(n) <= TwosComplement(a) < (TwosComplement(v) + 1) * Pow2(n)
  {
    var d := Pow2(n);
    if a < 0x8000_0000 {
      ShrResult(a, d);
      DivShrinks(a, d);
    } else {
      var c := 0xffff_ffff - a;
      ShrResult(c, d);
      DivShrinks(c, d);
      var q := c / d;
      assert TwosComplement(a) == -1 - c && TwosComplement(Sra(a, n)) == -1 - q;
      assert (-1 - q) * d == -(q * d) - d && (q + 1) * d == q * d + d;
    }
  }

  /** The function a switch on minor opcode and bit 30 computes is the one it is named after. */
  lemma {:induction false} RegisterResult(f3: nat, f7: nat, a: word, b: word)
    requires f3 < 8
    ensures Result(Chosen(f3, f7 == 0x20), a, b, AluReg(f3, f7, a, b))
  {
    hide Bit, And, Or, Xor, TwosComplement, Pow2;
    SignedIsTwosComplement(a);
    SignedIsTwosComplement(b);
    if f3 == 4 {
      BitwiseResult(XOR, a, b);
    } else if f3 == 6 {
      BitwiseResult(OR, a, b);
    } else if f3 == 7 {
      BitwiseResult(AND, a, b);
    } else if f3 == 5 {
      ShrResult(a, Pow2(b % 32));
      SraResult(a, b % 32);
    }
  }

  lemma {:induction false} ImmediateResult(f3: nat, a: word, imm: word, shamt: word, arithmetic: bool)
    requires f3 < 8 && shamt < 32
    ensures var f := Chosen(f3, f3 == 5 && arithmetic);
            Result(f, a, if IsShift(f) then shamt else imm, AluImm(f3, a, imm, shamt, arithmetic))
  {
    hide Bit, And, Or, Xor, TwosComplement, Pow2;
    SignedIsTwosComplement(a);
    SignedIsTwosComplement(imm);
    if f3 == 4 {
      BitwiseResult(XOR, a, imm);
    } else if f3 == 6 {
      BitwiseResult(OR, a, imm);
    } else if f3 == 7 {
      BitwiseResult(AND, a, imm);
    } else if f3 == 5 {
      ShrResult(a, Pow2(shamt));
      SraResult(a, shamt);
    }
  }

  lemma {:induction false} SignedIsTwosComplement(a: word)
    ensures Signed(a) == TwosComplement(a)
  {
  }

  // ---- What an instruction does -----------------------------------------------------------

  /** What the thread's registers about itself hold. */
  function Held(ids: Ids, c: CsrName): word {
    match c
    case HartId => ids.gid
    case ThreadIdx(a) => Coordinate(ids.tid, a)
    case BlockIdx(a) => Coordinate(ids.block, a)
    case BlockDim(a) => Coordinate(ids.dim, a)
    case GridDim(a) => Coordinate(ids.grid, a)
    case ArgsAddr => ids.args
    case PhysicalId => ids.physical
    case WarpId => ids.warp
    case LaneId => ids.lane
  }

  /** The little-endian number at an address. */
  function Number(m: Mem, a: word, bytes: nat): nat {
    if bytes == 1 then Peek(m, a)
    else if bytes == 2 then Peek(m, a) + 0x100 * Peek(m, a + 1)
    else Peek(m, a) + 0x100 * Peek(m, a + 1) + 0x1_0000 * Peek(m, a + 2) + 0x100_0000 * Peek(m, a + 3)
  }

  /** A loaded number, read as signed or not. */
  predicate Loaded(bytes: nat, signed: bool, n: nat, v: word) {
    if !signed then v == n
    else if bytes == 1 then TwosComplement(v) == if n < 0x80 then n else n - 0x100
    else if bytes == 2 then TwosComplement(v) == if n < 0x8000 then n else n - 0x1_0000
    else v == n
  }

  function Digit(v: word, k: nat): nat {
    if k == 0 then v % 0x100 else if k == 1 then v / 0x100 % 0x100 else if k == 2 then v / 0x1_0000 % 0x100 else v / 0x100_0000
  }

  /** From m to n exactly the addressed bytes have become the low bytes of v. */
  ghost predicate Stored(m: Mem, n: Mem, a: word, bytes: nat, v: word) {
    && |n| == |m|
    && forall b: int :: Peek(n, b) == if a <= b < a + bytes then Digit(v, b - a) else Peek(m, b)
  }

  function Sum(a: word, x: int): word { (a + x) % 0x1_0000_0000 }

  /** Register rd gets v; register 0 stays zero. */
  predicate Gets(t: Thread, u: Thread, rd: nat, v: word) {
    u.gpr[0] == 0 && forall k | 1 <= k < 16 :: u.gpr[k] == if k == rd then v else t.gpr[k]
  }

  predicate Keeps(t: Thread, u: Thread) { u.gpr[0] == 0 && forall k | 1 <= k < 16 :: u.gpr[k] == t.gpr[k] }

  /** The address of a memory access and its length. */
  function Access(i: Instruction, t: Thread): Option<(word, nat)>
    requires Legal(i)
  {
    match i
    case Load(bytes, _, _, rs1, offset) => Some((Sum(t.gpr[rs1], offset), bytes))
    case Store(bytes, rs1, _, offset) => Some((Sum(t.gpr[rs1], offset), bytes))
    case _ => None
  }

  predicate Reaches(i: Instruction, m: Mem, t: Thread)
    requires Legal(i)
  {
    match Access(i, t) case None => true case Some(p) => Span(m, p.0, p.1)
  }

  /** Executing i takes the thread t with memory m to u with memory n. */
  ghost predicate Means(i: Instruction, m: Mem, t: Thread, u: Thread, n: Mem)
    requires Legal(i)
  {
    && u.ids == t.ids && u.halted == (t.halted || i.Ebreak?)
    && (i.Store? || n == m)
    && match i
       case Lui(rd, upper) => Gets(t, u, rd, upper * 0x1000) && u.pc == Sum(t.pc, 4)
       case Auipc(rd, upper) => Gets(t, u, rd, Sum(t.pc, upper * 0x1000)) && u.pc == Sum(t.pc, 4)
       case Register(f, rd, rs1, rs2) =>
         u.pc == Sum(t.pc, 4) && exists v: word :: Result(f, t.gpr[rs1], t.gpr[rs2], v) && Gets(t, u, rd, v)
       case Immediate(f, rd, rs1, imm) =>
         u.pc == Sum(t.pc, 4) && exists v: word :: Result(f, t.gpr[rs1], imm % 0x1_0000_0000, v) && Gets(t, u, rd, v)
       case Load(bytes, signed, rd, rs1, offset) =>
         && u.pc == Sum(t.pc, 4)
         && exists v: word :: Loaded(bytes, signed, Number(m, Sum(t.gpr[rs1], offset), bytes), v) && Gets(t, u, rd, v)
       case Store(bytes, rs1, rs2, offset) =>
         u.pc == Sum(t.pc, 4) && Keeps(t, u) && Stored(m, n, Sum(t.gpr[rs1], offset), bytes, t.gpr[rs2])
       case Branch(test, rs1, rs2, offset) =>
         Keeps(t, u) && u.pc == Sum(t.pc, if Passes(test, t.gpr[rs1], t.gpr[rs2]) then offset else 4)
       case Jal(rd, offset) => Gets(t, u, rd, Sum(t.pc, 4)) && u.pc == Sum(t.pc, offset)
       case Jalr(rd, rs1, offset) =>
         && Gets(t, u, rd, Sum(t.pc, 4))
         && u.pc % 2 == 0 && (Sum(t.gpr[rs1], offset) == u.pc || Sum(t.gpr[rs1], offset) == u.pc + 1)
       case ReadCsr(rd, csr) => Gets(t, u, rd, Held(t.ids, csr)) && u.pc == Sum(t.pc, 4)
       case Ebreak => u.pc == t.pc && u.gpr == t.gpr
  }

  // ---- The decode switch does that --------------------------------------------------------

  lemma {:induction false} TwosWord(a: word)
    ensures TwosComplement(a) % WORD_SPAN == a && -0x8000_0000 <= TwosComplement(a) < 0x8000_0000
  {
  }

  /** An offset added as a wrapping word is the signed offset added. */
  lemma {:induction false} AddsOffset(a: word, imm: word)
    ensures Add(a, imm) == Sum(a, TwosComplement(imm))
  {
  }

  lemma {:induction false} ImmIRange(w: word)
    ensures Twelve(TwosComplement(ImmI(w)))
  {
  }

  lemma {:induction false} ImmSRange(w: word)
    ensures Twelve(TwosComplement(ImmS(w)))
  {
  }

  lemma {:induction false} EvenExtended(low: nat, span: nat)
    requires low < span && low % 2 == 0 && (span == 0x2000 || span == 0x20_0000)
    ensures var x := TwosComplement(SignExtend(low, span)); x % 2 == 0 && -(span / 2) <= x < span / 2
  {
  }

  lemma {:induction false} ImmBRange(w: word)
    ensures var x := TwosComplement(ImmB(w)); x % 2 == 0 && -0x1000 <= x < 0x1000
  {
    BranchBits(w / 0x100 % 16, w / 0x200_0000 % 64, w / 0x80 % 2, w / 0x8000_0000);
  }

  lemma {:induction false} BranchBits(a: nat, b: nat, c: nat, d: nat)
    requires a < 16 && b < 64 && c < 2 && d < 2
    ensures var x := TwosComplement(SignExtend(a * 2 + b * 0x20 + c * 0x800 + d * 0x1000, 0x2000)); x % 2 == 0 && -0x1000 <= x < 0x1000
  {
    EvenExtended(a * 2 + b * 0x20 + c * 0x800 + d * 0x1000, 0x2000);
  }

  lemma {:induction false} ImmJRange(w: word)
    ensures var x := TwosComplement(ImmJ(w)); x % 2 == 0 && -0x10_0000 <= x < 0x10_0000
  {
    JumpBits(w / 0x20_0000 % 0x400, w / 0x10_0000 % 2, w / 0x1000 % 0x100, w / 0x8000_0000);
  }

  lemma {:induction false} JumpBits(a: nat, b: nat, c: nat, d: nat)
    requires a < 0x400 && b < 2 && c < 0x100 && d < 2
    ensures var x := TwosComplement(SignExtend(a * 2 + b * 0x800 + c * 0x1000 + d * 0x10_0000, 0x20_0000));
            x % 2 == 0 && -0x10_0000 <= x < 0x10_0000
  {
    EvenExtended(a * 2 + b * 0x800 + c * 0x1000 + d * 0x10_0000, 0x20_0000);
  }

  /** What is read from a word has operands an encoding has room for. */
  lemma {:induction false} ReadLegal(w: word)
    requires Disassemble(w).Some?
    ensures Legal(Disassemble(w).value)
  {
    hide TwosComplement, ImmI, ImmS, ImmB, ImmJ, Opcode;
    ImmIRange(w);
    ImmSRange(w);
    ImmBRange(w);
    ImmJRange(w);
  }

  lemma {:induction false} NamesCsr(ids: Ids, number: nat)
    ensures Csr(ids, number) == match CsrNamed(number) case None => None case Some(c) => Some(Held(ids, c))
  {
  }

  lemma {:induction false} TestsBranch(f3: nat, a: word, b: word)
    ensures TestNamed(f3).Some? == LegalBranch(f3)
    ensures TestNamed(f3).Some? ==> (BranchTaken(f3, a, b) <==> Passes(TestNamed(f3).value, a, b))
  {
    hide TwosComplement;
    SignedIsTwosComplement(a);
    SignedIsTwosComplement(b);
  }

  /** The thread after an instruction that retires. */
  lemma {:induction false} RetireGets(t: Thread, inst: word, value: word, next: word)
    requires !BadRegister(inst)
    ensures var u := Retire(t, inst, value, next);
            && u.ids == t.ids && u.halted == t.halted && u.pc == next
            && if UsesRd(Opcode(inst)) then Gets(t, u, Rd(inst), value) else Keeps(t, u)
  {
    hide Opcode, Rd;
  }

  lemma {:induction false} BadRegisters(w: word)
    requires !BadRegister(w)
    ensures UsesRd(Opcode(w)) ==> Rd(w) < 16
    ensures UsesRs1(Opcode(w)) ==> Rs1(w) < 16
    ensures UsesRs2(Opcode(w)) ==> Rs2(w) < 16
  {
  }

  lemma {:induction false} UpperImmediate(w: word)
    ensures ImmU(w) == w / 0x1000 * 0x1000 && ImmU(w) < WORD_SPAN
    ensures forall pc: word :: Add(pc, ImmU(w)) == Sum(pc, w / 0x1000 * 0x1000)
  {
  }

  lemma {:induction false} EvenTarget(sum: word)
    ensures (sum - sum % 2) % 2 == 0 && (sum == sum - sum % 2 || sum == sum - sum % 2 + 1)
  {
  }

  /** Everything but memory accesses, branches and `ebreak`. */
  lemma {:induction false} ComputeMeans(m: Mem, t: Thread, w: word)
    requires !t.halted && Disassemble(w).Some? && !IsMemory(Opcode(w)) && Opcode(w) != OP_BRANCH && w != EBREAK
    ensures Legal(Disassemble(w).value) && Perform(m, t, w).Done? && Perform(m, t, w).mem == m
    ensures Means(Disassemble(w).value, m, t, Perform(m, t, w).thread, m)
  {
    hide Opcode, Rd, Rs1, Rs2, Funct3, Funct7, CsrNumber, ImmI, ImmS, ImmB, ImmJ, ImmU, TwosComplement, Result, AluReg, AluImm, Csr,
      CsrNamed, Held, Retire, Gets, Keeps, Add, Sum, Chosen, BadRegister, JalrTarget, ScalarLoad, ScalarStore, Load32, Loaded;
    ReadLegal(w);
    BadRegisters(w);
    var g, op := t.gpr, Opcode(w);
    Add4(t.pc);
    FieldRanges(w);
    if op == OP_REG {
      RegisterResult(Funct3(w), Funct7(w), g[Rs1(w)], g[Rs2(w)]);
      RetireGets(t, w, AluReg(Funct3(w), Funct7(w), g[Rs1(w)], g[Rs2(w)]), Add(t.pc, 4));
    } else if op == OP_IMM {
      ImmediateMeans(m, t, w);
    } else if op == OP_LUI || op == OP_AUIPC {
      UpperImmediate(w);
      RetireGets(t, w, if op == OP_LUI then ImmU(w) else Add(t.pc, ImmU(w)), Add(t.pc, 4));
    } else if op == OP_JAL {
      AddsOffset(t.pc, ImmJ(w));
      RetireGets(t, w, Add(t.pc, 4), Add(t.pc, ImmJ(w)));
    } else if op == OP_JALR {
      AddsOffset(g[Rs1(w)], ImmI(w));
      TargetIsEven(g[Rs1(w)], w);
      RetireGets(t, w, Add(t.pc, 4), JalrTarget(g[Rs1(w)], w));
    } else {
      NamesCsr(t.ids, CsrNumber(w));
      RetireGets(t, w, Held(t.ids, CsrNamed(CsrNumber(w)).value), Add(t.pc, 4));
    }
  }

  lemma {:induction false} Add4(pc: word)
    ensures Add(pc, 4) == Sum(pc, 4)
  {
  }

  lemma {:induction false} TargetIsEven(a: word, w: word)
    ensures JalrTarget(a, w) % 2 == 0
    ensures Add(a, ImmI(w)) == JalrTarget(a, w) || Add(a, ImmI(w)) == JalrTarget(a, w) + 1
  {
    hide ImmI;
    EvenTarget(Add(a, ImmI(w)));
  }

  lemma {:induction false} ImmediateMeans(m: Mem, t: Thread, w: word)
    requires !t.halted && Disassemble(w).Some? && Opcode(w) == OP_IMM
    ensures Legal(Disassemble(w).value) && Perform(m, t, w).Done? && Perform(m, t, w).mem == m
    ensures Means(Disassemble(w).value, m, t, Perform(m, t, w).thread, m)
  {
    hide Opcode, Rd, Rs1, Rs2, Funct3, Funct7, ImmI, TwosComplement, Result, AluImm, Retire, Gets, Add, Sum, Chosen, BadRegister,
      ScalarLoad, ScalarStore, Load32, Loaded;
    ReadLegal(w);
    BadRegisters(w);
    Add4(t.pc);
    TwosWord(ImmI(w));
    FieldRanges(w);
    var a, v := t.gpr[Rs1(w)], AluImm(Funct3(w), t.gpr[Rs1(w)], ImmI(w), Shamt(w), ScalarShiftIsArithmetic(w));
    ImmediateResult(Funct3(w), a, ImmI(w), Rs2(w), ScalarShiftIsArithmetic(w));
    RetireGets(t, w, v, Add(t.pc, 4));
    assert Result(Disassemble(w).value.f, a, Disassemble(w).value.imm % 0x1_0000_0000, v);
  }

  lemma {:induction false} FieldRanges(w: word)
    ensures Funct3(w) < 8 && Rs2(w) < 32
  {
  }

  lemma {:induction false} BranchMeans(m: Mem, t: Thread, w: word)
    requires !t.halted && Opcode(w) == OP_BRANCH
    ensures Disassemble(w) == None ==> Perform(m, t, w) == Fault
    ensures Disassemble(w).Some? ==> Legal(Disassemble(w).value) && Perform(m, t, w).Done? && Perform(m, t, w).mem == m
    ensures Disassemble(w).Some? ==> Means(Disassemble(w).value, m, t, Perform(m, t, w).thread, m)
  {
    hide Opcode, Rd, Rs1, Rs2, Funct3, ImmB, TwosComplement, Passes, TestNamed, BranchTaken, LegalBranch, Retire, Keeps, Add, Sum,
      BadRegister, ScalarLoad, ScalarStore, Load32;
    if !BadRegister(w) {
      BadRegisters(w);
      TestsBranch(Funct3(w), t.gpr[Rs1(w)], t.gpr[Rs2(w)]);
      if Disassemble(w).Some? {
        ReadLegal(w);
        Add4(t.pc);
        AddsOffset(t.pc, ImmB(w));
        RetireGets(t, w, 0, if BranchTaken(Funct3(w), t.gpr[Rs1(w)], t.gpr[Rs2(w)]) then Add(t.pc, ImmB(w)) else Add(t.pc, 4));
      }
    }
  }

  lemma {:induction false} ReadsNumber(m: Mem, a: word, bytes: nat)
    requires (bytes == 1 || bytes == 2 || bytes == 4) && Span(m, a, bytes)
    ensures ReadBytes(m, a, bytes) == Number(m, a, bytes)
  {
    assert ReadBytes(m, a + bytes, 0) == 0;
    if bytes == 4 {
      assert ReadBytes(m, a + 2, 2) == m[a + 2 - MBASE] + 256 * ReadBytes(m, a + 3, 1);
    }
  }

  lemma {:induction false} LoadsValue(m: Mem, a: word, f3: nat)
    requires LegalLoad(f3) && Span(m, a, AccessSize(f3))
    ensures Loaded(AccessSize(f3), f3 < 4, Number(m, a, AccessSize(f3)), ScalarLoad(m, a, f3))
  {
    hide Number, ReadBytes, SignExtend, Loaded;
    ReadsNumber(m, a, AccessSize(f3));
    ReadBound(m, a, AccessSize(f3));
    Pow256s();
    ExtendsLoaded(f3, ReadBytes(m, a, AccessSize(f3)));
  }

  lemma {:induction false} ExtendsLoaded(f3: nat, n: nat)
    requires LegalLoad(f3) && n < WORD_SPAN && (AccessSize(f3) == 1 ==> n < 256) && (AccessSize(f3) == 2 ==> n < 65536)
    ensures Loaded(AccessSize(f3), f3 < 4, n, if f3 == 0 then SignExtend(n, 256) else if f3 == 1 then SignExtend(n, 65536) else n)
  {
  }

  lemma {:induction false} DigitIs(v: word, k: nat)
    requires k < 4
    ensures Digit(v, k) == v / Pow256(k) % 256
  {
    Pow256s();
  }

  lemma {:induction false} StoresBytes(m: Mem, a: word, f3: nat, v: word)
    requires LegalStore(f3) && Span(m, a, AccessSize(f3))
    ensures Stored(m, ScalarStore(m, a, f3, v), a, AccessSize(f3), v)
  {
    hide Digit, WriteBytes;
    var bytes, n := AccessSize(f3), ScalarStore(m, a, f3, v);
    forall b: int ensures Peek(n, b) == if a <= b < a + bytes then Digit(v, b - a) else Peek(m, b) {
      if a <= b < a + bytes {
        WriteDigit(m, a, bytes, v, b - a);
        DigitIs(v, b - a);
      } else if MBASE <= b < MBASE + |m| {
        WriteAt(m, a, bytes, v, b);
      }
    }
  }

  lemma {:induction false} LoadMeans(m: Mem, t: Thread, w: word)
    requires !t.halted && Opcode(w) == OP_LOAD
    ensures Disassemble(w) == None ==> Perform(m, t, w) == Fault
    ensures Disassemble(w).Some? ==> Legal(Disassemble(w).value) && (Reaches(Disassemble(w).value, m, t) <==> Perform(m, t, w).Done?)
    ensures Disassemble(w).Some? && !Reaches(Disassemble(w).value, m, t) ==> Perform(m, t, w) == Abort
    ensures Perform(m, t, w).Done? ==> Perform(m, t, w).mem == m && Means(Disassemble(w).value, m, t, Perform(m, t, w).thread, m)
  {
    hide Opcode, Rd, Rs1, Rs2, Funct3, ImmI, TwosComplement, Retire, Gets, Add, Sum, Loaded, Number, BadRegister, ScalarLoad,
      ScalarStore, Load32;
    FieldRanges(w);
    if Disassemble(w).Some? {
      BadRegisters(w);
      ReadLegal(w);
      Add4(t.pc);
      AddsOffset(t.gpr[Rs1(w)], ImmI(w));
      var a := Add(t.gpr[Rs1(w)], ImmI(w));
      if Span(m, a, AccessSize(Funct3(w))) {
        LoadsValue(m, a, Funct3(w));
        RetireGets(t, w, ScalarLoad(m, a, Funct3(w)), Add(t.pc, 4));
      }
    }
  }

  lemma {:induction false} StoreMeans(m: Mem, t: Thread, w: word)
    requires !t.halted && Opcode(w) == OP_STORE
    ensures Disassemble(w) == None ==> Perform(m, t, w) == Fault
    ensures Disassemble(w).Some? ==> Legal(Disassemble(w).value) && (Reaches(Disassemble(w).value, m, t) <==> Perform(m, t, w).Done?)
    ensures Disassemble(w).Some? && !Reaches(Disassemble(w).value, m, t) ==> Perform(m, t, w) == Abort
    ensures Perform(m, t, w).Done? ==> Means(Disassemble(w).value, m, t, Perform(m, t, w).thread, Perform(m, t, w).mem)
  {
    hide Opcode, Rd, Rs1, Rs2, Funct3, ImmS, TwosComplement, Retire, Keeps, Add, Sum, Stored, BadRegister, ScalarLoad, ScalarStore,
      Load32;
    FieldRanges(w);
    if Disassemble(w).Some? {
      BadRegisters(w);
      ReadLegal(w);
      Add4(t.pc);
      AddsOffset(t.gpr[Rs1(w)], ImmS(w));
      var a := Add(t.gpr[Rs1(w)], ImmS(w));
      if Span(m, a, AccessSize(Funct3(w))) {
        StoresBytes(m, a, Funct3(w), t.gpr[Rs2(w)]);
        RetireGets(t, w, 0, Add(t.pc, 4));
      }
    }
  }

  lemma {:induction false} UnreadFaults(m: Mem, t: Thread, w: word)
    requires Disassemble(w) == None
    ensures Perform(m, t, w) == Fault
  {
    hide Opcode, Rd, Rs1, Rs2, Funct3, Funct7, CsrNumber, ImmI, ImmS, ImmB, ImmJ, ImmU, TwosComplement, AluReg, AluImm, CsrNamed,
      Add, BadRegister, JalrTarget, ScalarLoad, ScalarStore, Load32, TestNamed, BranchTaken, LegalBranch, Csr;
    FieldRanges(w);
    if !BadRegister(w) {
      NamesCsr(t.ids, CsrNumber(w));
      TestsBranch(Funct3(w), t.gpr[Rs1(w) % 16], t.gpr[Rs2(w) % 16]);
    }
  }

  /** A step of a thread, in full: what stands at its pc is read as an instruction and takes effect as
      that instruction means; it faults exactly when it has halted or there is no instruction, and aborts
      exactly when the fetch or the access leaves memory. */
  lemma {:induction false} StepMeans(m: Mem, t: Thread)
    ensures t.halted ==> Step(m, t) == Fault
    ensures !t.halted && !Span(m, t.pc, 4) ==> Step(m, t) == Abort
    ensures !t.halted && Span(m, t.pc, 4) ==>
              match Disassemble(Number(m, t.pc, 4))
              case None => Step(m, t) == Fault
              case Some(i) =>
                && Legal(i) && (!Reaches(i, m, t) ==> Step(m, t) == Abort)
                && (Reaches(i, m, t) ==> Step(m, t).Done? && Means(i, m, t, Step(m, t).thread, Step(m, t).mem))
  {
    hide Disassemble, Means, Perform, Legal, Reaches, Load32, Number, Span;
    if !t.halted && Span(m, t.pc, 4) {
      FetchedWord(m, t.pc);
      var w := Load32(m, t.pc);
      if Disassemble(w) == None {
        UnreadFaults(m, t, w);
      } else {
        ReadLegal(w);
        InstructionMeans(m, t, w);
      }
    }
  }

  lemma {:induction false} FetchedWord(m: Mem, pc: word)
    requires Span(m, pc, 4)
    ensures Load32(m, pc) == Number(m, pc, 4)
  {
    Load32Value(m, pc);
    ReadsNumber(m, pc, 4);
  }

  lemma {:induction false} InstructionMeans(m: Mem, t: Thread, w: word)
    requires !t.halted && Disassemble(w).Some? && Legal(Disassemble(w).value)
    ensures !Reaches(Disassemble(w).value, m, t) ==> Perform(m, t, w) == Abort
    ensures Reaches(Disassemble(w).value, m, t) ==> Perform(m, t, w).Done? && Means(Disassemble(w).value, m, t, Perform(m, t, w).thread, Perform(m, t, w).mem)
  {
    hide Means, Perform, Opcode, BadRegister, Funct3, Rs1;
    if Opcode(w) == OP_LOAD {
      LoadMeans(m, t, w);
    } else if Opcode(w) == OP_STORE {
      StoreMeans(m, t, w);
    } else if Opcode(w) == OP_BRANCH {
      BranchMeans(m, t, w);
    } else if w == EBREAK {
      BreakMeans(m, t);
    } else {
      ComputeMeans(m, t, w);
    }
  }

  lemma {:induction false} BreakMeans(m: Mem, t: Thread)
    requires !t.halted
    ensures Disassemble(EBREAK) == Some(Ebreak) && Perform(m, t, EBREAK) == Done(t.(halted := true), m)
    ensures Means(Ebreak, m, t, t.(halted := true), m)
  {
    hide Disassemble, Encode, Decode, ScalarLoad, ScalarStore, Retire;
    BreakRead();
    assert Encode(Ebreak) == EBREAK by { BreakWord(); }
    BreakDecodes(EBREAK, t);
  }

  lemma {:induction false} BreakWord()
    ensures Encode(Ebreak) == EBREAK
  {
  }

  /** In particular for each instruction as the manual encodes it. */
  lemma {:induction false} EncodedStepMeans(m: Mem, t: Thread, i: Instruction)
    requires Legal(i) && !t.halted && Span(m, t.pc, 4) && Number(m, t.pc, 4) == Encode(i) && Reaches(i, m, t)
    ensures Step(m, t).Done? && Means(i, m, t, Step(m, t).thread, Step(m, t).mem)
  {
    hide Disassemble, Means, Legal, Reaches, Number, Encode, Step;
    ReadEncode(i);
    StepMeans(m, t);
  }

  /** And a lane of a core computes what the instruction means, on the encodings both decoders agree on. */
  lemma {:induction false} LaneMeans(m: Mem, t: Thread, w: word)
    requires !t.halted && !BadRegister(w) && !IsMemory(Opcode(w)) && w != EBREAK && Opcode(w) != OP_BRANCH && LegalShift(w)
    ensures var out := ComputeLane(w, t.pc, t.gpr, t.ids);
            && (out.ok <==> Disassemble(w).Some?)
            && (out.ok ==> Legal(Disassemble(w).value) && Means(Disassemble(w).value, m, t,
                  t.(gpr := WriteBack(t.gpr, UsesRd(Opcode(w)), Rd(w), out.value), pc := out.next), m))
  {
    hide Disassemble, Means, Legal, Decode, ComputeLane, Opcode, LegalShift, BadRegister, Rd, WriteBack;
    DecodersAgree(w, t.pc, t.gpr, t.ids);
    if Disassemble(w).Some? {
      ComputeMeans(m, t, w);
    } else {
      UnreadFaults(m, t, w);
    }
  }

  // ---- The meaning leaves nothing open ----------------------------------------------------

  lemma {:induction false} BitsDetermine(a: nat, b: nat, n: nat)
    requires a < Pow2(n) && b < Pow2(n) && forall i | 0 <= i < n :: a / Pow2(i) % 2 == b / Pow2(i) % 2
    ensures a == b
  {
    if n > 0 {
      assert a / Pow2(0) % 2 == b / Pow2(0) % 2 && Pow2(0) == 1;
      forall i | 0 <= i < n - 1 ensures a / 2 / Pow2(i) % 2 == b / 2 / Pow2(i) % 2 {
        DivDiv(a, 2, Pow2(i));
        DivDiv(b, 2, Pow2(i));
        assert a / Pow2(i + 1) % 2 == b / Pow2(i + 1) % 2;
      }
      BitsDetermine(a / 2, b / 2, n - 1);
    }
  }

  lemma {:induction false} SameBits(u: word, v: word)
    requires forall i | 0 <= i < 32 :: Bit(u, i) <==> Bit(v, i)
    ensures u == v
  {
    Pow2Word();
    forall i | 0 <= i < 32 ensures u / Pow2(i) % 2 == v / Pow2(i) % 2 {
      assert Bit(u, i) <==> Bit(v, i);
      TwoBits(u / Pow2(i));
      TwoBits(v / Pow2(i));
    }
    BitsDetermine(u, v, 32);
  }

  lemma {:induction false} TwoBits(x: int)
    ensures x % 2 == 0 || x % 2 == 1
  {
  }

  lemma {:induction false} FloorUnique(x: int, d: nat, q: int, r: int)
    requires d >= 1 && q * d <= x < (q + 1) * d && r * d <= x < (r + 1) * d && -0x8000_0000 <= q && -0x8000_0000 <= r
    ensures q == r
  {
    Floor(x, d, q);
    Floor(x, d, r);
  }

  lemma {:induction false} Floor(x: int, d: nat, q: int)
    requires d >= 1 && q * d <= x < (q + 1) * d && -0x8000_0000 <= q
    ensures x + 0x8000_0000 * d >= 0 && (x + 0x8000_0000 * d) / d == q + 0x8000_0000
  {
    var up := q + 0x8000_0000;
    assert d * up == q * d + 0x8000_0000 * d;
    QuotientUnique(x + 0x8000_0000 * d, d, up, x - q * d);
  }

  lemma {:induction false} ResultUnique(f: Arithmetic, a: word, b: word, u: word, v: word)
    requires Result(f, a, b, u) && Result(f, a, b, v)
    ensures u == v
  {
    hide Bit, Pow2;
    TwosWord(u);
    TwosWord(v);
    if f.AND? || f.OR? || f.XOR? {
      SameBits(u, v);
    } else if f.SRL? {
      FloorUnique(a, Pow2(b % 32), u, v);
    } else if f.SRA? {
      FloorUnique(TwosComplement(a), Pow2(b % 32), TwosComplement(u), TwosComplement(v));
    }
  }

  lemma {:induction false} StoredUnique(m: Mem, n: Mem, o: Mem, a: word, bytes: nat, v: word)
    requires Stored(m, n, a, bytes, v) && Stored(m, o, a, bytes, v)
    ensures n == o
  {
    forall k | 0 <= k < |n| ensures n[k] == o[k] {
      assert Peek(n, MBASE + k) == Peek(o, MBASE + k);
    }
  }

  lemma {:induction false} GetsUnique(t: Thread, u: Thread, x: Thread, rd: nat, v: word)
    requires Gets(t, u, rd, v) && Gets(t, x, rd, v)
    ensures u.gpr == x.gpr
  {
    forall k | 0 <= k < 16 ensures u.gpr[k] == x.gpr[k] {
    }
  }

  lemma {:induction false} KeepsUnique(t: Thread, u: Thread, x: Thread)
    requires Keeps(t, u) && Keeps(t, x)
    ensures u.gpr == x.gpr
  {
    forall k | 0 <= k < 16 ensures u.gpr[k] == x.gpr[k] {
    }
  }

  /** The meaning determines the thread and the memory after the instruction. */
  lemma {:induction false} MeansDetermines(i: Instruction, m: Mem, t: Thread, u: Thread, n: Mem, x: Thread, o: Mem)
    requires Legal(i) && Means(i, m, t, u, n) && Means(i, m, t, x, o)
    ensures u == x && n == o
  {
    hide Result, Loaded, Stored, Gets, Keeps, Sum, Number, Held, Passes;
    match i
    case Lui(rd, upper) => GetsUnique(t, u, x, rd, upper * 0x1000);
    case Auipc(rd, upper) => GetsUnique(t, u, x, rd, Sum(t.pc, upper * 0x1000));
    case Register(f, rd, rs1, rs2) =>
      var v: word :| Result(f, t.gpr[rs1], t.gpr[rs2], v) && Gets(t, u, rd, v);
      var y: word :| Result(f, t.gpr[rs1], t.gpr[rs2], y) && Gets(t, x, rd, y);
      ResultUnique(f, t.gpr[rs1], t.gpr[rs2], v, y);
      GetsUnique(t, u, x, rd, v);
    case Immediate(f, rd, rs1, imm) =>
      var b: word := imm % 0x1_0000_0000;
      var v: word :| Result(f, t.gpr[rs1], b, v) && Gets(t, u, rd, v);
      var y: word :| Result(f, t.gpr[rs1], b, y) && Gets(t, x, rd, y);
      ResultUnique(f, t.gpr[rs1], b, v, y);
      GetsUnique(t, u, x, rd, v);
    case Load(bytes, signed, rd, rs1, offset) =>
      var k := Number(m, Sum(t.gpr[rs1], offset), bytes);
      var v: word :| Loaded(bytes, signed, k, v) && Gets(t, u, rd, v);
      var y: word :| Loaded(bytes, signed, k, y) && Gets(t, x, rd, y);
      LoadedUnique(bytes, signed, k, v, y);
      GetsUnique(t, u, x, rd, v);
    case Store(bytes, rs1, rs2, offset) =>
      StoredUnique(m, n, o, Sum(t.gpr[rs1], offset), bytes, t.gpr[rs2]);
      KeepsUnique(t, u, x);
    case Branch(test, rs1, rs2, offset) => KeepsUnique(t, u, x);
    case Jal(rd, offset) => GetsUnique(t, u, x, rd, Sum(t.pc, 4));
    case Jalr(rd, rs1, offset) => GetsUnique(t, u, x, rd, Sum(t.pc, 4));
    case ReadCsr(rd, csr) => GetsUnique(t, u, x, rd, Held(t.ids, csr));
    case Ebreak =>
  }

  lemma {:induction false} LoadedUnique(bytes: nat, signed: bool, k: nat, u: word, v: word)
    requires Loaded(bytes, signed, k, u) && Loaded(bytes, signed, k, v)
    ensures u == v
  {
  }
}
