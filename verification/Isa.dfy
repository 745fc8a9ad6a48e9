/** RV32E decoding and arithmetic shared word for word by the scalar simulator and the core model
    (The RISC-V Instruction Set Manual, Volume I, sections 2.3 to 2.6 and chapter 4). */
module Isa {
  import opened Word

  const OP_LUI := 0x37
  const OP_AUIPC := 0x17
  const OP_IMM := 0x13
  const OP_REG := 0x33
  const OP_LOAD := 0x03
  const OP_STORE := 0x23
  const OP_BRANCH := 0x63
  const OP_JAL := 0x6f
  const OP_JALR := 0x67
  const OP_SYSTEM := 0x73
  const EBREAK: word := 0x0010_0073

  function Opcode(inst: word): nat { inst % 0x80 }

  function Rd(inst: word): nat { inst / 0x80 % 32 }

  function Funct3(inst: word): nat { inst / 0x1000 % 8 }

  function Rs1(inst: word): nat { inst / 0x8000 % 32 }

  function Rs2(inst: word): nat { inst / 0x10_0000 % 32 }

  function Funct7(inst: word): nat { inst / 0x200_0000 }

  function CsrNumber(inst: word): nat { inst / 0x10_0000 }

  function ImmI(inst: word): word { SignExtend(inst / 0x10_0000, 0x1000) }

  function ImmS(inst: word): word { SignExtend(inst / 0x80 % 32 + inst / 0x200_0000 * 32, 0x1000) }

  function ImmU(inst: word): word { inst - inst % 0x1000 }

  function ImmB(inst: word): word {
    SignExtend(inst / 0x100 % 16 * 2 + inst / 0x200_0000 % 64 * 0x20
               + inst / 0x80 % 2 * 0x800 + inst / 0x8000_0000 * 0x1000, 0x2000)
  }

  function ImmJ(inst: word): word {
    SignExtend(inst / 0x20_0000 % 0x400 * 2 + inst / 0x10_0000 % 2 * 0x800
               + inst / 0x1000 % 0x100 * 0x1000 + inst / 0x8000_0000 * 0x10_0000, 0x20_0000)
  }

  predicate UsesRd(op: nat) {
    op in {OP_LUI, OP_AUIPC, OP_IMM, OP_REG, OP_LOAD, OP_JAL, OP_JALR, OP_SYSTEM}
  }

  predicate UsesRs1(op: nat) { op in {OP_IMM, OP_REG, OP_LOAD, OP_STORE, OP_BRANCH, OP_JALR} }

  predicate UsesRs2(op: nat) { op in {OP_REG, OP_STORE, OP_BRANCH} }

  /** RV32E has sixteen registers; a used index above 15 is illegal. */
  predicate BadRegister(inst: word) {
    var op := Opcode(inst);
    (UsesRd(op) && Rd(inst) >= 16) || (UsesRs1(op) && Rs1(inst) >= 16) || (UsesRs2(op) && Rs2(inst) >= 16)
  }

  /** OP-IMM; `arithmetic` picks the arithmetic form of the right shift. */
  function AluImm(f3: nat, a: word, imm: word, shamt: nat, arithmetic: bool): word {
    match f3
    case 0 => Add(a, imm)
    case 1 => Shl(a, shamt)
    case 2 => FromBool(Signed(a) < Signed(imm))
    case 3 => FromBool(a < imm)
    case 4 => Xor(a, imm)
    case 5 => if arithmetic then Sra(a, shamt) else Shr(a, shamt)
    case 6 => Or(a, imm)
    case _ => And(a, imm)
  }

  function AluReg(f3: nat, f7: nat, a: word, b: word): word {
    match f3
    case 0 => if f7 == 0x20 then Sub(a, b) else Add(a, b)
    case 1 => Shl(a, b % 32)
    case 2 => FromBool(Signed(a) < Signed(b))
    case 3 => FromBool(a < b)
    case 4 => Xor(a, b)
    case 5 => if f7 == 0x20 then Sra(a, b % 32) else Shr(a, b % 32)
    case 6 => Or(a, b)
    case _ => And(a, b)
  }

  predicate LegalBranch(f3: nat) { f3 in {0, 1, 4, 5, 6, 7} }

  predicate BranchTaken(f3: nat, a: word, b: word) {
    match f3
    case 0 => a == b
    case 1 => a != b
    case 4 => Signed(a) < Signed(b)
    case 5 => Signed(a) >= Signed(b)
    case 6 => a < b
    case 7 => a >= b
    case _ => false
  }

  function JalrTarget(a: word, inst: word): word {
    var sum := Add(a, ImmI(inst));
    sum - sum % 2
  }

  /** What a thread can read about itself and the launch; constant while the thread runs. */
  datatype Ids = Ids(gid: word, tid: Dim3, block: Dim3, dim: Dim3, grid: Dim3, args: word,
                     physical: word, warp: word, lane: word)

  function Csr(ids: Ids, number: nat): Option<word> {
    match number
    case 0xf14 => Some(ids.gid)
    case 0xcc0 => Some(ids.tid.x)
    case 0xcc1 => Some(ids.tid.y)
    case 0xcc2 => Some(ids.tid.z)
    case 0xcc3 => Some(ids.block.x)
    case 0xcc4 => Some(ids.block.y)
    case 0xcc5 => Some(ids.block.z)
    case 0xcc6 => Some(ids.dim.x)
    case 0xcc7 => Some(ids.dim.y)
    case 0xcc8 => Some(ids.dim.z)
    case 0xcc9 => Some(ids.grid.x)
    case 0xcca => Some(ids.grid.y)
    case 0xccb => Some(ids.grid.z)
    case 0xccc => Some(ids.args)
    case 0xccd => Some(ids.physical)
    case 0xcce => Some(ids.warp)
    case 0xccf => Some(ids.lane)
    case _ => None
  }

  type Registers = g: seq<word> | |g| == 16 witness [0, 0, 0, 0, 0, 0, 0, 0, 0, 0, 0, 0, 0, 0, 0, 0]

  const ZERO_REGISTERS: Registers := [0, 0, 0, 0, 0, 0, 0, 0, 0, 0, 0, 0, 0, 0, 0, 0]

  /** Register write-back; x0 stays zero. */
  function WriteBack(g: Registers, writes: bool, rd: nat, value: word): (r: Registers)
    requires writes ==> rd < 16
    ensures r[0] == 0
    ensures forall k | 1 <= k < 16 :: r[k] == if writes && k == rd then value else g[k]
  {
    (if writes && rd != 0 then g[rd := value] else g)[0 := 0]
  }

  // ---- The two decodings of the immediate right shift -------------------------------------

  /** The core takes bit 30 of an immediate shift for "arithmetic", the scalar simulator compares
      the whole funct7 field. */
  predicate CoreShiftIsArithmetic(inst: word) { inst / 0x4000_0000 % 2 == 1 }

  predicate ScalarShiftIsArithmetic(inst: word) { Funct7(inst) == 0x20 }

  /** The encodings on which both decoders see the same instruction. */
  predicate LegalShift(inst: word) {
    Opcode(inst) == OP_IMM && Funct3(inst) == 5 && CoreShiftIsArithmetic(inst) ==> ScalarShiftIsArithmetic(inst)
  }

  lemma ShiftDecodersAgree(inst: word)
    requires LegalShift(inst) && Opcode(inst) == OP_IMM && Funct3(inst) == 5
    ensures CoreShiftIsArithmetic(inst) == ScalarShiftIsArithmetic(inst)
  {
    assert Funct7(inst) == 0x20 ==> CoreShiftIsArithmetic(inst);
  }

  function Shamt(inst: word): nat { Rs2(inst) }

  /** Both machines compute the same immediate shift for every operand exactly when the encoding
      is legal or the shift amount is zero. */
  lemma ShiftsAgreeIff(inst: word, imm: word)
    requires Opcode(inst) == OP_IMM && Funct3(inst) == 5
    ensures (forall a: word ::
               AluImm(5, a, imm, Shamt(inst), CoreShiftIsArithmetic(inst)) ==
               AluImm(5, a, imm, Shamt(inst), ScalarShiftIsArithmetic(inst)))
            <==> LegalShift(inst) || Shamt(inst) == 0
  {
    assert Funct7(inst) == 0x20 ==> CoreShiftIsArithmetic(inst);
    var n := Shamt(inst);
    if n == 0 {
      forall a: word ensures Sra(a, 0) == Shr(a, 0) {}
    } else if !LegalShift(inst) {
      var a: word := 0x8000_0000;
      assert Pow2(n) == 2 * Pow2(n - 1);
      HalfOrLess(0x7fff_ffff, Pow2(n));
      HalfOrLess(a, Pow2(n));
      assert Sra(a, n) != Shr(a, n);
      assert AluImm(5, a, imm, n, true) != AluImm(5, a, imm, n, false);
    }
  }

  lemma HalfOrLess(x: nat, d: nat)
    requires d >= 2
    ensures 2 * (x / d) <= x
  {
    assert d * (x / d) <= x;
    assert 2 * (x / d) <= d * (x / d);
  }
}
