/** The RV32E instructions with their operands, as numbers and signed offsets, and their encoding
    (The RISC-V Instruction Set Manual, Volume I, sections 2.2 to 2.8 and chapter 4). */
module Instructions {
  import opened Word
  import opened Arith
  import opened Isa

  datatype Arithmetic = ADD | SUB | SLL | SLT | SLTU | XOR | SRL | SRA | OR | AND

  datatype Test = EQ | NE | LT | GE | LTU | GEU

  datatype Axis = X | Y | Z

  function Coordinate(d: Dim3, a: Axis): word { match a case X => d.x case Y => d.y case Z => d.z }

  /** The registers of a thread that say which thread it is (sw/kernel/include/gpu.h). */
  datatype CsrName =
    | HartId | ThreadIdx(axis: Axis) | BlockIdx(axis: Axis) | BlockDim(axis: Axis) | GridDim(axis: Axis)
    | ArgsAddr | PhysicalId | WarpId | LaneId

  datatype Instruction =
    | Lui(rd: nat, upper: nat)
    | Auipc(rd: nat, upper: nat)
    | Register(f: Arithmetic, rd: nat, rs1: nat, rs2: nat)
    | Immediate(f: Arithmetic, rd: nat, rs1: nat, imm: int)
    | Load(bytes: nat, signed: bool, rd: nat, rs1: nat, offset: int)
    | Store(bytes: nat, rs1: nat, rs2: nat, offset: int)
    | Branch(test: Test, rs1: nat, rs2: nat, offset: int)
    | Jal(rd: nat, offset: int)
    | Jalr(rd: nat, rs1: nat, offset: int)
    | ReadCsr(rd: nat, csr: CsrName)
    | Ebreak

  predicate IsShift(f: Arithmetic) { f.SLL? || f.SRL? || f.SRA? }

  predicate Twelve(imm: int) { -0x800 <= imm < 0x800 }

  /** The operands an encoding has room for, with sixteen registers. */
  predicate Legal(i: Instruction) {
    match i
    case Lui(rd, upper) => rd < 16 && upper < 0x10_0000
    case Auipc(rd, upper) => rd < 16 && upper < 0x10_0000
    case Register(_, rd, rs1, rs2) => rd < 16 && rs1 < 16 && rs2 < 16
    case Immediate(f, rd, rs1, imm) => rd < 16 && rs1 < 16 && !f.SUB? && if IsShift(f) then 0 <= imm < 32 else Twelve(imm)
    case Load(bytes, signed, rd, rs1, offset) =>
      rd < 16 && rs1 < 16 && Twelve(offset) && (bytes == 1 || bytes == 2 || (bytes == 4 && signed))
    case Store(bytes, rs1, rs2, offset) => rs1 < 16 && rs2 < 16 && Twelve(offset) && (bytes == 1 || bytes == 2 || bytes == 4)
    case Branch(_, rs1, rs2, offset) => rs1 < 16 && rs2 < 16 && offset % 2 == 0 && -0x1000 <= offset < 0x1000
    case Jal(rd, offset) => rd < 16 && offset % 2 == 0 && -0x10_0000 <= offset < 0x10_0000
    case Jalr(rd, rs1, offset) => rd < 16 && rs1 < 16 && Twelve(offset)
    case ReadCsr(rd, _) => rd < 16
    case Ebreak => true
  }

  // ---- Encoding ---------------------------------------------------------------------------

  function Place(a: Axis): nat { match a case X => 0 case Y => 1 case Z => 2 }

  function CsrAddress(c: CsrName): nat {
    match c
    case HartId => 0xf14
    case ThreadIdx(a) => 0xcc0 + Place(a)
    case BlockIdx(a) => 0xcc3 + Place(a)
    case BlockDim(a) => 0xcc6 + Place(a)
    case GridDim(a) => 0xcc9 + Place(a)
    case ArgsAddr => 0xccc
    case PhysicalId => 0xccd
    case WarpId => 0xcce
    case LaneId => 0xccf
  }

  function Minor(f: Arithmetic): nat {
    match f
    case ADD => 0 case SUB => 0 case SLL => 1 case SLT => 2 case SLTU => 3
    case XOR => 4 case SRL => 5 case SRA => 5 case OR => 6 case AND => 7
  }

  /** The two functions told apart by bit 30. */
  function Alternate(f: Arithmetic): nat { if f.SUB? || f.SRA? then 0x20 else 0 }

  function LoadMinor(bytes: nat, signed: bool): nat {
    (if bytes == 1 then 0 else if bytes == 2 then 1 else 2) + (if signed then 0 else 4)
  }

  function TestMinor(t: Test): nat {
    match t case EQ => 0 case NE => 1 case LT => 4 case GE => 5 case LTU => 6 case GEU => 7
  }

  /** Opcode, destination, minor opcode, first source, and the twelve bits above. */
  function Pack(op: nat, rd: nat, f3: nat, rs1: nat, high: nat): (w: word)
    requires op < 0x80 && rd < 32 && f3 < 8 && rs1 < 32 && high < 0x1000
  {
    op + 0x80 * rd + 0x1000 * f3 + 0x8000 * rs1 + 0x10_0000 * high
  }

  /** The twelve bits of a second source and the seven above it. */
  function High(rs2: nat, f7: nat): (h: nat)
    requires rs2 < 32 && f7 < 0x80
    ensures h < 0x1000
  {
    rs2 + 0x20 * f7
  }

  function Encode(i: Instruction): word
    requires Legal(i)
  {
    match i
    case Lui(rd, upper) => 0x37 + 0x80 * rd + 0x1000 * upper
    case Auipc(rd, upper) => 0x17 + 0x80 * rd + 0x1000 * upper
    case Register(f, rd, rs1, rs2) => Pack(0x33, rd, Minor(f), rs1, High(rs2, Alternate(f)))
    case Immediate(f, rd, rs1, imm) =>
      Pack(0x13, rd, Minor(f), rs1, if IsShift(f) then High(imm, Alternate(f)) else imm % 0x1000)
    case Load(bytes, signed, rd, rs1, offset) => Pack(0x03, rd, LoadMinor(bytes, signed), rs1, offset % 0x1000)
    case Store(bytes, rs1, rs2, offset) =>
      Pack(0x23, offset % 0x20, LoadMinor(bytes, true), rs1, High(rs2, offset % 0x1000 / 0x20))
    case Branch(test, rs1, rs2, offset) =>
      Pack(0x63, offset / 2 % 16 * 2 + offset / 0x800 % 2, TestMinor(test), rs1,
           High(rs2, offset / 0x1000 % 2 * 0x40 + offset / 0x20 % 0x40))
    case Jal(rd, offset) =>
      0x6f + 0x80 * rd + 0x1000 * (offset / 0x1000 % 0x100) + 0x10_0000 * (offset / 0x800 % 2)
      + 0x20_0000 * (offset / 2 % 0x400) + 0x8000_0000 * (offset / 0x10_0000 % 2)
    case Jalr(rd, rs1, offset) => Pack(0x67, rd, 0, rs1, offset % 0x1000)
    case ReadCsr(rd, csr) => Pack(0x73, rd, 2, 0, CsrAddress(csr))
    case Ebreak => Pack(0x73, 0, 0, 0, 1)
  }

  // ---- Reading a word ---------------------------------------------------------------------

  function TwosComplement(a: word): int { a - a / 0x8000_0000 * 0x1_0000_0000 }

  function CsrNamed(number: nat): Option<CsrName> {
    if number == 0xf14 then Some(HartId)
    else if 0xcc0 <= number < 0xccc then
      var axis := if number % 3 == 0 then X else if number % 3 == 1 then Y else Z;
      Some(if number < 0xcc3 then ThreadIdx(axis) else if number < 0xcc6 then BlockIdx(axis)
           else if number < 0xcc9 then BlockDim(axis) else GridDim(axis))
    else if number == 0xccc then Some(ArgsAddr)
    else if number == 0xccd then Some(PhysicalId)
    else if number == 0xcce then Some(WarpId)
    else if number == 0xccf then Some(LaneId)
    else None
  }

  function Chosen(f3: nat, alternate: bool): Arithmetic {
    match f3
    case 0 => if alternate then SUB else ADD
    case 1 => SLL
    case 2 => SLT
    case 3 => SLTU
    case 4 => XOR
    case 5 => if alternate then SRA else SRL
    case 6 => OR
    case _ => AND
  }

  function TestNamed(f3: nat): Option<Test> {
    match f3
    case 0 => Some(EQ)
    case 1 => Some(NE)
    case 4 => Some(LT)
    case 5 => Some(GE)
    case 6 => Some(LTU)
    case 7 => Some(GEU)
    case _ => None
  }

  function ReadImmediate(w: word): Instruction {
    var f3 := Funct3(w);
    var f := Chosen(f3, f3 == 5 && Funct7(w) == 0x20);
    Immediate(f, Rd(w), Rs1(w), if IsShift(f) then Rs2(w) else TwosComplement(ImmI(w)))
  }

  function ReadLoad(w: word): Option<Instruction> {
    var f3 := Funct3(w);
    if f3 == 3 || f3 >= 6 then None
    else Some(Load(if f3 % 4 == 0 then 1 else if f3 % 4 == 1 then 2 else 4, f3 < 4, Rd(w), Rs1(w), TwosComplement(ImmI(w))))
  }

  function ReadStore(w: word): Option<Instruction> {
    var f3 := Funct3(w);
    if f3 >= 3 then None
    else Some(Store(if f3 == 0 then 1 else if f3 == 1 then 2 else 4, Rs1(w), Rs2(w), TwosComplement(ImmS(w))))
  }

  function ReadBranch(w: word): Option<Instruction> {
    match TestNamed(Funct3(w))
    case None => None
    case Some(t) => Some(Branch(t, Rs1(w), Rs2(w), TwosComplement(ImmB(w))))
  }

  function ReadSystem(w: word): Option<Instruction> {
    if w == EBREAK then Some(Ebreak)
    else if Funct3(w) != 2 || Rs1(w) != 0 then None
    else match CsrNamed(CsrNumber(w)) case None => None case Some(c) => Some(ReadCsr(Rd(w), c))
  }

  /** The instruction a word is executed as. Fields the two simulators do not look at, like the high
      bits of an addition, may be anything. */
  function Disassemble(w: word): Option<Instruction> {
    var op := Opcode(w);
    if BadRegister(w) then None
    else if op == OP_LUI then Some(Lui(Rd(w), w / 0x1000))
    else if op == OP_AUIPC then Some(Auipc(Rd(w), w / 0x1000))
    else if op == OP_IMM then Some(ReadImmediate(w))
    else if op == OP_REG then Some(Register(Chosen(Funct3(w), Funct7(w) == 0x20), Rd(w), Rs1(w), Rs2(w)))
    else if op == OP_LOAD then ReadLoad(w)
    else if op == OP_STORE then ReadStore(w)
    else if op == OP_BRANCH then ReadBranch(w)
    else if op == OP_JAL then Some(Jal(Rd(w), TwosComplement(ImmJ(w))))
    else if op == OP_JALR then Some(Jalr(Rd(w), Rs1(w), TwosComplement(ImmI(w))))
    else if op == OP_SYSTEM then ReadSystem(w)
    else None
  }

  // ---- Reading an encoded instruction -----------------------------------------------------

  lemma {:induction false} PackLow(op: nat, rd: nat, f3: nat, rs1: nat, high: nat)
    requires op < 0x80 && rd < 32 && f3 < 8 && rs1 < 32 && high < 0x1000
    ensures Opcode(Pack(op, rd, f3, rs1, high)) == op && Rd(Pack(op, rd, f3, rs1, high)) == rd
  {
    QuotientUnique(Pack(op, rd, f3, rs1, high), 0x80, rd + 32 * (f3 + 8 * (rs1 + 32 * high)), op);
    QuotientUnique(rd + 32 * (f3 + 8 * (rs1 + 32 * high)), 32, f3 + 8 * (rs1 + 32 * high), rd);
  }

  lemma {:induction false} PackMiddle(op: nat, rd: nat, f3: nat, rs1: nat, high: nat)
    requires op < 0x80 && rd < 32 && f3 < 8 && rs1 < 32 && high < 0x1000
    ensures Funct3(Pack(op, rd, f3, rs1, high)) == f3 && Rs1(Pack(op, rd, f3, rs1, high)) == rs1
  {
    var w := Pack(op, rd, f3, rs1, high);
    QuotientUnique(w, 0x1000, f3 + 8 * (rs1 + 32 * high), op + 0x80 * rd);
    QuotientUnique(f3 + 8 * (rs1 + 32 * high), 8, rs1 + 32 * high, f3);
    QuotientUnique(w, 0x8000, rs1 + 32 * high, op + 0x80 * rd + 0x1000 * f3);
    QuotientUnique(rs1 + 32 * high, 32, high, rs1);
  }

  lemma {:induction false} PackHigh(op: nat, rd: nat, f3: nat, rs1: nat, high: nat)
    requires op < 0x80 && rd < 32 && f3 < 8 && rs1 < 32 && high < 0x1000
    ensures var w := Pack(op, rd, f3, rs1, high); w / 0x10_0000 == high && Rs2(w) == high % 32 && Funct7(w) == high / 32
  {
    var w, low := Pack(op, rd, f3, rs1, high), op + 0x80 * rd + 0x1000 * f3 + 0x8000 * rs1;
    QuotientUnique(w, 0x10_0000, high, low);
    QuotientUnique(w, 0x200_0000, high / 32, high % 32 * 0x10_0000 + low);
  }

  lemma {:induction false} PackFields(op: nat, rd: nat, f3: nat, rs1: nat, high: nat)
    requires op < 0x80 && rd < 32 && f3 < 8 && rs1 < 32 && high < 0x1000
    ensures var w := Pack(op, rd, f3, rs1, high);
            && Opcode(w) == op && Rd(w) == rd && Funct3(w) == f3 && Rs1(w) == rs1 && w / 0x10_0000 == high
            && Rs2(w) == high % 32 && Funct7(w) == high / 32
  {
    hide Pack, Opcode, Rd, Funct3, Rs1, Rs2, Funct7;
    PackLow(op, rd, f3, rs1, high);
    PackMiddle(op, rd, f3, rs1, high);
    PackHigh(op, rd, f3, rs1, high);
  }

  lemma {:induction false} HighFields(rs2: nat, f7: nat)
    requires rs2 < 32 && f7 < 0x80
    ensures High(rs2, f7) % 32 == rs2 && High(rs2, f7) / 32 == f7
  {
  }

  /** Cutting a signed number to its low bits and extending them again gives it back. */
  lemma {:induction false} SignedAgain(x: int, span: nat)
    requires (span == 0x1000 || span == 0x2000 || span == 0x20_0000) && -(span / 2) <= x < span / 2
    ensures 0 <= x % span < span
    ensures TwosComplement(SignExtend(x % span, span)) == x
    ensures SignExtend(x % span, span) == x % WORD_SPAN
  {
    var low := x % span;
    if span == 0x1000 {
      assert low == if x < 0 then x + 0x1000 else x;
    } else if span == 0x2000 {
      assert low == if x < 0 then x + 0x2000 else x;
    } else {
      assert low == if x < 0 then x + 0x20_0000 else x;
    }
  }

  lemma {:induction false} UpperFields(op: nat, rd: nat, upper: nat)
    requires op < 0x80 && rd < 32 && upper < 0x10_0000
    ensures var w: word := op + 0x80 * rd + 0x1000 * upper; Opcode(w) == op && Rd(w) == rd && w / 0x1000 == upper
  {
    var w: word := op + 0x80 * rd + 0x1000 * upper;
    QuotientUnique(w, 0x1000, upper, op + 0x80 * rd);
    QuotientUnique(w, 0x80, rd + 32 * upper, op);
  }

  lemma {:induction false} ReadRegister(f: Arithmetic, rd: nat, rs1: nat, rs2: nat)
    requires Legal(Register(f, rd, rs1, rs2))
    ensures Disassemble(Encode(Register(f, rd, rs1, rs2))) == Some(Register(f, rd, rs1, rs2))
  {
    hide Opcode, Rd, Funct3, Rs1, Rs2, Funct7, Pack, High;
    HighFields(rs2, Alternate(f));
    PackFields(0x33, rd, Minor(f), rs1, High(rs2, Alternate(f)));
  }

  lemma {:induction false} ImmIOfPack(op: nat, rd: nat, f3: nat, rs1: nat, offset: int)
    requires op < 0x80 && rd < 32 && f3 < 8 && rs1 < 32 && Twelve(offset)
    ensures var w := Pack(op, rd, f3, rs1, offset % 0x1000);
            ImmI(w) == offset % WORD_SPAN && TwosComplement(ImmI(w)) == offset
  {
    hide Pack, SignExtend, TwosComplement;
    PackFields(op, rd, f3, rs1, offset % 0x1000);
    SignedAgain(offset, 0x1000);
  }

  lemma {:induction false} ReadImmediates(f: Arithmetic, rd: nat, rs1: nat, imm: int)
    requires Legal(Immediate(f, rd, rs1, imm))
    ensures Disassemble(Encode(Immediate(f, rd, rs1, imm))) == Some(Immediate(f, rd, rs1, imm))
  {
    hide Opcode, Rd, Funct3, Rs1, Rs2, Funct7, Pack, High, ImmI, TwosComplement;
    if IsShift(f) {
      HighFields(imm, Alternate(f));
      PackFields(0x13, rd, Minor(f), rs1, High(imm, Alternate(f)));
    } else {
      PackFields(0x13, rd, Minor(f), rs1, imm % 0x1000);
      ImmIOfPack(0x13, rd, Minor(f), rs1, imm);
    }
  }

  lemma {:induction false} ReadLoads(bytes: nat, signed: bool, rd: nat, rs1: nat, offset: int)
    requires Legal(Load(bytes, signed, rd, rs1, offset))
    ensures Disassemble(Encode(Load(bytes, signed, rd, rs1, offset))) == Some(Load(bytes, signed, rd, rs1, offset))
  {
    hide Opcode, Rd, Funct3, Rs1, Rs2, Funct7, Pack, ImmI, TwosComplement;
    PackFields(0x03, rd, LoadMinor(bytes, signed), rs1, offset % 0x1000);
    ImmIOfPack(0x03, rd, LoadMinor(bytes, signed), rs1, offset);
  }

  lemma {:induction false} StoreOffset(rs1: nat, rs2: nat, f3: nat, offset: int)
    requires rs1 < 32 && rs2 < 32 && f3 < 8 && Twelve(offset)
    ensures var w := Pack(0x23, offset % 0x20, f3, rs1, High(rs2, offset % 0x1000 / 0x20));
            ImmS(w) == offset % WORD_SPAN && TwosComplement(ImmS(w)) == offset
  {
    hide Pack, High, SignExtend, TwosComplement;
    var low := offset % 0x1000;
    HighFields(rs2, low / 0x20);
    PackFields(0x23, offset % 0x20, f3, rs1, High(rs2, low / 0x20));
    assert low % 0x20 == offset % 0x20 && low == low % 0x20 + low / 0x20 * 0x20;
    SignedAgain(offset, 0x1000);
  }

  lemma {:induction false} ReadStores(bytes: nat, rs1: nat, rs2: nat, offset: int)
    requires Legal(Store(bytes, rs1, rs2, offset))
    ensures Disassemble(Encode(Store(bytes, rs1, rs2, offset))) == Some(Store(bytes, rs1, rs2, offset))
  {
    hide Opcode, Rd, Funct3, Rs1, Rs2, Funct7, Pack, High, ImmS, TwosComplement;
    HighFields(rs2, offset % 0x1000 / 0x20);
    PackFields(0x23, offset % 0x20, LoadMinor(bytes, true), rs1, High(rs2, offset % 0x1000 / 0x20));
    StoreOffset(rs1, rs2, LoadMinor(bytes, true), offset);
  }

  /** The four pieces of a branch offset, put together. */
  lemma {:induction false} BranchPieces(offset: int)
    requires offset % 2 == 0 && -0x1000 <= offset < 0x1000
    ensures offset % 0x2000 ==
              offset / 2 % 16 * 2 + offset / 0x20 % 0x40 * 0x20 + offset / 0x800 % 2 * 0x800 + offset / 0x1000 % 2 * 0x1000
  {
    var h := offset / 2;
    assert offset == 2 * h;
    assert offset / 0x20 == h / 16 && offset / 0x800 == h / 16 / 64 && offset / 0x1000 == h / 16 / 64 / 2;
  }

  lemma {:induction false} BranchOffset(rs1: nat, rs2: nat, f3: nat, offset: int)
    requires rs1 < 32 && rs2 < 32 && f3 < 8 && offset % 2 == 0 && -0x1000 <= offset < 0x1000
    ensures var w := Pack(0x63, offset / 2 % 16 * 2 + offset / 0x800 % 2, f3, rs1,
                          High(rs2, offset / 0x1000 % 2 * 0x40 + offset / 0x20 % 0x40));
            ImmB(w) == offset % WORD_SPAN && TwosComplement(ImmB(w)) == offset
  {
    hide Pack, High, SignExtend, TwosComplement;
    var rd, f7 := offset / 2 % 16 * 2 + offset / 0x800 % 2, offset / 0x1000 % 2 * 0x40 + offset / 0x20 % 0x40;
    var w := Pack(0x63, rd, f3, rs1, High(rs2, f7));
    HighFields(rs2, f7);
    PackFields(0x63, rd, f3, rs1, High(rs2, f7));
    BranchBits(w, offset);
    BranchPieces(offset);
    SignedAgain(offset, 0x2000);
  }

  lemma {:induction false} BranchBits(w: word, offset: int)
    requires Rd(w) == offset / 2 % 16 * 2 + offset / 0x800 % 2 && Funct7(w) == offset / 0x1000 % 2 * 0x40 + offset / 0x20 % 0x40
    ensures w / 0x100 % 16 == offset / 2 % 16 && w / 0x80 % 2 == offset / 0x800 % 2
    ensures w / 0x200_0000 % 64 == offset / 0x20 % 0x40 && w / 0x8000_0000 == offset / 0x1000 % 2
  {
    hide Rd;
    DestinationBits(w);
  }

  lemma {:induction false} DestinationBits(w: word)
    ensures w / 0x100 % 16 == Rd(w) / 2 && w / 0x80 % 2 == Rd(w) % 2
    ensures w / 0x8000_0000 == w / 0x200_0000 / 0x40
  {
    var q := w / 0x80;
    assert w / 0x100 == q / 2;
    assert q % 32 / 2 == q / 2 % 16;
  }

  lemma {:induction false} ReadBranches(t: Test, rs1: nat, rs2: nat, offset: int)
    requires Legal(Branch(t, rs1, rs2, offset))
    ensures Disassemble(Encode(Branch(t, rs1, rs2, offset))) == Some(Branch(t, rs1, rs2, offset))
  {
    hide Opcode, Rd, Funct3, Rs1, Rs2, Funct7, Pack, High, ImmB, TwosComplement;
    var rd, f7 := offset / 2 % 16 * 2 + offset / 0x800 % 2, offset / 0x1000 % 2 * 0x40 + offset / 0x20 % 0x40;
    HighFields(rs2, f7);
    PackFields(0x63, rd, TestMinor(t), rs1, High(rs2, f7));
    BranchOffset(rs1, rs2, TestMinor(t), offset);
  }

  /** The four pieces of a jump offset, put together. */
  lemma {:induction false} JumpPieces(offset: int)
    requires offset % 2 == 0 && -0x10_0000 <= offset < 0x10_0000
    ensures offset % 0x20_0000 ==
              offset / 2 % 0x400 * 2 + offset / 0x800 % 2 * 0x800 + offset / 0x1000 % 0x100 * 0x1000 + offset / 0x10_0000 % 2 * 0x10_0000
  {
    var h := offset / 2;
    assert offset == 2 * h;
    assert offset / 0x800 == h / 0x400 && offset / 0x1000 == h / 0x400 / 2 && offset / 0x10_0000 == h / 0x400 / 2 / 0x100;
  }

  /** The encoding of a jump, by its pieces. */
  function JumpWord(rd: nat, a: nat, b: nat, c: nat, d: nat): word
    requires rd < 32 && a < 0x100 && b < 2 && c < 0x400 && d < 2
  {
    0x6f + 0x80 * rd + 0x1000 * a + 0x10_0000 * b + 0x20_0000 * c + 0x8000_0000 * d
  }

  lemma {:induction false} JumpLow(rd: nat, a: nat, b: nat, c: nat, d: nat)
    requires rd < 32 && a < 0x100 && b < 2 && c < 0x400 && d < 2
    ensures Opcode(JumpWord(rd, a, b, c, d)) == 0x6f && Rd(JumpWord(rd, a, b, c, d)) == rd
    ensures JumpWord(rd, a, b, c, d) / 0x1000 % 0x100 == a
  {
    var w, up := JumpWord(rd, a, b, c, d), a + 0x100 * (b + 2 * (c + 0x400 * d));
    QuotientUnique(w, 0x1000, up, 0x6f + 0x80 * rd);
    QuotientUnique(up, 0x100, b + 2 * (c + 0x400 * d), a);
    QuotientUnique(w, 0x80, rd + 32 * up, 0x6f);
    QuotientUnique(rd + 32 * up, 32, up, rd);
  }

  lemma {:induction false} JumpHigh(rd: nat, a: nat, b: nat, c: nat, d: nat)
    requires rd < 32 && a < 0x100 && b < 2 && c < 0x400 && d < 2
    ensures var w := JumpWord(rd, a, b, c, d);
            w / 0x10_0000 % 2 == b && w / 0x20_0000 % 0x400 == c && w / 0x8000_0000 == d
  {
    var w, low := JumpWord(rd, a, b, c, d), 0x6f + 0x80 * rd + 0x1000 * a;
    QuotientUnique(w, 0x10_0000, b + 2 * (c + 0x400 * d), low);
    QuotientUnique(b + 2 * (c + 0x400 * d), 2, c + 0x400 * d, b);
    QuotientUnique(w, 0x20_0000, c + 0x400 * d, low + 0x10_0000 * b);
    QuotientUnique(c + 0x400 * d, 0x400, d, c);
    QuotientUnique(w, 0x8000_0000, d, low + 0x10_0000 * b + 0x20_0000 * c);
  }

  lemma {:induction false} ReadJal(rd: nat, offset: int)
    requires Legal(Jal(rd, offset))
    ensures Disassemble(Encode(Jal(rd, offset))) == Some(Jal(rd, offset))
    ensures ImmJ(Encode(Jal(rd, offset))) == offset % WORD_SPAN
  {
    hide Opcode, Rd, SignExtend, TwosComplement;
    var a, b, c, d := offset / 0x1000 % 0x100, offset / 0x800 % 2, offset / 2 % 0x400, offset / 0x10_0000 % 2;
    assert Encode(Jal(rd, offset)) == JumpWord(rd, a, b, c, d);
    JumpLow(rd, a, b, c, d);
    JumpHigh(rd, a, b, c, d);
    JumpPieces(offset);
    SignedAgain(offset, 0x20_0000);
  }

  lemma {:induction false} ReadJalr(rd: nat, rs1: nat, offset: int)
    requires Legal(Jalr(rd, rs1, offset))
    ensures Disassemble(Encode(Jalr(rd, rs1, offset))) == Some(Jalr(rd, rs1, offset))
  {
    hide Opcode, Rd, Funct3, Rs1, Rs2, Funct7, Pack, ImmI, TwosComplement;
    PackFields(0x67, rd, 0, rs1, offset % 0x1000);
    ImmIOfPack(0x67, rd, 0, rs1, offset);
  }

  lemma {:induction false} ReadUpper(rd: nat, upper: nat)
    requires rd < 16 && upper < 0x10_0000
    ensures Disassemble(Encode(Lui(rd, upper))) == Some(Lui(rd, upper))
    ensures Disassemble(Encode(Auipc(rd, upper))) == Some(Auipc(rd, upper))
  {
    hide Opcode, Rd;
    UpperFields(0x37, rd, upper);
    UpperFields(0x17, rd, upper);
  }

  lemma {:induction false} ReadCsrs(rd: nat, csr: CsrName)
    requires Legal(ReadCsr(rd, csr))
    ensures Disassemble(Encode(ReadCsr(rd, csr))) == Some(ReadCsr(rd, csr))
  {
    hide Opcode, Rd, Funct3, Rs1, Rs2, Funct7, Pack;
    PackFields(0x73, rd, 2, 0, CsrAddress(csr));
    NamedAgain(csr);
    BreakMinor();
  }

  lemma {:induction false} NamedAgain(csr: CsrName)
    ensures CsrNamed(CsrAddress(csr)) == Some(csr)
  {
  }

  lemma {:induction false} BreakMinor()
    ensures Funct3(EBREAK) == 0
  {
    hide Funct3;
    PackFields(0x73, 0, 0, 0, 1);
    assert EBREAK == Pack(0x73, 0, 0, 0, 1);
  }

  /** Every instruction is read back from its encoding. */
  lemma {:induction false} ReadEncode(i: Instruction)
    requires Legal(i)
    ensures Disassemble(Encode(i)) == Some(i)
  {
    hide Disassemble, Encode;
    match i
    case Lui(rd, upper) => ReadUpper(rd, upper);
    case Auipc(rd, upper) => ReadUpper(rd, upper);
    case Register(f, rd, rs1, rs2) => ReadRegister(f, rd, rs1, rs2);
    case Immediate(f, rd, rs1, imm) => ReadImmediates(f, rd, rs1, imm);
    case Load(bytes, signed, rd, rs1, offset) => ReadLoads(bytes, signed, rd, rs1, offset);
    case Store(bytes, rs1, rs2, offset) => ReadStores(bytes, rs1, rs2, offset);
    case Branch(t, rs1, rs2, offset) => ReadBranches(t, rs1, rs2, offset);
    case Jal(rd, offset) => ReadJal(rd, offset);
    case Jalr(rd, rs1, offset) => ReadJalr(rd, rs1, offset);
    case ReadCsr(rd, csr) => ReadCsrs(rd, csr);
    case Ebreak => BreakRead();
  }

  lemma {:induction false} BreakRead()
    ensures Disassemble(Encode(Ebreak)) == Some(Ebreak)
  {
    hide Opcode, Rd, Funct3, Rs1, Rs2, Funct7;
    PackFields(0x73, 0, 0, 0, 1);
  }
}
