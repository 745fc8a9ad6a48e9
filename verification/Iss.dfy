/** The scalar simulator around its threads (sw/sim/sm/iss.cpp): launch, the round-robin step, the
    comparison across a warp at indirect jumps, and completion. */
module Iss {
  import opened Word
  import opened Arith
  import opened Memory
  import opened Isa
  import opened Interleaving
  import opened Scalar
  import opened RoundRobin
  import opened SimtCore
  import opened Kmu

  datatype IssState = IssState(cores: seq<Thread>, rr: nat, faulted: bool, aborted: bool, mem: Mem)

  // ---- Launch -----------------------------------------------------------------------------

  /** A dimension vector with entry i replaced. */
  function SetEntry(d: Dim3, i: nat, v: word): Dim3 { if i == 0 then d.(x := v) else if i == 1 then d.(y := v) else d.(z := v) }

  /** `gpu_iss_dcr_write`; the size of the arguments is kept but not used. */
  function RegisterWritten(l: Launch, addr: word, data: word): Launch {
    if addr == 0x10 then l.(startup := data)
    else if addr == 0x11 then l.(args := data)
    else if 0x13 <= addr <= 0x15 then l.(dim := SetEntry(l.dim, addr - 0x13, data))
    else if 0x16 <= addr <= 0x18 then l.(grid := SetEntry(l.grid, addr - 0x16, data))
    else if addr == 0x19 then l.(bsize := data)
    else l
  }

  const U64 := WORD_SPAN * WORD_SPAN

  /** A product in 64-bit arithmetic. */
  function Mul64(a: nat, b: nat): nat { a * b % U64 }

  function Product64(d: Dim3): nat { Mul64(Mul64(d.x, d.y), d.z) }

  /** All threads of the launch, as the simulator counts them. */
  function ThreadCount(l: Launch): nat { Mul64(Product64(l.grid), Product64(l.dim)) }

  /** The launch test, in the 64-bit arithmetic it is written in. */
  predicate LaunchAccepted(l: Launch) {
    var size := Product64(l.dim);
    var total := Mul64(Product64(l.grid), size);
    total != 0 && total < WORD_SPAN && size == l.bsize
  }

  /** What the runtime establishes before it launches: neither product overflows 32 bits. */
  predicate LaunchFits(l: Launch) { Blocks(l.dim) < WORD_SPAN && Blocks(l.grid) < WORD_SPAN }

  lemma PairBelow(x: nat, y: nat, z: nat)
    requires z >= 1
    ensures x * y <= x * y * z
  {
    Grows(x * y, z);
  }

  lemma WordProducts(x: word, y: word)
    ensures x * y < U64
  {
    if x >= 1 && y >= 1 {
      MulMono(x, y, WORD_SPAN);
      MulMono(WORD_SPAN, x, WORD_SPAN);
    }
  }

  lemma ProductExact(d: Dim3)
    requires Blocks(d) < WORD_SPAN
    ensures Product64(d) == Blocks(d)
    ensures NonEmpty(d) <==> Blocks(d) != 0
    ensures NonEmpty(d) ==> Mul(d.x, d.y) == d.x * d.y >= 1
  {
    WordProducts(d.x, d.y);
    assert Mul64(d.x, d.y) == d.x * d.y;
    if NonEmpty(d) {
      PairBelow(d.x, d.y, d.z);
    } else if d.x == 0 || d.y == 0 {
      assert d.x * d.y == 0;
    }
  }

  lemma NoWrap64(a: nat, b: nat)
    requires a * b < U64
    ensures Mul64(a, b) == a * b
  {
  }

  /** On what the runtime lets through, the 64-bit test admits exactly the launches whose dimensions
      are nonempty, whose block size is the product of its dimensions, and whose threads can be
      numbered in 32 bits. */
  lemma AcceptedIff(l: Launch)
    requires LaunchFits(l)
    ensures LaunchAccepted(l) <==>
              NonEmpty(l.grid) && NonEmpty(l.dim) && l.bsize == Blocks(l.dim) && Blocks(l.grid) * l.bsize < WORD_SPAN
    ensures LaunchAccepted(l) ==> ThreadCount(l) == Blocks(l.grid) * l.bsize
    ensures LaunchAccepted(l) ==> Mul(l.dim.x, l.dim.y) >= 1 && Mul(l.grid.x, l.grid.y) >= 1 && l.bsize >= 1
  {
    hide Blocks, Product64, Mul64, NonEmpty;
    ProductExact(l.dim);
    ProductExact(l.grid);
    var g, d := Blocks(l.grid), Blocks(l.dim);
    WordProducts(g, d);
    assert Mul64(g, d) == g * d by { NoWrap64(g, d); }
    if g >= 1 && d >= 1 { MulMono(g, 0, d); }
  }

  lemma ProductMod(d: Dim3)
    ensures Product64(d) == Blocks(d) % U64
  {
    ModMul(d.x * d.y, d.z, U64);
  }

  lemma CountMod(l: Launch)
    ensures ThreadCount(l) == Blocks(l.grid) * Blocks(l.dim) % U64
  {
    hide Product64, Blocks;
    ProductMod(l.grid);
    ProductMod(l.dim);
    var g, d := Blocks(l.grid), Blocks(l.dim);
    ModMul(g, d % U64, U64);
    assert g * (d % U64) == d % U64 * g;
    ModMul(d, g, U64);
  }

  /** The launch test on every launch: both products count modulo 2^64. */
  lemma AcceptedModIff(l: Launch)
    ensures LaunchAccepted(l) <==>
              0 < Blocks(l.grid) * Blocks(l.dim) % U64 < WORD_SPAN && l.bsize == Blocks(l.dim) % U64
    ensures LaunchAccepted(l) ==> NonEmpty(l.grid) && NonEmpty(l.dim)
  {
    CountMod(l);
    ProductMod(l.dim);
    EmptyHasNoBlocks(l.grid);
    EmptyHasNoBlocks(l.dim);
  }

  lemma EmptyHasNoBlocks(d: Dim3)
    ensures !NonEmpty(d) ==> Blocks(d) == 0
  {
    if d.x == 0 || d.y == 0 { assert d.x * d.y == 0; }
  }

  /** What the test is for: the block size is that of the block, and the threads can be numbered. */
  predicate LaunchRight(l: Launch) {
    NonEmpty(l.grid) && NonEmpty(l.dim) && l.bsize == Blocks(l.dim) && Blocks(l.grid) * Blocks(l.dim) < WORD_SPAN
  }

  /** A launch is accepted wrongly exactly when it is accepted and has 2^64 threads or more. */
  lemma WronglyAcceptedIff(l: Launch)
    ensures LaunchRight(l) ==> LaunchAccepted(l)
    ensures LaunchAccepted(l) ==> (!LaunchRight(l) <==> Blocks(l.grid) * Blocks(l.dim) >= U64)
  {
    hide LaunchAccepted, Blocks, NonEmpty;
    AcceptedModIff(l);
    NonEmptyHasBlocks(l.grid);
    NonEmptyHasBlocks(l.dim);
    var g, d := Blocks(l.grid), Blocks(l.dim);
    if g >= 1 { Grows(d, g); assert d * g == g * d; }
    if d >= 1 { Grows(g, d); }
  }

  lemma NonEmptyHasBlocks(d: Dim3)
    ensures NonEmpty(d) ==> Blocks(d) >= 1
  {
    if NonEmpty(d) {
      assert d.x * d.y >= 1;
      Grows(d.x * d.y, d.z);
    }
  }

  /** The 64-bit product itself wraps: a grid of 2^64 + 2^31 blocks passes as one of 2^31. */
  lemma WrappedLaunch()
    ensures var l := RESET_LAUNCH.(grid := Dim3(0x8000_0000, 411849, 20857));
            LaunchAccepted(l) && Blocks(l.grid) > U64 && !LaunchRight(l)
  {
    var xy: nat := 884438992945152;
    assert 0x8000_0000 * 411849 == xy;
    assert xy * 20857 == U64 + 0x8000_0000;
    assert (U64 + 0x8000_0000) % U64 == 0x8000_0000;
  }

  /** If a face of the dimensions vanishes in 32 bits, their product is a multiple of 2^32. */
  lemma VanishingFace(d: Dim3)
    requires Mul(d.x, d.y) == 0
    ensures Product64(d) % WORD_SPAN == 0
  {
    ProductMod(d);
    var k := d.x * d.y / WORD_SPAN;
    assert d.x * d.y == WORD_SPAN * k;
    assert Blocks(d) == WORD_SPAN * (k * d.z);
    ModMultiple(WORD_SPAN, k * d.z, WORD_SPAN);
    ModAdd(WORD_SPAN, k * d.z % WORD_SPAN, 0);
  }

  /** Every accepted launch, wrapped or not, divides by nothing that is zero. */
  lemma AcceptedDivides(s: Shape, l: Launch)
    requires LaunchAccepted(l) && s.cores >= 1 && s.threads >= 1
    ensures Divisible(s, l)
  {
    AcceptedModIff(l);
    if Mul(l.dim.x, l.dim.y) == 0 { VanishingFace(l.dim); }
    if Mul(l.grid.x, l.grid.y) == 0 {
      VanishingFace(l.grid);
      var p, size := Product64(l.grid), Product64(l.dim);
      var k := p / WORD_SPAN;
      assert p == WORD_SPAN * k;
      assert p * size == WORD_SPAN * (k * size);
      ModMultiple(WORD_SPAN, k * size, WORD_SPAN);
    }
  }

  const NO_IDS := Ids(0, Dim3(0, 0, 0), Dim3(0, 0, 0), Dim3(0, 0, 0), Dim3(0, 0, 0), 0, 0, 0, 0)

  /** Nothing the context divides by is zero. */
  predicate Divisible(s: Shape, l: Launch) {
    && NonEmpty(l.dim) && NonEmpty(l.grid) && Mul(l.dim.x, l.dim.y) >= 1 && Mul(l.grid.x, l.grid.y) >= 1
    && l.bsize >= 1 && s.cores >= 1 && s.threads >= 1
  }

  /** The context of thread i. */
  function Context(s: Shape, l: Launch, i: nat): (t: Thread)
    requires Divisible(s, l)
  {
    var local, block := i % l.bsize, i / l.bsize;
    Thread(l.startup, ZERO_REGISTERS, false,
           Ids(Wrap(i),
               Dim3(Wrap(local % l.dim.x), Wrap(local / l.dim.x % l.dim.y), Wrap(local / Mul(l.dim.x, l.dim.y))),
               Dim3(Wrap(block % l.grid.x), Wrap(block / l.grid.x % l.grid.y), Wrap(block / Mul(l.grid.x, l.grid.y))),
               l.dim, l.grid, l.args,
               Wrap(block % s.cores * (s.warps * s.threads) + local), Wrap(local / s.threads), Wrap(local % s.threads)))
  }

  function Contexts(s: Shape, l: Launch): (r: seq<Thread>)
    requires LaunchAccepted(l) && s.cores >= 1 && s.threads >= 1
    ensures |r| == ThreadCount(l)
  {
    AcceptedDivides(s, l);
    seq(ThreadCount(l), (i: nat) => Context(s, l, i))
  }

  // ---- One step ---------------------------------------------------------------------------

  predicate SameWarp(a: Thread, b: Thread) { a.ids.warp == b.ids.warp && a.ids.block == b.ids.block }

  /** Another running thread of the warp stands at the same indirect jump with another target. */
  predicate Clash(cores: seq<Thread>, i: nat, x: nat, inst: word)
    requires i < |cores| && x < |cores|
  {
    var c, lane := cores[i], cores[x];
    && x != i && !lane.halted && lane.pc == c.pc && SameWarp(c, lane)
    && JalrTarget(lane.gpr[Rs1(inst) % 16], inst) != JalrTarget(c.gpr[Rs1(inst) % 16], inst)
  }

  predicate Clashes(cores: seq<Thread>, i: nat, inst: word)
    requires i < |cores|
  {
    Opcode(inst) == OP_JALR && !BadRegister(inst) && exists x | 0 <= x < |cores| :: Clash(cores, i, x, inst)
  }

  /** The context after a fault: a load or store with a bad width still retires, reading zero. */
  function FaultedThread(t: Thread, inst: word): Thread {
    if !BadRegister(inst) && (Opcode(inst) == OP_LOAD || Opcode(inst) == OP_STORE)
    then Retire(t, inst, 0, Add(t.pc, 4)).(halted := true)
    else t.(halted := true)
  }

  /** `step_core` on thread i. */
  function StepThread(s: IssState, i: nat): (r: IssState)
    requires i < |s.cores|
    ensures |r.cores| == |s.cores| && |r.mem| == |s.mem| && r.rr == s.rr
  {
    var t := s.cores[i];
    if !Span(s.mem, t.pc, 4) then s.(aborted := true)
    else
      var inst := Load32(s.mem, t.pc);
      if Clashes(s.cores, i, inst) then s.(faulted := true, cores := s.cores[i := t.(halted := true)])
      else
        match Perform(s.mem, t, inst)
        case Fault => s.(faulted := true, cores := s.cores[i := FaultedThread(t, inst)])
        case Abort => s.(aborted := true)
        case Done(u, m) => PerformKeepsSize(s.mem, t, inst); s.(cores := s.cores[i := u], mem := m)
  }

  lemma PerformKeepsSize(m: Mem, t: Thread, inst: word)
    requires Perform(m, t, inst).Done?
    ensures |Perform(m, t, inst).mem| == |m|
  {
    hide AluImm, AluReg, ScalarLoad, WriteBack, Csr, BranchTaken, WriteBytes, BadRegister;
  }

  function Running(cores: seq<Thread>): (flags: seq<bool>)
    ensures |flags| == |cores| && forall i | 0 <= i < |cores| :: flags[i] == !cores[i].halted
  {
    seq(|cores|, i requires 0 <= i < |cores| => !cores[i].halted)
  }

  /** `gpu_iss_done`. */
  predicate IssDone(s: IssState) {
    s.faulted || (s.cores != [] && forall i | 0 <= i < |s.cores| :: s.cores[i].halted)
  }

  /** `gpu_iss_step`; an aborted process takes no further step. */
  function IssStep(s: IssState): (r: IssState)
    ensures |r.cores| == |s.cores| && |r.mem| == |s.mem|
  {
    if s.aborted || IssDone(s) then s
    else
      match Scan(Running(s.cores), s.rr, 0)
      case None => s
      case Some(i) => StepThread(s.(rr := (i + 1) % |s.cores|), i)
  }

  function IssRun(s: IssState, n: nat): (r: IssState)
    ensures |r.cores| == |s.cores| && |r.mem| == |s.mem|
  {
    if n == 0 then s else IssStep(IssRun(s, n - 1))
  }

  lemma AtNext(n: nat, rr: nat, k: nat)
    requires n >= 1
    ensures (At(n, rr, k) + 1) % n == At(n, rr, k + 1)
  {
    NextMod(rr + k, n);
  }

  lemma NextMod(x: nat, n: nat)
    requires n >= 1
    ensures (x % n + 1) % n == (x + 1) % n
  {
    NextDigit(x, n, x / n, x % n);
  }

  lemma NextDigit(x: nat, n: nat, q: nat, r: nat)
    requires n >= 1 && x == n * q + r && r < n
    ensures (r + 1) % n == (x + 1) % n
  {
    if r + 1 < n {
      QuotientUnique(x + 1, n, q, r + 1);
      QuotientUnique(r + 1, n, 0, r + 1);
    } else {
      QuotientUnique(x + 1, n, q + 1, 0);
      QuotientUnique(r + 1, n, 1, 0);
    }
  }

  /** A simulator that is not done has a running thread, found from any position. */
  lemma SomeoneRuns(s: IssState)
    requires !IssDone(s) && (s.rr < |s.cores| || s.cores == [])
    ensures s.cores != [] ==> Scan(Running(s.cores), s.rr, 0).Some?
  {
    if s.cores != [] {
      var i :| 0 <= i < |s.cores| && !s.cores[i].halted;
      assert Running(s.cores)[i];
      SomeFlag(Running(s.cores), s.rr);
    }
  }

  /** What a load brings. */
  datatype Loaded = Read(value: word) | BadWidth | Outside

  // ---- The simulator as the mutable object it is -------------------------------------------

  class Simulator {
    const shape: Shape
    var launch: Launch
    var cores: array<Thread>
    var rr: nat
    var faulted: bool
    var aborted: bool
    const pmem: array<byte>

    ghost predicate Valid()
      reads this
    {
      MBASE + pmem.Length <= WORD_SPAN && shape.cores >= 1 && shape.threads >= 1 && (rr < cores.Length || rr == 0)
    }

    ghost function State(): IssState
      requires Valid()
      reads this, cores, pmem
    {
      IssState(cores[..], rr, faulted, aborted, pmem[..])
    }

    constructor (s: Shape, memory: array<byte>)
      requires MBASE + memory.Length <= WORD_SPAN && s.cores >= 1 && s.threads >= 1
      ensures Valid() && shape == s && pmem == memory && launch == RESET_LAUNCH && fresh(cores)
      ensures State() == IssState([], 0, false, false, memory[..])
    {
      shape, pmem, launch := s, memory, RESET_LAUNCH;
      cores := new Thread[0](_ => Thread(0, ZERO_REGISTERS, false, NO_IDS));
      rr, faulted, aborted := 0, false, false;
    }

    method WriteRegister(addr: word, data: word)
      requires Valid()
      modifies this`launch
      ensures Valid() && State() == old(State()) && launch == RegisterWritten(old(launch), addr, data)
    {
      if addr == 0x10 { launch := launch.(startup := data); }
      else if addr == 0x11 { launch := launch.(args := data); }
      else if 0x13 <= addr <= 0x15 { launch := launch.(dim := SetEntry(launch.dim, addr - 0x13, data)); }
      else if 0x16 <= addr <= 0x18 { launch := launch.(grid := SetEntry(launch.grid, addr - 0x16, data)); }
      else if addr == 0x19 { launch := launch.(bsize := data); }
    }

    /** `gpu_iss_launch`, run before the first step of a job. */
    method Launch() returns (ok: bool)
      requires Valid()
      modifies this
      ensures Valid() && launch == old(launch) && ok == LaunchAccepted(launch)
      ensures !ok ==> State() == old(State()) && cores == old(cores)
      ensures ok ==> fresh(cores)
      ensures ok ==> State() == IssState(Contexts(shape, launch), 0, old(faulted), old(aborted), pmem[..])
    {
      hide Product64, Mul64, Contexts, Blocks;
      var size := Product64(launch.dim);
      var total := Mul64(Product64(launch.grid), size);
      if total == 0 || total >= WORD_SPAN || size != launch.bsize {
        return false;
      }
      cores := BuildContexts(shape, launch, total);
      rr := 0;
      return true;
    }

    static method BuildContexts(s: Shape, l: Launch, total: nat) returns (contexts: array<Thread>)
      requires LaunchAccepted(l) && total == ThreadCount(l) && s.cores >= 1 && s.threads >= 1
      ensures fresh(contexts) && contexts[..] == Contexts(s, l)
    {
      AcceptedDivides(s, l);
      hide Context, LaunchAccepted, ThreadCount, Divisible;
      contexts := new Thread[total](_ => Thread(0, ZERO_REGISTERS, false, NO_IDS));
      for i := 0 to total
        invariant forall k | 0 <= k < i :: contexts[k] == Context(s, l, k)
      {
        contexts[i] := Context(s, l, i);
      }
    }

    /** The comparison across the warp, as the loop over all threads it is. */
    method FindsClash(i: nat, inst: word) returns (found: bool)
      requires Valid() && i < cores.Length && !BadRegister(inst) && Opcode(inst) == OP_JALR
      ensures found == Clashes(cores[..], i, inst)
    {
      var c := cores[i];
      var next := JalrTarget(c.gpr[Rs1(inst) % 16], inst);
      for x := 0 to cores.Length
        invariant forall y | 0 <= y < x :: !Clash(cores[..], i, y, inst)
      {
        var lane := cores[x];
        if x != i && !lane.halted && lane.pc == c.pc && SameWarp(c, lane) {
          if JalrTarget(lane.gpr[Rs1(inst) % 16], inst) != next {
            assert Clash(cores[..], i, x, inst);
            return true;
          }
        }
      }
      return false;
    }

    method StepCore(i: nat)
      requires Valid() && i < cores.Length
      modifies this`faulted, this`aborted, cores, pmem
      ensures Valid() && State() == StepThread(old(State()), i)
    {
      var t := cores[i];
      AccessibleIsSpan(pmem[..], t.pc, 4);
      if !Accessible(pmem.Length, t.pc, 4) {
        aborted := true;
        return;
      }
      var inst := PaddrRead(pmem, t.pc, 4);
      assert inst == Load32(pmem[..], t.pc);
      if !BadRegister(inst) && Opcode(inst) == OP_JALR {
        var clash := FindsClash(i, inst);
        if clash {
          faulted := true;
          cores[i] := t.(halted := true);
          return;
        }
      }
      Execute(i, t, inst);
    }

    /** `load_mem`: the value, a width that faults, or an address the memory refuses. */
    method LoadMem(addr: word, f3: nat) returns (r: Loaded)
      requires Valid()
      ensures r == if !LegalLoad(f3) then BadWidth
                   else if !Span(pmem[..], addr, AccessSize(f3)) then Outside
                   else Read(ScalarLoad(pmem[..], addr, f3))
    {
      if f3 > 5 || f3 == 3 { return BadWidth; }
      AccessibleIsSpan(pmem[..], addr, AccessSize(f3));
      if !Accessible(pmem.Length, addr, AccessSize(f3)) { return Outside; }
      var raw := PaddrRead(pmem, addr, AccessSize(f3));
      ReadBound(pmem[..], addr, AccessSize(f3));
      assert Pow256(1) == 256 && Pow256(2) == 65536 && Pow256(4) == WORD_SPAN;
      match f3
      case 0 => return Read(SignExtend(raw, 256));
      case 1 => return Read(SignExtend(raw, 65536));
      case _ => return Read(raw);
    }

    /** The decode switch and its effect on the context and on memory. */
    method Execute(i: nat, t: Thread, inst: word)
      requires Valid() && i < cores.Length && cores[i] == t
      modifies this`faulted, this`aborted, cores, pmem
      ensures Valid() && rr == old(rr) && cores == old(cores)
      ensures match Perform(old(pmem[..]), t, inst)
              case Fault => faulted && aborted == old(aborted) && pmem[..] == old(pmem[..])
                            && cores[..] == old(cores[..])[i := FaultedThread(t, inst)]
              case Abort => aborted && faulted == old(faulted) && pmem[..] == old(pmem[..]) && cores[..] == old(cores[..])
              case Done(u, m) => faulted == old(faulted) && aborted == old(aborted) && pmem[..] == m
                                 && cores[..] == old(cores[..])[i := u]
    {
      hide AluImm, AluReg, WriteBack, Csr, BranchTaken, WriteBytes, ReadBytes, ScalarLoad, BadRegister, Retire, Decode, FaultedThread;
      var e := Decode(inst, t.pc, t.gpr, t.ids);
      DecodeLegal(inst, t.pc, t.gpr, t.ids);
      match e
      case Illegal =>
        faulted := true;
        cores[i] := FaultedThread(t, inst);
      case Halt =>
        cores[i] := t.(halted := true);
      case Compute(value, next) =>
        cores[i] := Retire(t, inst, value, next);
      case Jump(next) =>
        cores[i] := Retire(t, inst, 0, next);
      case LoadFrom(addr, f3) =>
        var loaded := LoadMem(addr, f3);
        if loaded.Outside? {
          aborted := true;
        } else {
          cores[i] := Retire(t, inst, loaded.value, Add(t.pc, 4));
        }
      case StoreTo(addr, f3, data) =>
        AccessibleIsSpan(pmem[..], addr, AccessSize(f3));
        if !Accessible(pmem.Length, addr, AccessSize(f3)) {
          aborted := true;
        } else {
          PaddrWrite(pmem, addr, AccessSize(f3), data);
          cores[i] := Retire(t, inst, 0, Add(t.pc, 4));
        }
    }

    method Done() returns (done: bool)
      requires Valid()
      ensures done == IssDone(State())
    {
      if faulted { return true; }
      for i := 0 to cores.Length
        invariant forall k | 0 <= k < i :: cores[k].halted
      {
        if !cores[i].halted { return false; }
      }
      return cores.Length != 0;
    }

    /** `gpu_iss_step`: the next running thread in cyclic order executes one instruction. */
    method Step() returns (stepped: bool)
      requires Valid() && !aborted
      modifies this`rr, this`faulted, this`aborted, cores, pmem
      ensures Valid() && State() == IssStep(old(State()))
      ensures stepped == (!IssDone(old(State())) && old(cores.Length) > 0)
    {
      hide StepThread, IssDone, At;
      var done := Done();
      if done { return false; }
      ghost var was, flags, rr0 := State(), Running(cores[..]), rr;
      var n := cores.Length;
      var scanned := 0;
      if n > 0 { AtOffset(n, rr, 0); }
      while scanned < n
        invariant 0 <= scanned <= n && cores.Length == n && Valid()
        invariant State() == was.(rr := rr)
        invariant n > 0 ==> rr == At(n, rr0, scanned)
        invariant Scan(flags, rr0, scanned) == Scan(flags, rr0, 0)
      {
        var c := rr;
        rr := (rr + 1) % n;
        AtNext(n, rr0, scanned);
        if !cores[c].halted {
          assert FlagAt(flags, rr0, scanned);
          StepCore(c);
          return true;
        }
        scanned := scanned + 1;
      }
      SomeoneRuns(was);
      return false;
    }
  }
}
