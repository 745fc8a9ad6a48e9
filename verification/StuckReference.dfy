/** A launch that times out and has changed the host's data: the reference run works on PMEM itself, and
    only a run that is done in time is undone. The kernel stores to a live allocation and then loops. */
module StuckReference {
  import opened Word
  import opened Arith
  import opened Memory
  import opened Isa
  import opened Interleaving
  import opened Scalar
  import opened RoundRobin
  import opened SimtCore
  import opened Kmu
  import opened DeviceRefinement
  import opened Iss
  import opened EndToEnd
  import opened Runtime
  import opened RuntimeTraces

  const ONE := Dim3(1, 1, 1)

  /** How many instructions the runtime waits for. */
  const WAIT_LIMIT := 100000000

  /** Load the heap base into t0, store t0 there, jump to the same place. */
  const LOAD_BASE: word := 0x8200_02b7
  const STORE_BASE: word := 0x0052_a023
  const LOOP: word := 0x0000_006f

  const KERNEL_BYTES: seq<byte> := [0xb7, 0x02, 0x00, 0x82, 0x23, 0xa0, 0x52, 0x00, 0x6f, 0x00, 0x00, 0x00]

  /** The kernel is loaded, and memory reaches into the heap. */
  predicate Loaded3(m: Mem) {
    && Span(m, KERNEL_BASE, 12) && Span(m, HEAP_BASE, 4)
    && Load32(m, KERNEL_BASE) == LOAD_BASE && Load32(m, KERNEL_BASE + 4) == STORE_BASE && Load32(m, KERNEL_BASE + 8) == LOOP
  }

  function OneThread(m: Mem): Job { Job(Shape(1, 1, 1), Launch(KERNEL_BASE, 0, ONE, ONE, 1), m, {}, [0]) }

  function Stored(m: Mem): (r: Mem)
    requires Loaded3(m)
    ensures |r| == |m|
  {
    ScalarStore(m, HEAP_BASE, 2, HEAP_BASE)
  }

  lemma StoredBytes(m: Mem)
    requires Loaded3(m)
    ensures Peek(Stored(m), HEAP_BASE + 3) == 0x82 && Loaded3(Stored(m))
  {
    WriteDigit(m, HEAP_BASE, 4, HEAP_BASE, 3);
    assert Pow256(3) == 0x100_0000;
    forall a: word | KERNEL_BASE <= a <= KERNEL_BASE + 8 ensures Load32(Stored(m), a) == Load32(m, a) {
      forall b | b in Bytes(a, 4) ensures Peek(Stored(m), b) == Peek(m, b) {
        WriteAt(m, HEAP_BASE, 4, HEAP_BASE, b);
      }
      ReadsAgree(m, Stored(m), a, 4);
    }
  }

  // ---- The three instructions -------------------------------------------------------------

  lemma LoadBaseStep(m: Mem, t: Thread)
    requires Loaded3(m) && t.pc == KERNEL_BASE && !t.halted
    ensures Step(m, t) == Done(t.(pc := KERNEL_BASE + 4, gpr := WriteBack(t.gpr, true, 5, HEAP_BASE)), m)
  {
    hide Load32, WriteBack;
    assert Opcode(LOAD_BASE) == OP_LUI && Rd(LOAD_BASE) == 5 && ImmU(LOAD_BASE) == HEAP_BASE && !BadRegister(LOAD_BASE);
  }

  lemma StoreBaseStep(m: Mem, t: Thread)
    requires Loaded3(m) && t.pc == KERNEL_BASE + 4 && !t.halted && t.gpr[5] == HEAP_BASE && t.gpr[0] == 0
    ensures Step(m, t) == Done(t.(pc := KERNEL_BASE + 8), Stored(m))
  {
    hide Load32, ScalarStore;
    assert Opcode(STORE_BASE) == OP_STORE && Funct3(STORE_BASE) == 2 && Rs1(STORE_BASE) == 5 && Rs2(STORE_BASE) == 5;
    assert ImmS(STORE_BASE) == 0 && !BadRegister(STORE_BASE);
    assert Decode(STORE_BASE, t.pc, t.gpr, t.ids) == StoreTo(HEAP_BASE, 2, HEAP_BASE);
    assert t.gpr[0 := 0] == t.gpr;
  }

  lemma LoopStep(m: Mem, t: Thread)
    requires Loaded3(m) && t.pc == KERNEL_BASE + 8 && !t.halted && t.gpr[0] == 0
    ensures Step(m, t) == Done(t, m)
  {
    hide Load32;
    assert Opcode(LOOP) == OP_JAL && Rd(LOOP) == 0 && ImmJ(LOOP) == 0 && !BadRegister(LOOP);
    assert t.gpr[0 := 0] == t.gpr;
  }

  // ---- The simulator on this kernel -------------------------------------------------------

  /** One call of the simulator on a single thread. */
  lemma OnlyThreadSteps(s: IssState, o: Thread, m: Mem)
    requires |s.cores| == 1 && s.rr == 0 && Sound(s) && !s.cores[0].halted
    requires Step(s.mem, s.cores[0]) == Done(o, m) && Opcode(Load32(s.mem, s.cores[0].pc)) != OP_JALR
    ensures IssStep(s) == IssState([o], 0, false, false, m)
  {
    hide Scalar.Perform, Load32;
    assert Running(s.cores)[0];
    assert RoundRobin.At(1, 0, 0) == 0;
    assert FlagAt(Running(s.cores), 0, 0);
    assert s.cores[0 := o] == [o];
  }

  lemma StartThread(m: Mem)
    requires Loaded3(m)
    ensures GoodJob(OneThread(m))
    ensures var s := IssStart(OneThread(m));
            |s.cores| == 1 && s.cores[0].pc == KERNEL_BASE && !s.cores[0].halted && s.cores[0].gpr == ZERO_REGISTERS
            && s == IssState(s.cores, 0, false, false, m)
  {
    StartSizes(OneThread(m));
    assert Total(OneThread(m)) == 1;
    JobLaunches(OneThread(m));
  }

  /** From the second call on the store has happened and the thread runs in place. */
  ghost predicate Looping(m: Mem, s: IssState)
    requires Loaded3(m)
  {
    && |s.cores| == 1 && s == IssState(s.cores, 0, false, false, Stored(m))
    && s.cores[0].pc == KERNEL_BASE + 8 && !s.cores[0].halted && s.cores[0].gpr[0] == 0
  }

  lemma TwoCalls(m: Mem)
    requires Loaded3(m)
    ensures GoodJob(OneThread(m)) && Looping(m, IssRun(IssStart(OneThread(m)), 2))
  {
    hide Step, IssStep, Load32, IssStart, Stored, GoodJob;
    StartThread(m);
    var s := IssStart(OneThread(m));
    var t := s.cores[0];
    LoadBaseStep(m, t);
    var u := t.(pc := KERNEL_BASE + 4, gpr := WriteBack(t.gpr, true, 5, HEAP_BASE));
    assert s.cores == [t];
    OnlyThreadSteps(s, u, m);
    StoreBaseStep(m, u);
    var v := u.(pc := KERNEL_BASE + 8);
    OnlyThreadSteps(IssState([u], 0, false, false, m), v, Stored(m));
    assert IssRun(s, 0) == s;
    assert IssRun(s, 1) == IssStep(s);
    assert IssRun(s, 2) == IssStep(IssRun(s, 1));
  }

  lemma {:induction false} StillLooping(m: Mem, n: nat)
    requires Loaded3(m) && n >= 2
    ensures GoodJob(OneThread(m)) && Looping(m, IssRun(IssStart(OneThread(m)), n))
  {
    hide Step, IssStep, Load32, IssStart, Stored, GoodJob, Loaded3;
    TwoCalls(m);
    if n > 2 {
      StillLooping(m, n - 1);
      var s := IssRun(IssStart(OneThread(m)), n - 1);
      StoredBytes(m);
      LoopStep(Stored(m), s.cores[0]);
      LoopWord(Stored(m));
      assert s.cores == [s.cores[0]];
      OnlyThreadSteps(s, s.cores[0], Stored(m));
    }
  }

  lemma LoopWord(m: Mem)
    requires Loaded3(m)
    ensures Opcode(Load32(m, KERNEL_BASE + 8)) != OP_JALR
  {
    hide Load32;
  }

  // ---- The launch -------------------------------------------------------------------------

  /** When the limit is reached the reference run is not done, has not faulted, and has stored. */
  lemma ReferenceIsStuck(m: Mem)
    requires Loaded3(m)
    ensures GoodJob(OneThread(m))
    ensures var s := IssRun(IssStart(OneThread(m)), WAIT_LIMIT); !IssDone(s) && s.mem == Stored(m)
  {
    hide IssStart, IssRun, GoodJob, Load32, Stored;
    StillLooping(m, WAIT_LIMIT);
  }

  /** The launch then fails and the host's byte at the heap base has changed. */
  lemma TimeoutChangesData(s: Rt, q: Request, n: word)
    requires ValidRt(s) && Coherent(s) && Loaded3(s.mem) && RequestOk(s, q, 1) && q.args == []
    requires q.grid == ONE && q.dim == ONE && (HEAP_BASE, n) in Live(s.slots) && n >= 4 && Peek(s.mem, HEAP_BASE + 3) == 0
    ensures GoodJob(OneThread(s.mem))
    ensures Fitting(s, ReferenceStuck(IssRun(IssStart(OneThread(s.mem)), WAIT_LIMIT).mem))
    ensures var reference := IssRun(IssStart(OneThread(s.mem)), WAIT_LIMIT);
            var (t, r) := Runtime.Launch(s, q, 1, ReferenceStuck(reference.mem));
            !IssDone(reference) && r == Err(Timeout) && t.mem == reference.mem && !KeepsLive(s, t.mem)
  {
    hide Live, IssStart, IssRun, GoodJob, Load32, Stored, HeapOk;
    ReferenceIsStuck(s.mem);
    StoredBytes(s.mem);
    assert Inside1((HEAP_BASE, n), HEAP_BASE + 3);
    assert !KeepsLive(s, Stored(s.mem));
    assert Stage(s, []) == (s.(scratch := None), Ok(()));
  }

  // ---- The host's calls -------------------------------------------------------------------

  lemma BytesAreKernel(m: Mem)
    requires Span(m, KERNEL_BASE, 12) && Span(m, HEAP_BASE, 4)
    requires forall i | 0 <= i < 12 :: m[KERNEL_BASE - MBASE + i] == KERNEL_BYTES[i]
    ensures Loaded3(m)
  {
    assert KERNEL_BYTES[0] == 0xb7 && KERNEL_BYTES[1] == 0x02 && KERNEL_BYTES[2] == 0x00 && KERNEL_BYTES[3] == 0x82;
    assert KERNEL_BYTES[4] == 0x23 && KERNEL_BYTES[5] == 0xa0 && KERNEL_BYTES[6] == 0x52 && KERNEL_BYTES[7] == 0x00;
    assert KERNEL_BYTES[8] == 0x6f && KERNEL_BYTES[9] == 0x00 && KERNEL_BYTES[10] == 0x00 && KERNEL_BYTES[11] == 0x00;
    FourBytes(m, KERNEL_BASE, 0xb7, 0x02, 0x00, 0x82);
    FourBytes(m, KERNEL_BASE + 4, 0x23, 0xa0, 0x52, 0x00);
    FourBytes(m, KERNEL_BASE + 8, 0x6f, 0x00, 0x00, 0x00);
  }

  lemma FourBytes(m: Mem, a: word, b0: nat, b1: nat, b2: nat, b3: nat)
    requires Span(m, a, 4) && m[a - MBASE] == b0 && m[a - MBASE + 1] == b1 && m[a - MBASE + 2] == b2 && m[a - MBASE + 3] == b3
    ensures Load32(m, a) == b0 + 256 * (b1 + 256 * (b2 + 256 * b3))
  {
    assert ReadBytes(m, a + 4, 0) == 0;
    assert ReadBytes(m, a + 3, 1) == b3;
    assert ReadBytes(m, a + 2, 2) == b2 + 256 * b3;
    assert ReadBytes(m, a + 1, 3) == b1 + 256 * (b2 + 256 * b3);
  }

  /** One thread, no arguments, on the first kernel loaded. */
  const REQUEST := Request(1, ONE, ONE, [])

  /** A freshly opened device, one allocation, the kernel loaded, one launch: it fails with a timeout,
      and the host's allocation no longer holds the zeros it was given. */
  lemma TimeoutReachable(mem: Mem)
    requires Configured(mem) && HEAP_BASE + GPU_ALIGN <= HeapEnd(mem)
    ensures ValidRt(Opened(mem))
    ensures var (s, a) := Alloc(Opened(mem), GPU_ALIGN);
            && a == Ok(HEAP_BASE) && ValidRt(s)
            && var (t, k) := Load(s, KERNEL_BYTES);
               && k == Ok(1) && ValidRt(t) && GoodJob(OneThread(t.mem))
               && var reference := IssRun(IssStart(OneThread(t.mem)), WAIT_LIMIT);
                  var (u, r) := Runtime.Launch(t, REQUEST, 1, ReferenceStuck(reference.mem));
                  !IssDone(reference) && r == Err(Timeout) && Live(u.slots) == Live(t.slots) && !KeepsLive(t, u.mem)
  {
    hide Live, Alloc, IssStart, IssRun, GoodJob, Load32, Rounded, HeapOk, Runtime.Launch, Overwrite;
    OpenedAccounted(mem);
    EmptyHeapFirst(Opened(mem), GPU_ALIGN);
    AllocKeeps(Opened(mem), GPU_ALIGN);
    var s := Alloc(Opened(mem), GPU_ALIGN).0;
    LoadValid(s, KERNEL_BYTES);
    var t := Load(s, KERNEL_BYTES).0;
    KernelInPlace(s);
    RoundedUnit();
    assert (HEAP_BASE, GPU_ALIGN) in Live(t.slots);
    assert Peek(s.mem, HEAP_BASE + 3) == 0;
    TimeoutChangesData(t, REQUEST, GPU_ALIGN);
    LaunchOutcome(t, REQUEST, 1, ReferenceStuck(IssRun(IssStart(OneThread(t.mem)), WAIT_LIMIT).mem));
  }

  lemma RoundedUnit()
    ensures Rounded(GPU_ALIGN) == Some(GPU_ALIGN)
  {
  }

  lemma KernelInPlace(s: Rt)
    requires ValidRt(s) && HEAP_BASE + GPU_ALIGN <= HeapEnd(s.mem)
    ensures Loaded3(Load(s, KERNEL_BYTES).0.mem)
  {
    hide Load32, Overwrite, HeapOk;
    var m := Load(s, KERNEL_BYTES).0.mem;
    forall i | 0 <= i < 12 ensures m[KERNEL_BASE - MBASE + i] == KERNEL_BYTES[i] {
      assert Peek(m, KERNEL_BASE + i) == KERNEL_BYTES[i];
    }
    BytesAreKernel(m);
  }
}
