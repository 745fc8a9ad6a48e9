/** The startup code every kernel is linked with (sw/kernel/src/start.S), the call it makes, and the
    kernel body behind it. The first instruction reads the physical thread number, to give each thread a
    stack of its own. A table of which registers may depend on it, one entry for each instruction of the
    body, proves that a leaf kernel keeps its place to itself. */
module StartupCode {
  import opened Word
  import opened Memory
  import opened Isa
  import opened Interleaving
  import opened Scalar
  import opened SimtCore
  import opened CoreRefinement
  import opened Kmu
  import opened DeviceRefinement
  import opened DeviceRuns
  import opened EndToEnd
  import opened Placement

  /** The encodings: t0 gets the physical number, sp the top of the stacks, t1 the number times the size
      of a stack, sp is lowered by that, a0 gets the arguments. */
  const STARTUP: seq<word> := [0xccd0_22f3, 0x8180_0137, 0x00c2_9313, 0x4061_0133, 0xccc0_2573]

  /** The return of a leaf function. */
  const RET: word := 0x0000_8067

  const RA := 1

  /** What the startup code leaves dependent on the placement: sp, t0 and t1. */
  const PLACED: set<nat> := {2, 5, 6}

  /** A kernel in memory: where it starts, where its body stands, and the body. */
  datatype Kernel = Kernel(start: word, main: word, body: seq<word>) {
    /** The body with i instructions before this address. */
    function BodyAt(i: nat): int { main + 4 * i }
  }

  /** The startup code, a call of the body, `ebreak`; and elsewhere the body. */
  predicate InPlace(k: Kernel, m: Mem) {
    && k.start % 2 == 0 && k.start + 28 <= WORD_SPAN && k.main + 4 * |k.body| <= WORD_SPAN && k.body != []
    && (forall i | 0 <= i < |STARTUP| :: Load32(m, k.start + 4 * i) == STARTUP[i])
    && IsCall(k, Load32(m, k.start + 20)) && Load32(m, k.start + 24) == EBREAK
    && (forall i | 0 <= i < |k.body| :: Load32(m, k.main + 4 * i) == k.body[i])
  }

  predicate IsCall(k: Kernel, inst: word) { Opcode(inst) == OP_JAL && Rd(inst) == RA && (k.start + 20 + ImmJ(inst)) % WORD_SPAN == k.main }

  // ---- Leaf bodies and their tables -------------------------------------------------------

  /** Control can pass from instruction i of the body to the address. */
  predicate Flows(k: Kernel, i: nat, to: int)
    requires i < |k.body|
  {
    var w := k.body[i];
    if w == RET then false
    else if Opcode(w) == OP_JAL then to == (k.main + 4 * i + ImmJ(w)) % WORD_SPAN
    else if Opcode(w) == OP_BRANCH then to == (k.main + 4 * i + ImmB(w)) % WORD_SPAN || to == k.main + 4 * i + 4
    else to == k.main + 4 * i + 4
  }

  /** A leaf function: it jumps inside its body only, returns by RET, and leaves the return address alone. */
  ghost predicate Leaf(k: Kernel) {
    forall i | 0 <= i < |k.body| :: LeafInstruction(k, i)
  }

  ghost predicate LeafInstruction(k: Kernel, i: nat)
    requires i < |k.body|
  {
    var w := k.body[i];
    && (Opcode(w) == OP_JALR ==> w == RET) && w != EBREAK
    && (UsesRd(Opcode(w)) ==> Rd(w) != RA)
    && forall to | Flows(k, i, to) :: exists n: nat :: n < |k.body| && to == k.BodyAt(n)
  }

  /** The table bounds, before each instruction, the registers that depend on the placement: it covers
      what the startup code leaves, no instruction shows a register of its entry, and each entry covers
      what its predecessors pass on. */
  ghost predicate Tabled(k: Kernel, table: seq<set<nat>>) {
    && |table| == |k.body| && |table| > 0 && PLACED <= table[0]
    && (forall i | 0 <= i < |table| :: !Leaks(k.body[i], table[i]))
    && (forall i, n | 0 <= i < |table| && 0 <= n < |table| && Flows(k, i, k.BodyAt(n)) :: Derived(k.body[i], table[i]) <= table[n])
  }

  lemma {:induction false} LeaksMore(inst: word, d: set<nat>, e: set<nat>)
    requires d <= e && !Leaks(inst, e)
    ensures !Leaks(inst, d) && Derived(inst, d) <= Derived(inst, e)
  {
    hide Opcode, Rs1, Rs2, Rd, CsrNumber;
  }

  /** Each instruction of the startup code, and the call, carries the placement to those registers only
      and shows it nowhere. */
  lemma {:induction false} StartupDerives(i: nat, d: set<nat>)
    requires i < |STARTUP| && d <= PLACED
    ensures !Leaks(STARTUP[i], d) && Derived(STARTUP[i], d) <= PLACED
    ensures !BadRegister(STARTUP[i]) && Opcode(STARTUP[i]) in {OP_SYSTEM, OP_LUI, OP_IMM, OP_REG} && STARTUP[i] != EBREAK
  {
    if i == 0 {
      assert Opcode(STARTUP[0]) == OP_SYSTEM && CsrNumber(STARTUP[0]) == 0xccd && Rd(STARTUP[0]) == 5;
    } else if i == 1 {
      assert Opcode(STARTUP[1]) == OP_LUI && Rd(STARTUP[1]) == 2;
    } else if i == 2 {
      assert Opcode(STARTUP[2]) == OP_IMM && Rd(STARTUP[2]) == 6 && Rs1(STARTUP[2]) == 5;
    } else if i == 3 {
      assert Opcode(STARTUP[3]) == OP_REG && Rd(STARTUP[3]) == 2 && Rs1(STARTUP[3]) == 2 && Rs2(STARTUP[3]) == 6;
    } else {
      assert Opcode(STARTUP[4]) == OP_SYSTEM && CsrNumber(STARTUP[4]) == 0xccc && Rd(STARTUP[4]) == 10;
    }
  }

  lemma {:induction false} CallDerives(k: Kernel, inst: word, d: set<nat>)
    requires IsCall(k, inst) && d <= PLACED
    ensures !Leaks(inst, d) && Derived(inst, d) <= PLACED && inst != EBREAK
  {
  }

  // ---- Where a thread can be --------------------------------------------------------------

  /** In the startup code, at the `ebreak`, or at an instruction of the body with the return address in
      place; and no more depends on the placement than is said for that point. */
  ghost predicate OnTrack(k: Kernel, table: seq<set<nat>>, t: Thread, d: set<nat>)
    requires |table| == |k.body|
  {
    || (exists i: nat :: InStartup(k, t, d, i))
    || t.pc == k.start + 24
    || (exists i: nat :: InBody(k, table, t, d, i))
  }

  predicate InStartup(k: Kernel, t: Thread, d: set<nat>, i: nat) { i <= 5 && t.pc == k.start + 4 * i && d <= PLACED }

  predicate InBody(k: Kernel, table: seq<set<nat>>, t: Thread, d: set<nat>, i: nat)
    requires |table| == |k.body|
  {
    i < |k.body| && t.pc == k.main + 4 * i && t.gpr[RA] == k.start + 24 && d <= table[i]
  }

  /** The kernel's words are as they were loaded. */
  predicate SameWords(k: Kernel, image: Mem, m: Mem) {
    && (forall i | 0 <= i < 7 :: k.start + 4 * i < WORD_SPAN ==> Load32(m, k.start + 4 * i) == Load32(image, k.start + 4 * i))
    && (forall i | 0 <= i < |k.body| :: k.main + 4 * i < WORD_SPAN ==> Load32(m, k.main + 4 * i) == Load32(image, k.main + 4 * i))
  }

  lemma {:induction false} WordsInPlace(k: Kernel, image: Mem, m: Mem)
    requires InPlace(k, image) && SameWords(k, image, m)
    ensures InPlace(k, m)
  {
    hide Load32, IsCall;
    assert Load32(m, k.start + 4 * 5) == Load32(image, k.start + 4 * 5);
    assert Load32(m, k.start + 4 * 6) == Load32(image, k.start + 4 * 6);
  }

  /** Where control goes from an instruction that is no indirect jump. */
  predicate GoesTo(inst: word, pc: word, next: word) {
    if Opcode(inst) == OP_JAL then next == Add(pc, ImmJ(inst))
    else if Opcode(inst) == OP_BRANCH then next == Add(pc, ImmB(inst)) || next == Add(pc, 4)
    else next == Add(pc, 4)
  }

  lemma {:induction false} DirectStep(m: Mem, t: Thread, inst: word)
    requires inst == Load32(m, t.pc) && Step(m, t).Done? && Opcode(inst) != OP_JALR && inst != EBREAK
    ensures GoesTo(inst, t.pc, Step(m, t).thread.pc)
    ensures !UsesRd(Opcode(inst)) || Rd(inst) != RA ==> Step(m, t).thread.gpr[RA] == t.gpr[RA]
    ensures Opcode(inst) == OP_JAL && Rd(inst) == RA ==> Step(m, t).thread.gpr[RA] == Add(t.pc, 4)
  {
    hide Load32, AluImm, AluReg, Csr, BadRegister, BranchTaken, ScalarLoad, ScalarStore, ImmI, ImmS, ImmU, ImmB, ImmJ, Rs1, Rs2;
    BreakDecodes(inst, t);
  }

  lemma {:induction false} ReturnStep(m: Mem, t: Thread, to: word)
    requires Load32(m, t.pc) == RET && Step(m, t).Done? && t.gpr[RA] == to && to % 2 == 0
    ensures Step(m, t).thread.pc == to
  {
    hide Load32, AluImm, AluReg, Csr, BranchTaken, WriteBack, ScalarLoad, ScalarStore;
    assert Opcode(RET) == OP_JALR && Rs1(RET) == 1 && ImmI(RET) == 0 && Rd(RET) == 0 && !BadRegister(RET);
  }

  lemma {:induction false} BreakStays(m: Mem, t: Thread)
    requires Load32(m, t.pc) == EBREAK && Step(m, t).Done?
    ensures Step(m, t).thread.pc == t.pc
  {
    hide Load32, AluImm, AluReg, Csr, BadRegister, BranchTaken, ScalarLoad, ScalarStore;
    BreakDecodes(EBREAK, t);
  }

  /** No instruction on the track shows the placement. */
  lemma {:induction false} TrackKeeps(k: Kernel, table: seq<set<nat>>, m: Mem, t: Thread, d: set<nat>)
    requires InPlace(k, m) && Leaf(k) && Tabled(k, table) && OnTrack(k, table, t, d)
    ensures !Leaks(Load32(m, t.pc), d)
  {
    hide Load32, Leaks, Leaf;
    if i: nat :| InStartup(k, t, d, i) {
      if i < 5 { StartupDerives(i, d); } else { CallDerives(k, Load32(m, t.pc), d); }
    } else if t.pc == k.start + 24 {
      BreakShowsNothing(d);
    } else {
      var i: nat :| InBody(k, table, t, d, i);
      assert !Leaks(k.body[i], table[i]);
      LeaksMore(k.body[i], d, table[i]);
    }
  }

  lemma {:induction false} BreakShowsNothing(d: set<nat>)
    ensures !Leaks(EBREAK, d)
  {
  }

  lemma {:induction false} StartupGoesOn(k: Kernel, table: seq<set<nat>>, m: Mem, t: Thread, d: set<nat>, i: nat)
    requires InPlace(k, m) && Tabled(k, table) && InStartup(k, t, d, i) && Step(m, t).Done?
    ensures OnTrack(k, table, Step(m, t).thread, Derived(Load32(m, t.pc), d))
  {
    hide Load32, Step, Derived, Leaks, Leaf, Opcode, Rd, ImmJ, ImmB, UsesRd;
    var inst := Load32(m, t.pc);
    var u, e := Step(m, t).thread, Derived(inst, d);
    if i < 5 {
      StartupDerives(i, d);
      DirectStep(m, t, inst);
      assert InStartup(k, u, e, i + 1);
    } else {
      CallDerives(k, inst, d);
      DirectStep(m, t, inst);
      assert InBody(k, table, u, e, 0);
    }
  }

  lemma {:induction false} BodyGoesOn(k: Kernel, table: seq<set<nat>>, m: Mem, t: Thread, d: set<nat>, i: nat)
    requires InPlace(k, m) && Leaf(k) && Tabled(k, table) && InBody(k, table, t, d, i) && Step(m, t).Done?
    ensures OnTrack(k, table, Step(m, t).thread, Derived(Load32(m, t.pc), d))
  {
    hide Load32, Step, Derived, Leaks, Opcode, Rd, ImmJ, ImmB, UsesRd, IsCall;
    var inst := Load32(m, t.pc);
    var u, e := Step(m, t).thread, Derived(inst, d);
    assert inst == k.body[i] && LeafInstruction(k, i);
    assert !Leaks(k.body[i], table[i]);
    LeaksMore(inst, d, table[i]);
    if inst == RET {
      ReturnStep(m, t, k.start + 24);
    } else {
      DirectStep(m, t, inst);
      NextInBody(k, i, u.pc);
      var n: nat :| n < |k.body| && u.pc == k.BodyAt(n);
      assert Flows(k, i, k.BodyAt(n));
      assert InBody(k, table, u, e, n);
    }
  }

  lemma {:induction false} NextInBody(k: Kernel, i: nat, next: word)
    requires i < |k.body| && k.main + 4 * |k.body| <= WORD_SPAN && LeafInstruction(k, i) && k.body[i] != RET
    requires GoesTo(k.body[i], k.main + 4 * i, next)
    ensures Flows(k, i, next) && exists n: nat :: n < |k.body| && next == k.BodyAt(n)
  {
    hide Opcode, ImmJ, ImmB;
    if Opcode(k.body[i]) != OP_JAL {
      assert Flows(k, i, k.main + 4 * i + 4);
    }
  }

  lemma {:induction false} TrackGoesOn(k: Kernel, table: seq<set<nat>>, m: Mem, t: Thread, d: set<nat>)
    requires InPlace(k, m) && Leaf(k) && Tabled(k, table) && OnTrack(k, table, t, d) && Step(m, t).Done?
    ensures OnTrack(k, table, Step(m, t).thread, Derived(Load32(m, t.pc), d))
  {
    hide Load32, Step, Derived, Leaf, Tabled, InPlace;
    TableFits(k, table);
    if i: nat :| InStartup(k, t, d, i) {
      StartupGoesOn(k, table, m, t, d, i);
    } else if t.pc == k.start + 24 {
      BreakInPlace(k, m);
      BreakStays(m, t);
    } else {
      var i: nat :| InBody(k, table, t, d, i);
      BodyGoesOn(k, table, m, t, d, i);
    }
  }

  lemma {:induction false} BreakInPlace(k: Kernel, m: Mem)
    requires InPlace(k, m)
    ensures k.start + 24 < WORD_SPAN && Load32(m, k.start + 24) == EBREAK
  {
  }

  // ---- All runs ---------------------------------------------------------------------------

  /** No reachable state has changed a word of the kernel. */
  ghost predicate TextKept(j: Job, k: Kernel)
    requires GoodJob(j)
  {
    forall schedule: seq<Tid> | Run(MACHINE, Seeded(j), schedule).Some? ::
      SameWords(k, j.image, Run(MACHINE, Seeded(j), schedule).value.mem)
  }

  ghost predicate AllOnTrack(j: Job, k: Kernel, table: seq<set<nat>>, schedule: seq<Tid>, s: Sys<Tid, Thread>)
    requires GoodJob(j) && |table| == |k.body|
  {
    forall x | x in s.threads :: OnTrack(k, table, s.threads[x], DerivedAt(j, schedule, x))
  }

  lemma {:induction false} SeedsOnTrack(j: Job, k: Kernel, table: seq<set<nat>>)
    requires GoodJob(j) && j.launch.startup == k.start && |table| == |k.body|
    ensures AllOnTrack(j, k, table, [], Seeded(j))
  {
    hide IsThread, InBody;
    SeedsComplete(j);
    forall x | x in Seeds(j) ensures OnTrack(k, table, Seeds(j)[x], {}) {
      assert InStartup(k, Seeds(j)[x], {}, 0);
    }
  }

  lemma {:induction false} ScheduleOnTrack(j: Job, k: Kernel, table: seq<set<nat>>, schedule: seq<Tid>)
    requires GoodJob(j) && j.launch.startup == k.start && InPlace(k, j.image) && Leaf(k) && Tabled(k, table) && TextKept(j, k)
    requires Run(MACHINE, Seeded(j), schedule).Some?
    ensures AllOnTrack(j, k, table, schedule, Run(MACHINE, Seeded(j), schedule).value)
  {
    hide GoodJob, Step, Load32, InPlace, Leaf, Tabled, SameWords, OnTrack, AllOnTrack, Seeded;
    TableFits(k, table);
    if schedule == [] {
      SeedsOnTrack(j, k, table);
    } else {
      var n := |schedule| - 1;
      ScheduleOnTrack(j, k, table, schedule[..n]);
      assert schedule[..n] + [schedule[n]] == schedule;
      StepOnTrack(j, k, table, schedule[..n], Run(MACHINE, Seeded(j), schedule[..n]).value, schedule[n]);
    }
  }

  lemma {:induction false} TableFits(k: Kernel, table: seq<set<nat>>)
    requires Tabled(k, table)
    ensures |table| == |k.body|
  {
  }

  lemma {:induction false} StepOnTrack(j: Job, k: Kernel, table: seq<set<nat>>, schedule: seq<Tid>, s: Sys<Tid, Thread>, x: Tid)
    requires GoodJob(j) && InPlace(k, j.image) && Leaf(k) && Tabled(k, table) && SameWords(k, j.image, s.mem)
    requires Run(MACHINE, Seeded(j), schedule) == Some(s) && AllOnTrack(j, k, table, schedule, s) && CanStep(MACHINE, s, x)
    ensures AllOnTrack(j, k, table, schedule + [x], StepOf(MACHINE, s, x))
  {
    hide GoodJob, Step, Load32, InPlace, Leaf, Tabled, OnTrack, SameWords, Run, DerivedAt, Derived, Seeded;
    TableFits(k, table);
    WordsInPlace(k, j.image, s.mem);
    TrackGoesOn(k, table, s.mem, s.threads[x], DerivedAt(j, schedule, x));
    forall y | y in s.threads
      ensures OnTrack(k, table, StepOf(MACHINE, s, x).threads[y], DerivedAt(j, schedule + [x], y))
    {
      DerivedNext(j, schedule, s, x, y);
    }
  }

  /** A leaf kernel with a table keeps its place to itself, as long as its text is not overwritten. */
  lemma {:induction false} LeafKernelKeepsPlace(j: Job, k: Kernel, table: seq<set<nat>>)
    requires GoodJob(j) && j.launch.startup == k.start && InPlace(k, j.image) && Leaf(k) && Tabled(k, table) && TextKept(j, k)
    ensures KeepsPlace(j)
  {
    hide GoodJob, Load32, InPlace, Leaf, Tabled, OnTrack, SameWords, Run, DerivedAt, Leaks, CanStep, Seeded;
    TableFits(k, table);
    forall schedule: seq<Tid>, x: Tid ensures !LeaksAt(j, schedule, x) {
      if Run(MACHINE, Seeded(j), schedule).Some? {
        var s := Run(MACHINE, Seeded(j), schedule).value;
        ScheduleOnTrack(j, k, table, schedule);
        WordsInPlace(k, j.image, s.mem);
        if CanStep(MACHINE, s, x) {
          StepsHere(s, x);
          TrackKeeps(k, table, s.mem, s.threads[x], DerivedAt(j, schedule, x));
        }
      }
    }
  }

  lemma {:induction false} StepsHere(s: Sys<Tid, Thread>, x: Tid)
    requires CanStep(MACHINE, s, x)
    ensures x in s.threads
  {
  }

  // ---- Kernels that store nothing ---------------------------------------------------------

  ghost predicate Storeless(k: Kernel) { forall i | 0 <= i < |k.body| :: Opcode(k.body[i]) != OP_STORE }

  lemma {:induction false} TrackStoresNothing(k: Kernel, table: seq<set<nat>>, m: Mem, t: Thread, d: set<nat>)
    requires InPlace(k, m) && Tabled(k, table) && OnTrack(k, table, t, d) && Storeless(k)
    ensures Opcode(Load32(m, t.pc)) != OP_STORE
  {
    hide Load32, Derived, Leaks;
    TableFits(k, table);
    if i: nat :| InStartup(k, t, d, i) {
      if i < 5 { StartupDerives(i, d); }
    } else if t.pc == k.start + 24 {
      assert Opcode(EBREAK) == OP_SYSTEM;
    } else {
      var i: nat :| InBody(k, table, t, d, i);
    }
  }

  lemma {:induction false} OtherwiseMemoryStays(m: Mem, t: Thread)
    requires Opcode(Load32(m, t.pc)) != OP_STORE
    ensures Step(m, t).Done? ==> Step(m, t).mem == m
    ensures Writes(m, t) == {}
  {
    hide Load32, AluImm, AluReg, Csr, BadRegister, BranchTaken, ScalarLoad, WriteBack;
  }

  lemma {:induction false} SameImage(k: Kernel, m: Mem)
    ensures SameWords(k, m, m)
  {
    hide Load32;
  }

  lemma {:induction false} StorelessOnTrack(j: Job, k: Kernel, table: seq<set<nat>>, schedule: seq<Tid>)
    requires GoodJob(j) && j.launch.startup == k.start && InPlace(k, j.image) && Leaf(k) && Tabled(k, table) && Storeless(k)
    requires Run(MACHINE, Seeded(j), schedule).Some? && |table| == |k.body|
    ensures var s := Run(MACHINE, Seeded(j), schedule).value; s.mem == j.image && AllOnTrack(j, k, table, schedule, s)
  {
    hide GoodJob, Step, Load32, InPlace, Leaf, Tabled, Storeless, OnTrack, SameWords, DerivedAt;
    if schedule == [] {
      SeedsOnTrack(j, k, table);
    } else {
      var n := |schedule| - 1;
      StorelessOnTrack(j, k, table, schedule[..n]);
      var s, x := Run(MACHINE, Seeded(j), schedule[..n]).value, schedule[n];
      assert schedule[..n] + [x] == schedule;
      SameImage(k, j.image);
      TrackStoresNothing(k, table, s.mem, s.threads[x], DerivedAt(j, schedule[..n], x));
      OtherwiseMemoryStays(s.mem, s.threads[x]);
      StepOnTrack(j, k, table, schedule[..n], s, x);
    }
  }

  /** Without stores the text stays, and the kernel keeps its place to itself outright. */
  lemma {:induction false} StorelessKeepsPlace(j: Job, k: Kernel, table: seq<set<nat>>)
    requires GoodJob(j) && j.launch.startup == k.start && InPlace(k, j.image) && Leaf(k) && Tabled(k, table) && Storeless(k)
    ensures TextKept(j, k) && KeepsPlace(j)
  {
    hide GoodJob, InPlace, Leaf, Tabled, Storeless, OnTrack, SameWords, Run, KeepsPlace, Seeded, AllOnTrack;
    TableFits(k, table);
    SameImage(k, j.image);
    forall schedule: seq<Tid> | Run(MACHINE, Seeded(j), schedule).Some?
      ensures SameWords(k, j.image, Run(MACHINE, Seeded(j), schedule).value.mem)
    {
      StorelessOnTrack(j, k, table, schedule);
    }
    LeafKernelKeepsPlace(j, k, table);
  }

  lemma {:induction false} AloneOnTrack(k: Kernel, table: seq<set<nat>>, m: Mem, t: Thread, n: nat) returns (d: set<nat>)
    requires InPlace(k, m) && Leaf(k) && Tabled(k, table) && Storeless(k) && t.pc == k.start && |table| == |k.body|
    ensures Solo(MACHINE, m, t, n).mem == m && OnTrack(k, table, Solo(MACHINE, m, t, n).thread, d)
  {
    hide Step, Load32, InPlace, Leaf, Tabled, Storeless, InBody;
    if n == 0 {
      d := {};
      assert InStartup(k, t, d, 0);
    } else {
      d := AloneOnTrack(k, table, m, t, n - 1);
      var l := Solo(MACHINE, m, t, n - 1);
      if !l.stuck && !l.thread.halted && Step(m, l.thread).Done? {
        TrackGoesOn(k, table, m, l.thread, d);
        TrackStoresNothing(k, table, m, l.thread, d);
        OtherwiseMemoryStays(m, l.thread);
        d := Derived(Load32(m, l.thread.pc), d);
      }
    }
  }

  /** And it is race-free. */
  lemma {:induction false} StorelessRaceFree(j: Job, k: Kernel, table: seq<set<nat>>)
    requires GoodJob(j) && j.launch.startup == k.start && InPlace(k, j.image) && Leaf(k) && Tabled(k, table) && Storeless(k)
    ensures RaceFreeJob(j)
  {
    hide GoodJob, InPlace, Leaf, Tabled, Storeless, SoloWrites, SoloTouches, IsThread;
    TableFits(k, table);
    SeedsComplete(j);
    forall x: Tid, y: Tid, n: nat, p: nat | x in Seeds(j) && y in Seeds(j) && x != y
      ensures SoloWrites(MACHINE, j.image, Seeds(j)[x], n) !! SoloTouches(MACHINE, j.image, Seeds(j)[y], p)
    {
      SeedAtStartup(j, x);
      WritesNothing(k, table, j.image, Seeds(j)[x], n);
    }
  }

  lemma {:induction false} WritesNothing(k: Kernel, table: seq<set<nat>>, m: Mem, t: Thread, n: nat)
    requires InPlace(k, m) && Leaf(k) && Tabled(k, table) && Storeless(k) && t.pc == k.start && |table| == |k.body|
    ensures SoloWrites(MACHINE, m, t, n) == {}
  {
    hide Step, Load32, InPlace, Leaf, Tabled, Storeless, OnTrack, Solo, Writes;
    var d := AloneOnTrack(k, table, m, t, n);
    TrackStoresNothing(k, table, m, Solo(MACHINE, m, t, n).thread, d);
    OtherwiseMemoryStays(m, Solo(MACHINE, m, t, n).thread);
  }

  lemma {:induction false} SeedAtStartup(j: Job, k: Tid)
    requires GoodJob(j) && k in Seeds(j)
    ensures Seeds(j)[k].pc == j.launch.startup
  {
  }

  // ---- A body with a load, a loop and a branch --------------------------------------------

  /** It loads a count through its argument pointer and counts it down. */
  const COUNT_DOWN: seq<word> := [0x0005_2583, 0xfff5_8593, 0xfe05_9ee3, RET]

  const COUNT_TABLE: seq<set<nat>> := [PLACED, PLACED, PLACED, PLACED]

  /** The conditions on a leaf kernel hold for it, wherever it is linked. */
  lemma {:induction false} CountDownTabled(k: Kernel)
    requires k.body == COUNT_DOWN && k.main + 16 <= WORD_SPAN
    ensures Leaf(k) && Tabled(k, COUNT_TABLE) && Storeless(k)
  {
    CountDownDecodes();
    CountDownFlows(k);
    forall i | 0 <= i < 4 ensures LeafInstruction(k, i) {
    }
  }

  lemma {:induction false} CountDownDecodes()
    ensures Opcode(COUNT_DOWN[0]) == OP_LOAD && Rs1(COUNT_DOWN[0]) == 10 && Rd(COUNT_DOWN[0]) == 11
    ensures Opcode(COUNT_DOWN[1]) == OP_IMM && Rs1(COUNT_DOWN[1]) == 11 && Rd(COUNT_DOWN[1]) == 11
    ensures Opcode(COUNT_DOWN[2]) == OP_BRANCH && Rs1(COUNT_DOWN[2]) == 11 && Rs2(COUNT_DOWN[2]) == 0
    ensures ImmB(COUNT_DOWN[2]) == WORD_SPAN - 4
    ensures Opcode(RET) == OP_JALR && Rs1(RET) == 1 && Rd(RET) == 0
  {
  }

  lemma {:induction false} CountDownFlows(k: Kernel)
    requires k.body == COUNT_DOWN && k.main + 16 <= WORD_SPAN
    ensures forall to :: Flows(k, 0, to) ==> to == k.BodyAt(1)
    ensures forall to :: Flows(k, 1, to) ==> to == k.BodyAt(2)
    ensures forall to :: Flows(k, 2, to) ==> to == k.BodyAt(1) || to == k.BodyAt(3)
    ensures forall to :: !Flows(k, 3, to)
  {
    hide Opcode, ImmB, ImmJ;
    CountDownDecodes();
    assert (k.main + 8 + (WORD_SPAN - 4)) % WORD_SPAN == k.main + 4;
  }
}
