/** Sequences of runtime calls: the live allocations are always the host's own plus the scratch
    allocation of the launch in flight. */
module RuntimeTraces {
  import opened Word
  import opened Memory
  import opened Runtime

  datatype Command =
    | CAlloc(size: nat)
    | CFree(address: word)
    | CWrite(address: word, data: seq<byte>)
    | CLoad(image: seq<byte>)
    | CLaunch(request: Request, models: Reaction)
    | CWait(after: Mem, outcome: Option<Error>)

  /** The device and the allocations handed to the host and not yet freed by it. */
  datatype World = World(rt: Rt, host: set<(word, word)>)

  predicate Possible(s: Rt, c: Command) {
    ValidRt(s) && (c.CWait? ==> |c.after| == |s.mem|) && (c.CLaunch? ==> Fitting(s, c.models))
  }

  function Perform(w: World, c: Command, contexts: nat): World
    requires Possible(w.rt, c)
  {
    match c
    case CAlloc(size) =>
      (match Alloc(w.rt, size)
       case (t, Ok(a)) => World(t, w.host + {(a, if 1 <= size < WORD_SPAN && Rounded(size).Some? then Rounded(size).value else 0)})
       case (t, Err(_)) => World(t, w.host))
    case CFree(address) =>
      World(Free(w.rt, address).0, if Free(w.rt, address).1.Ok? then w.host - At(w.host, address) else w.host)
    case CWrite(address, data) => World(Write(w.rt, address, data).0, w.host)
    case CLoad(image) => World(Load(w.rt, image).0, w.host)
    case CLaunch(request, models) => World(Launch(w.rt, request, contexts, models).0, w.host)
    case CWait(after, outcome) => World(Wait(w.rt, after, outcome).0, w.host)
  }

  /** The allocation at the scratch address. */
  function Scratch(s: Rt): set<(word, word)> {
    match s.scratch
    case None => {}
    case Some(a) => At(Live(s.slots), a)
  }

  ghost predicate Accounted(w: World) {
    && ValidRt(w.rt) && Coherent(w.rt) && Live(w.rt.slots) == w.host + Scratch(w.rt) && w.host !! Scratch(w.rt)
    && (w.rt.scratch.Some? ==> Scratch(w.rt) != {})
  }

  /** The host does not free the scratch allocation under a running launch. */
  predicate Polite(s: Rt, c: Command) { c.CFree? ==> s.scratch != Some(c.address) }

  lemma WriteValid(s: Rt, address: word, data: seq<byte>)
    requires ValidRt(s)
    ensures ValidRt(Write(s, address, data).0) && Write(s, address, data).0 == s.(mem := Write(s, address, data).0.mem)
  {
  }

  lemma LoadValid(s: Rt, image: seq<byte>)
    requires ValidRt(s)
    ensures var t := Load(s, image).0;
            ValidRt(t) && t == s.(mem := t.mem, generation := t.generation)
            && (forall b | !(KERNEL_BASE <= b < KERNEL_END) :: Peek(t.mem, b) == Peek(s.mem, b))
  {
  }

  /** The kernel area holds the image and zeros behind it. */
  predicate HoldsKernel(m: Mem, image: seq<byte>) {
    forall b | KERNEL_BASE <= b < KERNEL_END :: Peek(m, b) == if b - KERNEL_BASE < |image| then image[b - KERNEL_BASE] else 0
  }

  /** Loading succeeds exactly for images of 1 byte up to the size of the kernel area, and then the area
      holds the image and nothing of any earlier one; a refusal changes nothing. */
  lemma LoadedKernel(s: Rt, image: seq<byte>)
    requires ValidRt(s)
    ensures var (t, r) := Load(s, image);
            && (r.Ok? <==> 1 <= |image| <= KERNEL_END - KERNEL_BASE)
            && (r.Ok? ==> HoldsKernel(t.mem, image) && r == Ok(t.generation) && t.generation == (s.generation + 1) % WORD_SPAN)
            && (r.Err? ==> t == s && r == Err(InvalidArgument))
  {
  }

  /** Two devices that have loaded the same image hold the same bytes in the kernel area, whatever they
      held before. */
  lemma SameKernel(s: Rt, u: Rt, image: seq<byte>, b: int)
    requires ValidRt(s) && ValidRt(u) && Load(s, image).1.Ok? && Load(u, image).1.Ok? && KERNEL_BASE <= b < KERNEL_END
    ensures Peek(Load(s, image).0.mem, b) == Peek(Load(u, image).0.mem, b)
  {
    hide Load;
    LoadedKernel(s, image);
    LoadedKernel(u, image);
  }

  /** The device after loading one image after the other. */
  function LoadAll(s: Rt, images: seq<seq<byte>>): (r: Rt)
    requires ValidRt(s)
    ensures ValidRt(r) && r.running == s.running
  {
    if images == [] then s
    else
      LoadValid(LoadAll(s, images[..|images| - 1]), images[|images| - 1]);
      Load(LoadAll(s, images[..|images| - 1]), images[|images| - 1]).0
  }

  predicate Acceptable(images: seq<seq<byte>>) { forall k | 0 <= k < |images| :: 1 <= |images[k]| <= KERNEL_END - KERNEL_BASE }

  lemma {:induction false} Generations(s: Rt, images: seq<seq<byte>>)
    requires ValidRt(s) && Acceptable(images)
    ensures LoadAll(s, images).generation == (s.generation + |images|) % WORD_SPAN
  {
    hide Load;
    if images != [] {
      Generations(s, images[..|images| - 1]);
      LoadedKernel(LoadAll(s, images[..|images| - 1]), images[|images| - 1]);
    }
  }

  /** A kernel handle is refused after any further load, until 2^32 of them have brought its generation
      number back. */
  lemma {:induction false} StaleHandle(s: Rt, images: seq<seq<byte>>, q: Request, contexts: nat, models: Reaction)
    requires ValidRt(s) && Acceptable(images) && q.generation == s.generation && |images| % WORD_SPAN != 0
    requires Fitting(LoadAll(s, images), models)
    ensures Launch(LoadAll(s, images), q, contexts, models) == (LoadAll(s, images), Err(InvalidArgument))
  {
    hide LoadAll, DimensionsOk, Stage, Release;
    Generations(s, images);
    WrapsOnly(s.generation, |images|);
  }

  lemma WrapsOnly(g: word, n: nat)
    ensures (g + n) % WORD_SPAN == g <==> n % WORD_SPAN == 0
  {
  }

  /** Releasing the scratch allocation frees it and nothing else. */
  lemma ReleaseDrops(s: Rt)
    requires ValidRt(s)
    ensures var t := Release(s);
            && ValidRt(t) && t.scratch == None && t.mem == s.mem && t.running == s.running && t.generation == s.generation
            && Live(t.slots) == Live(s.slots) - Scratch(s)
  {
    match s.scratch
    case None =>
    case Some(a) => FreeKeeps(s, a);
  }

  /** From s to t exactly one allocation has been added; it is the scratch one and holds the arguments. */
  predicate Holding(s: Rt, t: Rt, args: seq<byte>) {
    && t.scratch.Some? && 1 <= |args| < WORD_SPAN && Rounded(|args|).Some?
    && Live(t.slots) == Live(s.slots) + {(t.scratch.value, Rounded(|args|).value)} && At(Live(s.slots), t.scratch.value) == {}
    && forall k | 0 <= k < |args| :: Peek(t.mem, t.scratch.value + k) == args[k]
  }

  /** Staging arguments adds exactly one fresh allocation that holds them, or changes nothing. */
  lemma StageOutcome(s: Rt, args: seq<byte>)
    requires ValidRt(s) && !s.running && s.scratch == None && |args| < WORD_SPAN
    ensures var (t, r) := Stage(s, args);
            && ValidRt(t) && t.running == s.running && t.generation == s.generation && |t.mem| == |s.mem|
            && (r.Err? ==> t == s)
            && (r.Ok? && args == [] ==> t == s)
            && (r.Ok? && args != [] ==> Holding(s, t, args))
            && (forall x, b | x in Live(s.slots) && Inside1(x, b) :: Peek(t.mem, b) == Peek(s.mem, b))
  {
    hide Search, FirstHit, Alloc, HeapOk, Fits, Rounded, Live;
    if args != [] {
      AllocKeeps(s, |args|);
      if Alloc(s, |args|).1.Ok? {
        var a, n := Alloc(s, |args|).1.value, Rounded(|args|).value;
        FreshAddress(s, a, n);
        assert At(Live(s.slots), a) == {};
      }
    }
  }

  /** Memory m holds the bytes of the live allocations of s. */
  ghost predicate KeepsLive(s: Rt, m: Mem) {
    forall x, b | x in Live(s.slots) && Inside1(x, b) :: Peek(m, b) == Peek(s.mem, b)
  }

  /** A launch that fails leaves allocations and run state as they were; one that succeeds owns exactly
      one more allocation when it has arguments. The bytes of live allocations are kept exactly when the
      failure is not the timeout of the reference run, or that run has left them alone: after the timeout
      memory is what the reference run has made of it. */
  lemma LaunchOutcome(s: Rt, q: Request, contexts: nat, models: Reaction)
    requires ValidRt(s) && Coherent(s) && Fitting(s, models)
    ensures var (t, r) := Launch(s, q, contexts, models);
            && ValidRt(t) && Coherent(t) && t.generation == s.generation && |t.mem| == |s.mem|
            && (r.Ok? ==> !s.running && t.running && q.generation == s.generation && DimensionsOk(q, contexts))
            && (r.Ok? && q.args == [] ==> t.scratch == None && Live(t.slots) == Live(s.slots))
            && (r.Ok? && q.args != [] ==> Holding(s, t, q.args))
            && (r.Err? ==> t.running == s.running && t.scratch == s.scratch && Live(t.slots) == Live(s.slots))
            && (r == Err(Timeout) ==> models.ReferenceStuck? && t.mem == models.left)
            && (KeepsLive(s, t.mem) <==> r != Err(Timeout) || KeepsLive(s, models.left))
  {
    hide Stage, Release, HeapOk, Live, Rounded, DimensionsOk;
    StageErrors(s, q.args);
    if RequestOk(s, q, contexts) {
      StageOutcome(s, q.args);
      var t := Stage(s, q.args).0;
      if Stage(s, q.args).1.Ok? && !models.Starts? {
        var u := if models.ReferenceStuck? then t.(mem := models.left) else t;
        ReleaseDrops(u);
        if q.args != [] {
          OnlyScratch(Live(s.slots), t, Rounded(|q.args|).value);
        }
      }
    }
  }

  lemma StageErrors(s: Rt, args: seq<byte>)
    requires ValidRt(s)
    ensures Stage(s, args).1 != Err(Timeout)
  {
  }

  /** There is a free slot, and room for the arguments. */
  ghost predicate RoomForArgs(s: Rt, args: seq<byte>)
    requires ValidRt(s)
  {
    args == [] ||
    ((exists i :: 0 <= i < MAX_ALLOCS && !s.slots[i].used) && |args| <= WORD_SPAN - GPU_ALIGN &&
     exists n: word :: n % GPU_ALIGN == 0 && |args| <= n < |args| + GPU_ALIGN && Room(s, n))
  }

  /** What a launch reports, in every case. */
  lemma LaunchResult(s: Rt, q: Request, contexts: nat, models: Reaction)
    requires ValidRt(s) && Coherent(s) && Fitting(s, models)
    ensures Launch(s, q, contexts, models).1 ==
            if q.generation != s.generation || s.running || |q.args| >= WORD_SPAN || !DimensionsOk(q, contexts) then Err(InvalidArgument)
            else if !RoomForArgs(s, q.args) || models.NoCopies? then Err(OutOfMemory)
            else match models
                 case ReferenceStuck(_) => Err(Timeout)
                 case Refuses => Err(Backend)
                 case _ => Ok(())
  {
    hide Alloc, DimensionsOk, Release, Room, HeapOk;
    if RequestOk(s, q, contexts) && q.args != [] {
      ArgsFit(s, q.args);
    }
  }

  lemma ArgsFit(s: Rt, args: seq<byte>)
    requires ValidRt(s) && 1 <= |args| < WORD_SPAN
    ensures Alloc(s, |args|).1.Ok? <==> RoomForArgs(s, args)
    ensures Alloc(s, |args|).1.Err? ==> Alloc(s, |args|).1 == Err(OutOfMemory)
  {
    hide Room, HeapOk, Search, FirstHit, Overwrite;
    if |args| <= WORD_SPAN - GPU_ALIGN {
      AllocSucceedsIff(s, |args|);
      forall n: word | n % GPU_ALIGN == 0 && |args| <= n < |args| + GPU_ALIGN ensures n == Rounded(|args|).value {
        OneMultiple(|args|, n, Rounded(|args|).value);
      }
    }
  }

  lemma OneMultiple(k: nat, a: nat, b: nat)
    requires a % GPU_ALIGN == 0 && b % GPU_ALIGN == 0 && k <= a < k + GPU_ALIGN && k <= b < k + GPU_ALIGN
    ensures a == b
  {
  }

  lemma OnlyScratch(before: set<(word, word)>, t: Rt, n: word)
    requires ValidRt(t) && t.scratch.Some? && Live(t.slots) == before + {(t.scratch.value, n)} && At(before, t.scratch.value) == {}
    ensures Live(t.slots) - Scratch(t) == before && Scratch(t) == {(t.scratch.value, n)}
  {
    hide Live;
    forall x | x in before ensures x.0 != t.scratch.value {
      assert x !in At(before, t.scratch.value);
    }
  }

  /** Waiting on a running launch ends it and drops its scratch allocation, whatever the models
      report. */
  lemma WaitOutcome(s: Rt, after: Mem, outcome: Option<Error>)
    requires ValidRt(s) && |after| == |s.mem|
    ensures var (t, r) := Wait(s, after, outcome);
            && ValidRt(t) && (Coherent(s) ==> Coherent(t)) && (r.Ok? <==> s.running && outcome.None?)
            && (!s.running ==> t == s && r == Err(BadState))
            && (s.running ==> !t.running && t.scratch == None && t.mem == after && Live(t.slots) == Live(s.slots) - Scratch(s))
  {
    hide Release, HeapOk, Live;
    if s.running { ReleaseDrops(s.(mem := after, running := false)); }
  }

  /** One call keeps the books. */
  lemma PerformAccounted(w: World, c: Command, contexts: nat)
    requires Accounted(w) && Possible(w.rt, c) && Polite(w.rt, c)
    ensures Accounted(Perform(w, c, contexts))
  {
    hide Live, Alloc, Free, Write, Load, Launch, Wait, HeapOk, Rounded;
    var s := w.rt;
    match c
    case CAlloc(size) =>
      AllocKeeps(s, size);
      if Alloc(s, size).1.Ok? { AllocAccounted(w, size); }
    case CFree(address) =>
      FreeKeeps(s, address);
      FreeAccounted(w, address);
    case CWrite(address, data) => WriteValid(s, address, data);
    case CLoad(image) => LoadValid(s, image);
    case CLaunch(request, models) =>
      LaunchOutcome(s, request, contexts, models);
      LaunchAccounted(w, request, contexts, models);
    case CWait(after, outcome) =>
      WaitOutcome(s, after, outcome);
  }

  lemma AllocAccounted(w: World, size: nat)
    requires Accounted(w) && Alloc(w.rt, size).1.Ok?
    ensures Accounted(Perform(w, CAlloc(size), 0))
  {
    hide Live, Alloc, HeapOk, Rounded, Fits;
    var s := w.rt;
    AllocKeeps(s, size);
    SizeOk(s, size);
    var t, a, n := Alloc(s, size).0, Alloc(s, size).1.value, Rounded(size).value;
    FreshAddress(s, a, n);
    assert forall x | x in Scratch(s) :: x in Live(s.slots) && x.0 != a;
    assert Scratch(t) == Scratch(s);
  }

  lemma SizeOk(s: Rt, size: nat)
    requires ValidRt(s) && Alloc(s, size).1.Ok?
    ensures 1 <= size < WORD_SPAN
  {
  }

  lemma FreeAccounted(w: World, address: word)
    requires Accounted(w) && w.rt.scratch != Some(address)
    ensures Accounted(Perform(w, CFree(address), 0))
  {
    hide Live, Free, HeapOk;
    var s := w.rt;
    FreeKeeps(s, address);
    var t := Free(s, address).0;
    assert Scratch(t) == Scratch(s);
    if Free(s, address).1.Err? {
      assert Live(t.slots) == Live(s.slots);
    }
  }

  lemma LaunchAccounted(w: World, q: Request, contexts: nat, models: Reaction)
    requires Accounted(w) && Fitting(w.rt, models)
    ensures Accounted(Perform(w, CLaunch(q, models), contexts))
  {
    hide Live, HeapOk, Launch, Rounded;
    var s := w.rt;
    LaunchOutcome(s, q, contexts, models);
    var t, r := Launch(s, q, contexts, models).0, Launch(s, q, contexts, models).1;
    if r.Ok? {
      assert s.scratch == None;
      if q.args != [] { OnlyScratch(Live(s.slots), t, Rounded(|q.args|).value); }
    }
  }

  // ---- Whole sequences --------------------------------------------------------------------

  /** Every command of the sequence is possible and polite where it is issued. */
  predicate Allowed(w: World, commands: seq<Command>, contexts: nat)
    decreases |commands|
  {
    if commands == [] then ValidRt(w.rt)
    else
      && Possible(w.rt, commands[0]) && Polite(w.rt, commands[0])
      && Allowed(Perform(w, commands[0], contexts), commands[1..], contexts)
  }

  function PerformAll(w: World, commands: seq<Command>, contexts: nat): World
    requires Allowed(w, commands, contexts)
    decreases |commands|
  {
    if commands == [] then w else PerformAll(Perform(w, commands[0], contexts), commands[1..], contexts)
  }

  /** After any sequence of calls in which the host never frees the scratch address: live allocations
      are aligned, in the heap and disjoint, and they are exactly the host's own plus the scratch
      allocation of a running launch. */
  lemma {:induction false} SequencesAccounted(w: World, commands: seq<Command>, contexts: nat)
    requires Accounted(w) && Allowed(w, commands, contexts)
    ensures Accounted(PerformAll(w, commands, contexts))
    decreases |commands|
  {
    hide Accounted, Perform;
    if commands != [] {
      PerformAccounted(w, commands[0], contexts);
      SequencesAccounted(Perform(w, commands[0], contexts), commands[1..], contexts);
    }
  }

  /** Between launches nothing but the host's allocations is live: no launch leaves one behind. */
  lemma {:induction false} NothingLeftBehind(w: World, commands: seq<Command>, contexts: nat)
    requires Accounted(w) && Allowed(w, commands, contexts)
    ensures var u := PerformAll(w, commands, contexts); !u.rt.running ==> Live(u.rt.slots) == u.host
  {
    SequencesAccounted(w, commands, contexts);
  }

  /** A freshly opened device. */
  function Opened(mem: Mem): Rt { Rt(seq(MAX_ALLOCS, _ => Slot(0, 0, false)), false, None, 0, mem) }

  lemma OpenedAccounted(mem: Mem)
    requires Configured(mem)
    ensures Accounted(World(Opened(mem), {}))
  {
  }

  // ---- What happens otherwise -------------------------------------------------------------

  /** Waiting keeps all the host's allocations exactly when none of them sits at the scratch address. */
  lemma WaitKeepsHostIff(s: Rt, host: set<(word, word)>, after: Mem, outcome: Option<Error>)
    requires ValidRt(s) && s.running && s.scratch.Some? && host <= Live(s.slots) && |after| == |s.mem|
    ensures host <= Live(Wait(s, after, outcome).0.slots) <==> forall x | x in host :: x.0 != s.scratch.value
  {
    hide Live, HeapOk, Wait;
    WaitOutcome(s, after, outcome);
    forall x | x in host ensures x in Live(Wait(s, after, outcome).0.slots) <==> x.0 != s.scratch.value {
    }
  }

  lemma UsedIsLive(slots: seq<Slot>, i: nat)
    requires i < |slots|
    ensures slots[i].used ==> (slots[i].address, slots[i].size) in Live(slots)
  {
  }

  lemma EmptyHeapFirst(s: Rt, size: nat)
    requires ValidRt(s) && Live(s.slots) == {} && 1 <= size <= GPU_ALIGN && HEAP_BASE + GPU_ALIGN <= HeapEnd(s.mem)
    ensures Alloc(s, size).1 == Ok(HEAP_BASE)
  {
    forall i | 0 <= i < |s.slots| ensures !s.slots[i].used {
      UsedIsLive(s.slots, i);
    }
    assert !s.slots[0].used;
    AllocFirstFit(s, size);
    assert Rounded(size).value == GPU_ALIGN;
    assert Fits(HeapEnd(s.mem), s.slots, HEAP_BASE, GPU_ALIGN);
  }

  /** The restriction is needed: a host that frees the scratch address during a launch and allocates
      again gets that address, and waiting then frees the host's allocation. */
  lemma ImpoliteFreeLosesAllocation(mem: Mem, q: Request, contexts: nat)
    requires Configured(mem) && HEAP_BASE + GPU_ALIGN <= HeapEnd(mem)
    requires RequestOk(Opened(mem), q, contexts) && 1 <= |q.args| <= GPU_ALIGN
    ensures ValidRt(Opened(mem))
    ensures var t := Launch(Opened(mem), q, contexts, Starts).0;
            && ValidRt(t) && t.scratch == Some(HEAP_BASE)
            && var (u, freed) := Free(t, HEAP_BASE);
               && freed.Ok? && ValidRt(u)
               && var (v, again) := Alloc(u, 1);
                  && again == Ok(HEAP_BASE) && ValidRt(v) && At(Live(Wait(v, v.mem, None).0.slots), HEAP_BASE) == {}
  {
    hide Live, HeapOk, Alloc, Free, Rounded;
    OpenedAccounted(mem);
    var s := Opened(mem);
    EmptyHeapFirst(s, |q.args|);
    LaunchOutcome(s, q, contexts, Starts);
    var t := Launch(s, q, contexts, Starts).0;
    FreeKeeps(t, HEAP_BASE);
    var u := Free(t, HEAP_BASE).0;
    assert Live(s.slots) == {};
    assert Live(t.slots) == {(HEAP_BASE, Rounded(|q.args|).value)};
    assert (HEAP_BASE, Rounded(|q.args|).value) in At(Live(t.slots), HEAP_BASE);
    assert Live(u.slots) == {};
    EmptyHeapFirst(u, 1);
    AllocKeeps(u, 1);
    var v := Alloc(u, 1).0;
    WaitOutcome(v, v.mem, None);
    assert Scratch(v) == At(Live(v.slots), HEAP_BASE);
  }
}
