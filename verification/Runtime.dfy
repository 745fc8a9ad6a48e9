/** The runtime device (sw/runtime/gpu/gpu.c): a first-fit allocator in 32-bit arithmetic over 64
    slots, host transfers, and the launch/wait protocol that owns one scratch allocation. */
module Runtime {
  import opened Word
  import opened Memory
  import opened Arith
  import opened Kmu

  const GPU_ALIGN := 64
  const HEAP_BASE: word := 0x8200_0000
  const MAX_ALLOCS := 64

  datatype Error = InvalidArgument | OutOfMemory | BadState | Timeout | Backend

  datatype Result<+T> = Ok(value: T) | Err(error: Error)

  datatype Slot = Slot(address: word, size: word, used: bool)

  // ---- The heap ---------------------------------------------------------------------------

  /** `align_up`, in 32-bit arithmetic. */
  function AlignUp(value: word): word {
    var v := Add(value, GPU_ALIGN - 1);
    v - v % GPU_ALIGN
  }

  predicate SlotOk(end: int, s: Slot) {
    s.used ==>
      s.address % GPU_ALIGN == 0 && s.size % GPU_ALIGN == 0 && s.size > 0 && HEAP_BASE <= s.address && s.address + s.size <= end
  }

  predicate Meet(a: int, n: int, b: int, k: int) { a < b + k && b < a + n }

  predicate SlotsApart(s: Slot, t: Slot) { s.used && t.used ==> !Meet(s.address, s.size, t.address, t.size) }

  /** Live allocations are aligned, in the heap and disjoint. */
  predicate HeapOk(end: int, slots: seq<Slot>) {
    && (forall i | 0 <= i < |slots| :: SlotOk(end, slots[i]))
    && (forall i, k | 0 <= i < k < |slots| :: SlotsApart(slots[i], slots[k]))
  }

  /** The range [a, a + n) is aligned, in the heap and free. */
  predicate Fits(end: int, slots: seq<Slot>, a: int, n: int) {
    && a % GPU_ALIGN == 0 && HEAP_BASE <= a && a + n <= end
    && forall i | 0 <= i < |slots| && slots[i].used :: !Meet(a, n, slots[i].address, slots[i].size)
  }

  /** The collision test of the allocator; the sum with the requested size can wrap. */
  predicate Collides(s: Slot, candidate: word, n: word) {
    s.used && candidate < Add(s.address, s.size) && Add(candidate, n) > s.address
  }

  /** The first slot from i on that collides. */
  function FirstHit(slots: seq<Slot>, candidate: word, n: word, i: nat): (hit: Option<nat>)
    requires i <= |slots|
    ensures hit.Some? ==> i <= hit.value < |slots| && Collides(slots[hit.value], candidate, n)
    ensures hit.None? ==> forall k | i <= k < |slots| :: !Collides(slots[k], candidate, n)
    decreases |slots| - i
  {
    if i == |slots| then None
    else if Collides(slots[i], candidate, n) then Some(i) else FirstHit(slots, candidate, n, i + 1)
  }

  /** Skipping a colliding allocation moves the candidate to its end, strictly upwards. */
  lemma SkipMoves(end: word, s: Slot, candidate: word, n: word)
    requires SlotOk(end, s) && Collides(s, candidate, n)
    ensures AlignUp(Add(s.address, s.size)) == s.address + s.size
    ensures candidate < s.address + s.size <= end
  {
  }

  /** Where the search for n bytes ends up. */
  function Search(end: word, slots: seq<Slot>, candidate: word, n: word): (r: word)
    requires HeapOk(end, slots)
    decreases end - candidate
  {
    if candidate >= end then candidate
    else
      match FirstHit(slots, candidate, n, 0)
      case None => candidate
      case Some(i) =>
        SkipMoves(end, slots[i], candidate, n);
        Search(end, slots, AlignUp(Add(slots[i].address, slots[i].size)), n)
  }

  /** No address below `candidate` has room. */
  predicate NothingBelow(end: int, slots: seq<Slot>, n: int, candidate: int) {
    forall a | HEAP_BASE <= a < candidate :: !Fits(end, slots, a, n)
  }

  lemma SkipLosesNothing(end: word, slots: seq<Slot>, i: nat, candidate: word, n: word)
    requires HeapOk(end, slots) && i < |slots| && Collides(slots[i], candidate, n) && n > 0
    requires NothingBelow(end, slots, n, candidate)
    ensures NothingBelow(end, slots, n, slots[i].address + slots[i].size)
  {
    var s := slots[i];
    forall a | HEAP_BASE <= a < s.address + s.size ensures !Fits(end, slots, a, n) {
      if a >= candidate && candidate + n < WORD_SPAN {
        assert Meet(a, n, s.address, s.size);
      }
    }
  }

  /** The search ends at the lowest aligned free range, or at a place where nothing higher fits. */
  lemma {:induction false} SearchLowest(end: word, slots: seq<Slot>, candidate: word, n: word)
    requires HeapOk(end, slots) && n > 0 && candidate % GPU_ALIGN == 0 && HEAP_BASE <= candidate
    requires NothingBelow(end, slots, n, candidate)
    ensures var r := Search(end, slots, candidate, n);
            && NothingBelow(end, slots, n, r) && HEAP_BASE <= r
            && (if r < end && n <= end - r then Fits(end, slots, r, n) else forall a :: !Fits(end, slots, a, n))
    decreases end - candidate
  {
    if candidate < end {
      match FirstHit(slots, candidate, n, 0)
      case None =>
      case Some(i) =>
        SkipMoves(end, slots[i], candidate, n);
        SkipLosesNothing(end, slots, i, candidate, n);
        SearchLowest(end, slots, AlignUp(Add(slots[i].address, slots[i].size)), n);
    }
  }

  function FirstFree(slots: seq<Slot>, i: nat): (r: Option<nat>)
    requires i <= |slots|
    ensures r.Some? ==> i <= r.value < |slots| && !slots[r.value].used && forall k | i <= k < r.value :: slots[k].used
    ensures r.None? ==> forall k | i <= k < |slots| :: slots[k].used
    decreases |slots| - i
  {
    if i == |slots| then None else if !slots[i].used then Some(i) else FirstFree(slots, i + 1)
  }

  // ---- Device states ----------------------------------------------------------------------

  /** `scratch` is the argument allocation of the launch in flight. */
  datatype Rt = Rt(slots: seq<Slot>, running: bool, scratch: Option<word>, generation: word, mem: Mem)

  function HeapEnd(mem: Mem): int { MBASE + |mem| }

  /** The configured memory holds kernel text and ends below the top of the address space. */
  predicate Configured(mem: Mem) { KERNEL_END <= HeapEnd(mem) < WORD_SPAN }

  predicate ValidRt(s: Rt) {
    Configured(s.mem) && |s.slots| == MAX_ALLOCS && HeapOk(HeapEnd(s.mem), s.slots)
  }

  /** Only a launch in flight owns a scratch allocation. */
  predicate Coherent(s: Rt) { s.scratch.Some? ==> s.running }

  function Overwrite(m: Mem, a: int, data: seq<byte>): (r: Mem)
    requires MBASE <= a && a + |data| <= HeapEnd(m)
    ensures |r| == |m|
    ensures forall b :: Peek(r, b) == if a <= b < a + |data| then data[b - a] else Peek(m, b)
  {
    m[..a - MBASE] + data + m[a - MBASE + |data|..]
  }

  /** Rounded size of a request, None when rounding overflows 32 bits. */
  function Rounded(size: nat): (r: Option<word>)
    requires 1 <= size < WORD_SPAN
    ensures r.Some? ==> r.value >= size && r.value % GPU_ALIGN == 0 && r.value - size < GPU_ALIGN
    ensures r.None? <==> size > WORD_SPAN - GPU_ALIGN
  {
    if AlignUp(size) < size then None else Some(AlignUp(size))
  }

  function AllocAddress(s: Rt, n: word): (r: Option<word>)
    requires ValidRt(s)
  {
    var end: word := HeapEnd(s.mem);
    var c := Search(end, s.slots, HEAP_BASE, n);
    if c >= end || n > end - c then None else Some(c)
  }

  /** `gpu_mem_alloc`. */
  function Alloc(s: Rt, size: nat): (r: (Rt, Result<word>))
    requires ValidRt(s)
  {
    if size == 0 || size >= WORD_SPAN then (s, Err(InvalidArgument))
    else
      match Rounded(size)
      case None => (s, Err(OutOfMemory))
      case Some(n) =>
        if FirstFree(s.slots, 0).None? then (s, Err(OutOfMemory))
        else
          match AllocAddress(s, n)
          case None => (s, Err(OutOfMemory))
          case Some(a) =>
            HeapSearch(s, n);
            (s.(slots := s.slots[FirstFree(s.slots, 0).value := Slot(a, n, true)],
                mem := Overwrite(s.mem, a, Zeros(n))), Ok(a))
  }

  lemma HeapSearch(s: Rt, n: word)
    requires ValidRt(s) && n > 0
    ensures AllocAddress(s, n).Some? ==> Fits(HeapEnd(s.mem), s.slots, AllocAddress(s, n).value, n)
    ensures AllocAddress(s, n).Some? ==> NothingBelow(HeapEnd(s.mem), s.slots, n, AllocAddress(s, n).value)
    ensures AllocAddress(s, n).None? ==> forall a :: !Fits(HeapEnd(s.mem), s.slots, a, n)
  {
    SearchLowest(HeapEnd(s.mem), s.slots, HEAP_BASE, n);
  }

  function FindUsed(slots: seq<Slot>, address: word, i: nat): (r: Option<nat>)
    requires i <= |slots|
    ensures r.Some? ==> i <= r.value < |slots| && slots[r.value].used && slots[r.value].address == address
    ensures r.None? ==> forall k | i <= k < |slots| :: !(slots[k].used && slots[k].address == address)
    decreases |slots| - i
  {
    if i == |slots| then None
    else if slots[i].used && slots[i].address == address then Some(i) else FindUsed(slots, address, i + 1)
  }

  /** `gpu_mem_free`. */
  function Free(s: Rt, address: word): (r: (Rt, Result<()>))
    requires ValidRt(s)
  {
    match FindUsed(s.slots, address, 0)
    case None => (s, Err(InvalidArgument))
    case Some(i) => (s.(slots := s.slots[i := s.slots[i].(used := false)]), Ok(()))
  }

  /** `range_inside` against the heap. */
  predicate InHeap(end: int, address: word, size: nat) {
    size != 0 && address >= HEAP_BASE && address < end && size < WORD_SPAN && size <= end - address
  }

  /** The slot test of `allocation_contains`. */
  predicate Holds(slot: Slot, address: word, size: nat) {
    slot.used && address >= slot.address && size <= slot.size && address - slot.address <= slot.size - size
  }

  predicate Contains(s: Rt, address: word, size: nat) {
    InHeap(HeapEnd(s.mem), address, size) && exists i | 0 <= i < |s.slots| :: Holds(s.slots[i], address, size)
  }

  /** `gpu_mem_write`. */
  function Write(s: Rt, address: word, data: seq<byte>): (r: (Rt, Result<()>))
    requires ValidRt(s)
  {
    if !Contains(s, address, |data|) then (s, Err(InvalidArgument))
    else (s.(mem := Overwrite(s.mem, address, data)), Ok(()))
  }

  /** `gpu_mem_read`. */
  function Read(s: Rt, address: word, size: nat): (r: Result<seq<byte>>)
    requires ValidRt(s)
  {
    if !Contains(s, address, size) then Err(InvalidArgument)
    else Ok(s.mem[address - MBASE..address - MBASE + size])
  }

  /** `gpu_kernel_load_memory`: the image replaces the kernel text, older handles become stale. */
  function Load(s: Rt, image: seq<byte>): (r: (Rt, Result<word>))
    requires ValidRt(s)
  {
    if image == [] || |image| > KERNEL_END - KERNEL_BASE then (s, Err(InvalidArgument))
    else
      (s.(mem := Overwrite(Overwrite(s.mem, KERNEL_BASE, Zeros(KERNEL_END - KERNEL_BASE)), KERNEL_BASE, image),
          generation := Add(s.generation, 1)), Ok(Add(s.generation, 1)))
  }

  // ---- Launch and wait --------------------------------------------------------------------

  /** `mul_u32`. */
  function MulU32(a: nat, b: nat): Option<word> {
    if a * b >= WORD_SPAN then None else Some(a * b)
  }

  datatype Request = Request(generation: word, grid: Dim3, dim: Dim3, args: seq<byte>)

  /** The chain of overflow checks over the dimensions. */
  predicate DimensionsOk(q: Request, contexts: nat) {
    && q.grid.x != 0 && q.grid.y != 0 && q.grid.z != 0 && q.dim.x != 0 && q.dim.y != 0 && q.dim.z != 0
    && MulU32(q.dim.x, q.dim.y).Some? && MulU32(MulU32(q.dim.x, q.dim.y).value, q.dim.z).Some?
    && MulU32(MulU32(q.dim.x, q.dim.y).value, q.dim.z).value <= contexts
    && MulU32(q.grid.x, q.grid.y).Some? && MulU32(MulU32(q.grid.x, q.grid.y).value, q.grid.z).Some?
    && MulU32(MulU32(MulU32(q.grid.x, q.grid.y).value, q.grid.z).value, MulU32(MulU32(q.dim.x, q.dim.y).value, q.dim.z).value).Some?
  }

  predicate RequestOk(s: Rt, q: Request, contexts: nat) {
    q.generation == s.generation && !s.running && |q.args| < WORD_SPAN && DimensionsOk(q, contexts)
  }

  /** `release_launch_args`. */
  function Release(s: Rt): (r: Rt)
    requires ValidRt(s)
  {
    match s.scratch
    case None => s
    case Some(a) => Free(s, a).0.(scratch := None)
  }

  /** The launch arguments get an allocation of their own. */
  function Stage(s: Rt, args: seq<byte>): (r: (Rt, Result<()>))
    requires ValidRt(s)
    ensures ValidRt(r.0) && |r.0.mem| == |s.mem|
  {
    var t := s.(scratch := None);
    if args == [] then (t, Ok(()))
    else
      AllocKeeps(t, |args|);
      match Alloc(t, |args|)
      case (_, Err(e)) => (t, Err(e))
      case (u, Ok(a)) => (u.(scratch := Some(a), mem := Overwrite(u.mem, a, args)), Ok(()))
  }

  /** How the models behind the device take a launch: they start; there is no memory for the copies of
      PMEM; the reference run, which works on PMEM itself, is not done in time and has left `left`
      there; or the execution model refuses, after any reference run has been undone. */
  datatype Reaction = Starts | NoCopies | ReferenceStuck(left: Mem) | Refuses

  predicate Fitting(s: Rt, models: Reaction) { models.ReferenceStuck? ==> |models.left| == |s.mem| }

  /** `gpu_launch`. */
  function Launch(s: Rt, q: Request, contexts: nat, models: Reaction): (r: (Rt, Result<()>))
    requires ValidRt(s) && Fitting(s, models)
  {
    if !RequestOk(s, q, contexts) then (s, Err(InvalidArgument))
    else
      match Stage(s, q.args)
      case (t, Err(e)) => (t, Err(e))
      case (t, Ok(_)) =>
        match models
        case Starts => (t.(running := true), Ok(()))
        case NoCopies => (Release(t), Err(OutOfMemory))
        case ReferenceStuck(left) => (Release(t.(mem := left)), Err(Timeout))
        case Refuses => (Release(t), Err(Backend))
  }

  /** `gpu_wait`: the kernel has left `after` in memory and the models report `outcome`. */
  function Wait(s: Rt, after: Mem, outcome: Option<Error>): (r: (Rt, Result<()>))
    requires ValidRt(s) && |after| == |s.mem|
  {
    if !s.running then (s, Err(BadState))
    else (Release(s.(mem := after, running := false)), match outcome case None => Ok(()) case Some(e) => Err(e))
  }

  // ---- What the allocator promises --------------------------------------------------------

  /** The live allocations. */
  function Live(slots: seq<Slot>): set<(word, word)> {
    set i | 0 <= i < |slots| && slots[i].used :: (slots[i].address, slots[i].size)
  }

  ghost predicate Room(s: Rt, n: int) { exists a :: Fits(HeapEnd(s.mem), s.slots, a, n) }

  /** Live allocations stay aligned, in the heap and disjoint. */
  lemma AllocKeeps(s: Rt, size: nat)
    requires ValidRt(s)
    ensures ValidRt(Alloc(s, size).0)
    ensures match Alloc(s, size)
            case (t, Ok(a)) => Rounded(size).Some? && Live(t.slots) == Live(s.slots) + {(a, Rounded(size).value)}
                               && Fits(HeapEnd(s.mem), s.slots, a, Rounded(size).value)
                               && t == s.(slots := t.slots, mem := t.mem) && |t.mem| == |s.mem|
                               && (forall b :: Peek(t.mem, b) == if a <= b < a + Rounded(size).value then 0 else Peek(s.mem, b))
            case (t, Err(_)) => t == s
  {
    hide Search, FirstHit, Collides;
    if Alloc(s, size).1.Ok? {
      var n, a, f := Rounded(size).value, Alloc(s, size).1.value, FirstFree(s.slots, 0).value;
      HeapSearch(s, n);
      TakeSlot(HeapEnd(s.mem), s.slots, f, a, n);
    }
  }

  lemma TakeSlot(end: int, slots: seq<Slot>, f: nat, a: word, n: word)
    requires HeapOk(end, slots) && f < |slots| && !slots[f].used && Fits(end, slots, a, n) && n > 0 && n % GPU_ALIGN == 0
    ensures HeapOk(end, slots[f := Slot(a, n, true)])
    ensures Live(slots[f := Slot(a, n, true)]) == Live(slots) + {(a, n)}
  {
    var after := slots[f := Slot(a, n, true)];
    forall i, k | 0 <= i < k < |slots| ensures SlotsApart(after[i], after[k]) {
      assert SlotsApart(slots[i], slots[k]);
    }
    forall x ensures x in Live(after) <==> x in Live(slots) + {(a, n)} {
      if x in Live(slots) {
        var i :| 0 <= i < |slots| && slots[i].used && x == (slots[i].address, slots[i].size);
        assert after[i] == slots[i];
      }
      if x == (a, n) { assert after[f].used; }
      if x in Live(after) {
        var i :| 0 <= i < |after| && after[i].used && x == (after[i].address, after[i].size);
        if i != f { assert after[i] == slots[i]; }
      }
    }
  }

  /** With a slot free, a request for 1 to 2^32 - 64 bytes succeeds exactly when some aligned range of
      the rounded size is free in the heap, and then it gets the lowest such address. */
  lemma AllocFirstFit(s: Rt, size: nat)
    requires ValidRt(s) && 1 <= size <= WORD_SPAN - GPU_ALIGN && (exists i :: 0 <= i < MAX_ALLOCS && !s.slots[i].used)
    ensures Rounded(size).Some?
    ensures var n := Rounded(size).value;
            match Alloc(s, size).1
            case Ok(a) => Fits(HeapEnd(s.mem), s.slots, a, n)
                          && forall b :: Fits(HeapEnd(s.mem), s.slots, b, n) ==> a <= b
            case Err(e) => e == OutOfMemory && !Room(s, n)
  {
    hide Search, FirstHit, Collides, HeapOk, Overwrite;
    HeapSearch(s, Rounded(size).value);
  }

  /** Larger requests have no room either: rounding overflows only when no heap could hold the bytes. */
  lemma TooLargeHasNoRoom(s: Rt, size: nat)
    requires ValidRt(s) && WORD_SPAN - GPU_ALIGN < size < WORD_SPAN
    ensures Alloc(s, size).1 == Err(OutOfMemory) && !Room(s, size)
  {
  }

  /** Without a free slot the allocator refuses even when there is room: the iff of its success. */
  lemma AllocSucceedsIff(s: Rt, size: nat)
    requires ValidRt(s) && 1 <= size <= WORD_SPAN - GPU_ALIGN
    ensures Rounded(size).Some?
    ensures Alloc(s, size).1.Ok? <==>
              (exists i :: 0 <= i < MAX_ALLOCS && !s.slots[i].used) && Room(s, Rounded(size).value)
  {
    hide Search, FirstHit, Collides, HeapOk, Overwrite;
    HeapSearch(s, Rounded(size).value);
    if (exists i :: 0 <= i < MAX_ALLOCS && !s.slots[i].used) { AllocFirstFit(s, size); }
  }

  function At(live: set<(word, word)>, address: word): set<(word, word)> { set x | x in live && x.0 == address }

  lemma AnyApart(end: int, slots: seq<Slot>, i: nat, k: nat)
    requires HeapOk(end, slots) && i < |slots| && k < |slots|
    ensures i != k ==> SlotsApart(slots[i], slots[k])
  {
  }

  lemma DropSlot(end: int, slots: seq<Slot>, f: nat)
    requires HeapOk(end, slots) && f < |slots| && slots[f].used
    ensures HeapOk(end, slots[f := slots[f].(used := false)])
    ensures Live(slots[f := slots[f].(used := false)]) == Live(slots) - At(Live(slots), slots[f].address)
    ensures At(Live(slots), slots[f].address) == {(slots[f].address, slots[f].size)}
  {
    var after := slots[f := slots[f].(used := false)];
    forall i, k | 0 <= i < k < |slots| ensures SlotsApart(after[i], after[k]) {
      assert SlotsApart(slots[i], slots[k]);
    }
    forall i | 0 <= i < |slots| && i != f && slots[i].used ensures slots[i].address != slots[f].address {
      AnyApart(end, slots, i, f);
      assert SlotOk(end, slots[i]) && SlotOk(end, slots[f]);
    }
    forall x ensures x in At(Live(slots), slots[f].address) <==> x == (slots[f].address, slots[f].size) {
      if x in At(Live(slots), slots[f].address) {
        var i :| 0 <= i < |slots| && slots[i].used && x == (slots[i].address, slots[i].size);
      }
      if x == (slots[f].address, slots[f].size) { assert slots[f].used; }
    }
    forall x ensures x in Live(after) <==> x in Live(slots) && x.0 != slots[f].address {
      if x in Live(slots) && x.0 != slots[f].address {
        var i :| 0 <= i < |slots| && slots[i].used && x == (slots[i].address, slots[i].size);
        assert after[i] == slots[i];
      }
      if x in Live(after) {
        var i :| 0 <= i < |after| && after[i].used && x == (after[i].address, after[i].size);
        assert after[i] == slots[i];
      }
    }
  }

  /** Freeing succeeds exactly for the address of a live allocation and takes away just that one. */
  lemma FreeKeeps(s: Rt, address: word)
    requires ValidRt(s)
    ensures var t := Free(s, address).0;
            && ValidRt(t) && t == s.(slots := t.slots)
            && Live(t.slots) == Live(s.slots) - At(Live(s.slots), address)
    ensures Free(s, address).1.Ok? <==> At(Live(s.slots), address) != {}
    ensures |At(Live(s.slots), address)| <= 1
  {
    match FindUsed(s.slots, address, 0)
    case None => assert At(Live(s.slots), address) == {};
    case Some(i) => DropSlot(HeapEnd(s.mem), s.slots, i);
  }

  /** A transfer is admitted exactly when its bytes lie inside one live allocation. */
  lemma ContainsIff(s: Rt, address: word, size: nat)
    requires ValidRt(s)
    ensures Contains(s, address, size) <==>
              size >= 1 && exists x :: x in Live(s.slots) && x.0 <= address && address + size <= x.0 + x.1
  {
    if size >= 1 && (exists x :: x in Live(s.slots) && x.0 <= address && address + size <= x.0 + x.1) {
      var x :| x in Live(s.slots) && x.0 <= address && address + size <= x.0 + x.1;
      var i :| 0 <= i < |s.slots| && s.slots[i].used && x == (s.slots[i].address, s.slots[i].size);
      assert SlotOk(HeapEnd(s.mem), s.slots[i]);
      assert Holds(s.slots[i], address, size);
    }
    if Contains(s, address, size) {
      var i :| 0 <= i < |s.slots| && Holds(s.slots[i], address, size);
      assert (s.slots[i].address, s.slots[i].size) in Live(s.slots);
    }
  }

  predicate Inside1(x: (word, word), b: int) { x.0 <= b < x.0 + x.1 }

  lemma LiveApart(s: Rt, x: (word, word), y: (word, word), b: int)
    requires ValidRt(s) && x in Live(s.slots) && y in Live(s.slots) && Inside1(x, b) && Inside1(y, b)
    ensures x == y
  {
    var i :| 0 <= i < |s.slots| && s.slots[i].used && x == (s.slots[i].address, s.slots[i].size);
    var k :| 0 <= k < |s.slots| && s.slots[k].used && y == (s.slots[k].address, s.slots[k].size);
    AnyApart(HeapEnd(s.mem), s.slots, i, k);
  }

  lemma LiveInHeap(s: Rt, x: (word, word))
    requires ValidRt(s) && x in Live(s.slots)
    ensures HEAP_BASE <= x.0 && x.1 >= GPU_ALIGN && x.0 + x.1 <= HeapEnd(s.mem) && x.0 % GPU_ALIGN == 0
  {
    var i :| 0 <= i < |s.slots| && s.slots[i].used && x == (s.slots[i].address, s.slots[i].size);
    assert SlotOk(HeapEnd(s.mem), s.slots[i]);
  }

  /** An admitted write puts the bytes in place and changes no byte of another allocation. */
  lemma WriteKeepsOthers(s: Rt, address: word, data: seq<byte>, x: (word, word), b: int)
    requires ValidRt(s) && Write(s, address, data).1.Ok? && x in Live(s.slots) && Inside1(x, b)
    ensures var t := Write(s, address, data).0;
            ValidRt(t) && t == s.(mem := t.mem)
            && Peek(t.mem, b) == (if address <= b < address + |data| then data[b - address] else Peek(s.mem, b))
            && (!(x.0 <= address && address + |data| <= x.0 + x.1) ==> Peek(t.mem, b) == Peek(s.mem, b))
  {
    ContainsIff(s, address, |data|);
    var y :| y in Live(s.slots) && y.0 <= address && address + |data| <= y.0 + y.1;
    if address <= b < address + |data| { LiveApart(s, x, y, b); }
  }

  /** What was written is read back. */
  lemma WriteThenRead(s: Rt, address: word, data: seq<byte>)
    requires ValidRt(s) && Write(s, address, data).1.Ok?
    ensures ValidRt(Write(s, address, data).0) && Read(Write(s, address, data).0, address, |data|) == Ok(data)
  {
    var t := Write(s, address, data).0;
    assert Contains(t, address, |data|);
    forall k | 0 <= k < |data| ensures t.mem[address - MBASE + k] == data[k] {
      assert Peek(t.mem, address + k) == data[k];
    }
  }

  /** Freeing a fresh allocation restores the live allocations. */
  lemma AllocThenFree(s: Rt, size: nat)
    requires ValidRt(s) && Alloc(s, size).1.Ok?
    ensures var (t, r) := Alloc(s, size); ValidRt(t) && Free(t, r.value).1.Ok? && Live(Free(t, r.value).0.slots) == Live(s.slots)
  {
    AllocKeeps(s, size);
    var t, a, n := Alloc(s, size).0, Alloc(s, size).1.value, Rounded(size).value;
    FreeKeeps(t, a);
    FreshAddress(s, a, n);
    assert (a, n) in At(Live(t.slots), a);
    assert Live(s.slots) == Live(t.slots) - At(Live(t.slots), a) by {
      forall x ensures x in Live(s.slots) <==> x in Live(t.slots) - At(Live(t.slots), a) {
        if x in Live(s.slots) { assert x.0 != a; }
      }
    }
  }

  lemma FreshAddress(s: Rt, a: int, n: int)
    requires ValidRt(s) && Fits(HeapEnd(s.mem), s.slots, a, n) && n > 0
    ensures forall x | x in Live(s.slots) :: x.0 != a && (forall b | a <= b < a + n :: !Inside1(x, b))
  {
    forall x | x in Live(s.slots) ensures x.0 != a && (forall b | a <= b < a + n :: !Inside1(x, b)) {
      var i :| 0 <= i < |s.slots| && s.slots[i].used && x == (s.slots[i].address, s.slots[i].size);
      assert !Meet(a, n, s.slots[i].address, s.slots[i].size);
      assert SlotOk(HeapEnd(s.mem), s.slots[i]);
    }
  }

  // ---- Launch requests --------------------------------------------------------------------

  lemma FactorBelow(x: nat, y: nat)
    requires y >= 1
    ensures x <= x * y
  {
    Grows(x, y);
  }

  lemma ChainExact(d: Dim3)
    requires NonEmpty(d)
    ensures MulU32(d.x, d.y).Some? && MulU32(MulU32(d.x, d.y).value, d.z).Some? <==> Blocks(d) < WORD_SPAN
    ensures Blocks(d) < WORD_SPAN ==> MulU32(MulU32(d.x, d.y).value, d.z).value == Blocks(d)
    ensures Blocks(d) >= 1
  {
    FactorBelow(d.x * d.y, d.z);
  }

  /** The chain of 32-bit checks accepts exactly the launches whose block fits the machine and whose
      threads can be numbered in 32 bits. */
  lemma DimensionsExact(q: Request, contexts: nat)
    requires contexts < WORD_SPAN
    ensures DimensionsOk(q, contexts) <==>
              NonEmpty(q.grid) && NonEmpty(q.dim) && Blocks(q.dim) <= contexts && Blocks(q.grid) * Blocks(q.dim) < WORD_SPAN
  {
    hide Blocks;
    if NonEmpty(q.grid) && NonEmpty(q.dim) {
      ChainExact(q.dim);
      ChainExact(q.grid);
      FactorBelow(Blocks(q.grid), Blocks(q.dim));
    }
  }
}
