/** The runtime device as the mutable object it is: the slot table, the memory buffer and the launch
    fields are updated in place. */
module RuntimeDevice {
  import opened Word
  import opened Memory
  import opened Kmu
  import opened Runtime

  /** `raw_write`. */
  method RawWrite(pmem: array<byte>, address: word, data: seq<byte>)
    requires MBASE + pmem.Length <= WORD_SPAN && MBASE <= address && address + |data| <= MBASE + pmem.Length
    modifies pmem
    ensures pmem[..] == Overwrite(old(pmem[..]), address, data)
  {
    var at := address - MBASE;
    for k := 0 to |data|
      invariant forall i | 0 <= i < pmem.Length :: pmem[i] == if at <= i < at + k then data[i - at] else old(pmem[i])
    {
      pmem[at + k] := data[k];
    }
    assert pmem[..] == Overwrite(old(pmem[..]), address, data);
  }

  class GpuDevice {
    const allocations: array<Slot>
    const pmem: array<byte>
    const contexts: nat
    var running: bool
    var generation: word
    var launchArgs: word
    var launchArgsUsed: bool

    ghost predicate Valid()
      reads this, allocations, pmem
    {
      MBASE + pmem.Length <= WORD_SPAN && ValidRt(State())
    }

    ghost function State(): Rt
      requires MBASE + pmem.Length <= WORD_SPAN
      reads this, allocations, pmem
    {
      Rt(allocations[..], running, if launchArgsUsed then Some(launchArgs) else None, generation, pmem[..])
    }

    /** `gpu_device_open`. */
    constructor (memory: array<byte>, harts: nat)
      requires MBASE + memory.Length <= WORD_SPAN && Configured(memory[..])
      ensures Valid() && fresh(allocations) && pmem == memory && contexts == harts
      ensures Live(State().slots) == {} && !running && !launchArgsUsed && pmem[..] == old(memory[..])
    {
      allocations := new Slot[MAX_ALLOCS](_ => Slot(0, 0, false));
      pmem, contexts := memory, harts;
      running, generation, launchArgs, launchArgsUsed := false, 0, 0, false;
    }

    method FreeSlot() returns (slot: nat)
      requires Valid()
      ensures slot <= MAX_ALLOCS
      ensures FirstFree(allocations[..], 0) == if slot < MAX_ALLOCS then Some(slot) else None
    {
      slot := 0;
      while slot < MAX_ALLOCS && allocations[slot].used
        invariant slot <= MAX_ALLOCS && FirstFree(allocations[..], slot) == FirstFree(allocations[..], 0)
      {
        slot := slot + 1;
      }
    }

    /** The scan for a live allocation in the way of the candidate. */
    method Obstacle(candidate: word, n: word) returns (moved: bool, i: nat)
      requires Valid()
      ensures FirstHit(allocations[..], candidate, n, 0) == if moved then Some(i) else None
    {
      hide Collides, HeapOk;
      i := 0;
      while i < MAX_ALLOCS
        invariant i <= MAX_ALLOCS && FirstHit(allocations[..], candidate, n, i) == FirstHit(allocations[..], candidate, n, 0)
      {
        if Collides(allocations[i], candidate, n) { return true, i; }
        i := i + 1;
      }
      moved := false;
    }

    /** The candidate loop of the allocator. */
    method FindRoom(n: word) returns (candidate: word)
      requires Valid()
      ensures candidate == Search(HeapEnd(pmem[..]), allocations[..], HEAP_BASE, n)
    {
      hide HeapOk, FirstHit;
      ghost var slots := allocations[..];
      var end: word := MBASE + pmem.Length;
      candidate := HEAP_BASE;
      while candidate < end
        invariant Search(end, slots, candidate, n) == Search(end, slots, HEAP_BASE, n)
        decreases end - candidate
      {
        var moved, i := Obstacle(candidate, n);
        if !moved { break; }
        InHeapSlot(end, slots, i);
        SkipMoves(end, slots[i], candidate, n);
        candidate := AlignUp(Add(allocations[i].address, allocations[i].size));
      }
    }

    lemma InHeapSlot(end: int, slots: seq<Slot>, i: nat)
      requires HeapOk(end, slots) && i < |slots|
      ensures SlotOk(end, slots[i])
    {
    }

    /** `gpu_mem_alloc`. */
    method MemAlloc(size: nat) returns (result: Result<word>)
      requires Valid()
      modifies allocations, pmem
      ensures Valid() && (State(), result) == Alloc(old(State()), size)
    {
      hide HeapOk, Search, FirstFree, AlignUp;
      AllocKeeps(State(), size);
      if size == 0 || size >= WORD_SPAN { return Err(InvalidArgument); }
      var n := AlignUp(size);
      if n < size { return Err(OutOfMemory); }
      var slot := FreeSlot();
      if slot == MAX_ALLOCS { return Err(OutOfMemory); }
      var candidate := FindRoom(n);
      var end: word := MBASE + pmem.Length;
      if candidate >= end || n > end - candidate { return Err(OutOfMemory); }
      HeapSearch(State(), n);
      allocations[slot] := Slot(candidate, n, true);
      RawWrite(pmem, candidate, Zeros(n));
      return Ok(candidate);
    }

    /** `gpu_mem_free`. */
    method MemFree(address: word) returns (result: Result<()>)
      requires Valid()
      modifies allocations
      ensures Valid() && (State(), result) == Free(old(State()), address)
    {
      hide HeapOk;
      FreeKeeps(State(), address);
      ghost var slots := allocations[..];
      for i := 0 to MAX_ALLOCS
        invariant allocations[..] == slots && FindUsed(slots, address, i) == FindUsed(slots, address, 0)
      {
        if allocations[i].used && allocations[i].address == address {
          allocations[i] := allocations[i].(used := false);
          return Ok(());
        }
      }
      return Err(InvalidArgument);
    }

    /** `allocation_contains`. */
    method AllocationContains(address: word, size: nat) returns (inside: bool)
      requires Valid()
      ensures inside == Contains(State(), address, size)
    {
      hide HeapOk;
      if !InHeap(MBASE + pmem.Length, address, size) { return false; }
      for i := 0 to MAX_ALLOCS
        invariant forall k | 0 <= k < i :: !Holds(allocations[k], address, size)
      {
        if Holds(allocations[i], address, size) { return true; }
      }
      return false;
    }

    /** `gpu_mem_write`. */
    method MemWrite(address: word, data: seq<byte>) returns (result: Result<()>)
      requires Valid()
      modifies pmem
      ensures Valid() && (State(), result) == Write(old(State()), address, data)
    {
      hide HeapOk;
      var inside := AllocationContains(address, |data|);
      if !inside { return Err(InvalidArgument); }
      RawWrite(pmem, address, data);
      return Ok(());
    }

    /** `gpu_mem_read`. */
    method MemRead(address: word, size: nat) returns (result: Result<seq<byte>>)
      requires Valid()
      ensures result == Read(State(), address, size)
    {
      hide HeapOk;
      var inside := AllocationContains(address, size);
      if !inside { return Err(InvalidArgument); }
      return Ok(pmem[address - MBASE..address - MBASE + size]);
    }

    /** `gpu_kernel_load_memory`. */
    method KernelLoad(image: seq<byte>) returns (result: Result<word>)
      requires Valid()
      modifies this`generation, pmem
      ensures Valid() && (State(), result) == Load(old(State()), image)
    {
      hide HeapOk;
      if image == [] || |image| > KERNEL_END - KERNEL_BASE { return Err(InvalidArgument); }
      RawWrite(pmem, KERNEL_BASE, Zeros(KERNEL_END - KERNEL_BASE));
      RawWrite(pmem, KERNEL_BASE, image);
      generation := Add(generation, 1);
      return Ok(generation);
    }

    /** `release_launch_args`. */
    method ReleaseLaunchArgs()
      requires Valid()
      modifies this`launchArgs, this`launchArgsUsed, allocations
      ensures Valid() && State() == Release(old(State()))
    {
      hide HeapOk;
      if launchArgsUsed {
        FreeKeeps(State(), launchArgs);
        var freed := MemFree(launchArgs);
        launchArgs, launchArgsUsed := 0, false;
      }
    }

    /** The launch arguments get an allocation of their own. */
    method StageArgs(args: seq<byte>) returns (result: Result<()>)
      requires Valid() && |args| < WORD_SPAN
      modifies this`launchArgs, this`launchArgsUsed, allocations, pmem
      ensures Valid() && (State(), result) == Stage(old(State()), args)
    {
      hide HeapOk, Alloc, Free;
      launchArgs, launchArgsUsed := 0, false;
      if args != [] {
        ghost var t := State();
        AllocKeeps(t, |args|);
        var granted := MemAlloc(|args|);
        if granted.Err? { return Err(granted.error); }
        launchArgs, launchArgsUsed := granted.value, true;
        RawWrite(pmem, launchArgs, args);
      }
      return Ok(());
    }

    /** `gpu_launch`; `models` tells how the models behind the device take it. */
    method StartLaunch(q: Request, models: Reaction) returns (result: Result<()>)
      requires Valid() && Fitting(State(), models)
      modifies this`running, this`launchArgs, this`launchArgsUsed, allocations, pmem
      ensures Valid() && (State(), result) == Launch(old(State()), q, contexts, models)
    {
      hide HeapOk, DimensionsOk, Alloc, Free, Stage, Release;
      if q.generation != generation || running || |q.args| >= WORD_SPAN || !DimensionsOk(q, contexts) {
        return Err(InvalidArgument);
      }
      result := StageArgs(q.args);
      if result.Err? { return; }
      match models
      case Starts =>
        running := true;
        return Ok(());
      case NoCopies =>
        ReleaseLaunchArgs();
        return Err(OutOfMemory);
      case ReferenceStuck(left) =>
        RawWrite(pmem, MBASE, left);
        assert pmem[..] == left;
        ReleaseLaunchArgs();
        return Err(Timeout);
      case Refuses =>
        ReleaseLaunchArgs();
        return Err(Backend);
    }

    /** `gpu_wait`; the kernel's stores bring memory to `after`. */
    method FinishLaunch(after: Mem, outcome: Option<Error>) returns (result: Result<()>)
      requires Valid() && |after| == pmem.Length
      modifies this`running, this`launchArgs, this`launchArgsUsed, allocations, pmem
      ensures Valid() && (State(), result) == Wait(old(State()), after, outcome)
    {
      hide HeapOk, Free;
      if !running { return Err(BadState); }
      RawWrite(pmem, MBASE, after);
      assert pmem[..] == after;
      running := false;
      ReleaseLaunchArgs();
      return if outcome.None? then Ok(()) else Err(outcome.value);
    }
  }
}
