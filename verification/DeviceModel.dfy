/** The whole device as the mutable program it is (`cycle_diff_step`): collect the stores, step every
    core object, clock the dispatcher, then apply the sorted stores to the memory buffer. */
module DeviceModel {
  import opened Word
  import opened Memory
  import opened RoundRobin
  import opened SimtCore
  import opened Kmu
  import opened StoreOrder
  import opened Device
  import opened CycleModel

  /** `store_ref` on the buffer; `ok` is false when a masked byte lies outside it, `dirty` lists the
      written offsets. */
  method StoreInPlace(pmem: array<byte>, s: Store) returns (ok: bool, dirty: seq<nat>)
    requires MBASE + pmem.Length <= WORD_SPAN
    modifies pmem
    ensures pmem[..] == StoreRef(old(pmem[..]), s) && ok == !StoreFails(old(pmem[..]), s)
    ensures forall i: nat :: i in dirty <==> Dirties(pmem.Length, s, i)
  {
    hide MaskBit, StoreByte;
    ok, dirty := true, [];
    ghost var was := pmem[..];
    for b := 0 to 4
      invariant forall i: nat :: i in dirty <==> Dirties(pmem.Length, s, i) && i + MBASE < s.addr + b
      invariant StoreFrom(pmem[..], s, b) == StoreFrom(was, s, 0)
      invariant ok == forall x | 0 <= x < b :: !(MaskBit(s.mask, x) && !(MBASE <= s.addr + x < MBASE + pmem.Length))
    {
      ghost var before := pmem[..];
      if MaskBit(s.mask, b) {
        var a := s.addr + b;
        if a < MBASE || a >= MBASE + pmem.Length {
          ok := false;
        } else {
          pmem[a - MBASE] := StoreByte(s, b);
          dirty := dirty + [a - MBASE];
        }
      }
      assert pmem[..] == StoreLane(before, s, b);
    }
  }

  lemma FailsBySize(m: Mem, m1: Mem, s: Store)
    requires |m1| == |m|
    ensures StoreFails(m1, s) == StoreFails(m, s)
  {
  }

  /** Applying a series of stores in order. */
  method ApplyInPlace(pmem: array<byte>, stores: seq<Store>) returns (ok: bool, dirty: seq<nat>)
    requires MBASE + pmem.Length <= WORD_SPAN
    modifies pmem
    ensures pmem[..] == ApplyStores(old(pmem[..]), stores) && ok == !AnyStoreFails(old(pmem[..]), stores)
    ensures forall i: nat :: i in dirty <==> DirtiesAny(pmem.Length, stores, i)
  {
    hide StoreRef, StoreFails, Dirties;
    ok, dirty := true, [];
    ghost var was := pmem[..];
    for i := 0 to |stores|
      invariant pmem[..] == ApplyStores(was, stores[..i])
      invariant ok == forall k | 0 <= k < i :: !StoreFails(was, stores[k])
      invariant forall x: nat :: x in dirty <==> DirtiesAny(pmem.Length, stores[..i], x)
    {
      FailsBySize(was, pmem[..], stores[i]);
      var good, marks := StoreInPlace(pmem, stores[i]);
      if !good { ok := false; }
      dirty := dirty + marks;
      assert stores[..i + 1] == stores[..i] + [stores[i]];
      assert stores[..i + 1][..i] == stores[..i];
    }
    assert stores[..|stores|] == stores;
  }

  class DeviceUnit {
    const shape: Shape
    const units: seq<CoreUnit>
    const kmu: Dispatcher
    const pmem: array<byte>
    var failed: bool
    var expected: seq<Store>
    var dirty: seq<nat>

    ghost predicate Valid()
      reads this, units
    {
      && ValidShape(shape) && |units| == shape.cores && MBASE + pmem.Length <= WORD_SPAN
      && (forall i, k | 0 <= i < k < |units| :: units[i] != units[k])
      && (forall i | 0 <= i < |units| :: units[i].Valid() && units[i].shape == shape && units[i].cid == i)
    }

    ghost function Cores(): (r: seq<Core>)
      reads units
      ensures |r| == |units| && forall i | 0 <= i < |units| :: r[i] == units[i].State()
    {
      seq(|units|, i requires 0 <= i < |units| reads units => units[i].State())
    }

    ghost function State(): Gpu
      requires MBASE + pmem.Length <= WORD_SPAN
      reads this, kmu, pmem, units
    {
      Gpu(kmu.State(), Cores(), pmem[..], failed)
    }

    constructor (s: Shape, cores: seq<CoreUnit>, dispatcher: Dispatcher, memory: array<byte>)
      requires ValidShape(s) && |cores| == s.cores && MBASE + memory.Length <= WORD_SPAN
      requires forall i, k | 0 <= i < k < |cores| :: cores[i] != cores[k]
      requires forall i | 0 <= i < |cores| :: cores[i].Valid() && cores[i].shape == s && cores[i].cid == i
      ensures Valid() && shape == s && units == cores && kmu == dispatcher && pmem == memory && !failed
    {
      shape, units, kmu, pmem, failed, expected, dirty := s, cores, dispatcher, memory, false, [], [];
    }

    method ReadReady() returns (flags: seq<bool>)
      requires Valid()
      ensures flags == ReadyFlags(Cores())
    {
      flags := [];
      for i := 0 to |units|
        invariant |flags| == i && forall k | 0 <= k < i :: flags[k] == ReadyFlags(Cores())[k]
      {
        flags := flags + [!units[i].active && units[i].state.Sched?];
      }
    }

    /** The transactions the cores drive before the clock edge. */
    method CollectStores() returns (stores: seq<Store>)
      requires Valid()
      ensures stores == Firsts(Pending(shape, Cores()))
    {
      hide PendingStore;
      stores := [];
      ghost var cores := Cores();
      for i := 0 to |units|
        invariant stores == Firsts(Pending(shape, cores[..i]))
      {
        assert cores[..i + 1][..i] == cores[..i];
        match PendingStore(shape, units[i].State())
        case Some(x) => stores := stores + [x];
        case None =>
      }
      assert cores[..|units|] == cores;
    }

    /** Core i takes its step of the cycle that started in g. */
    method StepCore(ghost g: Gpu, i: nat, m: Mem, fired: Option<nat>, l: Launch, block: Dim3) returns (badRead: bool)
      requires i < |units| && units[i].Valid() && units[i].shape == shape && units[i].cid == i
      requires ValidGpu(shape, g) && fired == Fired(g) && (fired.Some? ==> DividesLaunch(l))
      requires l == g.kmu.launch && block == g.kmu.block && m == g.mem && i < shape.cores && units[i].State() == g.cores[i]
      modifies units[i]
      ensures units[i].Valid() && units[i].State() == NextCore(shape, g, fired, i)
      ensures badRead == ReadFails(shape, g.cores[i], g.mem)
    {
      hide ReadFails, CoreStep, SimtCore.AcceptCta, ValidCore, ServesMemory, Fired, DividesLaunch;
      if fired == Some(i) { FiredIdle(g); }
      badRead := units[i].Step(m, fired == Some(i), l, block);
    }

    lemma FiredIdle(g: Gpu)
      requires ValidGpu(shape, g) && Fired(g).Some?
      ensures Fired(g).value < shape.cores && !ReadFails(shape, g.cores[Fired(g).value], g.mem)
    {
      hide ValidCore, ServesMemory, Scan;
      assert ReadyFlags(g.cores)[Fired(g).value];
    }

    /** Every core takes its step on the memory before the cycle. */
    method StepCores(ghost g: Gpu, m: Mem, fired: Option<nat>, l: Launch, block: Dim3) returns (badRead: bool)
      requires Valid() && g == State() && ValidGpu(shape, g)
      requires l == g.kmu.launch && block == g.kmu.block && m == g.mem
      requires fired == Fired(g) && (fired.Some? ==> DividesLaunch(l))
      modifies units
      ensures Valid() && Cores() == NextCores(shape, g, fired)
      ensures badRead == AnyReadFails(shape, g)
    {
      hide ReadFails, NextCore, ValidCore, ServesMemory, Fired, DividesLaunch, Cores;
      badRead := false;
      for i := 0 to |units|
        invariant Valid()
        invariant forall k | 0 <= k < i :: units[k].State() == NextCore(shape, g, fired, k)
        invariant forall k | i <= k < |units| :: units[k].State() == g.cores[k]
        invariant badRead == exists k | 0 <= k < i :: ReadFails(shape, g.cores[k], g.mem)
      {
        var bad := StepCore(g, i, m, fired, l, block);
        if bad { badRead := true; }
      }
    }

    /** The end of the cycle: dispatcher registers, then the stores in sorted order. */
    method Finish(inputs: Inputs, ready: seq<bool>, stores: seq<Store>, badRead: bool)
      requires Valid() && |ready| >= 1
      modifies this, kmu, pmem
      ensures Valid() && Cores() == old(Cores()) && kmu.State() == KmuStep(old(kmu.State()), inputs, ready)
      ensures expected == Sort(stores) && pmem[..] == ApplyStores(old(pmem[..]), expected)
      ensures forall i: nat :: i in dirty <==> DirtiesAny(pmem.Length, expected, i)
      ensures failed == (old(failed) || badRead || AnyStoreFails(old(pmem[..]), expected))
    {
      hide Sort, AnyStoreFails, KmuStep, ApplyStores, Dispatch, DirtiesAny;
      var again := kmu.Cycle(inputs, ready);
      expected := Sort(stores);
      var ok;
      ok, dirty := ApplyInPlace(pmem, expected);
      failed := failed || badRead || !ok;
    }

    /** The reads `pack` makes to record the cores. */
    method Pack()
      requires Valid() && forall i | 0 <= i < |units| :: ValidCore(shape, Cores()[i])
      modifies this`failed
      ensures Valid() && failed == (old(failed) || AnyPackFails(shape, Cores(), pmem[..]))
    {
      hide PackFails, ValidCore;
      ghost var cores := Cores();
      var bad := false;
      for i := 0 to |units|
        invariant bad == exists k | 0 <= k < i :: PackFails(shape, cores[k], pmem[..])
      {
        assert cores[i] == units[i].State();
        if PackFails(shape, units[i].State(), pmem[..]) { bad := true; }
      }
      failed := failed || bad;
    }

    /** `cycle_diff_step`. */
    method Step(inputs: Inputs)
      requires Valid() && (Fired(State()).Some? ==> DividesLaunch(kmu.launch))
      modifies this, kmu, units, pmem
      ensures Valid() && State() == Cycle(shape, old(State()), inputs)
      ensures pmem[..] == ApplyStores(old(pmem[..]), expected)
      ensures expected == Sort(Firsts(Pending(shape, old(Cores())))) && forall i: nat :: i in dirty <==> DirtiesAny(pmem.Length, expected, i)
    {
      hide DirtiesAny, Sort, Pending, AnyReadFails, AnyStoreFails, AnyPackFails, NextCores, KmuStep, Scan, ApplyStores, ValidCore,
        ServesMemory, Cores, DividesLaunch, ReadyFlags, DeviceUnit.Valid;
      ghost var g := State();
      ValidState();
      var ready := ReadReady();
      var found, sel := FirstFound(ready, kmu.rrCore);
      var fired := if kmu.running && found then Some(sel) else None;
      var stores := CollectStores();
      var badRead := StepCores(g, pmem[..], fired, kmu.launch, kmu.block);
      Finish(inputs, ready, stores, badRead);
      ValidNext(g, fired);
      Pack();
    }

    lemma ValidNext(g: Gpu, fired: Option<nat>)
      requires ValidGpu(shape, g) && (fired.Some? ==> DividesLaunch(g.kmu.launch)) && Cores() == NextCores(shape, g, fired)
      requires |units| == shape.cores
      ensures forall i | 0 <= i < |units| :: ValidCore(shape, Cores()[i])
    {
      hide NextCore, ValidCore, ServesMemory, DividesLaunch;
    }

    lemma ValidState()
      requires Valid()
      ensures ValidGpu(shape, State()) && |units| == shape.cores >= 1
    {
    }
  }
}
