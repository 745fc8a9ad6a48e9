/** The lockstep comparison (sw/sim/hm/difftest.cpp and the phases of `tick` in sw/sim/hm/rtl.cpp):
    checking the transactions and the written bytes of every cycle amounts to comparing the whole
    memories. */
module Lockstep {
  import opened Word
  import opened Memory
  import opened SimtCore
  import opened Kmu
  import opened StoreOrder
  import opened Device
  import opened CycleModel
  import opened DeviceModel

  // ---- One cycle of both memories ---------------------------------------------------------

  /** The bytes the store does not dirty keep their value. */
  lemma StoreKeeps(m: Mem, s: Store, i: nat)
    requires i < |m| && !Dirties(|m|, s, i)
    ensures StoreRef(m, s)[i] == m[i]
  {
    hide MaskBit, StoreByte;
  }

  lemma {:induction false} StoresKeep(m: Mem, stores: seq<Store>, i: nat)
    requires i < |m| && !DirtiesAny(|m|, stores, i)
    ensures ApplyStores(m, stores)[i] == m[i]
  {
    hide StoreRef, Dirties;
    if stores != [] {
      var n := |stores| - 1;
      assert !Dirties(|m|, stores[n], i);
      StoresKeep(m, stores[..n], i);
      StoreKeeps(ApplyStores(m, stores[..n]), stores[n], i);
    }
  }

  lemma SameDirt(size: nat, a: seq<Store>, b: seq<Store>, i: nat)
    requires multiset(a) == multiset(b)
    ensures DirtiesAny(size, a, i) <==> DirtiesAny(size, b, i)
  {
    hide Dirties;
    if DirtiesAny(size, a, i) { HalfDirt(size, a, b, i); }
    if DirtiesAny(size, b, i) { HalfDirt(size, b, a, i); }
  }

  lemma HalfDirt(size: nat, a: seq<Store>, b: seq<Store>, i: nat)
    requires multiset(a) == multiset(b) && DirtiesAny(size, a, i)
    ensures DirtiesAny(size, b, i)
  {
    hide Dirties;
    var k :| 0 <= k < |a| && Dirties(size, a[k], i);
    assert a[k] in multiset(b);
  }

  /** The dirty-byte comparison. */
  predicate DirtyAgrees(rtl: Mem, model: Mem, expected: seq<Store>)
    requires |rtl| == |model|
  {
    forall i: nat | i < |model| && DirtiesAny(|model|, expected, i) :: rtl[i] == model[i]
  }

  /** With equal memories before the cycle and equal sorted transactions, comparing the dirty bytes
      afterwards decides whether the whole memories are equal, whatever order the device applied
      its stores in. */
  lemma {:induction false} DirtyDecides(before: Mem, actual: seq<Store>, expected: seq<Store>)
    requires Sort(actual) == expected
    ensures var rtl, model := ApplyStores(before, actual), ApplyStores(before, expected);
            DirtyAgrees(rtl, model, expected) <==> rtl == model
  {
    hide Dirties, ApplyStores, Sort, DirtiesAny;
    var rtl, model := ApplyStores(before, actual), ApplyStores(before, expected);
    if DirtyAgrees(rtl, model, expected) {
      forall i: nat | i < |before| ensures rtl[i] == model[i] {
        SameDirt(|before|, actual, expected, i);
        if !DirtiesAny(|before|, expected, i) {
          StoresKeep(before, actual, i);
          StoresKeep(before, expected, i);
        }
      }
    }
  }

  /** The dirty-byte check alone would not do: a device that stores where the model does not would
      pass it. */
  lemma DirtyAloneMisses()
    ensures exists before: Mem, actual: seq<Store>, expected: seq<Store> ::
              var rtl, model := ApplyStores(before, actual), ApplyStores(before, expected);
              DirtyAgrees(rtl, model, expected) && rtl != model
  {
    var before: Mem := [0];
    var s := Store(MBASE, 1, 1);
    assert StoreRef(before, s)[0] == 1;
    assert ApplyStores(before, []) == before;
    assert ApplyStores(before, [s]) == StoreRef(ApplyStores(before, [s][..0]), s);
    assert [s][..0] == [];
    assert DirtyAgrees(ApplyStores(before, [s]), ApplyStores(before, []), []);
  }

  // ---- Stores that do not meet commute ----------------------------------------------------

  ghost predicate Apart(size: nat, stores: seq<Store>) {
    forall j, k, i: nat | 0 <= j < k < |stores| && Dirties(size, stores[j], i) :: !Dirties(size, stores[k], i)
  }

  lemma StoreWrites(m: Mem, s: Store, i: nat)
    requires i < |m| && Dirties(|m|, s, i)
    ensures StoreRef(m, s)[i] == StoreByte(s, i + MBASE - s.addr)
  {
    hide MaskBit, StoreByte;
  }

  lemma {:induction false} LastWriter(m: Mem, stores: seq<Store>, k: nat, i: nat)
    requires k < |stores| && i < |m| && Apart(|m|, stores) && Dirties(|m|, stores[k], i)
    ensures ApplyStores(m, stores)[i] == StoreByte(stores[k], i + MBASE - stores[k].addr)
  {
    hide StoreRef, StoreByte, MaskBit;
    var n := |stores| - 1;
    var before := ApplyStores(m, stores[..n]);
    if k == n {
      StoreWrites(before, stores[n], i);
    } else {
      assert !Dirties(|m|, stores[n], i);
      LastWriter(m, stores[..n], k, i);
      StoreKeeps(before, stores[n], i);
    }
  }

  /** When no two transactions of the cycle write the same byte, equal sorted transactions already
      force equal memories. */
  lemma {:induction false} ApartStoresCommute(before: Mem, actual: seq<Store>, expected: seq<Store>)
    requires multiset(actual) == multiset(expected) && Apart(|before|, actual) && Apart(|before|, expected)
    ensures ApplyStores(before, actual) == ApplyStores(before, expected)
  {
    hide ApplyStores, Dirties, StoreByte, Apart;
    forall i: nat | i < |before| ensures ApplyStores(before, actual)[i] == ApplyStores(before, expected)[i] {
      if DirtiesAny(|before|, actual, i) {
        var k :| 0 <= k < |actual| && Dirties(|before|, actual[k], i);
        assert actual[k] in multiset(expected);
        var l :| 0 <= l < |expected| && expected[l] == actual[k];
        LastWriter(before, actual, k, i);
        LastWriter(before, expected, l, i);
      } else {
        SameDirt(|before|, actual, expected, i);
        StoresKeep(before, actual, i);
        StoresKeep(before, expected, i);
      }
    }
  }

  // ---- Whole runs -------------------------------------------------------------------------

  /** What a cycle brings: the device's transactions in its order and the model's sorted ones. */
  datatype Traffic = Traffic(actual: seq<Store>, expected: seq<Store>)

  function RtlAfter(m: Mem, run: seq<Traffic>): (r: Mem)
    ensures |r| == |m|
  {
    if run == [] then m else ApplyStores(RtlAfter(m, run[..|run| - 1]), run[|run| - 1].actual)
  }

  function ModelAfter(m: Mem, run: seq<Traffic>): (r: Mem)
    ensures |r| == |m|
  {
    if run == [] then m else ApplyStores(ModelAfter(m, run[..|run| - 1]), run[|run| - 1].expected)
  }

  /** Both per-cycle checks pass in cycle k. */
  predicate Passes(m: Mem, run: seq<Traffic>, k: nat)
    requires k < |run|
  {
    && Sort(run[k].actual) == run[k].expected
    && DirtyAgrees(RtlAfter(m, run[..k + 1]), ModelAfter(m, run[..k + 1]), run[k].expected)
  }

  /** Over any run of passing cycles the final scan of the whole memory cannot fail. */
  lemma {:induction false} PassingRunAgrees(m: Mem, run: seq<Traffic>)
    requires forall k | 0 <= k < |run| :: Passes(m, run, k)
    ensures RtlAfter(m, run) == ModelAfter(m, run)
  {
    hide DirtyAgrees, Sort, ApplyStores;
    if run != [] {
      var n := |run| - 1;
      var before := run[..n];
      forall k | 0 <= k < |before| ensures Passes(m, before, k) {
        assert Passes(m, run, k);
        assert before[..k + 1] == run[..k + 1];
      }
      PassingRunAgrees(m, before);
      assert Passes(m, run, n);
      assert run[..n + 1] == run;
      DirtyDecides(RtlAfter(m, before), run[n].actual, run[n].expected);
    }
  }

  // ---- The checker as the mutable object it is ---------------------------------------------

  class Checker {
    const device: DeviceUnit
    var actual: seq<Store>

    constructor (d: DeviceUnit)
      ensures device == d && actual == []
    {
      device, actual := d, [];
    }

    /** `cycle_diff_observe_store`. */
    method ObserveStore(s: Store)
      modifies this
      ensures actual == old(actual) + [s]
    {
      actual := actual + [s];
    }

    /** `cycle_diff_check_stores`: against the sorted expectation of the model, the order in which the
        transactions were observed does not matter. */
    method CheckStores() returns (ok: bool)
      modifies this
      ensures actual == Sort(old(actual)) && (ok ==> actual == device.expected)
      ensures Sorted(device.expected) ==> (ok <==> multiset(old(actual)) == multiset(device.expected))
    {
      actual := Sort(actual);
      ok := actual == device.expected;
      if Sorted(device.expected) && multiset(actual) == multiset(device.expected) { SortedUnique(actual, device.expected); }
    }

    /** `cycle_diff_check_memory`: the dirty bytes, or every byte. */
    method CheckMemory(rtl: array<byte>, full: bool) returns (ok: bool)
      requires rtl.Length == device.pmem.Length && forall i: nat | i in device.dirty :: i < rtl.Length
      ensures full ==> ok == (rtl[..] == device.pmem[..])
      ensures !full ==> ok == forall i: nat | i in device.dirty :: rtl[i] == device.pmem[i]
    {
      if full {
        for i := 0 to rtl.Length
          invariant forall k | 0 <= k < i :: rtl[k] == device.pmem[k]
        {
          if rtl[i] != device.pmem[i] { return false; }
        }
        return true;
      }
      forall l | 0 <= l < |device.dirty| ensures device.dirty[l] < rtl.Length {
        assert device.dirty[l] in device.dirty;
      }
      for k := 0 to |device.dirty|
        invariant forall l | 0 <= l < |device.dirty| :: device.dirty[l] < rtl.Length
        invariant forall l | 0 <= l < k :: rtl[device.dirty[l]] == device.pmem[device.dirty[l]]
      {
        var i := device.dirty[k];
        if rtl[i] != device.pmem[i] {
          assert i in device.dirty;
          return false;
        }
      }
      return true;
    }

    /** The two checks after the clock edge. */
    method Check(rtl: array<byte>) returns (ok: bool)
      requires device.Valid() && rtl.Length == device.pmem.Length
      requires forall i: nat :: i in device.dirty <==> DirtiesAny(device.pmem.Length, device.expected, i)
      modifies this
      ensures actual == []
      ensures ok <==> Sort(old(actual)) == device.expected && DirtyAgrees(rtl[..], device.pmem[..], device.expected)
    {
      hide Sort, DirtiesAny;
      ok := CheckStores();
      if ok {
        DirtyInRange(device.pmem.Length, device.expected);
        ok := CheckMemory(rtl, false);
      }
      actual := [];
    }

    /** One cycle of `tick`: the device's stores reach its memory and are observed, the model steps,
        and both checks run. When they pass, memories that were equal before are equal after. */
    method Tick(rtl: array<byte>, stores: seq<Store>, inputs: Inputs) returns (ok: bool)
      requires device.Valid() && (Fired(device.State()).Some? ==> DividesLaunch(device.kmu.launch))
      requires actual == [] && rtl != device.pmem && rtl.Length == device.pmem.Length
      requires !AnyStoreFails(rtl[..], stores)
      modifies this, rtl, device, device.kmu, device.units, device.pmem
      ensures device.Valid() && device.State() == Cycle(device.shape, old(device.State()), inputs)
      ensures rtl[..] == ApplyStores(old(rtl[..]), stores) && actual == []
      ensures old(rtl[..]) == old(device.pmem[..]) && Sort(stores) == device.expected ==> ok == (rtl[..] == device.pmem[..])
      ensures ok ==> Sort(stores) == device.expected
    {
      hide ApplyStores, AnyStoreFails, Sort, Pending, DirtiesAny, DirtyAgrees, Fired, DividesLaunch, Cycle, DeviceUnit.Valid, DeviceUnit.Cores;
      ghost var before := rtl[..];
      WriteAndObserve(rtl, stores);
      device.Step(inputs);
      ok := Check(rtl);
      if Sort(stores) == device.expected {
        DirtyDecides(before, stores, device.expected);
      }
    }

    method WriteAndObserve(rtl: array<byte>, stores: seq<Store>)
      requires actual == [] && MBASE + rtl.Length <= WORD_SPAN && !AnyStoreFails(rtl[..], stores)
      modifies this, rtl
      ensures actual == stores && rtl[..] == ApplyStores(old(rtl[..]), stores)
    {
      hide StoreRef, StoreFails;
      for k := 0 to |stores|
        invariant actual == stores[..k] && rtl[..] == ApplyStores(old(rtl[..]), stores[..k])
      {
        assert stores[..k + 1] == stores[..k] + [stores[k]];
        assert stores[..k + 1][..k] == stores[..k];
        ObserveStore(stores[k]);
        var ok, marks := StoreInPlace(rtl, stores[k]);
      }
      assert stores[..|stores|] == stores;
    }
  }

  lemma DirtyInRange(size: nat, stores: seq<Store>)
    ensures forall i: nat :: DirtiesAny(size, stores, i) ==> i < size
  {
  }
}
