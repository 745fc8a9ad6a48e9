/** The whole device of the reference model (`cycle_diff_step` of sw/sim/hm/difftest.cpp): every
    core advances on the memory of the cycle's start, the dispatcher hands out at most one CTA, and
    the stores of the cycle are applied in sorted order. */
module Device {
  import opened Word
  import opened Memory
  import opened SimtCore
  import opened RoundRobin
  import opened Kmu
  import opened StoreOrder

  datatype Gpu = Gpu(kmu: Kmu, cores: seq<Core>, mem: Mem, failed: bool)

  predicate ValidGpu(s: Shape, g: Gpu) {
    && ValidShape(s) && |g.cores| == s.cores
    && forall i | 0 <= i < s.cores :: ValidCore(s, g.cores[i]) && ServesMemory(g.cores[i])
  }

  /** Which cores can take a CTA. */
  function ReadyFlags(cores: seq<Core>): (flags: seq<bool>)
    ensures |flags| == |cores|
    ensures forall i | 0 <= i < |cores| :: flags[i] == (!cores[i].active && cores[i].state.Sched?)
  {
    seq(|cores|, i requires 0 <= i < |cores| => !cores[i].active && cores[i].state.Sched?)
  }

  /** The transactions of the cycle in core order, each with its core. */
  function Pending(s: Shape, cores: seq<Core>): (p: seq<Owned>)
    requires forall i | 0 <= i < |cores| :: ValidCore(s, cores[i])
  {
    if cores == [] then []
    else
      var n := |cores| - 1;
      Pending(s, cores[..n]) +
      match PendingStore(s, cores[n])
      case Some(x) => [(x, n)]
      case None => []
  }

  /** Next state of core i: a dispatched CTA, or one cycle on the memory before the cycle. */
  function NextCore(s: Shape, g: Gpu, fired: Option<nat>, i: nat): (c: Core)
    requires ValidGpu(s, g) && i < s.cores && (fired.Some? ==> DividesLaunch(g.kmu.launch))
    ensures ValidCore(s, c) && ServesMemory(c)
  {
    if fired == Some(i) then AcceptCta(s, g.cores[i], g.kmu.launch, g.kmu.block)
    else CoreStep(s, i, g.cores[i], g.mem)
  }

  function NextCores(s: Shape, g: Gpu, fired: Option<nat>): (r: seq<Core>)
    requires ValidGpu(s, g) && (fired.Some? ==> DividesLaunch(g.kmu.launch))
    ensures |r| == s.cores
    ensures forall i | 0 <= i < s.cores :: r[i] == NextCore(s, g, fired, i) && ValidCore(s, r[i]) && ServesMemory(r[i])
  {
    seq(s.cores, i requires 0 <= i < s.cores => NextCore(s, g, fired, i))
  }

  /** `failed` after a series of stores. */
  predicate AnyStoreFails(m: Mem, stores: seq<Store>) {
    exists k | 0 <= k < |stores| :: StoreFails(m, stores[k])
  }

  predicate AnyReadFails(s: Shape, g: Gpu)
    requires ValidGpu(s, g)
  {
    exists i | 0 <= i < s.cores :: ReadFails(s, g.cores[i], g.mem)
  }

  /** Recording the cores after the cycle reads outside memory. */
  predicate AnyPackFails(s: Shape, cores: seq<Core>, m: Mem)
    requires forall i | 0 <= i < |cores| :: ValidCore(s, cores[i])
  {
    exists i | 0 <= i < |cores| :: PackFails(s, cores[i], m)
  }

  function Fired(g: Gpu): Option<nat> { Dispatch(g.kmu, ReadyFlags(g.cores)) }

  /** One clock cycle. */
  function Cycle(s: Shape, g: Gpu, inputs: Inputs): (r: Gpu)
    requires ValidGpu(s, g) && (Fired(g).Some? ==> DividesLaunch(g.kmu.launch))
    ensures ValidGpu(s, r)
  {
    var stores := Sort(Firsts(Pending(s, g.cores)));
    var cores, mem := NextCores(s, g, Fired(g)), ApplyStores(g.mem, stores);
    Gpu(KmuStep(g.kmu, inputs, ReadyFlags(g.cores)), cores, mem,
        g.failed || AnyReadFails(s, g) || AnyStoreFails(g.mem, stores) || AnyPackFails(s, cores, mem))
  }

  /** n cycles with the inputs idle. */
  function GpuRun(s: Shape, g: Gpu, n: nat): (r: Gpu)
    requires ValidGpu(s, g) && DividesLaunch(g.kmu.launch)
    ensures ValidGpu(s, r) && r.kmu.launch == g.kmu.launch
  {
    if n == 0 then g else Cycle(s, GpuRun(s, g, n - 1), IDLE)
  }

  /** The cores that got a CTA during the first n cycles, in dispatch order. */
  function Homes(s: Shape, g: Gpu, n: nat): (h: seq<nat>)
    requires ValidGpu(s, g) && DividesLaunch(g.kmu.launch)
  {
    if n == 0 then []
    else
      Homes(s, g, n - 1) +
      match Fired(GpuRun(s, g, n - 1))
      case Some(i) => [i]
      case None => []
  }

  /** Top-level `busy`. */
  predicate Busy(g: Gpu) {
    g.kmu.running || exists i | 0 <= i < |g.cores| :: g.cores[i].active
  }

  /** Top-level `fault`. */
  predicate Faulty(g: Gpu) { exists i | 0 <= i < |g.cores| :: g.cores[i].fault }

  /** The owned transactions of a cycle name each storing core once. */
  lemma {:induction false} PendingOwners(s: Shape, cores: seq<Core>)
    requires forall i | 0 <= i < |cores| :: ValidCore(s, cores[i])
    ensures forall x | x in Pending(s, cores) :: x.1 < |cores| && PendingStore(s, cores[x.1]) == Some(x.0)
    ensures forall i | 0 <= i < |cores| && PendingStore(s, cores[i]).Some? :: (PendingStore(s, cores[i]).value, i) in Pending(s, cores)
    ensures DistinctOwners(Pending(s, cores))
  {
    hide PendingStore;
    if cores != [] {
      PendingOwners(s, cores[..|cores| - 1]);
    }
  }
}
