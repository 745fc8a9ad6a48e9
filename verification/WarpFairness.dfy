/** Warp scheduling is fair: a warp of a core that stays valid is issued within as many selections as the
    core has warps, however long the instructions between the selections take. */
module WarpFairness {
  import opened Word
  import opened Memory
  import opened Isa
  import opened RoundRobin
  import opened SimtCore
  import opened Divergence

  lemma DistanceAt(n: nat, rr: nat, k: nat)
    requires rr < n && k < n
    ensures At(n, rr, k) == if rr + k < n then rr + k else rr + k - n
    ensures Distance(n, rr, At(n, rr, k)) == k
  {
    hide At;
    AtOffset(n, rr, k);
  }

  lemma DistanceBelow(n: nat, p: nat, x: nat)
    requires p < n && x < n
    ensures Distance(n, p, x) < n
  {
  }

  /** The pointer the next selection starts from, once the instruction in flight has ended. */
  function NextPointer(s: Shape, c: Core): (p: nat)
    requires ValidCore(s, c)
    ensures p < s.warps
  {
    if c.state.Sched? then c.rr else Successor(c.iw, s.warps)
  }

  predicate Selecting(c: Core) { c.active && c.state.Sched? }

  /** A selection takes warp x, or brings the pointer closer to it. */
  lemma SelectionAdvances(s: Shape, c: Core, x: nat)
    requires ValidCore(s, c) && Selecting(c) && x < s.warps && c.warps[x].valid
    ensures var o := SchedStep(s, c);
            && ValidCore(s, o) && o.active && !o.state.Sched?
            && (o.iw != x ==> Distance(s.warps, NextPointer(s, o), x) < Distance(s.warps, NextPointer(s, c), x))
  {
    hide ValidWarp;
    var flags := ValidFlags(c.warps);
    SomeFlag(flags, c.rr);
    var k := ScanFirst(flags, c.rr, 0);
    var d := Distance(s.warps, c.rr, x);
    DistanceAt(s.warps, c.rr, k);
    DistanceAt(s.warps, c.rr, d);
    assert FlagAt(flags, c.rr, d);
  }

  /** Between selections the pointer to come does not change, and an idle core stays idle. */
  lemma PointerKept(s: Shape, cid: nat, c: Core, m: Mem)
    requires ValidCore(s, c) && ServesMemory(c) && !Selecting(c)
    ensures var o := CoreStep(s, cid, c, m); o.active ==> c.active && NextPointer(s, o) == NextPointer(s, c)
  {
    hide ComputeLane, CoreLoad, CommonNext, AllLegal, Diverges, LaneResult, TakenLanes, MemoryAddress, WriteBack, LegalBranch,
      BadRegister, Load32, ValidWarp;
  }

  /** The selections among the first cycles of the run. */
  function Selections(s: Shape, cid: nat, c: Core, mems: seq<Mem>): nat
    requires ValidCore(s, c) && ServesMemory(c)
  {
    if mems == [] then 0
    else
      var before := mems[..|mems| - 1];
      Selections(s, cid, c, before) + if Selecting(CoreRun(s, cid, c, before)) then 1 else 0
  }

  /** Cycle n of the run selects warp x. */
  predicate IssuesAt(s: Shape, cid: nat, c: Core, mems: seq<Mem>, x: nat, n: nat)
    requires ValidCore(s, c) && ServesMemory(c) && n < |mems|
  {
    Selecting(CoreRun(s, cid, c, mems[..n])) && CoreRun(s, cid, c, mems[..n + 1]).iw == x
  }

  /** Warp x is valid whenever a warp is selected. */
  predicate StaysValid(s: Shape, cid: nat, c: Core, mems: seq<Mem>, x: nat)
    requires ValidCore(s, c) && ServesMemory(c) && x < s.warps
  {
    forall n | 0 <= n < |mems| && Selecting(CoreRun(s, cid, c, mems[..n])) :: CoreRun(s, cid, c, mems[..n]).warps[x].valid
  }

  lemma SameIssues(s: Shape, cid: nat, c: Core, mems: seq<Mem>, x: nat, n: nat)
    requires ValidCore(s, c) && ServesMemory(c) && n + 1 < |mems|
    ensures IssuesAt(s, cid, c, mems[..|mems| - 1], x, n) == IssuesAt(s, cid, c, mems, x, n)
  {
    hide CoreStep, ValidCore, ServesMemory, CoreRun;
    var before := mems[..|mems| - 1];
    assert before[..n] == mems[..n] && before[..n + 1] == mems[..n + 1];
  }

  lemma LastCycle(s: Shape, cid: nat, c: Core, mems: seq<Mem>, x: nat)
    requires ValidCore(s, c) && ServesMemory(c) && x < s.warps && mems != [] && StaysValid(s, cid, c, mems, x)
    ensures var before := mems[..|mems| - 1];
            && StaysValid(s, cid, c, before, x)
            && (Selecting(CoreRun(s, cid, c, before)) ==> CoreRun(s, cid, c, before).warps[x].valid)
            && (IssuesAt(s, cid, c, mems, x, |mems| - 1) <==>
                Selecting(CoreRun(s, cid, c, before)) && CoreRun(s, cid, c, mems).iw == x)
  {
    hide CoreStep, ServesMemory, CoreRun;
    var before := mems[..|mems| - 1];
    assert mems[..|mems|] == mems;
    forall n | 0 <= n < |before| && Selecting(CoreRun(s, cid, c, before[..n])) ensures CoreRun(s, cid, c, before[..n]).warps[x].valid {
      assert before[..n] == mems[..n];
    }
  }

  /** While x has not been issued, each selection has used up a place before it. */
  lemma {:induction false} PlacesUsedUp(s: Shape, cid: nat, c: Core, mems: seq<Mem>, x: nat)
    requires ValidCore(s, c) && ServesMemory(c) && x < s.warps && StaysValid(s, cid, c, mems, x)
    requires forall n | 0 <= n < |mems| :: !IssuesAt(s, cid, c, mems, x, n)
    ensures var o := CoreRun(s, cid, c, mems);
            && Selections(s, cid, c, mems) < s.warps
            && (o.active ==> Distance(s.warps, NextPointer(s, o), x) + Selections(s, cid, c, mems) < s.warps)
  {
    hide CoreStep, SchedStep, ValidWarp, Distance, ServesMemory, IssuesAt, StaysValid, NextPointer;
    if mems == [] {
      DistanceBelow(s.warps, NextPointer(s, c), x);
    } else {
      var l := |mems| - 1;
      var before := mems[..l];
      forall n | 0 <= n < l ensures !IssuesAt(s, cid, c, before, x, n) {
        SameIssues(s, cid, c, mems, x, n);
      }
      LastCycle(s, cid, c, mems, x);
      PlacesUsedUp(s, cid, c, before, x);
      var u := CoreRun(s, cid, c, before);
      if Selecting(u) {
        SelectionAdvances(s, u, x);
        SchedIsStep(s, cid, u, mems[l]);
      } else {
        PointerKept(s, cid, u, mems[l]);
      }
    }
  }

  lemma SchedIsStep(s: Shape, cid: nat, c: Core, m: Mem)
    requires ValidCore(s, c) && ServesMemory(c) && Selecting(c)
    ensures CoreStep(s, cid, c, m) == SchedStep(s, c)
  {
  }

  /** In any stretch of a run, from any state and on any memory contents, in which warp x is valid at
      every selection: if the stretch has as many selections as the core has warps, one of them issues
      warp x. A fault ends the selections. */
  lemma {:induction false} IssuedWithinWarps(s: Shape, cid: nat, c: Core, mems: seq<Mem>, x: nat)
    requires ValidCore(s, c) && ServesMemory(c) && x < s.warps && StaysValid(s, cid, c, mems, x)
    requires Selections(s, cid, c, mems) >= s.warps
    ensures exists n :: 0 <= n < |mems| && IssuesAt(s, cid, c, mems, x, n)
  {
    hide StaysValid, CoreStep, ValidWarp, ServesMemory;
    if forall n | 0 <= n < |mems| :: !IssuesAt(s, cid, c, mems, x, n) {
      PlacesUsedUp(s, cid, c, mems, x);
    }
  }

  /** A core that takes a CTA forgets an earlier fault and issues the first warp first, with all its lanes,
      from the start of the kernel. */
  lemma {:induction false} FirstWarpFirst(s: Shape, cid: nat, c: Core, l: Launch, block: Dim3, m: Mem)
    requires ValidCore(s, c) && DividesLaunch(l) && l.bsize >= 1
    ensures var start := AcceptCta(s, c, l, block);
            var o := CoreStep(s, cid, start, m);
            && start.active && !start.fault && o.state.Fetch?
            && o.iw == 0 && o.ip == l.startup && o.im == set t: nat | t < s.threads && InBlock(s, l.bsize, 0, t)
  {
    hide FreshLane, ValidWarp;
    var start := AcceptCta(s, c, l, block);
    assert At(s.warps, 0, 0) == 0 && FlagAt(ValidFlags(start.warps), 0, 0);
  }
}
