/** The serialized memory port: how a core serves the lanes of one load or store. */
module MemoryPhase {
  import opened Word
  import opened Memory
  import opened Isa
  import opened SimtCore

  predicate Serving(c: Core) { c.active && (c.state.MemReq? || c.state.MemResp?) }

  /** The core after a series of cycles, each on its memory. */
  function After(s: Shape, cid: nat, c: Core, mems: seq<Mem>): (r: Core)
    requires ValidCore(s, c) && ServesMemory(c)
    ensures ValidCore(s, r) && ServesMemory(r)
    decreases |mems|
  {
    if mems == [] then c else After(s, cid, CoreStep(s, cid, c, mems[0]), mems[1..])
  }

  /** The lanes that get their response, in order. */
  function Responses(s: Shape, cid: nat, c: Core, mems: seq<Mem>): seq<nat>
    requires ValidCore(s, c) && ServesMemory(c)
    decreases |mems|
  {
    if mems == [] then []
    else (if c.active && c.state.MemResp? then [c.mt] else []) + Responses(s, cid, CoreStep(s, cid, c, mems[0]), mems[1..])
  }

  /** Cycles from the request of lane t to the end of the instruction. */
  function Duration(mask: set<nat>, threads: nat, t: nat): nat
    requires t <= threads
    decreases threads - t
  {
    if t == threads then 0 else (if t in mask then 2 else 1) + Duration(mask, threads, t + 1)
  }

  /** Active lanes from t on, in increasing order. */
  function LanesFrom(mask: set<nat>, threads: nat, t: nat): seq<nat>
    requires t <= threads
    decreases threads - t
  {
    if t == threads then [] else (if t in mask then [t] else []) + LanesFrom(mask, threads, t + 1)
  }

  predicate Increasing(s: seq<nat>) { forall i, k | 0 <= i < k < |s| :: s[i] < s[k] }

  lemma {:induction false} LanesMembers(mask: set<nat>, threads: nat, t: nat, l: nat)
    requires t <= threads
    ensures l in LanesFrom(mask, threads, t) <==> l in mask && t <= l < threads
    decreases threads - t
  {
    if t < threads {
      LanesMembers(mask, threads, t + 1, l);
      var rest := LanesFrom(mask, threads, t + 1);
      assert l in [t] + rest <==> l == t || l in rest;
    }
  }

  lemma {:induction false} LanesIncreasing(mask: set<nat>, threads: nat, t: nat)
    requires t <= threads
    ensures Increasing(LanesFrom(mask, threads, t))
    decreases threads - t
  {
    if t < threads {
      LanesIncreasing(mask, threads, t + 1);
      var rest := LanesFrom(mask, threads, t + 1);
      forall k | 0 <= k < |rest| ensures rest[k] > t {
        LanesMembers(mask, threads, t + 1, rest[k]);
      }
      assert [] + rest == rest;
    }
  }

  function Above(mask: set<nat>, t: nat): set<nat> { set l | l in mask && l >= t }

  lemma {:induction false} DurationIs(mask: set<nat>, threads: nat, t: nat)
    requires t <= threads && Lanes(mask, threads)
    ensures Duration(mask, threads, t) == threads - t + |Above(mask, t)|
    decreases threads - t
  {
    if t == threads {
      assert Above(mask, t) == {};
    } else {
      DurationIs(mask, threads, t + 1);
      if t in mask {
        assert Above(mask, t) == Above(mask, t + 1) + {t};
      } else {
        assert Above(mask, t) == Above(mask, t + 1);
      }
    }
  }

  /** The step of one lane: an inactive lane is skipped in one cycle, an active lane takes a request
      and a response. */
  lemma ServeLane(s: Shape, cid: nat, c: Core, m: Mem)
    requires ValidCore(s, c) && ServesMemory(c) && Serving(c)
    ensures var r, last := CoreStep(s, cid, c, m), c.mt == s.threads - 1;
            && c.mt < s.threads && r.active && r.im == c.im && r.iw == c.iw && r.ip == c.ip
            && if c.state.MemReq? && c.mt in c.im then r.state.MemResp? && r.mt == c.mt
               else if last then r.state.Sched? && r.warps[c.iw].pc == Add(c.ip, 4)
               else r.state.MemReq? && r.mt == c.mt + 1
  {
    hide CoreLoad, MemoryAddress, WriteBack, BadRegister, LaneRegister;
  }

  lemma {:induction false} FirstCycle(s: Shape, cid: nat, c: Core, mems: seq<Mem>)
    requires ValidCore(s, c) && ServesMemory(c) && mems != []
    ensures var c1 := CoreStep(s, cid, c, mems[0]);
            && After(s, cid, c, mems) == After(s, cid, c1, mems[1..])
            && Responses(s, cid, c, mems) == (if c.active && c.state.MemResp? then [c.mt] else []) + Responses(s, cid, c1, mems[1..])
  {
    hide CoreStep, ServesMemory, ValidCore;
  }

  lemma {:induction false} NoCycle(s: Shape, cid: nat, c: Core, mems: seq<Mem>)
    requires ValidCore(s, c) && ServesMemory(c) && mems == []
    ensures After(s, cid, c, mems) == c && Responses(s, cid, c, mems) == []
  {
    hide CoreStep, ServesMemory, ValidCore;
  }

  lemma LaneInRange(s: Shape, c: Core)
    requires ValidCore(s, c)
    ensures c.mt < s.threads
  {
  }

  /** From the request of lane t on, for any memories: the core serves exactly the active lanes from
      t on, in increasing order, and leaves the memory states after exactly Duration cycles. */
  lemma {:induction false} ServeFrom(s: Shape, cid: nat, c: Core, mems: seq<Mem>)
    requires ValidCore(s, c) && ServesMemory(c) && c.active && c.state.MemReq?
    requires |mems| == Duration(c.im, s.threads, c.mt)
    ensures Responses(s, cid, c, mems) == LanesFrom(c.im, s.threads, c.mt)
    ensures var r := After(s, cid, c, mems); r.active && r.state.Sched? && r.warps[c.iw].pc == Add(c.ip, 4)
    ensures forall k | 0 <= k < |mems| :: Serving(After(s, cid, c, mems[..k]))
    decreases s.threads - c.mt
  {
    hide CoreStep, ServesMemory, ValidCore, After, Responses;
    LaneInRange(s, c);
    ServeLane(s, cid, c, mems[0]);
    FirstCycle(s, cid, c, mems);
    var c1, rest := CoreStep(s, cid, c, mems[0]), mems[1..];
    if c.mt in c.im {
      ServeLane(s, cid, c1, rest[0]);
      FirstCycle(s, cid, c1, rest);
      var c2, more := CoreStep(s, cid, c1, rest[0]), rest[1..];
      if c.mt < s.threads - 1 { ServeFrom(s, cid, c2, more); } else { NoCycle(s, cid, c2, more); }
      PrefixServing(s, cid, c1, rest, c2);
      assert LanesFrom(c.im, s.threads, c.mt) == [c.mt] + LanesFrom(c.im, s.threads, c.mt + 1);
    } else {
      if c.mt < s.threads - 1 { ServeFrom(s, cid, c1, rest); } else { NoCycle(s, cid, c1, rest); }
    }
    PrefixServing(s, cid, c, mems, c1);
  }

  lemma PrefixServing(s: Shape, cid: nat, c: Core, mems: seq<Mem>, c1: Core)
    requires ValidCore(s, c) && ServesMemory(c) && Serving(c) && mems != [] && c1 == CoreStep(s, cid, c, mems[0])
    requires forall k | 0 <= k < |mems| - 1 :: Serving(After(s, cid, c1, mems[1..][..k]))
    ensures forall k | 0 <= k < |mems| :: Serving(After(s, cid, c, mems[..k]))
  {
    hide CoreStep, ServesMemory, ValidCore, Serving;
    forall k | 0 <= k < |mems| ensures Serving(After(s, cid, c, mems[..k])) {
      if k > 0 { assert mems[..k][1..] == mems[1..][..k - 1]; }
    }
  }

  /** A load or store spends exactly threads + |mask| cycles on the memory port and serves each lane
      of its mask exactly once, in increasing order. */
  lemma {:induction false} MemoryInstruction(s: Shape, cid: nat, c: Core, mems: seq<Mem>)
    requires ValidCore(s, c) && ServesMemory(c) && c.active && c.state.MemReq? && c.mt == 0
    requires |mems| == s.threads + |c.im|
    ensures var served, r := Responses(s, cid, c, mems), After(s, cid, c, mems);
            && (forall t :: t in served <==> t in c.im)
            && Increasing(served)
            && r.state.Sched? && r.warps[c.iw].pc == Add(c.ip, 4)
    ensures forall k | 0 <= k < |mems| :: Serving(After(s, cid, c, mems[..k]))
  {
    DurationIs(c.im, s.threads, 0);
    assert Above(c.im, 0) == c.im;
    ServeFrom(s, cid, c, mems);
    LanesIncreasing(c.im, s.threads, 0);
    forall t ensures t in LanesFrom(c.im, s.threads, 0) <==> t in c.im {
      LanesMembers(c.im, s.threads, 0, t);
    }
  }
}
