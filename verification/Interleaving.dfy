/** Threads sharing one memory, run by an arbitrary schedule. When no thread touches a byte another
    thread writes, the schedule cannot be observed in the final memory. */
module Interleaving {
  import opened Word
  import opened Memory

  /** One step of a thread: its new state and the new memory, a fault, or an abort of the whole
      simulation when an address leaves memory. */
  datatype Outcome<T> = Done(thread: T, mem: Mem) | Fault | Abort

  /** A deterministic thread: when it has stopped, its step, and the bytes the step touches
      (fetches, reads or writes) and writes. */
  datatype Machine<!T> = Machine(halted: T -> bool, step: (Mem, T) -> Outcome<T>,
                                 touches: (Mem, T) -> set<int>, writes: (Mem, T) -> set<int>)

  /** On memories that agree on the touched bytes a thread steps alike. */
  ghost predicate SameStep<T>(c: Machine<T>, m1: Mem, m2: Mem, t: T) {
    && c.touches(m2, t) == c.touches(m1, t) && c.writes(m2, t) == c.writes(m1, t)
    && c.step(m2, t).Done? == c.step(m1, t).Done?
    && (c.step(m1, t).Done? ==>
          && c.step(m2, t).thread == c.step(m1, t).thread
          && (forall b | b in c.writes(m1, t) :: Peek(c.step(m1, t).mem, b) == Peek(c.step(m2, t).mem, b)))
  }

  /** A step depends on memory only through the bytes it touches and changes only those it writes. */
  ghost predicate Local<T(!new)>(c: Machine<T>) {
    && (forall m: Mem, t: T :: !c.halted(t) && c.step(m, t).Done? ==>
          && c.writes(m, t) <= c.touches(m, t)
          && |c.step(m, t).mem| == |m|
          && (forall b | b !in c.writes(m, t) :: Peek(c.step(m, t).mem, b) == Peek(m, b)))
    && (forall m1: Mem, m2: Mem, t: T :: !c.halted(t) && AgreeOn(m1, m2, c.touches(m1, t)) ==>
          SameStep(c, m1, m2, t))
  }

  datatype Sys<!K, T> = Sys(threads: map<K, T>, mem: Mem)

  predicate CanStep<K, T>(c: Machine<T>, s: Sys<K, T>, k: K) {
    k in s.threads && !c.halted(s.threads[k]) && c.step(s.mem, s.threads[k]).Done?
  }

  function StepOf<K, T>(c: Machine<T>, s: Sys<K, T>, k: K): Sys<K, T>
    requires CanStep(c, s, k)
  {
    var o := c.step(s.mem, s.threads[k]);
    Sys(s.threads[k := o.thread], o.mem)
  }

  /** The state after a schedule; None when a scheduled thread has halted, faults or aborts. */
  function Run<K, T>(c: Machine<T>, s: Sys<K, T>, schedule: seq<K>): Option<Sys<K, T>> {
    if schedule == [] then Some(s)
    else
      var n := |schedule| - 1;
      match Run(c, s, schedule[..n])
      case None => None
      case Some(u) => if CanStep(c, u, schedule[n]) then Some(StepOf(c, u, schedule[n])) else None
  }

  predicate AllHalted<K, T>(c: Machine<T>, s: Sys<K, T>) {
    forall k | k in s.threads :: c.halted(s.threads[k])
  }

  /** The schedule runs every thread to its end without a fault. */
  predicate Completes<K, T>(c: Machine<T>, s: Sys<K, T>, schedule: seq<K>) {
    Run(c, s, schedule).Some? && AllHalted(c, Run(c, s, schedule).value)
  }

  lemma {:induction false} RunAppend<K, T>(c: Machine<T>, s: Sys<K, T>, first: seq<K>, second: seq<K>)
    requires Run(c, s, first).Some?
    ensures Run(c, s, first + second) == Run(c, Run(c, s, first).value, second)
  {
    if second == [] {
      assert first + second == first;
    } else {
      var n := |second| - 1;
      RunAppend(c, s, first, second[..n]);
      assert (first + second)[..|first + second| - 1] == first + second[..n];
    }
  }

  lemma {:induction false} RunSnoc<K, T>(c: Machine<T>, s: Sys<K, T>, schedule: seq<K>, u: Sys<K, T>, k: K)
    requires Run(c, s, schedule) == Some(u) && CanStep(c, u, k)
    ensures Run(c, s, schedule + [k]) == Some(StepOf(c, u, k))
  {
    assert (schedule + [k])[..|schedule + [k]| - 1] == schedule;
  }

  lemma SplitUpdates<K, T>(threads: map<K, T>, updates: map<K, T>, k: K)
    requires k in updates
    ensures (threads + (updates - {k}))[k := updates[k]] == threads + updates
    ensures |updates - {k}| < |updates|
  {
    assert (updates - {k}).Keys == updates.Keys - {k};
    assert |(updates - {k}).Keys| == |updates - {k}| && |updates.Keys| == |updates|;
  }

  /** Thread k's step without changing memory to `t`. */
  ghost predicate StepsTo<K, T>(c: Machine<T>, s: Sys<K, T>, k: K, t: T) {
    k in s.threads && !c.halted(s.threads[k]) && c.step(s.mem, s.threads[k]) == Done(t, s.mem)
  }

  /** Threads that can each step without changing memory can all step, in any order. */
  lemma {:induction false} RunEach<K, T>(c: Machine<T>, s: Sys<K, T>, updates: map<K, T>) returns (schedule: seq<K>)
    requires forall k | k in updates :: StepsTo(c, s, k, updates[k])
    ensures Run(c, s, schedule) == Some(Sys(s.threads + updates, s.mem))
    decreases |updates|
  {
    if updates.Keys == {} {
      schedule := [];
      assert s.threads + updates == s.threads;
    } else {
      hide Run;
      var k :| k in updates;
      var rest := updates - {k};
      SplitUpdates(s.threads, updates, k);
      assert forall j | j in rest :: rest[j] == updates[j];
      var before := RunEach(c, s, rest);
      var u := Sys(s.threads + rest, s.mem);
      assert StepsTo(c, s, k, updates[k]);
      RunSnoc(c, s, before, u, k);
      schedule := before + [k];
    }
  }

  // ---- One thread alone -------------------------------------------------------------------

  datatype View<T> = View(thread: T, mem: Mem, stuck: bool)

  /** Thread t alone on memory m for n steps. */
  function Solo<T>(c: Machine<T>, m: Mem, t: T, n: nat): (l: View<T>) {
    if n == 0 then View(t, m, false)
    else
      var l := Solo(c, m, t, n - 1);
      if l.stuck || c.halted(l.thread) then l
      else
        match c.step(l.mem, l.thread)
        case Done(u, m1) => View(u, m1, false)
        case _ => l.(stuck := true)
  }

  function SoloTouches<T>(c: Machine<T>, m: Mem, t: T, n: nat): set<int> {
    var l := Solo(c, m, t, n);
    if l.stuck || c.halted(l.thread) then {} else c.touches(l.mem, l.thread)
  }

  function SoloWrites<T>(c: Machine<T>, m: Mem, t: T, n: nat): set<int> {
    var l := Solo(c, m, t, n);
    if l.stuck || c.halted(l.thread) then {} else c.writes(l.mem, l.thread)
  }

  /** No thread, run alone, ever touches a byte another thread, run alone, ever writes. */
  ghost predicate RaceFree<K(!new), T>(c: Machine<T>, s: Sys<K, T>) {
    forall i, j, n: nat, p: nat ::
      i in s.threads && j in s.threads && i != j ==>
        SoloWrites(c, s.mem, s.threads[i], n) !! SoloTouches(c, s.mem, s.threads[j], p)
  }

  function Count<K(==)>(schedule: seq<K>, k: K): nat {
    if schedule == [] then 0
    else Count(schedule[..|schedule| - 1], k) + if schedule[|schedule| - 1] == k then 1 else 0
  }

  // ---- A schedule simulated by solo runs --------------------------------------------------

  type Footprints<K> = map<K, iset<int>>

  /** What each thread sees alone after its share of the schedule. */
  function Views<K, T>(c: Machine<T>, s: Sys<K, T>, schedule: seq<K>): map<K, View<T>> {
    map k | k in s.threads :: Solo(c, s.mem, s.threads[k], Count(schedule, k))
  }

  /** Every thread is where it is alone, and on its footprint memory holds what the thread sees
      alone; bytes in nobody's footprint are untouched. */
  ghost predicate Matches<K, T>(s: Sys<K, T>, views: map<K, View<T>>, u: Sys<K, T>, f: Footprints<K>) {
    && u.threads.Keys == views.Keys == f.Keys && |u.mem| == |s.mem|
    && (forall k | k in views ::
          && !views[k].stuck && |views[k].mem| == |s.mem|
          && u.threads[k] == views[k].thread
          && (forall b | b in f[k] :: Peek(u.mem, b) == Peek(views[k].mem, b)))
    && (forall b :: (forall k | k in views :: b !in f[k]) ==> Peek(u.mem, b) == Peek(s.mem, b))
  }

  ghost predicate Mirrors<K, T>(c: Machine<T>, s: Sys<K, T>, schedule: seq<K>, u: Sys<K, T>, f: Footprints<K>) {
    Matches(s, Views(c, s, schedule), u, f)
  }

  /** The next step of thread k stays within its footprint and writes in no other thread's. */
  ghost predicate Respects<K, T>(c: Machine<T>, u: Sys<K, T>, k: K, f: Footprints<K>) {
    && k in u.threads && u.threads.Keys == f.Keys
    && (forall b | b in c.touches(u.mem, u.threads[k]) :: b in f[k])
    && (forall j, b | j in f && j != k && b in c.writes(u.mem, u.threads[k]) :: b !in f[j])
  }

  lemma {:induction false} ViewsAfter<K, T>(c: Machine<T>, s: Sys<K, T>, schedule: seq<K>, k: K)
    requires k in s.threads
    ensures Views(c, s, schedule + [k]) ==
            Views(c, s, schedule)[k := Solo(c, s.mem, s.threads[k], Count(schedule, k) + 1)]
  {
    forall j | j in s.threads
      ensures Count(schedule + [k], j) == Count(schedule, j) + if j == k then 1 else 0
    {
    }
  }

  /** One thread moves on to (v.thread, m1), writing only inside its own footprint. */
  lemma MatchesAfter<K, T>(s: Sys<K, T>, views: map<K, View<T>>, u: Sys<K, T>, f: Footprints<K>, k: K,
                           v: View<T>, m1: Mem, w: set<int>)
    requires Matches(s, views, u, f) && k in views && !v.stuck && |v.mem| == |m1| == |s.mem|
    requires forall b | b in f[k] :: Peek(m1, b) == Peek(v.mem, b)
    requires forall b | b !in w :: Peek(m1, b) == Peek(u.mem, b)
    requires forall b | b in w :: b in f[k]
    requires forall j, b | j in f && j != k && b in w :: b !in f[j]
    ensures Matches(s, views[k := v], Sys(u.threads[k := v.thread], m1), f)
  {
  }

  lemma StepAlike<T(!new)>(c: Machine<T>, m1: Mem, m2: Mem, t: T, f: iset<int>)
    requires Local(c) && !c.halted(t) && c.step(m1, t).Done? && |m1| == |m2|
    requires forall b | b in f :: Peek(m1, b) == Peek(m2, b)
    requires forall b | b in c.touches(m1, t) :: b in f
    ensures SameStep(c, m1, m2, t)
    ensures c.writes(m1, t) <= c.touches(m1, t)
    ensures |c.step(m1, t).mem| == |c.step(m2, t).mem| == |m1|
    ensures forall b | b in f :: Peek(c.step(m1, t).mem, b) == Peek(c.step(m2, t).mem, b)
    ensures forall b | b !in c.writes(m1, t) :: Peek(c.step(m1, t).mem, b) == Peek(m1, b)
  {
    assert AgreeOn(m1, m2, c.touches(m1, t));
    forall b | b in f ensures Peek(c.step(m1, t).mem, b) == Peek(c.step(m2, t).mem, b) {
      if b !in c.writes(m1, t) {
        assert Peek(c.step(m1, t).mem, b) == Peek(m1, b);
        assert Peek(c.step(m2, t).mem, b) == Peek(m2, b);
      }
    }
  }

  lemma MirrorsStart<K, T>(c: Machine<T>, s: Sys<K, T>, f: Footprints<K>)
    requires f.Keys == s.threads.Keys
    ensures Mirrors(c, s, [], s, f)
  {
  }

  lemma {:induction false} MirrorAt<K, T>(c: Machine<T>, s: Sys<K, T>, schedule: seq<K>, u: Sys<K, T>, f: Footprints<K>, k: K)
    requires Mirrors(c, s, schedule, u, f) && (k in u.threads || k in s.threads || k in f)
    ensures k in s.threads && k in u.threads && k in f
    ensures var v := Solo(c, s.mem, s.threads[k], Count(schedule, k));
            !v.stuck && u.threads[k] == v.thread && |v.mem| == |u.mem| == |s.mem|
            && forall b | b in f[k] :: Peek(u.mem, b) == Peek(v.mem, b)
  {
    assert k in Views(c, s, schedule);
  }

  /** A step that respects the footprints is the step the thread takes alone. */
  lemma {:induction false} MirrorStep<K, T(!new)>(c: Machine<T>, s: Sys<K, T>, schedule: seq<K>, u: Sys<K, T>, f: Footprints<K>, k: K)
    requires Local(c) && Mirrors(c, s, schedule, u, f) && CanStep(c, u, k) && Respects(c, u, k, f)
    ensures k in s.threads
    ensures Mirrors(c, s, schedule + [k], StepOf(c, u, k), f)
    ensures SoloTouches(c, s.mem, s.threads[k], Count(schedule, k)) == c.touches(u.mem, u.threads[k])
    ensures SoloWrites(c, s.mem, s.threads[k], Count(schedule, k)) == c.writes(u.mem, u.threads[k])
  {
    hide Local, Matches;
    MirrorAt(c, s, schedule, u, f, k);
    var v, t := Solo(c, s.mem, s.threads[k], Count(schedule, k)), u.threads[k];
    var o1, o2 := c.step(u.mem, t), c.step(v.mem, t);
    StepAlike(c, u.mem, v.mem, t, f[k]);
    ViewsAfter(c, s, schedule, k);
    MatchesAfter(s, Views(c, s, schedule), u, f, k, View(o2.thread, o2.mem, false), o1.mem, c.writes(u.mem, t));
  }

  // ---- Race-free programs -----------------------------------------------------------------

  ghost predicate EverTouches<T>(c: Machine<T>, m: Mem, t: T, b: int) {
    exists n: nat :: b in SoloTouches(c, m, t, n)
  }

  ghost function SoloFootprints<K, T>(c: Machine<T>, s: Sys<K, T>): Footprints<K> {
    map k | k in s.threads :: iset b | EverTouches(c, s.mem, s.threads[k], b)
  }

  /** In a race-free program every schedule leaves every thread where it is alone. */
  lemma {:induction false} RunMirrors<K(!new), T(!new)>(c: Machine<T>, s: Sys<K, T>, schedule: seq<K>)
    requires Local(c) && RaceFree(c, s) && Run(c, s, schedule).Some?
    ensures Mirrors(c, s, schedule, Run(c, s, schedule).value, SoloFootprints(c, s))
  {
    hide Local, Matches, Respects, RaceFree;
    var f := SoloFootprints(c, s);
    if schedule == [] {
      MirrorsStart(c, s, f);
    } else {
      var n := |schedule| - 1;
      var k, u := schedule[n], Run(c, s, schedule[..n]).value;
      RunMirrors(c, s, schedule[..n]);
      MirrorAt(c, s, schedule[..n], u, f, k);
      SoloRespects(c, s, schedule[..n], u, f, k);
      MirrorStep(c, s, schedule[..n], u, f, k);
      assert schedule == schedule[..n] + [k];
    }
  }

  /** While a run mirrors solo runs on their own footprints, the next touches are the solo ones. */
  lemma {:induction false} SoloAgrees<K, T(!new)>(c: Machine<T>, s: Sys<K, T>, schedule: seq<K>, u: Sys<K, T>, f: Footprints<K>, k: K)
    requires Local(c) && Mirrors(c, s, schedule, u, f) && f == SoloFootprints(c, s)
    requires k in u.threads && !c.halted(u.threads[k])
    ensures SoloTouches(c, s.mem, s.threads[k], Count(schedule, k)) == c.touches(u.mem, u.threads[k])
    ensures SoloWrites(c, s.mem, s.threads[k], Count(schedule, k)) == c.writes(u.mem, u.threads[k])
    ensures forall b | b in c.touches(u.mem, u.threads[k]) :: b in f[k]
    ensures SameStep(c, Views(c, s, schedule)[k].mem, u.mem, u.threads[k])
  {
    var v, t := Views(c, s, schedule)[k], u.threads[k];
    var n := Count(schedule, k);
    assert Solo(c, s.mem, s.threads[k], n) == v;
    assert SoloTouches(c, s.mem, s.threads[k], n) == c.touches(v.mem, t);
    assert AgreeOn(v.mem, u.mem, c.touches(v.mem, t));
    assert SameStep(c, v.mem, u.mem, t);
  }

  lemma SoloRespects<K(!new), T(!new)>(c: Machine<T>, s: Sys<K, T>, schedule: seq<K>, u: Sys<K, T>, f: Footprints<K>, k: K)
    requires Local(c) && RaceFree(c, s) && Mirrors(c, s, schedule, u, f) && f == SoloFootprints(c, s)
    requires k in u.threads && !c.halted(u.threads[k])
    ensures Respects(c, u, k, f)
  {
    SoloAgrees(c, s, schedule, u, f, k);
    forall j, b | j in f && j != k && b in c.writes(u.mem, u.threads[k]) ensures b !in f[j] {
      forall p: nat ensures b !in SoloTouches(c, s.mem, s.threads[j], p) {
        assert SoloWrites(c, s.mem, s.threads[k], Count(schedule, k)) !! SoloTouches(c, s.mem, s.threads[j], p);
      }
    }
  }

  lemma {:induction false} SoloHalted<T>(c: Machine<T>, m: Mem, t: T, n: nat, p: nat)
    requires n <= p && !Solo(c, m, t, n).stuck && c.halted(Solo(c, m, t, n).thread)
    ensures Solo(c, m, t, p) == Solo(c, m, t, n)
  {
    if n < p { SoloHalted(c, m, t, n, p - 1); }
  }

  /** Scheduled threads were running: every earlier solo state of a thread is not halted. */
  lemma {:induction false} SoloRunning<K(!new), T(!new)>(c: Machine<T>, s: Sys<K, T>, schedule: seq<K>, k: K, n: nat)
    requires Local(c) && RaceFree(c, s) && Run(c, s, schedule).Some? && k in s.threads && n < Count(schedule, k)
    ensures !c.halted(Solo(c, s.mem, s.threads[k], n).thread)
  {
    hide Local, RaceFree, Solo;
    var l := |schedule| - 1;
    RunMirrors(c, s, schedule[..l]);
    if schedule[l] != k || n < Count(schedule[..l], k) {
      SoloRunning(c, s, schedule[..l], k, n);
    }
  }

  /** Any two complete fault-free schedules of a race-free program give every thread the same
      number of steps and end in the same threads and the same memory. */
  lemma {:induction false} ScheduleIndependence<K(!new), T(!new)>(c: Machine<T>, s: Sys<K, T>, first: seq<K>, second: seq<K>)
    requires Local(c) && RaceFree(c, s) && Completes(c, s, first) && Completes(c, s, second)
    ensures Run(c, s, first) == Run(c, s, second)
    ensures forall k | k in s.threads :: Count(first, k) == Count(second, k)
  {
    var f := SoloFootprints(c, s);
    var u1, u2 := Run(c, s, first).value, Run(c, s, second).value;
    RunMirrors(c, s, first);
    RunMirrors(c, s, second);
    var v1, v2 := Views(c, s, first), Views(c, s, second);
    forall k | k in s.threads ensures v1[k] == v2[k] && Count(first, k) == Count(second, k) {
      SameEnd(c, s, first, second, k);
    }
    assert u1.threads == u2.threads;
    forall b ensures Peek(u1.mem, b) == Peek(u2.mem, b) {
      if k :| k in v1 && b in f[k] {
        assert Peek(u1.mem, b) == Peek(v1[k].mem, b);
      } else {
        assert Peek(u1.mem, b) == Peek(s.mem, b);
      }
    }
    PeekExtensional(u1.mem, u2.mem);
  }

  lemma {:induction false} SameEnd<K(!new), T(!new)>(c: Machine<T>, s: Sys<K, T>, first: seq<K>, second: seq<K>, k: K)
    requires Local(c) && RaceFree(c, s) && Completes(c, s, first) && Completes(c, s, second) && k in s.threads
    ensures Count(first, k) == Count(second, k)
  {
    var n1, n2 := Count(first, k), Count(second, k);
    RunMirrors(c, s, first);
    RunMirrors(c, s, second);
    assert c.halted(Views(c, s, first)[k].thread) && c.halted(Views(c, s, second)[k].thread);
    if n1 < n2 {
      SoloRunning(c, s, second, k, n1);
    } else if n2 < n1 {
      SoloRunning(c, s, first, k, n2);
    }
  }

  lemma PeekExtensional(m1: Mem, m2: Mem)
    requires |m1| == |m2| && forall b :: Peek(m1, b) == Peek(m2, b)
    ensures m1 == m2
  {
    forall i | 0 <= i < |m1| ensures m1[i] == m2[i] {
      assert Peek(m1, i + MBASE) == m1[i] && Peek(m2, i + MBASE) == m2[i];
    }
  }

  /** Once one schedule of a race-free program completes, no other schedule can fault: a thread
      that has not halted can always take its next step. */
  lemma {:induction false} NoScheduleFaults<K(!new), T(!new)>(c: Machine<T>, s: Sys<K, T>, complete: seq<K>, other: seq<K>, k: K)
    requires Local(c) && RaceFree(c, s) && Completes(c, s, complete) && Run(c, s, other).Some?
    requires k in Run(c, s, other).value.threads && !c.halted(Run(c, s, other).value.threads[k])
    ensures CanStep(c, Run(c, s, other).value, k)
  {
    var u := Run(c, s, other).value;
    RunMirrors(c, s, complete);
    RunMirrors(c, s, other);
    var n, p := Count(other, k), Count(complete, k);
    SoloAgrees(c, s, other, u, SoloFootprints(c, s), k);
    if !CanStep(c, u, k) {
      StuckForever(c, s.mem, s.threads[k], n, p);
      if p <= n { SoloHalted(c, s.mem, s.threads[k], p, n); }
    }
  }

  lemma {:induction false} CountIsMultiplicity<K>(schedule: seq<K>, k: K)
    ensures Count(schedule, k) == multiset(schedule)[k]
  {
    if schedule != [] {
      var n := |schedule| - 1;
      CountIsMultiplicity(schedule[..n], k);
      assert schedule == schedule[..n] + [schedule[n]];
    }
  }

  lemma SubBag<K>(a: multiset<K>, b: multiset<K>)
    requires a <= b
    ensures |a| <= |b| && (|a| == |b| ==> a == b)
  {
    var rest := b - a;
    assert b == a + rest;
    assert |a + rest| == |a| + |rest|;
    if |rest| == 0 {
      assert rest == multiset{};
    }
  }

  /** A thread never runs longer than it does in a complete schedule. */
  lemma {:induction false} NeverLonger<K(!new), T(!new)>(c: Machine<T>, s: Sys<K, T>, complete: seq<K>, other: seq<K>, k: K)
    requires Local(c) && RaceFree(c, s) && Completes(c, s, complete) && Run(c, s, other).Some?
    ensures Count(other, k) <= Count(complete, k)
  {
    if Count(complete, k) < Count(other, k) {
      ScheduledKnown(c, s, other, k);
      RunMirrors(c, s, complete);
      MirrorAt(c, s, complete, Run(c, s, complete).value, SoloFootprints(c, s), k);
      SoloRunning(c, s, other, k, Count(complete, k));
    }
  }

  lemma {:induction false} ScheduledKnown<K, T>(c: Machine<T>, s: Sys<K, T>, schedule: seq<K>, k: K)
    requires Run(c, s, schedule).Some? && Count(schedule, k) > 0
    ensures k in s.threads
  {
    var n := |schedule| - 1;
    KeysKept(c, s, schedule[..n]);
    if schedule[n] != k { ScheduledKnown(c, s, schedule[..n], k); }
  }

  /** All schedules of a race-free program have at most the length of a complete one, and one that
      long is complete: however the threads are scheduled, the program ends after the same number
      of steps. */
  lemma {:induction false} LengthDecides<K(!new), T(!new)>(c: Machine<T>, s: Sys<K, T>, complete: seq<K>, other: seq<K>)
    requires Local(c) && RaceFree(c, s) && Completes(c, s, complete) && Run(c, s, other).Some?
    ensures |other| <= |complete|
    ensures |other| == |complete| <==> Completes(c, s, other)
  {
    hide Local, RaceFree;
    forall k ensures multiset(other)[k] <= multiset(complete)[k] {
      NeverLonger(c, s, complete, other, k);
      CountIsMultiplicity(other, k);
      CountIsMultiplicity(complete, k);
    }
    BagSizes(complete, other);
    if |other| == |complete| {
      forall k | k in Run(c, s, other).value.threads ensures c.halted(Run(c, s, other).value.threads[k]) {
        SameCountHalted(c, s, complete, other, k);
      }
    }
    if Completes(c, s, other) {
      forall k ensures multiset(complete)[k] <= multiset(other)[k] {
        NeverLonger(c, s, other, complete, k);
        CountIsMultiplicity(other, k);
        CountIsMultiplicity(complete, k);
      }
      BagSizes(other, complete);
    }
  }

  lemma BagSizes<K>(long: seq<K>, short: seq<K>)
    requires forall k :: multiset(short)[k] <= multiset(long)[k]
    ensures |short| <= |long| && (|short| == |long| ==> multiset(short) == multiset(long))
  {
    assert multiset(short) <= multiset(long);
    SubBag(multiset(short), multiset(long));
    assert |multiset(short)| == |short| && |multiset(long)| == |long|;
  }

  lemma {:induction false} SameCountHalted<K(!new), T(!new)>(c: Machine<T>, s: Sys<K, T>, complete: seq<K>, other: seq<K>, k: K)
    requires Local(c) && RaceFree(c, s) && Completes(c, s, complete) && Run(c, s, other).Some?
    requires multiset(other) == multiset(complete) && k in Run(c, s, other).value.threads
    ensures c.halted(Run(c, s, other).value.threads[k])
  {
    CountIsMultiplicity(other, k);
    CountIsMultiplicity(complete, k);
    var f := SoloFootprints(c, s);
    RunMirrors(c, s, complete);
    RunMirrors(c, s, other);
    MirrorAt(c, s, other, Run(c, s, other).value, f, k);
    MirrorAt(c, s, complete, Run(c, s, complete).value, f, k);
  }

  lemma {:induction false} StuckForever<T>(c: Machine<T>, m: Mem, t: T, n: nat, p: nat)
    requires var l := Solo(c, m, t, n); !l.stuck && !c.halted(l.thread) && !c.step(l.mem, l.thread).Done?
    ensures n < p ==> Solo(c, m, t, p).stuck
  {
    if n + 1 < p { StuckForever(c, m, t, n, p - 1); }
  }

  // ---- Races seen in a run against races of the program -----------------------------------

  function TouchesAt<K, T>(c: Machine<T>, s: Sys<K, T>, schedule: seq<K>, p: nat): set<int>
    requires p < |schedule|
  {
    match Run(c, s, schedule[..p])
    case Some(u) => if CanStep(c, u, schedule[p]) then c.touches(u.mem, u.threads[schedule[p]]) else {}
    case None => {}
  }

  function WritesAt<K, T>(c: Machine<T>, s: Sys<K, T>, schedule: seq<K>, p: nat): set<int>
    requires p < |schedule|
  {
    match Run(c, s, schedule[..p])
    case Some(u) => if CanStep(c, u, schedule[p]) then c.writes(u.mem, u.threads[schedule[p]]) else {}
    case None => {}
  }

  /** In this run no step touches a byte that a step of another thread writes. */
  ghost predicate ObservedRaceFree<K, T>(c: Machine<T>, s: Sys<K, T>, schedule: seq<K>) {
    forall p, q | 0 <= p < |schedule| && 0 <= q < |schedule| && schedule[p] != schedule[q] ::
      WritesAt(c, s, schedule, p) !! TouchesAt(c, s, schedule, q)
  }

  lemma {:induction false} PrefixRuns<K, T>(c: Machine<T>, s: Sys<K, T>, schedule: seq<K>, p: nat)
    requires p <= |schedule| && Run(c, s, schedule).Some?
    ensures Run(c, s, schedule[..p]).Some?
    ensures p < |schedule| ==> CanStep(c, Run(c, s, schedule[..p]).value, schedule[p])
    ensures p < |schedule| ==> Run(c, s, schedule[..p + 1]) == Some(StepOf(c, Run(c, s, schedule[..p]).value, schedule[p]))
  {
    var n := |schedule| - 1;
    if p == |schedule| {
      assert schedule[..p] == schedule;
    } else if p == n {
      assert schedule[..p + 1] == schedule;
    } else {
      PrefixRuns(c, s, schedule[..n], p);
      assert schedule[..n][..p] == schedule[..p] && schedule[..n][..p + 1] == schedule[..p + 1];
    }
  }

  lemma {:induction false} KeysKept<K, T>(c: Machine<T>, s: Sys<K, T>, schedule: seq<K>)
    requires Run(c, s, schedule).Some?
    ensures Run(c, s, schedule).value.threads.Keys == s.threads.Keys
  {
    if schedule != [] { KeysKept(c, s, schedule[..|schedule| - 1]); }
  }

  /** How often thread k takes a step that stops it. */
  function Halts<K(==), T>(c: Machine<T>, s: Sys<K, T>, schedule: seq<K>, k: K): nat {
    if schedule == [] then 0
    else
      var n := |schedule| - 1;
      Halts(c, s, schedule[..n], k) +
      match Run(c, s, schedule[..n])
      case None => 0
      case Some(u) =>
        if schedule[n] == k && CanStep(c, u, k) && c.halted(StepOf(c, u, k).threads[k]) then 1 else 0
  }

  /** A thread stops at most once, and exactly once when it ends stopped. */
  lemma {:induction false} HaltsOnce<K, T>(c: Machine<T>, s: Sys<K, T>, schedule: seq<K>, k: K)
    requires Run(c, s, schedule).Some? && k in s.threads && !c.halted(s.threads[k])
    ensures k in Run(c, s, schedule).value.threads
    ensures Halts(c, s, schedule, k) == if c.halted(Run(c, s, schedule).value.threads[k]) then 1 else 0
  {
    KeysKept(c, s, schedule);
    if schedule != [] {
      HaltsOnce(c, s, schedule[..|schedule| - 1], k);
    }
  }

  lemma {:induction false} NthOccurrence<K>(schedule: seq<K>, k: K, n: nat) returns (p: nat)
    requires n < Count(schedule, k)
    ensures p < |schedule| && schedule[p] == k && Count(schedule[..p], k) == n
  {
    var l := |schedule| - 1;
    if n < Count(schedule[..l], k) {
      p := NthOccurrence(schedule[..l], k, n);
      assert schedule[..l][..p] == schedule[..p];
    } else {
      p := l;
    }
  }

  ghost predicate TouchedBy<K, T>(c: Machine<T>, s: Sys<K, T>, schedule: seq<K>, k: K, b: int) {
    exists p :: 0 <= p < |schedule| && schedule[p] == k && b in TouchesAt(c, s, schedule, p)
  }

  ghost function ObservedFootprints<K, T>(c: Machine<T>, s: Sys<K, T>, schedule: seq<K>): Footprints<K> {
    map k | k in s.threads :: iset b | TouchedBy(c, s, schedule, k, b)
  }

  lemma {:induction false} ObservedRespects<K, T>(c: Machine<T>, s: Sys<K, T>, schedule: seq<K>, p: nat)
    requires ObservedRaceFree(c, s, schedule) && p < |schedule| && Run(c, s, schedule[..p]).Some?
    requires CanStep(c, Run(c, s, schedule[..p]).value, schedule[p])
    requires Run(c, s, schedule[..p]).value.threads.Keys == s.threads.Keys
    ensures Respects(c, Run(c, s, schedule[..p]).value, schedule[p], ObservedFootprints(c, s, schedule))
  {
    var f, k := ObservedFootprints(c, s, schedule), schedule[p];
    var u := Run(c, s, schedule[..p]).value;
    assert WritesAt(c, s, schedule, p) == c.writes(u.mem, u.threads[k]);
    assert TouchesAt(c, s, schedule, p) == c.touches(u.mem, u.threads[k]);
    forall j, b | j in f && j != k && b in WritesAt(c, s, schedule, p) ensures b !in f[j] {
      forall q | 0 <= q < |schedule| && schedule[q] == j ensures b !in TouchesAt(c, s, schedule, q) {
        assert WritesAt(c, s, schedule, p) !! TouchesAt(c, s, schedule, q);
      }
    }
  }

  /** Step p of the schedule has the footprint its thread has alone at that point. */
  predicate SoloAt<K, T>(c: Machine<T>, s: Sys<K, T>, schedule: seq<K>, p: nat)
    requires p < |schedule|
  {
    var k, before := schedule[p], schedule[..p];
    && k in s.threads
    && SoloTouches(c, s.mem, s.threads[k], Count(before, k)) == TouchesAt(c, s, schedule, p)
    && SoloWrites(c, s.mem, s.threads[k], Count(before, k)) == WritesAt(c, s, schedule, p)
  }

  lemma {:induction false} ObservedStep<K, T(!new)>(c: Machine<T>, s: Sys<K, T>, schedule: seq<K>, p: nat)
    requires Local(c) && Run(c, s, schedule).Some? && ObservedRaceFree(c, s, schedule) && p < |schedule|
    requires Run(c, s, schedule[..p]).Some?
    requires Mirrors(c, s, schedule[..p], Run(c, s, schedule[..p]).value, ObservedFootprints(c, s, schedule))
    ensures Run(c, s, schedule[..p + 1]).Some? && SoloAt(c, s, schedule, p)
    ensures Mirrors(c, s, schedule[..p + 1], Run(c, s, schedule[..p + 1]).value, ObservedFootprints(c, s, schedule))
  {
    hide Local, Mirrors, Respects, ObservedRaceFree, SoloTouches, SoloWrites;
    PrefixRuns(c, s, schedule, p);
    var f, k, u := ObservedFootprints(c, s, schedule), schedule[p], Run(c, s, schedule[..p]).value;
    KeysKept(c, s, schedule[..p]);
    ObservedRespects(c, s, schedule, p);
    MirrorStep(c, s, schedule[..p], u, f, k);
    assert schedule[..p + 1] == schedule[..p] + [k];
  }

  /** A run without observed races leaves every thread where it is alone. */
  lemma {:induction false} ObservedMirrors<K, T(!new)>(c: Machine<T>, s: Sys<K, T>, schedule: seq<K>, p: nat)
    requires Local(c) && Run(c, s, schedule).Some? && ObservedRaceFree(c, s, schedule) && p <= |schedule|
    ensures Run(c, s, schedule[..p]).Some?
    ensures Mirrors(c, s, schedule[..p], Run(c, s, schedule[..p]).value, ObservedFootprints(c, s, schedule))
    ensures p > 0 ==> SoloAt(c, s, schedule, p - 1)
  {
    hide Local, Mirrors, ObservedRaceFree, SoloAt;
    if p == 0 {
      assert schedule[..0] == [];
      MirrorsStart(c, s, ObservedFootprints(c, s, schedule));
    } else {
      ObservedMirrors(c, s, schedule, p - 1);
      ObservedStep(c, s, schedule, p - 1);
    }
  }

  /** A program is race-free exactly when one complete run of it shows no race, so racing cannot
      hide behind a lucky schedule. */
  lemma RaceFreeIffObserved<K(!new), T(!new)>(c: Machine<T>, s: Sys<K, T>, schedule: seq<K>)
    requires Local(c) && Completes(c, s, schedule)
    ensures RaceFree(c, s) <==> ObservedRaceFree(c, s, schedule)
  {
    if RaceFree(c, s) {
      forall p, q | 0 <= p < |schedule| && 0 <= q < |schedule| && schedule[p] != schedule[q]
        ensures WritesAt(c, s, schedule, p) !! TouchesAt(c, s, schedule, q)
      {
        SoloStepAt(c, s, schedule, p);
        SoloStepAt(c, s, schedule, q);
      }
    }
    if ObservedRaceFree(c, s, schedule) {
      forall i, j, n: nat, m: nat | i in s.threads && j in s.threads && i != j
        ensures SoloWrites(c, s.mem, s.threads[i], n) !! SoloTouches(c, s.mem, s.threads[j], m)
      {
        if n < Count(schedule, i) && m < Count(schedule, j) {
          var p := NthOccurrence(schedule, i, n);
          var q := NthOccurrence(schedule, j, m);
          ObservedMirrors(c, s, schedule, p + 1);
          ObservedMirrors(c, s, schedule, q + 1);
          assert WritesAt(c, s, schedule, p) !! TouchesAt(c, s, schedule, q);
        } else {
          ObservedMirrors(c, s, schedule, |schedule|);
          assert schedule[..|schedule|] == schedule;
          var u, f := Run(c, s, schedule).value, ObservedFootprints(c, s, schedule);
          MirrorAt(c, s, schedule, u, f, i);
          MirrorAt(c, s, schedule, u, f, j);
          if n >= Count(schedule, i) { SoloHalted(c, s.mem, s.threads[i], Count(schedule, i), n); }
          if m >= Count(schedule, j) { SoloHalted(c, s.mem, s.threads[j], Count(schedule, j), m); }
        }
      }
    }
  }

  lemma {:induction false} SoloStepAt<K(!new), T(!new)>(c: Machine<T>, s: Sys<K, T>, schedule: seq<K>, p: nat)
    requires Local(c) && RaceFree(c, s) && Run(c, s, schedule).Some? && p < |schedule|
    ensures SoloAt(c, s, schedule, p)
  {
    PrefixRuns(c, s, schedule, p);
    RunMirrors(c, s, schedule[..p]);
    SoloAgrees(c, s, schedule[..p], Run(c, s, schedule[..p]).value, SoloFootprints(c, s), schedule[p]);
  }
}
