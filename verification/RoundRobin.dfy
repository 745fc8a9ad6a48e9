/** Round-robin selection: the scan used for warps and for cores, the two other selector circuits,
    and fairness. */
module RoundRobin {
  import opened Word

  /** The entry at offset k from rr, going round n entries. */
  function At(n: nat, rr: nat, k: nat): (x: nat)
    requires n >= 1
    ensures x < n
  {
    (rr + k) % n
  }

  predicate FlagAt(flags: seq<bool>, rr: nat, k: nat)
    requires |flags| >= 1
  {
    flags[At(|flags|, rr, k)]
  }

  /** First set flag at offset i or later from rr. */
  function Scan(flags: seq<bool>, rr: nat, i: nat): (sel: Option<nat>)
    requires i <= |flags|
    ensures sel.Some? ==> sel.value < |flags| && flags[sel.value]
    decreases |flags| - i
  {
    if i == |flags| then None
    else if FlagAt(flags, rr, i) then Some(At(|flags|, rr, i)) else Scan(flags, rr, i + 1)
  }

  /** The scan as the sources write it: a loop over all offsets that keeps the first hit. */
  method FirstFound(flags: seq<bool>, rr: nat) returns (found: bool, sel: nat)
    requires |flags| >= 1
    ensures found == Scan(flags, rr, 0).Some?
    ensures found ==> sel == Scan(flags, rr, 0).value
  {
    found, sel := false, 0;
    for i := 0 to |flags|
      invariant !found ==> Scan(flags, rr, i) == Scan(flags, rr, 0)
      invariant found ==> Scan(flags, rr, 0) == Some(sel)
    {
      var x := At(|flags|, rr, i);
      if !found && flags[x] {
        found, sel := true, x;
      }
    }
  }

  /** The scan fails only when no flag is set. */
  lemma {:induction false} ScanNone(flags: seq<bool>, rr: nat, i: nat)
    requires i <= |flags| && |flags| >= 1
    ensures Scan(flags, rr, i).None? <==> forall k | i <= k < |flags| :: !FlagAt(flags, rr, k)
    decreases |flags| - i
  {
    if i < |flags| && !FlagAt(flags, rr, i) { ScanNone(flags, rr, i + 1); }
  }

  /** The scan picks the set flag at the smallest offset. */
  lemma {:induction false} ScanFirst(flags: seq<bool>, rr: nat, i: nat) returns (k: nat)
    requires i <= |flags| && Scan(flags, rr, i).Some?
    ensures i <= k < |flags| && Scan(flags, rr, i).value == At(|flags|, rr, k) && FlagAt(flags, rr, k)
    ensures forall j | i <= j < k :: !FlagAt(flags, rr, j)
    decreases |flags| - i
  {
    k := i;
    if !FlagAt(flags, rr, i) { k := ScanFirst(flags, rr, i + 1); }
  }

  // ---- The selector of the Chisel core: rotate, then priority-encode ----------------------

  function Rotated(flags: seq<bool>, rr: nat): seq<bool>
    requires rr < |flags|
  {
    (flags + flags)[rr..rr + |flags|]
  }

  /** Index of the lowest set bit; the last index when no bit is set. */
  function PriorityEncode(bits: seq<bool>, i: nat): nat
    requires i < |bits|
    decreases |bits| - i
  {
    if bits[i] || i == |bits| - 1 then i else PriorityEncode(bits, i + 1)
  }

  /** The sum is truncated to the register width of the warp index. */
  function RotateSelect(flags: seq<bool>, rr: nat, span: nat): nat
    requires rr < |flags| && span >= 1
  {
    (rr + PriorityEncode(Rotated(flags, rr), 0)) % span
  }

  // ---- The selector of the SpinalHDL core: reverse scan, last assignment wins --------------

  method ReverseScan(flags: seq<bool>, rr: nat, span: nat) returns (selected: nat)
    requires rr < |flags| && span == |flags| && (true in flags)
    ensures Scan(flags, rr, 0) == Some(selected)
  {
    selected := rr;
    var o := |flags|;
    while o > 0
      invariant 0 <= o <= |flags|
      invariant Scan(flags, rr, o).Some? ==> Scan(flags, rr, o).value == selected
    {
      o := o - 1;
      if flags[(rr + o) % span] {
        selected := (rr + o) % span;
      }
    }
    SomeFlag(flags, rr);
  }

  /** Steps from p forward to x, going round n entries. */
  function Distance(n: nat, p: nat, x: nat): nat
    requires p < n && x < n
  {
    if x >= p then x - p else x + n - p
  }

  lemma AtDistance(n: nat, p: nat, x: nat)
    requires p < n && x < n
    ensures At(n, p, Distance(n, p, x)) == x
  {
    if x < p { WrapOnce(n, x); }
  }

  lemma AtOffset(n: nat, p: nat, k: nat)
    requires p < n && k < n
    ensures At(n, p, k) == if p + k < n then p + k else p + k - n
  {
    if p + k >= n { WrapOnce(n, p + k - n); }
  }

  lemma WrapOnce(n: nat, x: nat)
    requires x < n
    ensures (x + n) % n == x
  {
  }

  lemma {:induction false} SomeFlag(flags: seq<bool>, rr: nat)
    requires rr < |flags| && true in flags
    ensures Scan(flags, rr, 0).Some?
  {
    var x :| 0 <= x < |flags| && flags[x];
    AtDistance(|flags|, rr, x);
    ScanNone(flags, rr, 0);
    assert FlagAt(flags, rr, Distance(|flags|, rr, x));
  }

  lemma {:induction false} EncodeIsScan(flags: seq<bool>, rr: nat, i: nat)
    requires rr < |flags| && i < |flags| && Scan(flags, rr, i).Some?
    ensures Scan(flags, rr, i).value == At(|flags|, rr, PriorityEncode(Rotated(flags, rr), i))
    decreases |flags| - i
  {
    AtOffset(|flags|, rr, i);
    assert Rotated(flags, rr)[i] == FlagAt(flags, rr, i);
    if !FlagAt(flags, rr, i) {
      EncodeIsScan(flags, rr, i + 1);
    }
  }

  /** Register width of an index into n entries: ceil(log2 n), at least one bit. */
  function IndexBits(n: nat): nat {
    if n <= 2 then 1 else 1 + IndexBits((n + 1) / 2)
  }

  lemma {:induction false} IndexSpan(k: nat)
    requires k >= 1
    ensures Pow2(IndexBits(Pow2(k))) == Pow2(k)
  {
    if k > 1 {
      assert Pow2(k) == 2 * Pow2(k - 1) && Pow2(k - 1) == 2 * Pow2(k - 2);
      assert (Pow2(k) + 1) / 2 == Pow2(k - 1);
      IndexSpan(k - 1);
    }
  }

  lemma {:induction false} IndexCovers(n: nat)
    requires n >= 1
    ensures Pow2(IndexBits(n)) >= n
  {
    if n > 2 {
      IndexCovers((n + 1) / 2);
      assert Pow2(IndexBits(n)) == 2 * Pow2(IndexBits((n + 1) / 2));
    }
  }

  predicate SelectorsMeet(flags: seq<bool>, rr: nat)
    requires rr < |flags|
  {
    Scan(flags, rr, 0) == Some(RotateSelect(flags, rr, Pow2(IndexBits(|flags|))))
  }

  lemma {:induction false} SelectorsAgree(flags: seq<bool>, rr: nat)
    requires rr < |flags| && true in flags && (|flags| == 1 || Pow2(IndexBits(|flags|)) == |flags|)
    ensures SelectorsMeet(flags, rr)
  {
    SomeFlag(flags, rr);
    EncodeIsScan(flags, rr, 0);
    if |flags| == 1 {
      assert PriorityEncode(Rotated(flags, rr), 0) == 0;
    }
  }

  /** For every power-of-two warp count and every nonempty active set the rotating priority
      encoder, with its sum cut to the index width, selects the warp the scan selects. */
  lemma {:induction false} PowerOfTwoSelectorsAgree(flags: seq<bool>, rr: nat, k: nat)
    requires |flags| == Pow2(k) && rr < |flags| && true in flags
    ensures SelectorsMeet(flags, rr)
  {
    if k >= 1 { IndexSpan(k); }
    SelectorsAgree(flags, rr);
  }

  lemma SmallMod(x: nat, d: nat)
    requires x < d
    ensures x % d == x
  {
  }

  lemma LoneFlag(flags: seq<bool>, n: nat, span: nat)
    requires n >= 2 && |flags| == n && flags[0] && (forall x | 1 <= x < n :: !flags[x]) && span > n
    ensures Scan(flags, n - 1, 0) == Some(0) && RotateSelect(flags, n - 1, span) == n
  {
    var rr := n - 1;
    AtOffset(n, rr, 0);
    AtOffset(n, rr, 1);
    assert !FlagAt(flags, rr, 0) && FlagAt(flags, rr, 1);
    assert Scan(flags, rr, 1) == Some(0);
    var bits := Rotated(flags, rr);
    assert !bits[0] && bits[1];
    assert PriorityEncode(bits, 1) == 1;
    assert PriorityEncode(bits, 0) == 1;
    SmallMod(rr + 1, span);
  }

  /** The two selectors agree on all inputs exactly when the index register counts to the number
      of warps, that is for powers of two. */
  lemma {:induction false} SelectorsAgreeIff(n: nat)
    requires n >= 1
    ensures (forall flags: seq<bool>, rr: nat | |flags| == n && rr < n && true in flags :: SelectorsMeet(flags, rr))
            <==> n == 1 || Pow2(IndexBits(n)) == n
  {
    IndexCovers(n);
    if n == 1 || Pow2(IndexBits(n)) == n {
      forall flags: seq<bool>, rr: nat | |flags| == n && rr < n && true in flags ensures SelectorsMeet(flags, rr) {
        SelectorsAgree(flags, rr);
      }
    } else {
      var flags := seq(n, x => x == 0);
      assert flags[0];
      LoneFlag(flags, n, Pow2(IndexBits(n)));
      assert !SelectorsMeet(flags, n - 1);
    }
  }

  // ---- Fairness ---------------------------------------------------------------------------

  function Successor(sel: nat, n: nat): nat { if sel == n - 1 then 0 else sel + 1 }

  /** The pointer after a series of selections, each over its own flags. */
  function Pointer(rounds: seq<seq<bool>>, rr: nat, n: nat): (p: nat)
    requires n >= 1 && rr < n && forall k | 0 <= k < |rounds| :: |rounds[k]| == n && true in rounds[k]
    ensures p < n
  {
    if rounds == [] then rr
    else
      var p := Pointer(rounds[..|rounds| - 1], rr, n);
      var last := rounds[|rounds| - 1];
      SomeFlag(last, p);
      Successor(Scan(last, p, 0).value, n)
  }

  function Selected(rounds: seq<seq<bool>>, rr: nat, n: nat, k: nat): (sel: nat)
    requires n >= 1 && rr < n && k < |rounds|
    requires forall k | 0 <= k < |rounds| :: |rounds[k]| == n && true in rounds[k]
    ensures sel < n && rounds[k][sel]
  {
    var p := Pointer(rounds[..k], rr, n);
    SomeFlag(rounds[k], p);
    Scan(rounds[k], p, 0).value
  }

  lemma {:induction false} SelectionApproaches(flags: seq<bool>, p: nat, x: nat)
    requires p < |flags| && x < |flags| && flags[x]
    ensures Scan(flags, p, 0).Some?
    ensures var n, sel := |flags|, Scan(flags, p, 0).value;
            sel == x || Distance(n, Successor(sel, n), x) < Distance(n, p, x)
  {
    var n := |flags|;
    SomeFlag(flags, p);
    var k := ScanFirst(flags, p, 0);
    var d := Distance(n, p, x);
    AtDistance(n, p, x);
    assert FlagAt(flags, p, d);
    assert k <= d;
    AtOffset(n, p, k);
  }

  /** A flag that stays set is selected within n selections. */
  lemma {:induction false} Fair(rounds: seq<seq<bool>>, rr: nat, n: nat, x: nat, d: nat)
    requires n >= 1 && rr < n && x < n
    requires forall k | 0 <= k < |rounds| :: |rounds[k]| == n && rounds[k][x]
    requires |rounds| > d >= Distance(n, rr, x)
    ensures exists k :: 0 <= k <= d && Selected(rounds, rr, n, k) == x
    decreases d
  {
    var first := rounds[0];
    SelectionApproaches(first, rr, x);
    var sel := Scan(first, rr, 0).value;
    assert rounds[..0] == [];
    assert Selected(rounds, rr, n, 0) == sel;
    if sel != x {
      var rest, p := rounds[1..], Successor(sel, n);
      Fair(rest, p, n, x, d - 1);
      var k :| 0 <= k <= d - 1 && Selected(rest, p, n, k) == x;
      PointerShift(rounds, rr, n, k + 1);
      assert rounds[1..][..k] == rounds[1..k + 1];
      assert Selected(rounds, rr, n, k + 1) == x;
    }
  }

  lemma {:induction false} PointerShift(rounds: seq<seq<bool>>, rr: nat, n: nat, k: nat)
    requires n >= 1 && rr < n && 1 <= k <= |rounds|
    requires forall k | 0 <= k < |rounds| :: |rounds[k]| == n && true in rounds[k]
    ensures Scan(rounds[0], rr, 0).Some?
    ensures Pointer(rounds[..k], rr, n) == Pointer(rounds[1..k], Successor(Scan(rounds[0], rr, 0).value, n), n)
  {
    SomeFlag(rounds[0], rr);
    if k == 1 {
      assert rounds[..1][..0] == [] && rounds[1..1] == [];
    } else {
      PointerShift(rounds, rr, n, k - 1);
      assert rounds[..k][..k - 1] == rounds[..k - 1];
      assert rounds[1..k][..k - 2] == rounds[1..k - 1];
    }
  }

  /** The starvation bound of the warp scheduler: n selections over n entries suffice. */
  lemma SelectedWithinN(rounds: seq<seq<bool>>, rr: nat, n: nat, x: nat)
    requires n >= 1 && rr < n && x < n && |rounds| >= n
    requires forall k | 0 <= k < |rounds| :: |rounds[k]| == n && rounds[k][x]
    ensures exists k :: 0 <= k < n && Selected(rounds, rr, n, k) == x
  {
    Fair(rounds, rr, n, x, n - 1);
    var k :| 0 <= k <= n - 1 && Selected(rounds, rr, n, k) == x;
  }
}
