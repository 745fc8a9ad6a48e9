/** One level of && or ||: its operands as a sequence, and the tree rebuilt around new operands. The
    rewriting passes of tools/kconfig/expr.c walk two such levels operand by operand. */
module KconfigLeaves {
  import opened Word
  import opened KconfigExpr
  import opened KconfigTransform

  datatype Junction = Conj | Disj

  predicate IsNode(op: Junction, e: Expr) { if op.Conj? then e.EAnd? else e.EOr? }

  predicate IsJunction(e: Expr) { e.EAnd? || e.EOr? }

  function JunctionOf(e: Expr): Junction { if e.EAnd? then Conj else Disj }

  function Join(op: Junction, a: Expr, b: Expr): Expr { if op.Conj? then EAnd(a, b) else EOr(a, b) }

  /** The operand that disappears: y under &&, n under ||. */
  function Neutral(op: Junction): Expr { ESym(if op.Conj? then YES else NO) }

  function Combine(op: Junction, a: Tri, b: Tri): Tri { if op.Conj? then Min(a, b) else Max(a, b) }

  function Identity(op: Junction): Tri { if op.Conj? then 2 else 0 }

  /** The operands of the level, left to right. */
  function Leaves(op: Junction, e: Expr): (r: seq<Expr>)
    ensures |r| >= 1 && (IsNode(op, e) ==> |r| >= 2)
    ensures forall k | 0 <= k < |r| :: !IsNode(op, r[k])
  {
    if IsNode(op, e) then Leaves(op, e.l) + Leaves(op, e.r) else [e]
  }

  /** The same level around other operands. */
  function Rebuild(op: Junction, e: Expr, leaves: seq<Expr>): Expr
    requires |leaves| == |Leaves(op, e)|
  {
    if IsNode(op, e) then
      var n := |Leaves(op, e.l)|;
      Join(op, Rebuild(op, e.l, leaves[..n]), Rebuild(op, e.r, leaves[n..]))
    else leaves[0]
  }

  function Fold(op: Junction, v: Valuation, leaves: seq<Expr>): Tri {
    if leaves == [] then Identity(op) else Combine(op, Eval(v, leaves[0]), Fold(op, v, leaves[1..]))
  }

  function Total(leaves: seq<Expr>): nat {
    if leaves == [] then 0 else Size(leaves[0]) + Total(leaves[1..])
  }

  lemma {:induction false} FoldAppend(op: Junction, v: Valuation, a: seq<Expr>, b: seq<Expr>)
    ensures Fold(op, v, a + b) == Combine(op, Fold(op, v, a), Fold(op, v, b))
  {
    if a == [] {
      assert a + b == b;
    } else {
      FoldAppend(op, v, a[1..], b);
      assert (a + b)[1..] == a[1..] + b;
    }
  }

  lemma {:induction false} TotalAppend(a: seq<Expr>, b: seq<Expr>)
    ensures Total(a + b) == Total(a) + Total(b)
  {
    if a == [] {
      assert a + b == b;
    } else {
      TotalAppend(a[1..], b);
      assert (a + b)[1..] == a[1..] + b;
    }
  }

  lemma {:induction false} FoldOne(op: Junction, v: Valuation, e: Expr)
    ensures Fold(op, v, [e]) == Eval(v, e)
  {
    assert Fold(op, v, [e][1..]) == Identity(op);
  }

  /** A rebuilt level means the fold of its operands. */
  lemma {:induction false} RebuildMeaning(op: Junction, v: Valuation, e: Expr, leaves: seq<Expr>)
    requires |leaves| == |Leaves(op, e)|
    ensures Eval(v, Rebuild(op, e, leaves)) == Fold(op, v, leaves)
  {
    if IsNode(op, e) {
      var n := |Leaves(op, e.l)|;
      RebuildMeaning(op, v, e.l, leaves[..n]);
      RebuildMeaning(op, v, e.r, leaves[n..]);
      FoldAppend(op, v, leaves[..n], leaves[n..]);
      assert leaves == leaves[..n] + leaves[n..];
    } else {
      assert leaves == [leaves[0]];
      FoldOne(op, v, leaves[0]);
    }
  }

  lemma {:induction false} RebuildSame(op: Junction, e: Expr)
    ensures Rebuild(op, e, Leaves(op, e)) == e
  {
    if IsNode(op, e) {
      var n := |Leaves(op, e.l)|;
      assert Leaves(op, e)[..n] == Leaves(op, e.l) && Leaves(op, e)[n..] == Leaves(op, e.r);
      RebuildSame(op, e.l);
      RebuildSame(op, e.r);
    }
  }

  lemma {:induction false} LeavesMeaning(op: Junction, v: Valuation, e: Expr)
    ensures Eval(v, e) == Fold(op, v, Leaves(op, e))
  {
    RebuildSame(op, e);
    RebuildMeaning(op, v, e, Leaves(op, e));
  }

  lemma {:induction false} RebuildSize(op: Junction, e: Expr, leaves: seq<Expr>)
    requires |leaves| == |Leaves(op, e)|
    ensures Size(Rebuild(op, e, leaves)) == Total(leaves) + |leaves| - 1
  {
    if IsNode(op, e) {
      var n := |Leaves(op, e.l)|;
      RebuildSize(op, e.l, leaves[..n]);
      RebuildSize(op, e.r, leaves[n..]);
      TotalAppend(leaves[..n], leaves[n..]);
      assert leaves == leaves[..n] + leaves[n..];
    } else {
      assert leaves == [leaves[0]];
      assert Total(leaves[1..]) == 0;
    }
  }

  lemma {:induction false} LeavesSize(op: Junction, e: Expr)
    ensures Size(e) == Total(Leaves(op, e)) + |Leaves(op, e)| - 1
  {
    RebuildSame(op, e);
    RebuildSize(op, e, Leaves(op, e));
  }

  lemma {:induction false} RebuildNode(op: Junction, e: Expr, leaves: seq<Expr>)
    requires |leaves| == |Leaves(op, e)| && IsNode(op, e)
    ensures IsNode(op, Rebuild(op, e, leaves))
  {
  }

  lemma {:induction false} TotalBound(leaves: seq<Expr>)
    ensures Total(leaves) >= |leaves|
  {
    if leaves != [] { TotalBound(leaves[1..]); }
  }

  /** Replacing one operand changes the total by the difference. */
  lemma {:induction false} TotalUpdate(leaves: seq<Expr>, i: nat, x: Expr)
    requires i < |leaves|
    ensures Total(leaves[i := x]) == Total(leaves) - Size(leaves[i]) + Size(x)
    ensures Size(leaves[i]) + |leaves| - 1 <= Total(leaves)
  {
    TotalBound(leaves[1..]);
    if i > 0 {
      TotalUpdate(leaves[1..], i - 1, x);
      assert leaves[i := x][1..] == leaves[1..][i - 1 := x];
    } else {
      assert leaves[i := x][1..] == leaves[1..];
    }
  }

  /** An operand replaced by the neutral one can be put back. */
  lemma {:induction false} FoldUpdate(op: Junction, v: Valuation, leaves: seq<Expr>, i: nat, x: Expr)
    requires i < |leaves| && Eval(v, Neutral(op)) == Identity(op)
    ensures Fold(op, v, leaves[i := x]) == Combine(op, Fold(op, v, leaves[i := Neutral(op)]), Eval(v, x))
  {
    var n := leaves[i := Neutral(op)];
    if i == 0 {
      assert leaves[i := x][1..] == n[1..] == leaves[1..];
    } else {
      FoldUpdate(op, v, leaves[1..], i - 1, x);
      assert leaves[i := x][1..] == leaves[1..][i - 1 := x];
      assert n[1..] == leaves[1..][i - 1 := Neutral(op)];
    }
  }

  // ---- Removing constants -----------------------------------------------------------------

  /** A junction of two simplified operands. */
  function Reduce(op: Junction, a: Expr, b: Expr): (r: Expr)
    ensures Size(r) <= 1 + Size(a) + Size(b)
    ensures a == Neutral(op) || b == Neutral(op) ==> Size(r) <= Size(a) + Size(b)
  {
    var other := Neutral(if op.Conj? then Disj else Conj);
    if a == other then other
    else if a == Neutral(op) then b
    else if b == other then other
    else if b == Neutral(op) then a
    else Join(op, a, b)
  }

  /** `expr_eliminate_yn`. */
  function EliminateYn(e: Expr): (r: Expr)
    ensures Size(r) <= Size(e)
  {
    if IsJunction(e) then Reduce(JunctionOf(e), EliminateYn(e.l), EliminateYn(e.r)) else e
  }

  /** Removing constants keeps the value. */
  lemma {:induction false} EliminateYnMeaning(v: Valuation, e: Expr)
    requires v.tri(YES) == 2 && v.tri(NO) == 0
    ensures Eval(v, EliminateYn(e)) == Eval(v, e)
  {
    if IsJunction(e) {
      EliminateYnMeaning(v, e.l);
      EliminateYnMeaning(v, e.r);
    }
  }

  /** Some operand of a level is its neutral constant. */
  predicate HasNeutral(e: Expr) {
    if IsJunction(e) then
      e.l == Neutral(JunctionOf(e)) || e.r == Neutral(JunctionOf(e)) || HasNeutral(e.l) || HasNeutral(e.r)
    else false
  }

  /** Then removing constants shrinks the expression. */
  lemma {:induction false} NeutralShrinks(e: Expr)
    requires HasNeutral(e)
    ensures Size(EliminateYn(e)) < Size(e)
  {
    hide Reduce;
    if HasNeutral(e.l) { NeutralShrinks(e.l); }
    if HasNeutral(e.r) { NeutralShrinks(e.r); }
  }

  /** A neutral operand anywhere in the level counts. */
  lemma {:induction false} NeutralLeaf(op: Junction, e: Expr, leaves: seq<Expr>, k: nat)
    requires |leaves| == |Leaves(op, e)| && IsNode(op, e) && k < |leaves|
    requires leaves[k] == Neutral(op) || HasNeutral(leaves[k])
    ensures HasNeutral(Rebuild(op, e, leaves))
  {
    var n := |Leaves(op, e.l)|;
    if k < n {
      if IsNode(op, e.l) { NeutralLeaf(op, e.l, leaves[..n], k); }
    } else {
      if IsNode(op, e.r) { NeutralLeaf(op, e.r, leaves[n..], k - n); }
    }
  }

  // ---- Constants --------------------------------------------------------------------------

  predicate AllOver(leaves: seq<Expr>, cs: set<Symbol>) { forall k | 0 <= k < |leaves| :: Over(leaves[k], cs) }

  lemma {:induction false} LeavesOver(op: Junction, e: Expr, cs: set<Symbol>)
    requires Over(e, cs)
    ensures AllOver(Leaves(op, e), cs)
  {
    if IsNode(op, e) {
      LeavesOver(op, e.l, cs);
      LeavesOver(op, e.r, cs);
    }
  }

  lemma {:induction false} RebuildOver(op: Junction, e: Expr, leaves: seq<Expr>, cs: set<Symbol>)
    requires |leaves| == |Leaves(op, e)| && AllOver(leaves, cs)
    ensures Over(Rebuild(op, e, leaves), cs)
  {
    if IsNode(op, e) {
      var n := |Leaves(op, e.l)|;
      RebuildOver(op, e.l, leaves[..n], cs);
      RebuildOver(op, e.r, leaves[n..], cs);
    }
  }

  lemma {:induction false} EliminateYnOver(e: Expr, cs: set<Symbol>)
    requires Over(e, cs)
    ensures Over(EliminateYn(e), cs)
  {
    if IsJunction(e) {
      EliminateYnOver(e.l, cs);
      EliminateYnOver(e.r, cs);
    }
  }
}
