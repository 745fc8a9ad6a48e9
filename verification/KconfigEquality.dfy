/** `expr_eq` and `expr_eliminate_eq` of tools/kconfig/expr.c: equality up to the order of operands,
    and the removal of operands two expressions share. */
module KconfigEquality {
  import opened Word
  import opened KconfigExpr
  import opened KconfigTransform
  import opened KconfigLeaves

  /** Both are the same constant y or n. */
  predicate BothConstant(a: Expr, b: Expr) { a.ESym? && a == b && (a.sym == YES || a.sym == NO) }

  /** `expr_eq`. */
  predicate ExprEq(a: Expr, b: Expr)
    decreases Size(a) + Size(b), 3
  {
    match (a, b)
    case (ESym(s), ESym(t)) => s == t
    case (ENot(x), ENot(y)) => ExprEq(x, y)
    case (EComp(_, _, _), EComp(_, _, _)) => a == b
    case (EAnd(_, _), EAnd(_, _)) => SameRest(EliminateEq(a, b))
    case (EOr(_, _), EOr(_, _)) => SameRest(EliminateEq(a, b))
    case _ => false
  }

  predicate SameRest(rest: (Expr, Expr)) { rest.0.ESym? && rest.0 == rest.1 }

  /** `expr_eliminate_eq` on present expressions. */
  function EliminateEq(a: Expr, b: Expr): (r: (Expr, Expr))
    decreases Size(a) + Size(b), 2
  {
    var first := if IsJunction(a) then LevelEq(JunctionOf(a), a, b) else (a, b);
    var second := if IsJunction(first.1) && !IsNode(JunctionOf(first.1), first.0) then LevelEq(JunctionOf(first.1), first.0, first.1)
                  else first;
    (EliminateYn(second.0), EliminateYn(second.1))
  }

  /** `__expr_eliminate_eq`: every operand of one level against every operand of the other. */
  function LevelEq(op: Junction, a: Expr, b: Expr): (r: (Expr, Expr))
    requires IsNode(op, a) || IsNode(op, b)
    ensures Size(r.0) <= Size(a) && Size(r.1) <= Size(b)
    decreases Size(a) + Size(b), 1
  {
    LeavesSize(op, a);
    LeavesSize(op, b);
    var rest := PairsEq(op, Leaves(op, a), Leaves(op, b), 0, 0, Size(a) + Size(b));
    RebuildSize(op, a, rest.0);
    RebuildSize(op, b, rest.1);
    (Rebuild(op, a, rest.0), Rebuild(op, b, rest.1))
  }

  predicate Fits(l1: seq<Expr>, l2: seq<Expr>, m: nat) { Total(l1) + Total(l2) + |l1| + |l2| - 2 <= m && |l1| + |l2| >= 3 }

  function PairsEq(op: Junction, l1: seq<Expr>, l2: seq<Expr>, i: nat, j: nat, m: nat): (r: (seq<Expr>, seq<Expr>))
    requires i <= |l1| && j <= |l2| && Fits(l1, l2, m)
    ensures |r.0| == |l1| && |r.1| == |l2| && Total(r.0) <= Total(l1) && Total(r.1) <= Total(l2)
    decreases m, 0, |l1| - i, |l2| - j
  {
    if i == |l1| then (l1, l2)
    else if j == |l2| then PairsEq(op, l1, l2, i + 1, 0, m)
    else
      TotalUpdate(l1, i, Neutral(op));
      TotalUpdate(l2, j, Neutral(op));
      if !BothConstant(l1[i], l2[j]) && ExprEq(l1[i], l2[j]) then
        PairsEq(op, l1[i := Neutral(op)], l2[j := Neutral(op)], i, j + 1, m)
      else PairsEq(op, l1, l2, i, j + 1, m)
  }

  // ---- Meaning ----------------------------------------------------------------------------

  predicate FixedYn(v: Valuation) { v.tri(YES) == 2 && v.tri(NO) == 0 }

  /** `c` is what the operands removed from x amount to. */
  predicate Splits(op: Junction, x: Tri, rest: Tri, c: Tri) { x == Combine(op, rest, c) }

  /** Equal expressions have equal values under every valuation. */
  lemma {:induction false} ExprEqSound(v: Valuation, a: Expr, b: Expr)
    requires FixedYn(v) && ExprEq(a, b)
    ensures Eval(v, a) == Eval(v, b)
    decreases Size(a) + Size(b), 3
  {
    hide EliminateEq, Compare;
    match (a, b)
    case (ENot(x), ENot(y)) => ExprEqSound(v, x, y);
    case (EAnd(_, _), EAnd(_, _)) => SameRestSound(v, a, b);
    case (EOr(_, _), EOr(_, _)) => SameRestSound(v, a, b);
    case _ =>
  }

  lemma {:induction false} SameRestSound(v: Valuation, a: Expr, b: Expr)
    requires FixedYn(v) && SameRest(EliminateEq(a, b)) && IsJunction(a) && IsNode(JunctionOf(a), b)
    ensures Eval(v, a) == Eval(v, b)
    decreases Size(a) + Size(b), 2
  {
    hide LevelEq, Combine, EliminateYn, ExprEq;
    var op := JunctionOf(a);
    var first := LevelEq(op, a, b);
    var c := LevelEqSplits(v, op, a, b);
    LevelKeepsNode(op, a, b);
    EliminateYnMeaning(v, first.0);
    EliminateYnMeaning(v, first.1);
  }

  lemma {:induction false} LevelKeepsNode(op: Junction, a: Expr, b: Expr)
    requires IsNode(op, a) || IsNode(op, b)
    ensures IsNode(op, a) ==> IsNode(op, LevelEq(op, a, b).0)
    ensures IsNode(op, b) ==> IsNode(op, LevelEq(op, a, b).1)
  {
    hide PairsEq;
    LeavesSize(op, a);
    LeavesSize(op, b);
    var rest := PairsEq(op, Leaves(op, a), Leaves(op, b), 0, 0, Size(a) + Size(b));
    if IsNode(op, a) { RebuildNode(op, a, rest.0); }
    if IsNode(op, b) { RebuildNode(op, b, rest.1); }
  }

  lemma {:induction false} LevelEqSplits(v: Valuation, op: Junction, a: Expr, b: Expr) returns (c: Tri)
    requires FixedYn(v) && (IsNode(op, a) || IsNode(op, b))
    ensures Splits(op, Eval(v, a), Eval(v, LevelEq(op, a, b).0), c)
    ensures Splits(op, Eval(v, b), Eval(v, LevelEq(op, a, b).1), c)
    decreases Size(a) + Size(b), 1
  {
    hide PairsEq, Combine;
    LeavesSize(op, a);
    LeavesSize(op, b);
    var l1, l2 := Leaves(op, a), Leaves(op, b);
    c := PairsEqSplits(v, op, l1, l2, 0, 0, Size(a) + Size(b));
    var rest := PairsEq(op, l1, l2, 0, 0, Size(a) + Size(b));
    LeavesMeaning(op, v, a);
    LeavesMeaning(op, v, b);
    RebuildMeaning(op, v, a, rest.0);
    RebuildMeaning(op, v, b, rest.1);
  }

  lemma {:induction false} PairsEqSplits(v: Valuation, op: Junction, l1: seq<Expr>, l2: seq<Expr>, i: nat, j: nat, m: nat) returns (c: Tri)
    requires FixedYn(v) && i <= |l1| && j <= |l2| && Fits(l1, l2, m)
    ensures var r := PairsEq(op, l1, l2, i, j, m);
            Splits(op, Fold(op, v, l1), Fold(op, v, r.0), c) && Splits(op, Fold(op, v, l2), Fold(op, v, r.1), c)
    decreases m, 0, |l1| - i, |l2| - j
  {
    hide Fold, ExprEq;
    if i == |l1| {
      c := Identity(op);
    } else if j == |l2| {
      c := PairsEqSplits(v, op, l1, l2, i + 1, 0, m);
    } else {
      TotalUpdate(l1, i, Neutral(op));
      TotalUpdate(l2, j, Neutral(op));
      if !BothConstant(l1[i], l2[j]) && ExprEq(l1[i], l2[j]) {
        ExprEqSound(v, l1[i], l2[j]);
        var x := Eval(v, l1[i]);
        var n1, n2 := l1[i := Neutral(op)], l2[j := Neutral(op)];
        FoldUpdate(op, v, l1, i, l1[i]);
        FoldUpdate(op, v, l2, j, l2[j]);
        assert l1[i := l1[i]] == l1 && l2[j := l2[j]] == l2;
        var d := PairsEqSplits(v, op, n1, n2, i, j + 1, m);
        var r := PairsEq(op, n1, n2, i, j + 1, m);
        c := Combine(op, d, x);
      } else {
        c := PairsEqSplits(v, op, l1, l2, i, j + 1, m);
      }
    }
  }

  /** Removing shared operands treats both expressions alike: what is taken away is the same value on
      both sides, so the order between them survives putting it back. */
  lemma {:induction false} RestOrders(v: Valuation, a: Expr, b: Expr)
    requires FixedYn(v) && Eval(v, EliminateEq(a, b).0) <= Eval(v, EliminateEq(a, b).1)
    ensures Eval(v, a) <= Eval(v, b)
  {
    hide LevelEq, EliminateYn;
    var first := if IsJunction(a) then LevelEq(JunctionOf(a), a, b) else (a, b);
    if IsJunction(a) {
      var c := LevelEqSplits(v, JunctionOf(a), a, b);
    }
    EliminateYnMeaning(v, first.0);
    EliminateYnMeaning(v, first.1);
    if IsJunction(first.1) && !IsNode(JunctionOf(first.1), first.0) {
      var op := JunctionOf(first.1);
      var d := LevelEqSplits(v, op, first.0, first.1);
      var second := LevelEq(op, first.0, first.1);
      EliminateYnMeaning(v, second.0);
      EliminateYnMeaning(v, second.1);
    }
  }

  /** The "superset" test: when removing the shared operands leaves y of the second expression, the
      first is never above it. */
  lemma {:induction false} SupersetSound(v: Valuation, a: Expr, b: Expr)
    requires FixedYn(v) && EliminateEq(a, b).1 == ESym(YES)
    ensures Eval(v, a) <= Eval(v, b)
  {
    hide EliminateEq;
    RestOrders(v, a, b);
  }

  // ---- Every expression equals itself -----------------------------------------------------

  predicate YesNo(e: Expr) { e == ESym(YES) || e == ESym(NO) }

  predicate AllYesNo(leaves: seq<Expr>) { forall k | 0 <= k < |leaves| :: YesNo(leaves[k]) }

  /** A row against itself: operand i meets its copy at place i, and then both are settled. */
  lemma {:induction false} OwnPairs(op: Junction, l: seq<Expr>, i: nat, j: nat, m: nat)
    requires i <= |l| && j <= |l| && Fits(l, l, m) && (j > i ==> i < |l| && YesNo(l[i]))
    requires forall k | 0 <= k < i :: YesNo(l[k])
    requires forall k | i <= k < |l| :: ExprEq(l[k], l[k])
    ensures var r := PairsEq(op, l, l, i, j, m); r.0 == r.1 && AllYesNo(r.0)
    decreases |l| - i, |l| - j
  {
    hide ExprEq;
    if i == |l| {
    } else if j == |l| {
      OwnPairs(op, l, i + 1, 0, m);
    } else {
      TotalUpdate(l, i, Neutral(op));
      if YesNo(l[i]) || YesNo(l[j]) { SettledDiffer(l[i], l[j]); }
      if j == i && !YesNo(l[i]) {
        NeutralEqual(op);
        OwnPairs(op, l[i := Neutral(op)], i, j + 1, m);
      } else {
        OwnPairs(op, l, i, j + 1, m);
      }
    }
  }

  lemma {:induction false} SettledDiffer(a: Expr, b: Expr)
    requires YesNo(a) || YesNo(b)
    ensures BothConstant(a, b) || !ExprEq(a, b)
  {
  }

  lemma {:induction false} NeutralEqual(op: Junction)
    ensures YesNo(Neutral(op)) && ExprEq(Neutral(op), Neutral(op))
  {
  }

  /** What remains of constants alone is a constant. */
  lemma {:induction false} ConstantRest(op: Junction, e: Expr, leaves: seq<Expr>)
    requires |leaves| == |Leaves(op, e)| && AllYesNo(leaves)
    ensures YesNo(EliminateYn(Rebuild(op, e, leaves)))
  {
    if IsNode(op, e) {
      var n := |Leaves(op, e.l)|;
      ConstantRest(op, e.l, leaves[..n]);
      ConstantRest(op, e.r, leaves[n..]);
    }
  }

  /** Every expression is equal to itself. */
  lemma {:induction false} ExprEqSelf(e: Expr)
    ensures ExprEq(e, e)
    decreases Size(e)
  {
    hide PairsEq, EliminateYn, Rebuild, Leaves;
    match e
    case ENot(x) => ExprEqSelf(x);
    case EAnd(_, _) => SelfRest(Conj, e);
    case EOr(_, _) => SelfRest(Disj, e);
    case _ =>
  }

  lemma {:induction false} SelfRest(op: Junction, e: Expr)
    requires IsNode(op, e)
    ensures SameRest(EliminateEq(e, e))
    decreases Size(e), 0
  {
    hide PairsEq, EliminateYn, Rebuild, Leaves, ExprEq;
    var l := Leaves(op, e);
    LeavesSize(op, e);
    forall k | 0 <= k < |l| ensures ExprEq(l[k], l[k]) {
      TotalUpdate(l, k, l[k]);
      ExprEqSelf(l[k]);
    }
    OwnPairs(op, l, 0, 0, Size(e) + Size(e));
    var rest := PairsEq(op, l, l, 0, 0, Size(e) + Size(e));
    ConstantRest(op, e, rest.0);
    LevelKeepsNode(op, e, e);
  }
}
