/** `expr_join_or`, `expr_join_and` and `expr_eliminate_dups` of tools/kconfig/expr.c: operands of a
    level that can be merged are merged until no pair can. */
module KconfigDups {
  import opened Word
  import opened KconfigExpr
  import opened KconfigTransform
  import opened KconfigLeaves
  import opened KconfigEquality

  predicate IsTest(e: Expr) { e.EComp? && (e.op.Eq? || e.op.Ne?) }

  /** The symbol an operand is about. */
  function Subject(e: Expr): Option<Symbol> {
    match e
    case ESym(s) => Some(s)
    case EComp(op, l, _) => if op.Eq? || op.Ne? then Some(l) else None
    case _ => None
  }

  /** In the first place a negation may cover a symbol or a test, in the second only a symbol. */
  function FirstSubject(e: Expr): Option<Symbol> { if e.ENot? then Subject(e.arg) else Subject(e) }

  function SecondSubject(e: Expr): Option<Symbol> {
    if e.ENot? then (if e.arg.ESym? then Some(e.arg.sym) else None) else Subject(e)
  }

  predicate Tests(e: Expr, op: Relation, c: Symbol) { e.EComp? && e.op == op && e.right == c }

  /** One of the two operands is `x op c`, the other `x op d`. */
  predicate TestsBoth(a: Expr, b: Expr, op: Relation, c: Symbol, d: Symbol) {
    (Tests(a, op, c) && Tests(b, op, d)) || (Tests(a, op, d) && Tests(b, op, c))
  }

  /** One is the symbol itself, the other `x op c`. */
  predicate SymbolAndTest(a: Expr, b: Expr, op: Relation, c: Symbol) {
    (a.ESym? && Tests(b, op, c)) || (b.ESym? && Tests(a, op, c))
  }

  predicate SymbolAndNegation(a: Expr, b: Expr) {
    (a.ENot? && a.arg.ESym? && b.ESym?) || (b.ENot? && b.arg.ESym? && a.ESym?)
  }

  predicate SameSubject(a: Expr, b: Expr) {
    && FirstSubject(a).Some? && SecondSubject(b).Some? && FirstSubject(a) == SecondSubject(b)
    && Logical(FirstSubject(a).value)
  }

  /** `expr_join_or`. */
  function JoinOr(a: Expr, b: Expr): Option<Expr> {
    if ExprEq(a, b) then Some(a)
    else if !SameSubject(a, b) then None
    else
      var s := FirstSubject(a).value;
      if s.kind.Tristate? && TestsBoth(a, b, Eq, YES, MOD) then Some(EComp(Ne, s, NO))
      else if s.kind.Tristate? && TestsBoth(a, b, Eq, YES, NO) then Some(EComp(Ne, s, MOD))
      else if s.kind.Tristate? && TestsBoth(a, b, Eq, MOD, NO) then Some(EComp(Ne, s, YES))
      else if s.kind.Boolean? && SymbolAndNegation(a, b) then Some(ESym(YES))
      else None
  }

  /** A test for one constant and a test against another. */
  function JoinTests(s: Symbol, wanted: Symbol, barred: Symbol): Expr {
    if wanted != barred then EComp(Eq, s, wanted) else ESym(NO)
  }

  /** `expr_join_and`. */
  function JoinAnd(a: Expr, b: Expr): Option<Expr> {
    if ExprEq(a, b) then Some(a)
    else if !SameSubject(a, b) then None
    else
      var s := FirstSubject(a).value;
      if SymbolAndTest(a, b, Eq, YES) then Some(EComp(Eq, s, YES))
      else if SymbolAndTest(a, b, Ne, NO) then Some(ESym(s))
      else if SymbolAndTest(a, b, Ne, MOD) then Some(EComp(Eq, s, YES))
      else if !s.kind.Tristate? then None
      else if a.EComp? && a.op.Eq? && b.EComp? && b.op.Ne? && a.right.constant && b.right.constant then
        Some(JoinTests(s, a.right, b.right))
      else if a.EComp? && a.op.Ne? && b.EComp? && b.op.Eq? && a.right.constant && b.right.constant then
        Some(JoinTests(s, b.right, a.right))
      else if TestsBoth(a, b, Ne, YES, NO) then Some(EComp(Eq, s, MOD))
      else if TestsBoth(a, b, Ne, YES, MOD) then Some(EComp(Eq, s, NO))
      else if TestsBoth(a, b, Ne, MOD, NO) then Some(EComp(Eq, s, YES))
      else None
  }

  function JoinPair(op: Junction, a: Expr, b: Expr): (r: Option<Expr>)
    ensures r.Some? ==> Size(r.value) <= Size(a) && (IsJunction(r.value) ==> r.value == a)
  {
    if op.Conj? then JoinAnd(a, b) else JoinOr(a, b)
  }

  // ---- Joining keeps the meaning ----------------------------------------------------------

  lemma {:induction false} TestMeaning(v: Valuation, e: Expr, c: Symbol)
    requires BaseLegal(v) && IsTest(e) && e.right == c && Logical(e.left) && IsConstant3(c)
    ensures Eval(v, e) == Decided((v.tri(e.left) == c.id) == e.op.Eq?)
  {
    CompareConstant3(v, e.left, c);
  }

  lemma {:induction false} NewTest(v: Valuation, op: Relation, s: Symbol, c: Symbol)
    requires BaseLegal(v) && Logical(s) && IsConstant3(c) && (op.Eq? || op.Ne?)
    ensures Eval(v, EComp(op, s, c)) == Decided((v.tri(s) == c.id) == op.Eq?)
  {
    TestMeaning(v, EComp(op, s, c), c);
  }

  /** What a test for a constant amounts to. */
  function Verdict(v: Valuation, s: Symbol, op: Relation, c: Symbol): Tri { Decided((v.tri(s) == c.id) == op.Eq?) }

  lemma {:induction false} SymbolAndTestMeaning(v: Valuation, a: Expr, b: Expr, op: Relation, c: Symbol)
    requires BaseLegal(v) && SameSubject(a, b) && SymbolAndTest(a, b, op, c) && IsConstant3(c) && (op.Eq? || op.Ne?)
    ensures var s := FirstSubject(a).value; Min(Eval(v, a), Eval(v, b)) == Min(v.tri(s), Verdict(v, s, op, c))
  {
    hide BaseLegal, Compare;
    NewTest(v, op, FirstSubject(a).value, c);
  }

  lemma {:induction false} TestsBothMeaning(v: Valuation, a: Expr, b: Expr, op: Relation, c: Symbol, d: Symbol)
    requires BaseLegal(v) && SameSubject(a, b) && TestsBoth(a, b, op, c, d) && IsConstant3(c) && IsConstant3(d) && (op.Eq? || op.Ne?)
    ensures var s := FirstSubject(a).value;
            && Min(Eval(v, a), Eval(v, b)) == Min(Verdict(v, s, op, c), Verdict(v, s, op, d))
            && Max(Eval(v, a), Eval(v, b)) == Max(Verdict(v, s, op, c), Verdict(v, s, op, d))
  {
    hide BaseLegal, Compare;
    NewTest(v, op, FirstSubject(a).value, c);
    NewTest(v, op, FirstSubject(a).value, d);
  }

  lemma {:induction false} TestIs(v: Valuation, op: Relation, s: Symbol, c: Symbol)
    requires BaseLegal(v) && Logical(s) && IsConstant3(c) && (op.Eq? || op.Ne?)
    ensures Eval(v, EComp(op, s, c)) == Verdict(v, s, op, c)
  {
    hide BaseLegal, Compare;
    NewTest(v, op, s, c);
  }

  /** A value that equals one constant differs from every other one, as constants are apart. */
  lemma {:induction false} JoinTestsMeaning(v: Valuation, cs: set<Symbol>, s: Symbol, wanted: Symbol, barred: Symbol)
    requires Legal(v, cs) && Logical(s) && wanted in cs && barred in cs && wanted.constant && barred.constant
    ensures Eval(v, JoinTests(s, wanted, barred)) == Min(Eval(v, EComp(Eq, s, wanted)), Eval(v, EComp(Ne, s, barred)))
  {
    assert Consistent(v, s) && Fixed(v, NO);
    CompareConstant(v, s, wanted);
    CompareConstant(v, s, barred);
  }

  lemma BooleanDecided(v: Valuation, s: Symbol)
    requires BaseLegal(v)
    ensures s.kind.Boolean? ==> v.tri(s) != 1
  {
    assert Consistent(v, s);
  }

  lemma {:induction false} JoinOrMeaning(v: Valuation, a: Expr, b: Expr)
    requires BaseLegal(v) && JoinOr(a, b).Some?
    ensures Eval(v, JoinOr(a, b).value) == Max(Eval(v, a), Eval(v, b))
  {
    hide BaseLegal, Compare, ExprEq, SameSubject, TestsBoth;
    FixedConstants(v);
    if ExprEq(a, b) {
      ExprEqSound(v, a, b);
    } else {
      LogicalSubject(a, b);
      var s := FirstSubject(a).value;
      if s.kind.Tristate? && TestsBoth(a, b, Eq, YES, MOD) {
        TestsBothMeaning(v, a, b, Eq, YES, MOD);
        TestIs(v, Ne, s, NO);
      } else if s.kind.Tristate? && TestsBoth(a, b, Eq, YES, NO) {
        TestsBothMeaning(v, a, b, Eq, YES, NO);
        TestIs(v, Ne, s, MOD);
      } else if s.kind.Tristate? && TestsBoth(a, b, Eq, MOD, NO) {
        TestsBothMeaning(v, a, b, Eq, MOD, NO);
        TestIs(v, Ne, s, YES);
      } else {
        BooleanDecided(v, s);
        NegationSubject(a, b);
      }
    }
  }

  lemma LogicalSubject(a: Expr, b: Expr)
    requires SameSubject(a, b)
    ensures FirstSubject(a).Some? && Logical(FirstSubject(a).value)
  {
  }

  lemma NegationSubject(a: Expr, b: Expr)
    requires SameSubject(a, b) && SymbolAndNegation(a, b)
    ensures var s := FirstSubject(a).value;
            (a == ENot(ESym(s)) && b == ESym(s)) || (b == ENot(ESym(s)) && a == ESym(s))
  {
  }

  lemma {:induction false} JoinAndMeaning(v: Valuation, cs: set<Symbol>, a: Expr, b: Expr)
    requires Legal(v, cs) && Over(a, cs) && Over(b, cs) && JoinAnd(a, b).Some?
    ensures Eval(v, JoinAnd(a, b).value) == Min(Eval(v, a), Eval(v, b))
  {
    hide BaseLegal, Compare, ExprEq, SameSubject, TestsBoth, SymbolAndTest, JoinTests;
    FixedConstants(v);
    if ExprEq(a, b) {
      ExprEqSound(v, a, b);
    } else {
      LogicalSubject(a, b);
      var s := FirstSubject(a).value;
      if SymbolAndTest(a, b, Eq, YES) {
        SymbolAndTestMeaning(v, a, b, Eq, YES);
        TestIs(v, Eq, s, YES);
      } else if SymbolAndTest(a, b, Ne, NO) {
        SymbolAndTestMeaning(v, a, b, Ne, NO);
      } else if SymbolAndTest(a, b, Ne, MOD) {
        SymbolAndTestMeaning(v, a, b, Ne, MOD);
        TestIs(v, Eq, s, YES);
      } else {
        TestsJoined(v, cs, a, b);
      }
    }
  }

  lemma {:induction false} TestsJoined(v: Valuation, cs: set<Symbol>, a: Expr, b: Expr)
    requires Legal(v, cs) && Over(a, cs) && Over(b, cs) && JoinAnd(a, b).Some? && !ExprEq(a, b)
    requires !SymbolAndTest(a, b, Eq, YES) && !SymbolAndTest(a, b, Ne, NO) && !SymbolAndTest(a, b, Ne, MOD)
    ensures Eval(v, JoinAnd(a, b).value) == Min(Eval(v, a), Eval(v, b))
  {
    hide BaseLegal, Compare, ExprEq, SameSubject, TestsBoth, SymbolAndTest, JoinTests;
    FixedConstants(v);
    LogicalSubject(a, b);
    var s := FirstSubject(a).value;
    if a.EComp? && a.op.Eq? && b.EComp? && b.op.Ne? && a.right.constant && b.right.constant {
      JoinTestsMeaning(v, cs, s, a.right, b.right);
      SubjectsOfTests(a, b);
    } else if a.EComp? && a.op.Ne? && b.EComp? && b.op.Eq? && a.right.constant && b.right.constant {
      JoinTestsMeaning(v, cs, s, b.right, a.right);
      SubjectsOfTests(a, b);
    } else if TestsBoth(a, b, Ne, YES, NO) {
      TestsBothMeaning(v, a, b, Ne, YES, NO);
      TestIs(v, Eq, s, MOD);
    } else if TestsBoth(a, b, Ne, YES, MOD) {
      TestsBothMeaning(v, a, b, Ne, YES, MOD);
      TestIs(v, Eq, s, NO);
    } else {
      TestsBothMeaning(v, a, b, Ne, MOD, NO);
      TestIs(v, Eq, s, YES);
    }
  }

  lemma SubjectsOfTests(a: Expr, b: Expr)
    requires SameSubject(a, b) && a.EComp? && b.EComp?
    ensures var s := FirstSubject(a).value; a == EComp(a.op, s, a.right) && b == EComp(b.op, s, b.right)
  {
  }

  // ---- What is joined ---------------------------------------------------------------------

  /** An operand is joined with its own copy, so duplicates never stay. */
  lemma {:induction false} CopiesJoin(op: Junction, e: Expr)
    ensures JoinPair(op, e, e) == Some(e)
  {
    hide ExprEq;
    ExprEqSelf(e);
  }

  /** A test of a tristate symbol for or against n, m or y. */
  predicate TriTest(e: Expr, s: Symbol) { IsTest(e) && e.left == s && s.kind.Tristate? && IsConstant3(e.right) }

  /** Two tests of one tristate symbol are joined into one expression wherever there is one: in a
      disjunction exactly when they are the same or both for a constant, in a conjunction exactly unless they
      are for two different constants. */
  lemma {:induction false} TestsJoinIff(a: Expr, b: Expr, s: Symbol)
    requires TriTest(a, s) && TriTest(b, s)
    ensures JoinOr(a, b).Some? <==> a == b || (a.op.Eq? && b.op.Eq?)
    ensures JoinAnd(a, b).Some? <==> a == b || a.op.Ne? || b.op.Ne?
  {
  }

  /** A symbol and a test of it are joined exactly where the conjunction is the symbol or a test. */
  lemma {:induction false} SymbolJoinIff(a: Expr, s: Symbol)
    requires TriTest(a, s)
    ensures JoinAnd(ESym(s), a).Some? <==> (if a.op.Eq? then a.right == YES else a.right != YES)
    ensures JoinAnd(a, ESym(s)).Some? == JoinAnd(ESym(s), a).Some?
  {
  }

  // ---- Constants that mean the same value -------------------------------------------------

  function TriAt(v: Valuation, s: Symbol, t: Tri, x: Symbol): Tri { if x == s then t else v.tri(x) }

  function TextAt(v: Valuation, s: Symbol, t: Tri, x: Symbol): string { if x == s then TriText(t) else v.text(x) }

  function NumberAt(v: Valuation, s: Symbol, t: Tri, x: Symbol): Option<Number> {
    if x == s then Some(SignedNumber(t)) else v.number(x)
  }

  /** The valuation with another value for the tristate symbol s. */
  function SetTo(v: Valuation, s: Symbol, t: Tri): Valuation {
    Valuation((x: Symbol) => TriAt(v, s, t, x), (x: Symbol) => TextAt(v, s, t, x), (x: Symbol) => NumberAt(v, s, t, x))
  }

  /** The joined conjunction of `s=c` and `s!=d` is the conjunction when s is t. */
  predicate JoinRight(v: Valuation, s: Symbol, c: Symbol, d: Symbol, t: Tri) {
    var a, b, u := EComp(Eq, s, c), EComp(Ne, s, d), SetTo(v, s, t);
    match JoinAnd(a, b)
    case Some(e) => Eval(u, e) == Min(Eval(u, a), Eval(u, b))
    case None => false
  }

  /** Joining `s=c && s!=d` for distinct constants is right for every value of s exactly when no value
      is denoted by both constants. */
  lemma JoinTestsExact(v: Valuation, s: Symbol, c: Symbol, d: Symbol)
    requires s.kind.Tristate? && c.constant && d.constant && c != d
    ensures (forall t: Tri :: JoinRight(v, s, c, d, t)) <==> (forall t: Tri :: !(Denotes(v, c, t) && Denotes(v, d, t)))
  {
    hide Compare;
    forall t: Tri ensures JoinRight(v, s, c, d, t) <==> !(Denotes(v, c, t) && Denotes(v, d, t)) {
      var u := SetTo(v, s, t);
      assert Consistent(u, s);
      CompareConstant(u, s, c);
      CompareConstant(u, s, d);
      assert Denotes(u, c, t) == Denotes(v, c, t) && Denotes(u, d, t) == Denotes(v, d, t);
    }
  }

  /** So constants that mean the same value must be excluded: y and the number 2 both mean y, and
      `FOO=y && FOO!=2`, which is n, is joined to `FOO=y`. */
  lemma {:induction false} NumericConstantsDisagree(v: Valuation, s: Symbol, two: Symbol)
    requires BaseLegal(v) && s.kind.Tristate? && v.tri(s) == 2 && two.constant && v.number(two) == Some(SignedNumber(2))
    ensures var a, b := EComp(Eq, s, YES), EComp(Ne, s, two);
            JoinAnd(a, b) == Some(EComp(Eq, s, YES)) && Eval(v, EComp(Eq, s, YES)) == 2 && Min(Eval(v, a), Eval(v, b)) == 0
  {
    assert Consistent(v, s) && Fixed(v, YES);
    NewTest(v, Eq, s, YES);
  }

  function TwoWord(k: nat): string { if k == 3 then "2" else LongWord(k) }

  function TwoNumber(k: nat): Option<Number> { if k == 3 then Some(SignedNumber(2)) else None }

  /** Such a valuation exists: FOO is y, and the third constant is "2". */
  lemma NumericConstantsExist() returns (v: Valuation, s: Symbol, two: Symbol)
    ensures BaseLegal(v) && s.kind.Tristate? && v.tri(s) == 2
    ensures two.constant && v.text(two) == "2" && v.number(two) == Some(SignedNumber(2))
  {
    var values: Symbol -> Tri := (x: Symbol) => if x.kind.Tristate? then 2 else 0;
    forall i: nat, k: nat | TwoWord(i) == TwoWord(k) ensures i == k {
      assert |LongWord(i)| == i + 2 && |LongWord(k)| == k + 2;
    }
    forall i: nat, t: Tri ensures TwoWord(i) != TriText(t) {
      assert |LongWord(i)| == i + 2;
    }
    AssignedLegal(values, TwoWord, TwoNumber);
    v, s, two := Assigned(values, TwoWord, TwoNumber), Sym(4, Tristate, false), Sym(3, Unknown, true);
  }

  lemma {:induction false} JoinPairMeaning(v: Valuation, cs: set<Symbol>, op: Junction, a: Expr, b: Expr)
    requires Legal(v, cs) && Over(a, cs) && Over(b, cs) && JoinPair(op, a, b).Some?
    ensures Eval(v, JoinPair(op, a, b).value) == Combine(op, Eval(v, a), Eval(v, b))
  {
    hide JoinOr, JoinAnd;
    if op.Conj? { JoinAndMeaning(v, cs, a, b); } else { JoinOrMeaning(v, a, b); }
  }

  lemma {:induction false} JoinPairOver(op: Junction, a: Expr, b: Expr, cs: set<Symbol>)
    requires Over(a, cs) && Over(b, cs) && WORDS <= cs && JoinPair(op, a, b).Some?
    ensures Over(JoinPair(op, a, b).value, cs)
  {
    hide ExprEq, SameSubject, TestsBoth, SymbolAndTest, SymbolAndNegation;
  }

  // ---- One pass over a level --------------------------------------------------------------

  predicate NoNodes(op: Junction, leaves: seq<Expr>) { forall k | 0 <= k < |leaves| :: !IsNode(op, leaves[k]) }

  /** The pass has left a neutral operand somewhere. */
  predicate Marked(op: Junction, leaves: seq<Expr>) {
    exists k | 0 <= k < |leaves| :: leaves[k] == Neutral(op) || HasNeutral(leaves[k])
  }

  predicate Within(leaves: seq<Expr>, m: nat) { |leaves| >= 2 && Total(leaves) + |leaves| - 1 <= m }

  /** Operand i, already simplified to x, meets operand j: a pair that joins becomes the neutral operand
      and the joined one. */
  function Meet(op: Junction, leaves: seq<Expr>, i: nat, j: nat, x: Expr): (r: (seq<Expr>, bool))
    requires i < |leaves| && j < |leaves| && i != j && Size(x) <= Size(leaves[i]) && !IsNode(op, x) && NoNodes(op, leaves)
    ensures |r.0| == |leaves| && Total(r.0) <= Total(leaves) && NoNodes(op, r.0)
  {
    TotalUpdate(leaves, i, x);
    var l1 := leaves[i := x];
    match JoinPair(op, x, leaves[j])
    case None => (l1, false)
    case Some(t) =>
      PairTotal(l1, i, j, Neutral(op), t);
      (l1[i := Neutral(op)][j := t], true)
  }

  /** `expr_eliminate_dups1` on two copies of one level: operand i against operand j, row by row, where
      an operand that is itself a level of the other kind is simplified first. The flag tells whether
      anything was simplified. */
  function Pairs(op: Junction, leaves: seq<Expr>, i: nat, j: nat, m: nat): (r: (seq<Expr>, bool))
    requires i <= |leaves| && j <= |leaves| && Within(leaves, m) && NoNodes(op, leaves)
    ensures |r.0| == |leaves| && Total(r.0) <= Total(leaves) && NoNodes(op, r.0)
    decreases m, 0, |leaves| - i, |leaves| - j
  {
    if i == |leaves| then (leaves, false)
    else if j == |leaves| then Pairs(op, leaves, i + 1, 0, m)
    else if i == j then Pairs(op, leaves, i, j + 1, m)
    else
      TotalUpdate(leaves, i, leaves[i]);
      var inner := if IsJunction(leaves[i]) then Pass(leaves[i]) else (leaves[i], false);
      var met := Meet(op, leaves, i, j, inner.0);
      var rest := Pairs(op, met.0, i, j + 1, m);
      (rest.0, inner.1 || met.1 || rest.1)
  }

  lemma {:induction false} PairTotal(leaves: seq<Expr>, i: nat, j: nat, x: Expr, t: Expr)
    requires i < |leaves| && j < |leaves| && i != j && Size(x) == 1 && Size(t) <= Size(leaves[i])
    ensures Total(leaves[i := x][j := t]) <= Total(leaves)
  {
    TotalUpdate(leaves, i, x);
    TotalUpdate(leaves[i := x], j, t);
  }

  function Pass(e: Expr): (r: (Expr, bool))
    requires IsJunction(e)
    ensures Size(r.0) <= Size(e) && IsNode(JunctionOf(e), r.0)
    decreases Size(e), 1
  {
    var op := JunctionOf(e);
    LeavesSize(op, e);
    var rest := Pairs(op, Leaves(op, e), 0, 0, Size(e));
    RebuildSize(op, e, rest.0);
    RebuildNode(op, e, rest.0);
    (Rebuild(op, e, rest.0), rest.1)
  }

  // ---- A pass keeps the meaning -----------------------------------------------------------

  lemma {:induction false} FoldSame(op: Junction, v: Valuation, leaves: seq<Expr>, i: nat, x: Expr)
    requires i < |leaves| && Eval(v, x) == Eval(v, leaves[i]) && Eval(v, Neutral(op)) == Identity(op)
    ensures Fold(op, v, leaves[i := x]) == Fold(op, v, leaves)
  {
    FoldUpdate(op, v, leaves, i, x);
    FoldUpdate(op, v, leaves, i, leaves[i]);
    assert leaves[i := leaves[i]] == leaves;
  }

  lemma {:induction false} FoldJoined(op: Junction, v: Valuation, leaves: seq<Expr>, i: nat, j: nat, t: Expr)
    requires i < |leaves| && j < |leaves| && i != j && Eval(v, Neutral(op)) == Identity(op)
    requires Eval(v, t) == Combine(op, Eval(v, leaves[i]), Eval(v, leaves[j]))
    ensures Fold(op, v, leaves[i := Neutral(op)][j := t]) == Fold(op, v, leaves)
  {
    hide Fold;
    var n := leaves[i := Neutral(op)];
    FoldUpdate(op, v, leaves, i, leaves[i]);
    FoldUpdate(op, v, n, j, leaves[j]);
    FoldUpdate(op, v, n, j, t);
    assert leaves[i := leaves[i]] == leaves && n[j := leaves[j]] == n;
  }

  lemma {:induction false} NeutralMeaning(v: Valuation, op: Junction)
    requires BaseLegal(v)
    ensures Eval(v, Neutral(op)) == Identity(op)
  {
    FixedConstants(v);
  }

  lemma {:induction false} MeetMeaning(v: Valuation, cs: set<Symbol>, op: Junction, leaves: seq<Expr>, i: nat, j: nat, x: Expr)
    requires i < |leaves| && j < |leaves| && i != j && Size(x) <= Size(leaves[i]) && !IsNode(op, x) && NoNodes(op, leaves)
    requires Legal(v, cs) && AllOver(leaves, cs) && Over(x, cs) && Eval(v, x) == Eval(v, leaves[i])
    ensures Fold(op, v, Meet(op, leaves, i, j, x).0) == Fold(op, v, leaves)
    ensures AllOver(Meet(op, leaves, i, j, x).0, cs)
  {
    hide Fold, BaseLegal, Apart, Combine, JoinPair;
    NeutralMeaning(v, op);
    FoldSame(op, v, leaves, i, x);
    if JoinPair(op, x, leaves[j]).Some? {
      JoinPairMeaning(v, cs, op, x, leaves[j]);
      JoinPairOver(op, x, leaves[j], cs);
      FoldJoined(op, v, leaves[i := x], i, j, JoinPair(op, x, leaves[j]).value);
    }
  }

  lemma {:induction false} PairsMeaning(v: Valuation, cs: set<Symbol>, op: Junction, leaves: seq<Expr>, i: nat, j: nat, m: nat)
    requires i <= |leaves| && j <= |leaves| && Within(leaves, m) && NoNodes(op, leaves)
    requires Legal(v, cs) && AllOver(leaves, cs)
    ensures Fold(op, v, Pairs(op, leaves, i, j, m).0) == Fold(op, v, leaves)
    ensures AllOver(Pairs(op, leaves, i, j, m).0, cs)
    decreases m, 0, |leaves| - i, |leaves| - j
  {
    hide Fold, Legal, Meet, Pass, Over;
    if i == |leaves| {
    } else if j == |leaves| {
      PairsMeaning(v, cs, op, leaves, i + 1, 0, m);
    } else if i == j {
      PairsMeaning(v, cs, op, leaves, i, j + 1, m);
    } else {
      TotalUpdate(leaves, i, leaves[i]);
      if IsJunction(leaves[i]) { PassMeaning(v, cs, leaves[i]); }
      var inner := if IsJunction(leaves[i]) then Pass(leaves[i]) else (leaves[i], false);
      MeetMeaning(v, cs, op, leaves, i, j, inner.0);
      PairsMeaning(v, cs, op, Meet(op, leaves, i, j, inner.0).0, i, j + 1, m);
    }
  }

  lemma {:induction false} PassMeaning(v: Valuation, cs: set<Symbol>, e: Expr)
    requires Legal(v, cs) && Over(e, cs) && IsJunction(e)
    ensures Eval(v, Pass(e).0) == Eval(v, e) && Over(Pass(e).0, cs)
    decreases Size(e), 1
  {
    hide Legal, Pairs, Fold, Over;
    var op := JunctionOf(e);
    LeavesSize(op, e);
    LeavesOver(op, e, cs);
    var rest := Pairs(op, Leaves(op, e), 0, 0, Size(e));
    PairsMeaning(v, cs, op, Leaves(op, e), 0, 0, Size(e));
    RebuildMeaning(op, v, e, rest.0);
    RebuildOver(op, e, rest.0, cs);
    LeavesMeaning(op, v, e);
  }

  // ---- A productive pass makes the expression shrink --------------------------------------

  lemma {:induction false} MeetMarks(op: Junction, leaves: seq<Expr>, i: nat, j: nat, x: Expr)
    requires i < |leaves| && j < |leaves| && i != j && Size(x) <= Size(leaves[i]) && !IsNode(op, x) && NoNodes(op, leaves)
    requires x == leaves[i] || HasNeutral(x)
    ensures var r := Meet(op, leaves, i, j, x);
            && (r.1 || HasNeutral(x) || Marked(op, leaves) ==> Marked(op, r.0))
            && (!r.1 && x == leaves[i] ==> r.0 == leaves)
  {
    hide JoinPair, HasNeutral;
    var r := Meet(op, leaves, i, j, x);
    if r.1 {
      assert r.0[i] == Neutral(op);
    } else if HasNeutral(x) {
      assert HasNeutral(r.0[i]);
    } else if Marked(op, leaves) {
      assert r.0 == leaves;
    }
  }

  lemma {:induction false} PairsMark(op: Junction, leaves: seq<Expr>, i: nat, j: nat, m: nat)
    requires i <= |leaves| && j <= |leaves| && Within(leaves, m) && NoNodes(op, leaves)
    ensures var r := Pairs(op, leaves, i, j, m);
            && (r.1 || Marked(op, leaves) ==> Marked(op, r.0)) && (!r.1 ==> r.0 == leaves)
    decreases m, 0, |leaves| - i, |leaves| - j
  {
    hide Meet, Pass, HasNeutral, Marked;
    if i == |leaves| {
    } else if j == |leaves| {
      PairsMark(op, leaves, i + 1, 0, m);
    } else if i == j {
      PairsMark(op, leaves, i, j + 1, m);
    } else {
      TotalUpdate(leaves, i, leaves[i]);
      if IsJunction(leaves[i]) { PassMarks(leaves[i]); }
      var inner := if IsJunction(leaves[i]) then Pass(leaves[i]) else (leaves[i], false);
      MeetMarks(op, leaves, i, j, inner.0);
      PairsMark(op, Meet(op, leaves, i, j, inner.0).0, i, j + 1, m);
    }
  }

  /** A pass that simplified something leaves a neutral operand to remove; otherwise it changed
      nothing. */
  lemma {:induction false} PassMarks(e: Expr)
    requires IsJunction(e)
    ensures if Pass(e).1 then HasNeutral(Pass(e).0) else Pass(e).0 == e
    decreases Size(e), 1
  {
    hide Pairs, HasNeutral;
    var op := JunctionOf(e);
    LeavesSize(op, e);
    var rest := Pairs(op, Leaves(op, e), 0, 0, Size(e));
    PairsMark(op, Leaves(op, e), 0, 0, Size(e));
    if rest.1 {
      var k :| 0 <= k < |rest.0| && (rest.0[k] == Neutral(op) || HasNeutral(rest.0[k]));
      NeutralLeaf(op, e, rest.0, k);
    } else {
      RebuildSame(op, e);
    }
  }

  /** Every pass that simplifies something strictly shrinks the tree. */
  lemma {:induction false} PassShrinks(e: Expr)
    requires IsJunction(e) && Pass(e).1
    ensures Size(EliminateYn(Pass(e).0)) < Size(e)
  {
    hide Pass, EliminateYn;
    PassMarks(e);
    NeutralShrinks(Pass(e).0);
  }

  // ---- The whole simplification -----------------------------------------------------------

  /** `expr_eliminate_dups`: passes until one simplifies nothing. */
  function EliminateDups(e: Expr): (r: Expr)
    decreases Size(e)
  {
    if IsJunction(e) && Pass(e).1 then
      PassShrinks(e);
      EliminateDups(EliminateYn(Pass(e).0))
    else e
  }

  /** The loop as written; it terminates because every productive pass shrinks the tree. */
  method SimplifyDups(e: Expr) returns (r: Expr)
    ensures r == EliminateDups(e)
  {
    r := e;
    while true
      invariant EliminateDups(r) == EliminateDups(e)
      decreases Size(r)
    {
      var changed := false;
      var passed := r;
      if IsJunction(r) {
        var p := Pass(r);
        passed, changed := p.0, p.1;
        PassMarks(r);
      }
      if !changed { break; }
      PassShrinks(r);
      r := EliminateYn(passed);
    }
  }

  /** Removing duplicates keeps the value under every valuation legal for the constants of the
      expression, and compares with no others. */
  lemma {:induction false} EliminateDupsMeaning(v: Valuation, cs: set<Symbol>, e: Expr)
    requires Legal(v, cs) && Over(e, cs)
    ensures Eval(v, EliminateDups(e)) == Eval(v, e) && Over(EliminateDups(e), cs)
    decreases Size(e)
  {
    hide Legal, Pass, EliminateYn, Over;
    if IsJunction(e) && Pass(e).1 {
      PassShrinks(e);
      PassMeaning(v, cs, e);
      LegalBase(v, cs);
      FixedConstants(v);
      EliminateYnMeaning(v, Pass(e).0);
      EliminateYnOver(Pass(e).0, cs);
      EliminateDupsMeaning(v, cs, EliminateYn(Pass(e).0));
    }
  }

  lemma {:induction false} LegalBase(v: Valuation, cs: set<Symbol>)
    requires Legal(v, cs)
    ensures BaseLegal(v) && WORDS <= cs
  {
  }

  /** Nothing is left to join: simplifying again changes nothing, and the result is no larger. */
  lemma {:induction false} EliminateDupsDone(e: Expr)
    ensures var r := EliminateDups(e);
            Size(r) <= Size(e) && EliminateDups(r) == r && (IsJunction(r) ==> !Pass(r).1 && Pass(r).0 == r)
    decreases Size(e)
  {
    hide Pass, EliminateYn;
    if IsJunction(e) {
      PassMarks(e);
      if Pass(e).1 {
        PassShrinks(e);
        EliminateDupsDone(EliminateYn(Pass(e).0));
      }
    }
  }

  /** A pass that reports nothing has met no two operands it could join. */
  lemma {:induction false} QuietPairs(op: Junction, leaves: seq<Expr>, i: nat, j: nat, m: nat, a: nat, b: nat)
    requires i <= |leaves| && j <= |leaves| && Within(leaves, m) && NoNodes(op, leaves) && !Pairs(op, leaves, i, j, m).1
    requires a < |leaves| && b < |leaves| && a != b && (i < a || (i == a && j <= b))
    ensures JoinPair(op, leaves[a], leaves[b]).None?
    decreases |leaves| - i, |leaves| - j
  {
    hide JoinPair, Pass;
    if j == |leaves| {
      QuietPairs(op, leaves, i + 1, 0, m, a, b);
    } else if i == j {
      QuietPairs(op, leaves, i, j + 1, m, a, b);
    } else {
      TotalUpdate(leaves, i, leaves[i]);
      if IsJunction(leaves[i]) { PassMarks(leaves[i]); }
      var inner := if IsJunction(leaves[i]) then Pass(leaves[i]) else (leaves[i], false);
      var met := Meet(op, leaves, i, j, inner.0);
      assert !inner.1 && !met.1 && met.0 == leaves;
      if !(i == a && j == b) { QuietPairs(op, leaves, i, j + 1, m, a, b); }
    }
  }

  /** In a simplified chain no two operands can be joined; in particular no operand stands twice. */
  lemma {:induction false} NothingLeftToJoin(e: Expr, a: nat, b: nat)
    requires var r := EliminateDups(e);
             IsJunction(r) && a < |Leaves(JunctionOf(r), r)| && b < |Leaves(JunctionOf(r), r)| && a != b
    ensures var r := EliminateDups(e); var l := Leaves(JunctionOf(r), r);
            JoinPair(JunctionOf(r), l[a], l[b]).None? && l[a] != l[b]
  {
    hide EliminateDups, JoinPair, Pairs, Leaves;
    EliminateDupsDone(e);
    var r := EliminateDups(e);
    LeavesSize(JunctionOf(r), r);
    QuietPairs(JunctionOf(r), Leaves(JunctionOf(r), r), 0, 0, Size(r), a, b);
    CopiesJoin(JunctionOf(r), Leaves(JunctionOf(r), r)[a]);
  }

  /** One pass over the operands of a level, held in a buffer and replaced in place. */
  method PairsInPlace(op: Junction, a: array<Expr>, ghost m: nat) returns (changed: bool)
    requires Within(a[..], m) && NoNodes(op, a[..])
    modifies a
    ensures NoNodes(op, a[..]) && (a[..], changed) == Pairs(op, old(a[..]), 0, 0, m)
  {
    hide Pass, JoinPair, Total;
    ghost var goal := Pairs(op, a[..], 0, 0, m);
    changed := false;
    for i := 0 to a.Length
      invariant Within(a[..], m) && NoNodes(op, a[..])
      invariant goal.0 == Pairs(op, a[..], i, 0, m).0 && goal.1 == (changed || Pairs(op, a[..], i, 0, m).1)
    {
      for j := 0 to a.Length
        invariant Within(a[..], m) && NoNodes(op, a[..])
        invariant goal.0 == Pairs(op, a[..], i, j, m).0 && goal.1 == (changed || Pairs(op, a[..], i, j, m).1)
      {
        if i != j {
          var inner := SimplifyOperand(op, a[..], i, m);
          var more := MeetInPlace(op, a, i, j, inner.0);
          changed := changed || inner.1 || more;
        }
      }
    }
  }

  function SimplifyOperand(op: Junction, leaves: seq<Expr>, i: nat, ghost m: nat): (r: (Expr, bool))
    requires i < |leaves| && Within(leaves, m) && NoNodes(op, leaves)
    ensures r == if IsJunction(leaves[i]) then Pass(leaves[i]) else (leaves[i], false)
    ensures Size(r.0) <= Size(leaves[i]) && !IsNode(op, r.0)
  {
    if IsJunction(leaves[i]) then Pass(leaves[i]) else (leaves[i], false)
  }

  method MeetInPlace(op: Junction, a: array<Expr>, i: nat, j: nat, x: Expr) returns (joined: bool)
    requires i < a.Length && j < a.Length && i != j && Size(x) <= Size(a[i]) && !IsNode(op, x) && NoNodes(op, a[..])
    modifies a
    ensures (a[..], joined) == Meet(op, old(a[..]), i, j, x)
  {
    hide JoinPair;
    ghost var was := a[..];
    a[i] := x;
    assert a[..] == was[i := x];
    match JoinPair(op, a[i], a[j])
    case None =>
      joined := false;
    case Some(t) =>
      a[i] := Neutral(op);
      a[j] := t;
      assert a[..] == was[i := x][i := Neutral(op)][j := t];
      joined := true;
  }
}
