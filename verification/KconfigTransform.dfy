/** `expr_transform` of tools/kconfig/expr.c: comparisons of booleans become literals and negation
    moves down to the symbols. */
module KconfigTransform {
  import opened Word
  import opened KconfigExpr

  /** A measure the rewriting never increases: negation doubles. */
  function Weight(e: Expr): (n: nat)
    ensures n >= 1
  {
    match e
    case ESym(_) => 1
    case ENot(x) => 2 * Weight(x)
    case EComp(_, _, _) => 2
    case EAnd(a, b) => Weight(a) + Weight(b) + 1
    case EOr(a, b) => Weight(a) + Weight(b) + 1
  }

  /** Pushing a negation through an operator makes the expression lighter. */
  lemma {:induction false} DeMorganLighter(a: Expr, b: Expr)
    ensures Weight(EAnd(ENot(a), ENot(b))) < 2 * Weight(EOr(a, b))
    ensures Weight(EOr(ENot(a), ENot(b))) < 2 * Weight(EAnd(a, b))
  {
    assert Weight(ENot(a)) == 2 * Weight(a) && Weight(ENot(b)) == 2 * Weight(b);
  }

  function Negated(op: Relation): Relation {
    match op
    case Eq => Ne
    case Ne => Eq
    case Lt => Ge
    case Le => Gt
    case Gt => Le
    case Ge => Lt
  }

  /** Comparing a boolean with n, m or y. */
  function SimplifyComp(op: Relation, l: Symbol, r: Symbol): (e: Expr)
    ensures Weight(e) <= 2
  {
    if !l.kind.Boolean? then EComp(op, l, r)
    else if op.Eq? then
      if r == NO then ENot(ESym(l)) else if r == MOD then ESym(NO) else if r == YES then ESym(l) else EComp(op, l, r)
    else if op.Ne? then
      if r == NO then ESym(l) else if r == MOD then ESym(YES) else if r == YES then ENot(ESym(l)) else EComp(op, l, r)
    else EComp(op, l, r)
  }

  /** Rewrites a tree; negated operators are pushed down and the result rewritten again. */
  function Transform(e: Expr): (r: Expr)
    ensures Weight(r) <= Weight(e)
    decreases Weight(e)
  {
    match e
    case ESym(_) => e
    case EComp(op, l, r) => SimplifyComp(op, l, r)
    case EAnd(a, b) => EAnd(Transform(a), Transform(b))
    case EOr(a, b) => EOr(Transform(a), Transform(b))
    case ENot(x) =>
      match Transform(x)
      case ENot(z) => Transform(z)
      case EComp(op, l, r) => EComp(Negated(op), l, r)
      case EOr(a, b) => DeMorganLighter(a, b); Transform(EAnd(ENot(a), ENot(b)))
      case EAnd(a, b) => DeMorganLighter(a, b); Transform(EOr(ENot(a), ENot(b)))
      case ESym(s) =>
        if s == YES then ESym(NO) else if s == MOD then ESym(MOD) else if s == NO then ESym(YES) else ENot(ESym(s))
  }

  lemma {:induction false} SimplifyMeaning(v: Valuation, op: Relation, l: Symbol, r: Symbol)
    requires BaseLegal(v)
    ensures Eval(v, SimplifyComp(op, l, r)) == Eval(v, EComp(op, l, r))
  {
    if l.kind.Boolean? && IsConstant3(r) {
      CompareConstant3(v, l, r);
      assert Consistent(v, l) && Fixed(v, NO) && Fixed(v, YES);
    }
  }

  /** Transforming keeps the value under every legal valuation. */
  lemma {:induction false} TransformMeaning(v: Valuation, e: Expr)
    requires BaseLegal(v)
    ensures Eval(v, Transform(e)) == Eval(v, e)
    decreases Weight(e)
  {
    hide BaseLegal, Compare, SimplifyComp;
    match e
    case ESym(_) =>
    case EComp(op, l, r) => SimplifyMeaning(v, op, l, r);
    case EAnd(a, b) =>
      TransformMeaning(v, a);
      TransformMeaning(v, b);
    case EOr(a, b) =>
      TransformMeaning(v, a);
      TransformMeaning(v, b);
    case ENot(x) =>
      TransformMeaning(v, x);
      NegatedMeaning(v, x);
  }

  lemma {:induction false} NegatedMeaning(v: Valuation, x: Expr)
    requires BaseLegal(v) && Eval(v, Transform(x)) == Eval(v, x)
    ensures Eval(v, Transform(ENot(x))) == 2 - Eval(v, x)
    decreases Weight(ENot(x)), 0
  {
    hide BaseLegal, Compare, SimplifyComp;
    match Transform(x)
    case ENot(z) => TransformMeaning(v, z);
    case EComp(op, l, r) =>
    case EOr(a, b) =>
      DeMorganLighter(a, b);
      TransformMeaning(v, EAnd(ENot(a), ENot(b)));
      DeMorganMeaning(v, a, b);
    case EAnd(a, b) =>
      DeMorganLighter(a, b);
      TransformMeaning(v, EOr(ENot(a), ENot(b)));
      DeMorganMeaning(v, a, b);
    case ESym(s) => FixedConstants(v);
  }

  lemma {:induction false} DeMorganMeaning(v: Valuation, a: Expr, b: Expr)
    ensures Eval(v, EAnd(ENot(a), ENot(b))) == 2 - Eval(v, EOr(a, b))
    ensures Eval(v, EOr(ENot(a), ENot(b))) == 2 - Eval(v, EAnd(a, b))
  {
    assert Eval(v, ENot(a)) == 2 - Eval(v, a) && Eval(v, ENot(b)) == 2 - Eval(v, b);
  }

  lemma FixedConstants(v: Valuation)
    requires BaseLegal(v)
    ensures v.tri(YES) == 2 && v.tri(MOD) == 1 && v.tri(NO) == 0
  {
    assert Fixed(v, YES) && Fixed(v, MOD) && Fixed(v, NO);
  }

  // ---- Normal form ------------------------------------------------------------------------

  /** Negation only over symbols other than n, m and y. */
  predicate Nnf(e: Expr) {
    match e
    case ESym(_) => true
    case ENot(x) => x.ESym? && !IsConstant3(x.sym)
    case EComp(_, _, _) => true
    case EAnd(a, b) => Nnf(a) && Nnf(b)
    case EOr(a, b) => Nnf(a) && Nnf(b)
  }

  /** Moreover no boolean is compared for equality with n, m or y. */
  predicate Normal(e: Expr) {
    match e
    case ESym(_) => true
    case ENot(x) => x.ESym? && !IsConstant3(x.sym)
    case EComp(op, l, r) => !(l.kind.Boolean? && (op.Eq? || op.Ne?) && IsConstant3(r))
    case EAnd(a, b) => Normal(a) && Normal(b)
    case EOr(a, b) => Normal(a) && Normal(b)
  }

  lemma {:induction false} NormalIsNnf(e: Expr)
    requires Normal(e)
    ensures Nnf(e)
  {
    match e
    case EAnd(a, b) => NormalIsNnf(a); NormalIsNnf(b);
    case EOr(a, b) => NormalIsNnf(a); NormalIsNnf(b);
    case _ =>
  }

  lemma {:induction false} TransformNormal(e: Expr)
    ensures Normal(Transform(e))
    decreases Weight(e)
  {
    match e
    case ESym(_) =>
    case EComp(op, l, r) =>
    case EAnd(a, b) =>
      TransformNormal(a);
      TransformNormal(b);
    case EOr(a, b) =>
      TransformNormal(a);
      TransformNormal(b);
    case ENot(x) =>
      TransformNormal(x);
      match Transform(x)
      case ENot(z) => TransformNormal(z);
      case EComp(op, l, r) =>
      case EOr(a, b) => DeMorganLighter(a, b); TransformNormal(EAnd(ENot(a), ENot(b)));
      case EAnd(a, b) => DeMorganLighter(a, b); TransformNormal(EOr(ENot(a), ENot(b)));
      case ESym(s) =>
  }

  lemma {:induction false} NormalFixed(e: Expr)
    requires Normal(e)
    ensures Transform(e) == e
  {
    match e
    case EAnd(a, b) => NormalFixed(a); NormalFixed(b);
    case EOr(a, b) => NormalFixed(a); NormalFixed(b);
    case _ =>
  }

  /** The result has negation only over symbols, and transforming it again changes nothing. */
  lemma {:induction false} TransformIdempotent(e: Expr)
    ensures Nnf(Transform(e)) && Transform(Transform(e)) == Transform(e)
  {
    TransformNormal(e);
    NormalIsNnf(Transform(e));
    NormalFixed(Transform(e));
  }

  /** An expression is left alone exactly when it is in normal form. */
  lemma {:induction false} FixedIffNormal(e: Expr)
    ensures Transform(e) == e <==> Normal(e)
  {
    TransformNormal(e);
    if Normal(e) { NormalFixed(e); }
  }

  // ---- Constants --------------------------------------------------------------------------

  /** Transforming compares with no new symbol. */
  lemma {:induction false} TransformOver(e: Expr, cs: set<Symbol>)
    requires Over(e, cs)
    ensures Over(Transform(e), cs)
    decreases Weight(e)
  {
    match e
    case ESym(_) =>
    case EComp(op, l, r) =>
    case EAnd(a, b) =>
      TransformOver(a, cs);
      TransformOver(b, cs);
    case EOr(a, b) =>
      TransformOver(a, cs);
      TransformOver(b, cs);
    case ENot(x) =>
      TransformOver(x, cs);
      match Transform(x)
      case ENot(z) => TransformOver(z, cs);
      case EComp(op, l, r) =>
      case EOr(a, b) => DeMorganLighter(a, b); TransformOver(EAnd(ENot(a), ENot(b)), cs);
      case EAnd(a, b) => DeMorganLighter(a, b); TransformOver(EOr(ENot(a), ENot(b)), cs);
      case ESym(s) =>
  }

  // ---- Booleans tested against n ----------------------------------------------------------

  /** `expr_trans_bool`: a tristate symbol tested against n becomes the symbol itself. */
  function TransBool(e: Expr): Expr {
    match e
    case EAnd(a, b) => EAnd(TransBool(a), TransBool(b))
    case EOr(a, b) => EOr(TransBool(a), TransBool(b))
    case ENot(x) => ENot(TransBool(x))
    case EComp(op, l, r) => if op.Ne? && l.kind.Tristate? && r == NO then ESym(l) else e
    case ESym(_) => e
  }

  /** A symbol the rewriting would change sits under a negation. */
  predicate ChangesUnderNot(e: Expr, under: bool) {
    match e
    case ESym(_) => false
    case ENot(x) => ChangesUnderNot(x, true)
    case EComp(op, l, r) => under && op.Ne? && l.kind.Tristate? && r == NO
    case EAnd(a, b) => ChangesUnderNot(a, under) || ChangesUnderNot(b, under)
    case EOr(a, b) => ChangesUnderNot(a, under) || ChangesUnderNot(b, under)
  }

  lemma {:induction false} UnchangedUnderNot(e: Expr)
    requires !ChangesUnderNot(e, true)
    ensures TransBool(e) == e
  {
    match e
    case EAnd(a, b) => UnchangedUnderNot(a); UnchangedUnderNot(b);
    case EOr(a, b) => UnchangedUnderNot(a); UnchangedUnderNot(b);
    case ENot(x) => UnchangedUnderNot(x);
    case _ =>
  }

  /** Where it changes nothing under a negation, it preserves whether the value is n. */
  lemma {:induction false} TransBoolMeaning(v: Valuation, e: Expr)
    requires BaseLegal(v) && !ChangesUnderNot(e, false)
    ensures Eval(v, TransBool(e)) == 0 <==> Eval(v, e) == 0
  {
    hide BaseLegal, Compare;
    match e
    case EAnd(a, b) => TransBoolMeaning(v, a); TransBoolMeaning(v, b);
    case EOr(a, b) => TransBoolMeaning(v, a); TransBoolMeaning(v, b);
    case ENot(x) => UnchangedUnderNot(x);
    case EComp(op, l, r) =>
      if op.Ne? && l.kind.Tristate? && r == NO { CompareConstant3(v, l, r); }
    case ESym(_) =>
  }

  /** The rewriting would change something. */
  predicate TestsAgainstNo(e: Expr) {
    match e
    case ESym(_) => false
    case ENot(x) => TestsAgainstNo(x)
    case EComp(op, l, r) => op.Ne? && l.kind.Tristate? && r == NO
    case EAnd(a, b) => TestsAgainstNo(a) || TestsAgainstNo(b)
    case EOr(a, b) => TestsAgainstNo(a) || TestsAgainstNo(b)
  }

  /** It leaves no test of a tristate symbol against n, and an expression without one as it is. */
  lemma {:induction false} TransBoolDone(e: Expr)
    ensures !TestsAgainstNo(TransBool(e)) && (TransBool(e) == e <==> !TestsAgainstNo(e))
  {
    match e
    case EAnd(a, b) => TransBoolDone(a); TransBoolDone(b);
    case EOr(a, b) => TransBoolDone(a); TransBoolDone(b);
    case ENot(x) => TransBoolDone(x);
    case _ =>
  }

  /** Negation-normal expressions are of that kind. */
  lemma {:induction false} NnfChangesNothingUnderNot(e: Expr)
    requires Nnf(e)
    ensures !ChangesUnderNot(e, false)
  {
    match e
    case EAnd(a, b) => NnfChangesNothingUnderNot(a); NnfChangesNothingUnderNot(b);
    case EOr(a, b) => NnfChangesNothingUnderNot(a); NnfChangesNothingUnderNot(b);
    case _ =>
  }

  /** Under a negation the rewriting is right exactly when the symbol is not m: !(FOO!=n) is n for
      FOO=m, !FOO is m. */
  lemma {:induction false} TransBoolUnderNot(v: Valuation, s: Symbol)
    requires BaseLegal(v) && s.kind.Tristate?
    ensures var e := ENot(EComp(Ne, s, NO));
            ((Eval(v, TransBool(e)) == 0) == (Eval(v, e) == 0)) <==> v.tri(s) != 1
  {
    CompareConstant3(v, s, NO);
  }

  /** A legal valuation in which it is wrong. */
  lemma TransBoolNeedsNormalForm(s: Symbol) returns (v: Valuation)
    requires s.kind.Tristate?
    ensures Legal(v, WORDS) && var e := ENot(EComp(Ne, s, NO)); Eval(v, e) == 0 && Eval(v, TransBool(e)) != 0
  {
    v := LegalWith(s, 1);
    assert Legal(v, WORDS);
    CompareConstant3(v, s, NO);
  }

  // ---- Explicit comparisons with n --------------------------------------------------------

  /** `expr_trans_compare` against n; `positive` selects "is not n", otherwise "is n". */
  function TestNo(e: Expr, positive: bool): Expr {
    match e
    case ESym(s) => EComp(if positive then Ne else Eq, s, NO)
    case EComp(_, _, _) => if positive then e else ENot(e)
    case ENot(x) => TestNo(x, !positive)
    case EAnd(a, b) => var t := EOr(TestNo(a, false), TestNo(b, false)); if positive then ENot(t) else t
    case EOr(a, b) => var t := EAnd(TestNo(a, false), TestNo(b, false)); if positive then ENot(t) else t
  }

  lemma {:induction false} TestNoOver(e: Expr, positive: bool, cs: set<Symbol>)
    requires Over(e, cs) && NO in cs
    ensures Over(TestNo(e, positive), cs)
  {
    match e
    case ENot(x) => TestNoOver(x, !positive, cs);
    case EAnd(a, b) => TestNoOver(a, false, cs); TestNoOver(b, false, cs);
    case EOr(a, b) => TestNoOver(a, false, cs); TestNoOver(b, false, cs);
    case _ =>
  }

  /** No negated operand is m. */
  predicate NegationsDecided(v: Valuation, e: Expr) {
    match e
    case ESym(_) => true
    case EComp(_, _, _) => true
    case ENot(x) => Eval(v, x) != 1 && NegationsDecided(v, x)
    case EAnd(a, b) => NegationsDecided(v, a) && NegationsDecided(v, b)
    case EOr(a, b) => NegationsDecided(v, a) && NegationsDecided(v, b)
  }

  predicate SymbolsLogical(e: Expr) {
    match e
    case ESym(s) => Logical(s)
    case EComp(_, _, _) => true
    case ENot(x) => SymbolsLogical(x)
    case EAnd(a, b) => SymbolsLogical(a) && SymbolsLogical(b)
    case EOr(a, b) => SymbolsLogical(a) && SymbolsLogical(b)
  }

  /** The expression with every symbol read as on or off. */
  predicate TwoValued(v: Valuation, e: Expr) {
    match e
    case ESym(s) => v.tri(s) != 0
    case EComp(_, _, _) => Eval(v, e) != 0
    case ENot(x) => !TwoValued(v, x)
    case EAnd(a, b) => TwoValued(v, a) && TwoValued(v, b)
    case EOr(a, b) => TwoValued(v, a) || TwoValued(v, b)
  }

  /** The test is always y or n, and tells whether the expression holds when m is read as on. */
  lemma {:induction false} TestNoTwoValued(v: Valuation, e: Expr, positive: bool)
    requires BaseLegal(v) && SymbolsLogical(e)
    ensures Eval(v, TestNo(e, positive)) == Decided(TwoValued(v, e) == positive)
  {
    hide BaseLegal, Compare;
    match e
    case ESym(s) => CompareConstant3(v, s, NO);
    case EComp(_, _, _) =>
    case ENot(x) => TestNoTwoValued(v, x, !positive);
    case EAnd(a, b) => TestNoTwoValued(v, a, false); TestNoTwoValued(v, b, false);
    case EOr(a, b) => TestNoTwoValued(v, a, false); TestNoTwoValued(v, b, false);
  }

  lemma {:induction false} DecidedTwoValued(v: Valuation, e: Expr)
    requires NegationsDecided(v, e)
    ensures TwoValued(v, e) <==> Eval(v, e) != 0
  {
    hide Compare;
    match e
    case ENot(x) => DecidedTwoValued(v, x);
    case EAnd(a, b) => DecidedTwoValued(v, a); DecidedTwoValued(v, b);
    case EOr(a, b) => DecidedTwoValued(v, a); DecidedTwoValued(v, b);
    case _ =>
  }

  /** While no negated operand is m, the test is y when the expression is not n, and n otherwise. */
  lemma {:induction false} TestNoMeaning(v: Valuation, e: Expr, positive: bool)
    requires BaseLegal(v) && SymbolsLogical(e) && NegationsDecided(v, e)
    ensures Eval(v, TestNo(e, positive)) == Decided((Eval(v, e) != 0) == positive)
  {
    hide BaseLegal, TestNo, NegationsDecided;
    TestNoTwoValued(v, e, positive);
    DecidedTwoValued(v, e);
  }

  /** Testing a negation is right exactly when the negated operand is not m. */
  lemma {:induction false} TestNoOfNegation(v: Valuation, x: Expr, positive: bool)
    requires BaseLegal(v) && SymbolsLogical(x) && NegationsDecided(v, x)
    ensures Eval(v, TestNo(ENot(x), positive)) == Decided((Eval(v, ENot(x)) != 0) == positive) <==> Eval(v, x) != 1
  {
    hide BaseLegal, NegationsDecided;
    TestNoMeaning(v, x, !positive);
  }

  /** A legal valuation in which it is wrong: !FOO with FOO=m is m, yet tests as n. */
  lemma TestNoMissesM(s: Symbol) returns (v: Valuation)
    requires s.kind.Tristate?
    ensures Legal(v, WORDS) && Eval(v, ENot(ESym(s))) != 0 && Eval(v, TestNo(ENot(ESym(s)), true)) == 0
  {
    v := LegalWith(s, 1);
    assert Legal(v, WORDS);
    CompareConstant3(v, s, NO);
  }
}
