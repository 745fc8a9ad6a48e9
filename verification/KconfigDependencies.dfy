/** Dependency propagation (`menu_finalize` and `rewrite_m` of tools/kconfig/menu.c): what a menu
    entry depends on after its own conditions are merged with those of its parents. */
module KconfigDependencies {
  import opened Word
  import opened KconfigExpr
  import opened KconfigTransform
  import opened KconfigLeaves
  import opened KconfigEquality
  import opened KconfigDups

  /** `expr_alloc_and`: a missing operand counts as y. */
  function AllocAnd(a: Option<Expr>, b: Option<Expr>): Option<Expr> {
    match (a, b)
    case (None, _) => b
    case (_, None) => a
    case (Some(x), Some(y)) => Some(EAnd(x, y))
  }

  /** `rewrite_m`: the constant m holds only with modules. */
  function RewriteM(e: Expr, modules: Symbol): Expr {
    match e
    case ENot(x) => ENot(RewriteM(x, modules))
    case EAnd(a, b) => EAnd(RewriteM(a, modules), RewriteM(b, modules))
    case EOr(a, b) => EOr(RewriteM(a, modules), RewriteM(b, modules))
    case ESym(s) => if s == MOD then EAnd(e, ESym(modules)) else e
    case EComp(_, _, _) => e
  }

  function LimitedTri(v: Valuation, modules: Symbol, s: Symbol): Tri {
    if s == MOD then Min(v.tri(MOD), v.tri(modules)) else v.tri(s)
  }

  /** The valuation in which m is worth at most what MODULES is. */
  function WithModules(v: Valuation, modules: Symbol): Valuation {
    v.(tri := (s: Symbol) => LimitedTri(v, modules, s))
  }

  lemma {:induction false} RewriteMMeaning(v: Valuation, e: Expr, modules: Symbol)
    ensures Eval(v, RewriteM(e, modules)) == Eval(WithModules(v, modules), e)
  {
    match e
    case ENot(x) => RewriteMMeaning(v, x, modules);
    case EAnd(a, b) => RewriteMMeaning(v, a, modules); RewriteMMeaning(v, b, modules);
    case EOr(a, b) => RewriteMMeaning(v, a, modules); RewriteMMeaning(v, b, modules);
    case EComp(op, l, r) => assert Compare(WithModules(v, modules), l, r) == Compare(v, l, r);
    case ESym(s) =>
  }

  lemma {:induction false} RewriteMOver(e: Expr, modules: Symbol, cs: set<Symbol>)
    requires Over(e, cs)
    ensures Over(RewriteM(e, modules), cs)
  {
    match e
    case ENot(x) => RewriteMOver(x, modules, cs);
    case EAnd(a, b) => RewriteMOver(a, modules, cs); RewriteMOver(b, modules, cs);
    case EOr(a, b) => RewriteMOver(a, modules, cs); RewriteMOver(b, modules, cs);
    case _ =>
  }

  predicate OverOption(e: Option<Expr>, cs: set<Symbol>) { e.Some? ==> Over(e.value, cs) }

  function Prepare(e: Option<Expr>, modules: Symbol): Option<Expr> {
    match e case None => None case Some(x) => Some(Transform(RewriteM(x, modules)))
  }

  function Dedup(e: Option<Expr>): Option<Expr> {
    match e case None => None case Some(x) => Some(EliminateDups(x))
  }

  /** The dependency of a child, or the condition of one of its properties, under a parent's. */
  function Propagate(parent: Option<Expr>, own: Option<Expr>, modules: Symbol): Option<Expr> {
    Dedup(AllocAnd(parent, Prepare(own, modules)))
  }

  function OwnValue(v: Valuation, own: Option<Expr>, modules: Symbol): Tri {
    EvalOption(WithModules(v, modules), own)
  }

  /** The propagated dependency is the minimum of the parent's and the entry's own. */
  lemma {:induction false} PropagateMeaning(v: Valuation, cs: set<Symbol>, parent: Option<Expr>, own: Option<Expr>, modules: Symbol)
    requires Legal(v, cs) && OverOption(parent, cs) && OverOption(own, cs)
    ensures EvalOption(v, Propagate(parent, own, modules)) == Min(EvalOption(v, parent), OwnValue(v, own, modules))
    ensures OverOption(Propagate(parent, own, modules), cs)
  {
    hide Transform, EliminateDups, Legal, RewriteM, WithModules;
    LegalBase(v, cs);
    match own {
      case Some(x) =>
        RewriteMMeaning(v, x, modules);
        RewriteMOver(x, modules, cs);
        TransformMeaning(v, RewriteM(x, modules));
        TransformOver(RewriteM(x, modules), cs);
      case None =>
    }
    match AllocAnd(parent, Prepare(own, modules))
    case Some(x) => EliminateDupsMeaning(v, cs, x);
    case None =>
  }

  // ---- Negation normal form survives ------------------------------------------------------

  predicate NnfOption(e: Option<Expr>) { e.Some? ==> Nnf(e.value) }

  predicate AllNnf(leaves: seq<Expr>) { forall k | 0 <= k < |leaves| :: Nnf(leaves[k]) }

  lemma {:induction false} LeavesNnf(op: Junction, e: Expr)
    requires Nnf(e)
    ensures AllNnf(Leaves(op, e))
  {
    if IsNode(op, e) {
      LeavesNnf(op, e.l);
      LeavesNnf(op, e.r);
    }
  }

  lemma {:induction false} RebuildNnf(op: Junction, e: Expr, leaves: seq<Expr>)
    requires |leaves| == |Leaves(op, e)| && AllNnf(leaves)
    ensures Nnf(Rebuild(op, e, leaves))
  {
    if IsNode(op, e) {
      var n := |Leaves(op, e.l)|;
      RebuildNnf(op, e.l, leaves[..n]);
      RebuildNnf(op, e.r, leaves[n..]);
    }
  }

  lemma {:induction false} EliminateYnNnf(e: Expr)
    requires Nnf(e)
    ensures Nnf(EliminateYn(e))
  {
    if IsJunction(e) {
      EliminateYnNnf(e.l);
      EliminateYnNnf(e.r);
    }
  }

  lemma {:induction false} JoinPairNnf(op: Junction, a: Expr, b: Expr)
    requires Nnf(a) && JoinPair(op, a, b).Some?
    ensures Nnf(JoinPair(op, a, b).value)
  {
    hide ExprEq, SameSubject, TestsBoth, SymbolAndTest, SymbolAndNegation;
  }

  lemma {:induction false} MeetNnf(op: Junction, leaves: seq<Expr>, i: nat, j: nat, x: Expr)
    requires i < |leaves| && j < |leaves| && i != j && Size(x) <= Size(leaves[i]) && !IsNode(op, x) && NoNodes(op, leaves)
    requires AllNnf(leaves) && Nnf(x)
    ensures AllNnf(Meet(op, leaves, i, j, x).0)
  {
    hide JoinPair;
    if JoinPair(op, x, leaves[j]).Some? { JoinPairNnf(op, x, leaves[j]); }
  }

  lemma {:induction false} PairsNnf(op: Junction, leaves: seq<Expr>, i: nat, j: nat, m: nat)
    requires i <= |leaves| && j <= |leaves| && Within(leaves, m) && NoNodes(op, leaves) && AllNnf(leaves)
    ensures AllNnf(Pairs(op, leaves, i, j, m).0)
    decreases m, 0, |leaves| - i, |leaves| - j
  {
    hide Meet, Pass, Nnf;
    if i == |leaves| {
    } else if j == |leaves| {
      PairsNnf(op, leaves, i + 1, 0, m);
    } else if i == j {
      PairsNnf(op, leaves, i, j + 1, m);
    } else {
      TotalUpdate(leaves, i, leaves[i]);
      if IsJunction(leaves[i]) { PassNnf(leaves[i]); }
      var inner := if IsJunction(leaves[i]) then Pass(leaves[i]) else (leaves[i], false);
      MeetNnf(op, leaves, i, j, inner.0);
      PairsNnf(op, Meet(op, leaves, i, j, inner.0).0, i, j + 1, m);
    }
  }

  lemma {:induction false} PassNnf(e: Expr)
    requires IsJunction(e) && Nnf(e)
    ensures Nnf(Pass(e).0)
    decreases Size(e), 1
  {
    hide Pairs, Nnf;
    var op := JunctionOf(e);
    LeavesSize(op, e);
    LeavesNnf(op, e);
    PairsNnf(op, Leaves(op, e), 0, 0, Size(e));
    RebuildNnf(op, e, Pairs(op, Leaves(op, e), 0, 0, Size(e)).0);
  }

  lemma {:induction false} EliminateDupsNnf(e: Expr)
    requires Nnf(e)
    ensures Nnf(EliminateDups(e))
    decreases Size(e)
  {
    hide Pass, EliminateYn, Nnf;
    if IsJunction(e) && Pass(e).1 {
      PassShrinks(e);
      PassNnf(e);
      EliminateYnNnf(Pass(e).0);
      EliminateDupsNnf(EliminateYn(Pass(e).0));
    }
  }

  /** Propagated dependencies stay in negation normal form, level after level. */
  lemma PropagateNnf(parent: Option<Expr>, own: Option<Expr>, modules: Symbol)
    requires NnfOption(parent)
    ensures NnfOption(Propagate(parent, own, modules))
  {
    hide Transform, EliminateDups, RewriteM;
    if own.Some? { TransformIdempotent(RewriteM(own.value, modules)); }
    match AllocAnd(parent, Prepare(own, modules))
    case Some(x) => EliminateDupsNnf(x);
    case None =>
  }

  // ---- From the root to a property --------------------------------------------------------

  /** The dependency reached by descending through entries with the given own dependencies. */
  function Descend(dependencies: seq<Option<Expr>>, modules: Symbol): Option<Expr> {
    if dependencies == [] then None
    else Propagate(Descend(dependencies[..|dependencies| - 1], modules), dependencies[|dependencies| - 1], modules)
  }

  function LeastValue(v: Valuation, dependencies: seq<Option<Expr>>, modules: Symbol): Tri {
    if dependencies == [] then 2
    else
      var n := |dependencies| - 1;
      Min(LeastValue(v, dependencies[..n], modules), OwnValue(v, dependencies[n], modules))
  }

  predicate AllOverOption(dependencies: seq<Option<Expr>>, cs: set<Symbol>) {
    forall k | 0 <= k < |dependencies| :: OverOption(dependencies[k], cs)
  }

  /** However deep the nesting, an entry depends on exactly the minimum of all dependencies on its
      way from the root, and the expression stays in negation normal form. */
  lemma {:induction false} DescendMeaning(v: Valuation, cs: set<Symbol>, dependencies: seq<Option<Expr>>, modules: Symbol)
    requires Legal(v, cs) && AllOverOption(dependencies, cs)
    ensures EvalOption(v, Descend(dependencies, modules)) == LeastValue(v, dependencies, modules)
    ensures NnfOption(Descend(dependencies, modules)) && OverOption(Descend(dependencies, modules), cs)
  {
    hide Propagate, Legal, OwnValue;
    if dependencies != [] {
      var n := |dependencies| - 1;
      DescendMeaning(v, cs, dependencies[..n], modules);
      PropagateMeaning(v, cs, Descend(dependencies[..n], modules), dependencies[n], modules);
      PropagateNnf(Descend(dependencies[..n], modules), dependencies[n], modules);
    }
  }

  /** The condition of a property of a symbol that is not tristate. */
  function BoolCondition(dependencies: seq<Option<Expr>>, condition: Option<Expr>, modules: Symbol): Option<Expr> {
    match Propagate(Descend(dependencies, modules), condition, modules)
    case None => None
    case Some(x) => Some(TransBool(x))
  }

  /** A boolean symbol's property is off exactly when its own condition or a dependency above is n. */
  lemma {:induction false} BoolConditionOff(v: Valuation, cs: set<Symbol>, dependencies: seq<Option<Expr>>,
                                          condition: Option<Expr>, modules: Symbol)
    requires Legal(v, cs) && AllOverOption(dependencies, cs) && OverOption(condition, cs)
    ensures EvalOption(v, BoolCondition(dependencies, condition, modules)) == 0 <==>
              Min(LeastValue(v, dependencies, modules), OwnValue(v, condition, modules)) == 0
  {
    hide Propagate, Legal, OwnValue, Descend, LeastValue, TransBool;
    var parent := Descend(dependencies, modules);
    DescendMeaning(v, cs, dependencies, modules);
    PropagateMeaning(v, cs, parent, condition, modules);
    PropagateNnf(parent, condition, modules);
    LegalBase(v, cs);
    match Propagate(parent, condition, modules)
    case None =>
    case Some(x) =>
      NnfChangesNothingUnderNot(x);
      TransBoolMeaning(v, x);
  }

  // ---- The submenu test -------------------------------------------------------------------

  /** `expr_trans_compare` against n of a condition that may be missing, for "is not n". */
  function TestOption(e: Option<Expr>): Expr {
    match e case None => ENot(ESym(NO)) case Some(x) => TestNo(x, true)
  }

  /** Compared with n and simplified. */
  function Tested(e: Option<Expr>): Expr { EliminateDups(Transform(TestOption(e))) }

  /** The test of `menu_finalize` for "dep is a superset of base", base being the condition of the
      owner's prompt, if any: both are compared with n, simplified, and nothing but y may remain of base. */
  predicate Superset(dep: Expr, base: Option<Expr>) {
    EliminateEq(Tested(Some(dep)), Tested(base)).1 == ESym(YES)
  }

  ghost predicate OptionLogical(e: Option<Expr>) { e.Some? ==> SymbolsLogical(e.value) }

  /** A missing condition is on. */
  predicate OptionOn(v: Valuation, e: Option<Expr>) { e.Some? ==> TwoValued(v, e.value) }

  lemma {:induction false} TestedMeaning(v: Valuation, cs: set<Symbol>, e: Option<Expr>)
    requires Legal(v, cs) && OptionLogical(e) && OverOption(e, cs)
    ensures Eval(v, Tested(e)) == Decided(OptionOn(v, e))
  {
    hide Legal, EliminateDups, Transform, TestNo;
    LegalBase(v, cs);
    FixedConstants(v);
    var test := TestOption(e);
    if e.Some? {
      TestNoTwoValued(v, e.value, true);
      TestNoOver(e.value, true, cs);
    }
    TransformMeaning(v, test);
    TransformOver(test, cs);
    EliminateDupsMeaning(v, cs, Transform(test));
  }

  /** What the test decides under every legal valuation: whenever the entry is on, its m symbols read
      as on, so is the submenu's owner. */
  lemma {:induction false} SupersetTwoValued(v: Valuation, cs: set<Symbol>, dep: Expr, base: Option<Expr>)
    requires Legal(v, cs) && Superset(dep, base) && SymbolsLogical(dep) && OptionLogical(base) && Over(dep, cs) && OverOption(base, cs)
    ensures TwoValued(v, dep) ==> OptionOn(v, base)
  {
    hide Legal, Tested, EliminateEq;
    LegalBase(v, cs);
    FixedConstants(v);
    TestedMeaning(v, cs, Some(dep));
    TestedMeaning(v, cs, base);
    SupersetSound(v, Tested(Some(dep)), Tested(base));
  }

  /** An entry put into an automatic submenu by the test is never on while the submenu's owner is off,
      under every legal valuation in which no negated operand is m. */
  lemma {:induction false} SupersetMeaning(v: Valuation, cs: set<Symbol>, dep: Expr, base: Option<Expr>)
    requires Legal(v, cs) && Superset(dep, base) && SymbolsLogical(dep) && OptionLogical(base) && Over(dep, cs) && OverOption(base, cs)
    requires NegationsDecided(v, dep) && (base.Some? ==> NegationsDecided(v, base.value))
    ensures Eval(v, dep) != 0 ==> EvalOption(v, base) != 0
  {
    hide Legal, Superset, NegationsDecided, SymbolsLogical;
    SupersetTwoValued(v, cs, dep, base);
    DecidedTwoValued(v, dep);
    if base.Some? { DecidedTwoValued(v, base.value); }
  }

  /** An owner without a condition takes every entry that mentions it: the test always holds. */
  lemma {:induction false} UnconditionedOwner(dep: Expr)
    ensures Superset(dep, None)
  {
    hide Transform, EliminateDups;
    NotNoIsYes();
    YesRemains(Tested(Some(dep)));
  }

  lemma {:induction false} NotNoIsYes()
    ensures Tested(None) == ESym(YES)
  {
    assert Transform(ESym(NO)) == ESym(NO);
    assert Transform(ENot(ESym(NO))) == ESym(YES);
  }

  /** Nothing is taken away from y. */
  lemma {:induction false} YesRemains(a: Expr)
    ensures EliminateEq(a, ESym(YES)).1 == ESym(YES)
  {
    hide PairsEq;
    if IsJunction(a) {
      var op := JunctionOf(a);
      LeavesSize(op, a);
      LeavesSize(op, ESym(YES));
      YesPairs(op, Leaves(op, a), 0, 0, Size(a) + 1);
    }
  }

  lemma {:induction false} YesPairs(op: Junction, l1: seq<Expr>, i: nat, j: nat, m: nat)
    requires i <= |l1| && j <= 1 && Fits(l1, [ESym(YES)], m)
    ensures PairsEq(op, l1, [ESym(YES)], i, j, m).1 == [ESym(YES)]
    decreases |l1| - i, 1 - j
  {
    if i < |l1| {
      if j == 1 {
        YesPairs(op, l1, i + 1, 0, m);
      } else {
        YesPairs(op, l1, i, j + 1, m);
      }
    }
  }
}
