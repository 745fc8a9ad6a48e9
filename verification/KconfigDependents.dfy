/** Which siblings depend on a symbol as `menu_finalize` tests it, and what that means for their values:
    an entry of an automatic submenu is never on while the symbol it is under is off. */
module KconfigDependents {
  import opened Word
  import opened KconfigExpr
  import opened KconfigTransform
  import opened KconfigLeaves
  import opened KconfigEquality
  import opened KconfigCheck
  import opened KconfigDups
  import opened KconfigDependencies
  import opened KconfigMenu
  import opened KconfigSubmenus

  /** An entry: its symbol, the condition of its prompt if it has a prompt, and its dependency. */
  datatype MenuEntry = MenuEntry(symbol: Option<Symbol>, prompt: Option<Option<Expr>>, dep: Option<Expr>)

  /** The condition an entry is judged by as a sibling, and the one it has as an owner. */
  function AsSibling(e: MenuEntry): Option<Expr> { if e.prompt.Some? then e.prompt.value else e.dep }

  function AsOwner(e: MenuEntry): Option<Expr> { if e.prompt.Some? then e.prompt.value else None }

  /** `expr_depends_symbol`. */
  predicate DependsOnSymbol(e: Expr, s: Symbol) {
    match e
    case EAnd(a, b) => DependsOnSymbol(a, s) || DependsOnSymbol(b, s)
    case ESym(t) => t == s
    case EComp(op, l, r) => l == s && ((op.Eq? && (r == YES || r == MOD)) || (op.Ne? && r == NO))
    case _ => false
  }

  /** The test of the loop over the siblings. */
  predicate Joins(owner: MenuEntry, e: MenuEntry) {
    && owner.symbol.Some? && AsSibling(e).Some? && Occurs(owner.symbol.value, AsSibling(e).value)
    && (DependsOnSymbol(AsSibling(e).value, owner.symbol.value) || Superset(AsSibling(e).value, AsOwner(owner)))
  }

  function FactsOf(entries: nat -> MenuEntry): Facts {
    Facts((i: nat) => entries(i).symbol.Some?, (i: nat) => entries(i).prompt.Some?, (a: nat, b: nat) => Joins(entries(a), entries(b)))
  }

  /** A dependency on the symbol itself: it is on whenever the condition is, and no less. */
  lemma {:induction false} DependsMeaning(v: Valuation, e: Expr, s: Symbol)
    requires BaseLegal(v) && Logical(s) && DependsOnSymbol(e, s)
    ensures Eval(v, e) != 0 ==> v.tri(s) != 0
  {
    hide BaseLegal;
    match e
    case EAnd(a, b) =>
      if DependsOnSymbol(a, s) { DependsMeaning(v, a, s); } else { DependsMeaning(v, b, s); }
    case EComp(op, l, r) => CompareConstant3(v, l, r);
    case _ =>
  }

  ghost predicate Readable(v: Valuation, cs: set<Symbol>, e: Option<Expr>) {
    OverOption(e, cs) && OptionLogical(e) && (e.Some? ==> NegationsDecided(v, e.value))
  }

  /** An entry that joins is never on while the owner's symbol, or at least the condition of its prompt, is
      off: under every valuation legal for the constants of the two, with no negated operand m. */
  lemma {:induction false} JoinsMeaning(v: Valuation, cs: set<Symbol>, owner: MenuEntry, e: MenuEntry)
    requires Legal(v, cs) && Joins(owner, e) && Logical(owner.symbol.value)
    requires Readable(v, cs, AsSibling(e)) && Readable(v, cs, AsOwner(owner))
    ensures EvalOption(v, AsSibling(e)) != 0 ==> v.tri(owner.symbol.value) != 0 || EvalOption(v, AsOwner(owner)) != 0
    ensures DependsOnSymbol(AsSibling(e).value, owner.symbol.value) && EvalOption(v, AsSibling(e)) != 0 ==> v.tri(owner.symbol.value) != 0
  {
    hide Legal, Superset, Occurs, NegationsDecided, SymbolsLogical, Over;
    LegalBase(v, cs);
    if DependsOnSymbol(AsSibling(e).value, owner.symbol.value) {
      DependsMeaning(v, AsSibling(e).value, owner.symbol.value);
    } else {
      SupersetMeaning(v, cs, AsSibling(e).value, AsOwner(owner));
    }
  }

  lemma {:induction false} OwnerTakes(x: Facts, f: Forest, k: nat)
    requires k < |f|
    ensures Owner(x, f, k).Some? ==> Takes(x, f, Owner(x, f, k).value) && x.joins(f[Owner(x, f, k).value].id, f[k].id)
  {
    if k > 0 { ClimbTakes(x, f, k, Some(k - 1)); }
  }

  lemma {:induction false} ClimbTakes(x: Facts, f: Forest, k: nat, j: Option<nat>)
    requires k < |f| && (j.Some? ==> j.value < k)
    ensures Climb(x, f, k, j).Some? ==> Takes(x, f, Climb(x, f, k, j).value) && x.joins(f[Climb(x, f, k, j).value].id, f[k].id)
    decreases if j.Some? then j.value + 1 else 0
  {
    if j.Some? && !(Takes(x, f, j.value) && x.joins(f[j.value].id, f[k].id)) {
      ClimbTakes(x, f, k, Owner(x, f, j.value));
    }
  }

  /** So it is for every entry of the tree that ends up under a sibling. */
  lemma {:induction false} OwnedIsDependent(v: Valuation, cs: set<Symbol>, entries: nat -> MenuEntry, f: Forest, k: nat)
    requires k < |f| && Owner(FactsOf(entries), f, k).Some? && Legal(v, cs)
    requires var owner, e := entries(f[Owner(FactsOf(entries), f, k).value].id), entries(f[k].id);
             (owner.symbol.Some? ==> Logical(owner.symbol.value)) && Readable(v, cs, AsSibling(e)) && Readable(v, cs, AsOwner(owner))
    ensures var owner, e := entries(f[Owner(FactsOf(entries), f, k).value].id), entries(f[k].id);
            && owner.symbol.Some?
            && (EvalOption(v, AsSibling(e)) != 0 ==> v.tri(owner.symbol.value) != 0 || EvalOption(v, AsOwner(owner)) != 0)
  {
    hide Legal, Joins, Readable, Owner;
    OwnerTakes(FactsOf(entries), f, k);
    JoinsMeaning(v, cs, entries(f[Owner(FactsOf(entries), f, k).value].id), entries(f[k].id));
  }

  // ---- The example of the superset test ---------------------------------------------------

  predicate ThreeSymbols(a: Symbol, q: Symbol, r: Symbol) {
    a.kind.Tristate? && q.kind.Tristate? && r.kind.Tristate? && a != q && a != r && q != r
  }

  function IsOn(s: Symbol): Expr { EComp(Ne, s, NO) }

  lemma {:induction false} ExampleTransformed(a: Symbol, q: Symbol, r: Symbol)
    requires ThreeSymbols(a, q, r)
    ensures Transform(TestNo(EAnd(EOr(ESym(a), ESym(q)), ESym(r)), true)) == EAnd(EOr(IsOn(a), IsOn(q)), IsOn(r))
  {
    var ta, tq, tr := EComp(Eq, a, NO), EComp(Eq, q, NO), EComp(Eq, r, NO);
    assert TestNo(EOr(ESym(a), ESym(q)), false) == EAnd(ta, tq);
    assert Transform(EAnd(ta, tq)) == EAnd(ta, tq);
    assert Transform(ENot(EAnd(ta, tq))) == Transform(EOr(ENot(ta), ENot(tq))) == EOr(IsOn(a), IsOn(q));
    assert Transform(EOr(EAnd(ta, tq), tr)) == EOr(EAnd(ta, tq), tr);
    assert Transform(ENot(EOr(EAnd(ta, tq), tr))) == Transform(EAnd(ENot(EAnd(ta, tq)), ENot(tr)));
  }

  lemma {:induction false} ApartUnjoined(a: Symbol, q: Symbol, r: Symbol)
    requires ThreeSymbols(a, q, r)
    ensures JoinOr(IsOn(a), IsOn(q)) == None == JoinOr(IsOn(q), IsOn(a))
    ensures JoinAnd(EOr(IsOn(a), IsOn(q)), IsOn(r)) == None == JoinAnd(IsOn(r), EOr(IsOn(a), IsOn(q)))
  {
  }

  /** Two operands that do not join make a quiet pass. */
  lemma {:induction false} QuietTwo(op: Junction, x: Expr, y: Expr, m: nat)
    requires !IsNode(op, x) && !IsNode(op, y) && Within([x, y], m) && JoinPair(op, x, y) == None == JoinPair(op, y, x)
    requires (IsJunction(x) ==> Pass(x) == (x, false)) && (IsJunction(y) ==> Pass(y) == (y, false))
    ensures Pairs(op, [x, y], 0, 0, m) == ([x, y], false)
  {
    hide JoinPair, Pass;
    var l := [x, y];
    assert Pairs(op, l, 2, 0, m) == (l, false);
    assert Pairs(op, l, 1, 2, m) == (l, false);
    assert Pairs(op, l, 1, 1, m) == (l, false);
    TotalUpdate(l, 1, y);
    TotalUpdate(l, 0, x);
    assert l[1 := y] == l && Meet(op, l, 1, 0, y) == (l, false);
    assert Pairs(op, l, 1, 0, m) == (l, false);
    assert Pairs(op, l, 0, 2, m) == (l, false);
    assert l[0 := x] == l && Meet(op, l, 0, 1, x) == (l, false);
    assert Pairs(op, l, 0, 1, m) == (l, false);
  }

  lemma {:induction false} QuietJunction(op: Junction, x: Expr, y: Expr)
    requires !IsNode(op, x) && !IsNode(op, y) && JoinPair(op, x, y) == None == JoinPair(op, y, x)
    requires (IsJunction(x) ==> Pass(x) == (x, false)) && (IsJunction(y) ==> Pass(y) == (y, false))
    ensures IsJunction(Join(op, x, y)) && Pass(Join(op, x, y)) == (Join(op, x, y), false)
  {
    hide JoinPair, Pairs;
    var e := Join(op, x, y);
    assert Leaves(op, e) == [x] + [y] == [x, y];
    LeavesSize(op, e);
    QuietTwo(op, x, y, Size(e));
    RebuildSame(op, e);
  }

  lemma {:induction false} EqualOrNot(x: Expr, y: Expr)
    requires y.EComp? && x.EOr?
    ensures !ExprEq(x, y) && ExprEq(y, y) && !ExprEq(x, ESym(YES)) && ExprEq(ESym(YES), ESym(YES))
  {
  }

  /** Two operands against one that is the second of them. */
  lemma {:induction false} SecondTaken(x: Expr, y: Expr, m: nat)
    requires y.EComp? && x.EOr? && Fits([x, y], [y], m)
    ensures PairsEq(Conj, [x, y], [y], 0, 0, m) == ([x, ESym(YES)], [ESym(YES)])
  {
    hide ExprEq;
    EqualOrNot(x, y);
    var yes := ESym(YES);
    TotalUpdate([x, y], 1, yes);
    TotalUpdate([y], 0, yes);
    assert [x, y][1 := yes] == [x, yes] && [y][0 := yes] == [yes];
    assert PairsEq(Conj, [x, yes], [yes], 2, 0, m) == ([x, yes], [yes]);
    assert PairsEq(Conj, [x, yes], [yes], 1, 1, m) == ([x, yes], [yes]);
    assert PairsEq(Conj, [x, y], [y], 1, 0, m) == ([x, yes], [yes]);
    assert PairsEq(Conj, [x, y], [y], 0, 1, m) == ([x, yes], [yes]);
  }

  lemma {:induction false} RestIsYes(x: Expr, y: Expr)
    requires y.EComp? && x.EOr?
    ensures EliminateEq(EAnd(x, y), y).1 == ESym(YES)
  {
    hide PairsEq, ExprEq;
    assert Leaves(Conj, x) == [x] && Leaves(Conj, y) == [y];
    assert Leaves(Conj, EAnd(x, y)) == [x] + [y] == [x, y];
    LeavesSize(Conj, EAnd(x, y));
    LeavesSize(Conj, y);
    SecondTaken(x, y, Size(EAnd(x, y)) + Size(y));
  }

  /** `(sym || Q) && R` is put under sym when the prompt of sym depends on R. */
  lemma {:induction false} SupersetExample(a: Symbol, q: Symbol, r: Symbol)
    requires ThreeSymbols(a, q, r)
    ensures var dep := EAnd(EOr(ESym(a), ESym(q)), ESym(r));
            && Superset(dep, Some(ESym(r))) && !DependsOnSymbol(dep, a)
            && Joins(MenuEntry(Some(a), Some(Some(ESym(r))), None), MenuEntry(None, None, Some(dep)))
  {
    hide Transform, Pass, EliminateEq, JoinPair, JoinOr, JoinAnd, TestNo;
    var dep := EAnd(EOr(ESym(a), ESym(q)), ESym(r));
    ExampleTransformed(a, q, r);
    ApartUnjoined(a, q, r);
    JoinsByKind(a, q, r);
    QuietJunction(Disj, IsOn(a), IsOn(q));
    QuietJunction(Conj, EOr(IsOn(a), IsOn(q)), IsOn(r));
    TestedSymbol(r);
    assert Tested(Some(dep)) == EAnd(EOr(IsOn(a), IsOn(q)), IsOn(r));
    RestIsYes(EOr(IsOn(a), IsOn(q)), IsOn(r));
    assert Occurs(a, EOr(ESym(a), ESym(q)));
  }

  lemma {:induction false} JoinsByKind(a: Symbol, q: Symbol, r: Symbol)
    ensures JoinPair(Disj, IsOn(a), IsOn(q)) == JoinOr(IsOn(a), IsOn(q)) && JoinPair(Disj, IsOn(q), IsOn(a)) == JoinOr(IsOn(q), IsOn(a))
    ensures JoinPair(Conj, EOr(IsOn(a), IsOn(q)), IsOn(r)) == JoinAnd(EOr(IsOn(a), IsOn(q)), IsOn(r))
    ensures JoinPair(Conj, IsOn(r), EOr(IsOn(a), IsOn(q))) == JoinAnd(IsOn(r), EOr(IsOn(a), IsOn(q)))
  {
    hide JoinOr, JoinAnd;
  }

  lemma {:induction false} TestedSymbol(r: Symbol)
    requires r.kind.Tristate?
    ensures Tested(Some(ESym(r))) == IsOn(r)
  {
    assert Transform(IsOn(r)) == IsOn(r);
  }
}
