/** Printing expressions (`expr_print` of tools/kconfig/expr.c) and reading them back with the
    grammar and precedences of tools/kconfig/parser.y. */
module KconfigPrint {
  import opened Word
  import opened KconfigExpr
  import opened KconfigLeaves

  datatype Token = TSym(sym: Symbol) | TRel(op: Relation) | TNot | TAnd | TOr | TOpen | TClose

  /** The operator an expression is printed under. */
  datatype Context = Top | UnderNot | UnderAnd | UnderOr

  /** `expr_compare_type` is positive: the expression needs parentheses. */
  predicate NeedsParens(c: Context, e: Expr) {
    match c
    case Top => false
    case UnderNot => e.EAnd? || e.EOr?
    case UnderAnd => e.EOr?
    case UnderOr => false
  }

  function Body(e: Expr): seq<Token>
    decreases Size(e), 0
  {
    match e
    case ESym(s) => [TSym(s)]
    case ENot(x) => [TNot] + Print(x, UnderNot)
    case EComp(op, l, r) => [TSym(l), TRel(op), TSym(r)]
    case EAnd(a, b) => Print(a, UnderAnd) + [TAnd] + Print(b, UnderAnd)
    case EOr(a, b) => Print(a, UnderOr) + [TOr] + Print(b, UnderOr)
  }

  /** `expr_print`. */
  function Print(e: Expr, c: Context): seq<Token>
    decreases Size(e), 1
  {
    if NeedsParens(c, e) then [TOpen] + Body(e) + [TClose] else Body(e)
  }

  // ---- The grammar ------------------------------------------------------------------------

  type Parsed = Option<(Expr, seq<Token>)>

  /** A negation, a symbol, a comparison of two symbols, or a parenthesized expression. */
  function ParseUnary(ts: seq<Token>): (r: Parsed)
    ensures r.Some? ==> |r.value.1| < |ts|
    decreases |ts|, 0
  {
    if ts == [] then None
    else
      match ts[0]
      case TNot =>
        (match ParseUnary(ts[1..])
         case Some((x, rest)) => Some((ENot(x), rest))
         case None => None)
      case TSym(s) =>
        if |ts| >= 3 && ts[1].TRel? && ts[2].TSym? then Some((EComp(ts[1].op, s, ts[2].sym), ts[3..]))
        else if |ts| >= 2 && ts[1].TRel? then None
        else Some((ESym(s), ts[1..]))
      case TOpen =>
        (match ParseOr(None, ts[1..])
         case Some((x, rest)) => if rest != [] && rest[0].TClose? then Some((x, rest[1..])) else None
         case None => None)
      case _ => None
  }

  /** One more operand of &&, then the rest of the level; && associates to the left. */
  function ParseAnd(sofar: Option<Expr>, ts: seq<Token>): (r: Parsed)
    ensures r.Some? ==> |r.value.1| < |ts|
    decreases |ts|, 1
  {
    match ParseUnary(ts)
    case None => None
    case Some((x, rest)) => AndTail(Grown(Conj, sofar, x), rest)
  }

  function AndTail(e: Expr, ts: seq<Token>): (r: Parsed)
    ensures r.Some? ==> |r.value.1| <= |ts|
    decreases |ts|, 0
  {
    if ts != [] && ts[0].TAnd? then ParseAnd(Some(e), ts[1..]) else Some((e, ts))
  }

  function ParseOr(sofar: Option<Expr>, ts: seq<Token>): (r: Parsed)
    ensures r.Some? ==> |r.value.1| < |ts|
    decreases |ts|, 2
  {
    match ParseAnd(None, ts)
    case None => None
    case Some((x, rest)) => OrTail(Grown(Disj, sofar, x), rest)
  }

  function OrTail(e: Expr, ts: seq<Token>): (r: Parsed)
    ensures r.Some? ==> |r.value.1| <= |ts|
    decreases |ts|, 0
  {
    if ts != [] && ts[0].TOr? then ParseOr(Some(e), ts[1..]) else Some((e, ts))
  }

  /** The whole token sequence as one expression. */
  function Parse(ts: seq<Token>): Option<Expr> {
    match ParseOr(None, ts)
    case Some((e, rest)) => if rest == [] then Some(e) else None
    case None => None
  }

  // ---- Left association -------------------------------------------------------------------

  function Grown(op: Junction, sofar: Option<Expr>, e: Expr): Expr {
    match sofar case None => e case Some(a) => Join(op, a, e)
  }

  /** The expression with every chain of && and of || associated to the left. */
  function LeftForm(e: Expr): Expr
    decreases Size(e), 1
  {
    match e
    case ESym(_) => e
    case EComp(_, _, _) => e
    case ENot(x) => ENot(LeftForm(x))
    case EAnd(_, _) => Graft(Conj, None, e)
    case EOr(_, _) => Graft(Disj, None, e)
  }

  /** The chain `e` appended to what has been built. */
  function Graft(op: Junction, sofar: Option<Expr>, e: Expr): Expr
    decreases Size(e), if IsNode(op, e) then 0 else 2
  {
    if IsNode(op, e) then Graft(op, Some(Graft(op, sofar, e.l)), e.r) else Grown(op, sofar, LeftForm(e))
  }

  predicate IsLeft(e: Expr) {
    match e
    case ESym(_) => true
    case EComp(_, _, _) => true
    case ENot(x) => IsLeft(x)
    case EAnd(a, b) => IsLeft(a) && IsLeft(b) && !b.EAnd?
    case EOr(a, b) => IsLeft(a) && IsLeft(b) && !b.EOr?
  }

  lemma {:induction false} LeftFormMeaning(v: Valuation, e: Expr)
    ensures Eval(v, LeftForm(e)) == Eval(v, e)
    decreases Size(e), 1
  {
    match e
    case ENot(x) => LeftFormMeaning(v, x);
    case EAnd(_, _) => GraftMeaning(v, Conj, None, e);
    case EOr(_, _) => GraftMeaning(v, Disj, None, e);
    case _ =>
  }

  lemma {:induction false} GraftMeaning(v: Valuation, op: Junction, sofar: Option<Expr>, e: Expr)
    ensures Eval(v, Graft(op, sofar, e)) ==
            (match sofar case None => Eval(v, e) case Some(a) => Combine(op, Eval(v, a), Eval(v, e)))
    decreases Size(e), if IsNode(op, e) then 0 else 2
  {
    if IsNode(op, e) {
      GraftMeaning(v, op, sofar, e.l);
      GraftMeaning(v, op, Some(Graft(op, sofar, e.l)), e.r);
    } else {
      LeftFormMeaning(v, e);
    }
  }

  /** The left form is associated to the left and of the same kind. */
  lemma {:induction false} LeftFormIsLeft(e: Expr)
    ensures IsLeft(LeftForm(e)) && LeftForm(e).EAnd? == e.EAnd? && LeftForm(e).EOr? == e.EOr?
    decreases Size(e), 1
  {
    match e
    case ENot(x) => LeftFormIsLeft(x);
    case EAnd(_, _) => GraftIsLeft(Conj, None, e);
    case EOr(_, _) => GraftIsLeft(Disj, None, e);
    case _ =>
  }

  lemma {:induction false} GraftIsLeft(op: Junction, sofar: Option<Expr>, e: Expr)
    requires sofar.Some? ==> IsLeft(sofar.value)
    ensures IsLeft(Graft(op, sofar, e))
    ensures IsNode(op, e) || sofar.Some? ==> IsNode(op, Graft(op, sofar, e))
    decreases Size(e), if IsNode(op, e) then 0 else 2
  {
    if IsNode(op, e) {
      GraftIsLeft(op, sofar, e.l);
      GraftIsLeft(op, Some(Graft(op, sofar, e.l)), e.r);
    } else {
      LeftFormIsLeft(e);
    }
  }

  /** An expression is its own left form exactly when it is associated to the left. */
  lemma {:induction false} LeftFormFixed(e: Expr)
    ensures LeftForm(e) == e <==> IsLeft(e)
    decreases Size(e)
  {
    LeftFormIsLeft(e);
    if IsLeft(e) {
      match e
      case ENot(x) => LeftFormFixed(x);
      case EAnd(a, b) =>
        LeftFormFixed(a);
        LeftFormFixed(b);
        assert LeftForm(e) == Graft(Conj, Some(Graft(Conj, None, a)), b);
      case EOr(a, b) =>
        LeftFormFixed(a);
        LeftFormFixed(b);
        assert LeftForm(e) == Graft(Disj, Some(Graft(Disj, None, a)), b);
      case _ =>
    }
  }

  // ---- Reading back what was printed ------------------------------------------------------

  /** What can follow an operand: the end, a closing parenthesis or an operator. */
  predicate Ends(rest: seq<Token>) { rest == [] || rest[0].TAnd? || rest[0].TOr? || rest[0].TClose? }

  predicate EndsAnd(rest: seq<Token>) { rest == [] || rest[0].TOr? || rest[0].TClose? }

  lemma {:induction false} UnaryReads(e: Expr, c: Context, rest: seq<Token>)
    requires (c.UnderNot? || (c.UnderAnd? && !e.EAnd?)) && Ends(rest)
    ensures ParseUnary(Print(e, c) + rest) == Some((LeftForm(e), rest))
    decreases Size(e), 3
  {
    hide Ends;
    var ts := Print(e, c) + rest;
    match e
    case ESym(s) => SymbolReads(s, rest);
    case EComp(op, l, r) => assert ts[3..] == rest;
    case ENot(x) =>
      UnaryReads(x, UnderNot, rest);
      NotPrints(x, c, rest);
    case _ =>
      ParenthesizedReads(e, rest);
  }

  lemma {:induction false} NotPrints(x: Expr, c: Context, rest: seq<Token>)
    ensures Print(ENot(x), c) == [TNot] + Print(x, UnderNot)
    ensures (Print(ENot(x), c) + rest)[1..] == Print(x, UnderNot) + rest
  {
    assert Body(ENot(x)) == [TNot] + Print(x, UnderNot);
  }

  lemma {:induction false} SymbolReads(s: Symbol, rest: seq<Token>)
    requires Ends(rest)
    ensures ParseUnary([TSym(s)] + rest) == Some((ESym(s), rest))
  {
    var ts := [TSym(s)] + rest;
    assert ts[1..] == rest;
    assert |ts| >= 2 ==> ts[1] == rest[0];
  }

  lemma {:induction false} ParenthesizedReads(e: Expr, rest: seq<Token>)
    requires e.EAnd? || e.EOr?
    ensures ParseUnary([TOpen] + Body(e) + [TClose] + rest) == Some((LeftForm(e), rest))
    decreases Size(e), 2
  {
    var ts := [TOpen] + Body(e) + [TClose] + rest;
    var more := [TClose] + rest;
    assert ts[1..] == Body(e) + more;
    OrReads(None, e, more);
    assert more[1..] == rest;
    assert Print(e, UnderOr) == Body(e);
    assert OrTail(Graft(Disj, None, e), more) == Some((Graft(Disj, None, e), more));
  }

  lemma {:induction false} AndReads(sofar: Option<Expr>, e: Expr, rest: seq<Token>)
    requires Ends(rest)
    ensures ParseAnd(sofar, Print(e, UnderAnd) + rest) == AndTail(Graft(Conj, sofar, e), rest)
    decreases Size(e), if e.EAnd? then 0 else 4
  {
    if e.EAnd? {
      var second := [TAnd] + (Print(e.r, UnderAnd) + rest);
      assert Print(e, UnderAnd) + rest == Print(e.l, UnderAnd) + second;
      AndReads(sofar, e.l, second);
      assert second[1..] == Print(e.r, UnderAnd) + rest;
      AndReads(Some(Graft(Conj, sofar, e.l)), e.r, rest);
    } else {
      UnaryReads(e, UnderAnd, rest);
    }
  }

  lemma {:induction false} OrReads(sofar: Option<Expr>, e: Expr, rest: seq<Token>)
    requires EndsAnd(rest)
    ensures ParseOr(sofar, Print(e, UnderOr) + rest) == OrTail(Graft(Disj, sofar, e), rest)
    decreases Size(e), if IsJunction(e) then 1 else 5
  {
    if e.EOr? {
      var second := [TOr] + (Print(e.r, UnderOr) + rest);
      assert Print(e, UnderOr) + rest == Print(e.l, UnderOr) + second;
      OrReads(sofar, e.l, second);
      assert second[1..] == Print(e.r, UnderOr) + rest;
      OrReads(Some(Graft(Disj, sofar, e.l)), e.r, rest);
    } else {
      assert Print(e, UnderOr) == Print(e, UnderAnd);
      AndReads(None, e, rest);
      assert Graft(Conj, None, e) == LeftForm(e);
    }
  }

  /** Printing an expression and parsing the tokens gives it back up to left association. */
  lemma {:induction false} PrintThenParse(e: Expr)
    ensures Parse(Print(e, Top)) == Some(LeftForm(e))
  {
    assert Print(e, Top) == Print(e, UnderOr) + [];
    OrReads(None, e, []);
  }

  /** So it keeps the value, and the very tree exactly when chains were associated to the left. */
  lemma {:induction false} RoundTrip(e: Expr)
    ensures Parse(Print(e, Top)).Some?
    ensures forall v: Valuation :: Eval(v, Parse(Print(e, Top)).value) == Eval(v, e)
    ensures Parse(Print(e, Top)) == Some(e) <==> IsLeft(e)
  {
    PrintThenParse(e);
    LeftFormFixed(e);
    forall v: Valuation ensures Eval(v, LeftForm(e)) == Eval(v, e) {
      LeftFormMeaning(v, e);
    }
  }

  /** Printing again what was parsed gives the same tokens. */
  lemma {:induction false} PrintStable(e: Expr)
    ensures Parse(Print(LeftForm(e), Top)) == Some(LeftForm(e))
  {
    PrintThenParse(LeftForm(e));
    LeftFormIsLeft(e);
    LeftFormFixed(LeftForm(e));
  }

  // ---- No parenthesis too many ------------------------------------------------------------

  lemma {:induction false} ParensOnlyLengthen(e: Expr)
    ensures |Print(e, Top)| == |Print(e, UnderOr)| <= |Print(e, UnderAnd)| <= |Print(e, UnderNot)| <= |Print(e, Top)| + 2
  {
  }

  /** What the operands so far take up, with the operator behind them. */
  function Cost(sofar: Option<Expr>, c: Context): nat {
    match sofar case None => 0 case Some(a) => |Print(a, c)| + 1
  }

  lemma {:induction false} GrownCost(op: Junction, sofar: Option<Expr>, x: Expr, c: Context)
    requires c == if op.Conj? then UnderAnd else UnderOr
    ensures |Print(Grown(op, sofar, x), c)| == Cost(sofar, c) + |Print(x, c)|
  {
  }

  lemma {:induction false} UnaryShortest(ts: seq<Token>)
    requires ParseUnary(ts).Some?
    ensures var (x, rest) := ParseUnary(ts).value; |Print(x, UnderNot)| + |rest| <= |ts|
    decreases |ts|, 0
  {
    match ts[0]
    case TNot => UnaryShortest(ts[1..]);
    case TOpen =>
      OrShortest(None, ts[1..]);
      ParensOnlyLengthen(ParseOr(None, ts[1..]).value.0);
    case _ =>
  }

  lemma {:induction false} AndShortest(sofar: Option<Expr>, ts: seq<Token>)
    requires ParseAnd(sofar, ts).Some?
    ensures var (x, rest) := ParseAnd(sofar, ts).value; |Print(x, UnderOr)| + |rest| <= Cost(sofar, UnderAnd) + |ts|
    decreases |ts|, 1
  {
    hide Print;
    UnaryShortest(ts);
    var (x, rest) := ParseUnary(ts).value;
    var g := Grown(Conj, sofar, x);
    ParensOnlyLengthen(x);
    GrownCost(Conj, sofar, x, UnderAnd);
    ParensOnlyLengthen(g);
    if rest != [] && rest[0].TAnd? { AndShortest(Some(g), rest[1..]); }
  }

  lemma {:induction false} OrShortest(sofar: Option<Expr>, ts: seq<Token>)
    requires ParseOr(sofar, ts).Some?
    ensures var (x, rest) := ParseOr(sofar, ts).value; |Print(x, Top)| + |rest| <= Cost(sofar, UnderOr) + |ts|
    decreases |ts|, 2
  {
    hide Print;
    AndShortest(None, ts);
    var (x, rest) := ParseAnd(None, ts).value;
    var g := Grown(Disj, sofar, x);
    GrownCost(Disj, sofar, x, UnderOr);
    ParensOnlyLengthen(g);
    if rest != [] && rest[0].TOr? { OrShortest(Some(g), rest[1..]); }
  }

  /** Nothing shorter than what is printed reads as the same expression: no parenthesis is redundant. */
  lemma {:induction false} PrintShortest(ts: seq<Token>)
    requires Parse(ts).Some?
    ensures |Print(Parse(ts).value, Top)| <= |ts|
  {
    OrShortest(None, ts);
  }
}
