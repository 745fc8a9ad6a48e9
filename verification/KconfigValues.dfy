/** Values of bool and tristate symbols (`sym_calc_value`, `sym_calc_visibility`,
    `sym_set_tristate_value` and `sym_clear_all_valid` of tools/kconfig/symbol.c): a memoised evaluator
    over an acyclic dependency graph. */
module KconfigValues {
  import opened Word
  import opened KconfigExpr
  import opened KconfigCheck

  /** What stays fixed: the symbols, whether modules are on, and the string values of the symbols that
      are neither bool nor tristate. */
  datatype Config = Config(g: Graph, modules: bool, base: Valuation)

  type Users = seq<Option<Tri>>

  /** The tristate value of a symbol under the assignment w. */
  function TriOf(base: Valuation, w: seq<Tri>, s: Symbol): Tri {
    if Logical(s) && s.id < |w| then w[s.id] else base.tri(s)
  }

  function TextOf(base: Valuation, w: seq<Tri>, s: Symbol): string {
    if Logical(s) then TriText(TriOf(base, w, s)) else base.text(s)
  }

  function NumberOf(base: Valuation, w: seq<Tri>, s: Symbol): Option<Number> {
    if Logical(s) then Some(SignedNumber(TriOf(base, w, s))) else base.number(s)
  }

  function Val(base: Valuation, w: seq<Tri>): Valuation {
    Valuation((s: Symbol) => TriOf(base, w, s), (s: Symbol) => TextOf(base, w, s), (s: Symbol) => NumberOf(base, w, s))
  }

  /** A value m counts as y where only bool is possible. */
  function Promote(kind: Kind, modules: bool, t: Tri): Tri {
    if t == 1 && (!kind.Tristate? || !modules) then 2 else t
  }

  function PromptsOr(props: seq<Prop>, v: Valuation): Tri {
    if props == [] then 0
    else Max(if props[0].kind.Prompt? then EvalOption(v, props[0].visible) else 0, PromptsOr(props[1..], v))
  }

  /** Value of the first default whose condition is not n. */
  function DefaultValue(props: seq<Prop>, v: Valuation): Tri {
    if props == [] then 0
    else if props[0].kind.Default? && EvalOption(v, props[0].visible) != 0 then
      Min(EvalOption(v, props[0].value), EvalOption(v, props[0].visible))
    else DefaultValue(props[1..], v)
  }

  function OrNo(e: Option<Expr>, v: Valuation): Tri { match e case None => 0 case Some(x) => Eval(v, x) }

  function Visibility(e: Entry, modules: bool, v: Valuation): Tri { Promote(e.kind, modules, PromptsOr(e.props, v)) }

  function Reverse(e: Entry, modules: bool, v: Valuation): Tri { Promote(e.kind, modules, OrNo(e.revDep, v)) }

  /** The value without a usable user value. */
  function Unset(e: Entry, modules: bool, v: Valuation): Tri {
    var d, i := DefaultValue(e.props, v), Promote(e.kind, modules, OrNo(e.implied, v));
    if i != 0 then Min(Max(d, i), Promote(e.kind, modules, EvalOption(v, e.dirDep))) else d
  }

  /** `sym_calc_value` in terms of the values of everything the symbol depends on. */
  function Calc(e: Entry, user: Option<Tri>, modules: bool, v: Valuation): Tri {
    if !e.kind.Boolean? && !e.kind.Tristate? then 0
    else
      var vis := Visibility(e, modules, v);
      var own := if vis != 0 && user.Some? then Min(user.value, vis) else Unset(e, modules, v);
      Promote(e.kind, modules, Max(own, Reverse(e, modules, v)))
  }

  // ---- The recursive definition -----------------------------------------------------------

  /** The recursive definition: every symbol has the value computed from the others' values. */
  ghost predicate Solution(c: Config, users: Users, w: seq<Tri>) {
    && |w| == |c.g| == |users|
    && forall s | 0 <= s < |w| :: w[s] == Calc(c.g[s], users[s], c.modules, Val(c.base, w))
  }

  /** A solution gives the symbols of the table, under their own types, consistent values: the expression
      rewriting may be relied on for them. */
  lemma SolutionConsistent(c: Config, users: Users, w: seq<Tri>, s: Symbol)
    requires Solution(c, users, w) && s.id < |c.g| && c.g[s.id].kind == s.kind
    ensures Logical(s) ==> Consistent(Val(c.base, w), s) && Val(c.base, w).tri(s) == w[s.id]
  {
    hide Visibility, Unset, Reverse;
    assert w[s.id] == Calc(c.g[s.id], users[s.id], c.modules, Val(c.base, w));
  }

  /** The assignments give all mentioned symbols the same values. */
  predicate AgreeOnSymbols(w: seq<Tri>, u: seq<Tri>, symbols: seq<Symbol>) {
    forall k | 0 <= k < |symbols| :: symbols[k].id < |w| && symbols[k].id < |u| && w[symbols[k].id] == u[symbols[k].id]
  }

  lemma AgreeSplit(w: seq<Tri>, u: seq<Tri>, a: seq<Symbol>, b: seq<Symbol>)
    requires AgreeOnSymbols(w, u, a + b)
    ensures AgreeOnSymbols(w, u, a) && AgreeOnSymbols(w, u, b)
  {
    forall k | 0 <= k < |a| ensures a[k].id < |w| && a[k].id < |u| && w[a[k].id] == u[a[k].id] {
      assert (a + b)[k] == a[k];
    }
    forall k | 0 <= k < |b| ensures b[k].id < |w| && b[k].id < |u| && w[b[k].id] == u[b[k].id] {
      assert (a + b)[|a| + k] == b[k];
    }
  }

  lemma {:induction false} EvalAgree(base: Valuation, w: seq<Tri>, u: seq<Tri>, e: Expr)
    requires AgreeOnSymbols(w, u, Mentions(e))
    ensures Eval(Val(base, w), e) == Eval(Val(base, u), e)
  {
    match e
    case ESym(s) => assert Mentions(e)[0] == s;
    case ENot(x) => EvalAgree(base, w, u, x);
    case EComp(op, l, r) => CompareAgree(base, w, u, l, r);
    case EAnd(a, b) =>
      AgreeSplit(w, u, Mentions(a), Mentions(b));
      EvalAgree(base, w, u, a);
      EvalAgree(base, w, u, b);
    case EOr(a, b) =>
      AgreeSplit(w, u, Mentions(a), Mentions(b));
      EvalAgree(base, w, u, a);
      EvalAgree(base, w, u, b);
  }

  lemma CompareAgree(base: Valuation, w: seq<Tri>, u: seq<Tri>, l: Symbol, r: Symbol)
    requires AgreeOnSymbols(w, u, [l, r])
    ensures Compare(Val(base, w), l, r) == Compare(Val(base, u), l, r)
  {
    assert [l, r][0] == l && [l, r][1] == r;
  }

  lemma OptionAgree(base: Valuation, w: seq<Tri>, u: seq<Tri>, e: Option<Expr>)
    requires AgreeOnSymbols(w, u, MentionsOption(e))
    ensures EvalOption(Val(base, w), e) == EvalOption(Val(base, u), e) && OrNo(e, Val(base, w)) == OrNo(e, Val(base, u))
  {
    hide Val;
    if e.Some? { EvalAgree(base, w, u, e.value); }
  }

  lemma {:induction false} PropsAgree(base: Valuation, w: seq<Tri>, u: seq<Tri>, props: seq<Prop>)
    requires AgreeOnSymbols(w, u, PropsMention(props))
    ensures PromptsOr(props, Val(base, w)) == PromptsOr(props, Val(base, u))
    ensures DefaultValue(props, Val(base, w)) == DefaultValue(props, Val(base, u))
  {
    hide Val, AgreeOnSymbols, EvalOption;
    if props != [] {
      var p := props[0];
      AgreeSplit(w, u, PropMentions(p), PropsMention(props[1..]));
      PropsAgree(base, w, u, props[1..]);
      if p.kind.Prompt? || p.kind.Default? {
        AgreeSplit(w, u, MentionsOption(p.visible), if p.kind.Default? then MentionsOption(p.value) else []);
        OptionAgree(base, w, u, p.visible);
        if p.kind.Default? { OptionAgree(base, w, u, p.value); }
      }
    }
  }

  /** A symbol's value depends only on what the dependency check walks. */
  lemma CalcAgree(base: Valuation, w: seq<Tri>, u: seq<Tri>, e: Entry, user: Option<Tri>, modules: bool)
    requires AgreeOnSymbols(w, u, Edges(e))
    ensures Calc(e, user, modules, Val(base, w)) == Calc(e, user, modules, Val(base, u))
    ensures Visibility(e, modules, Val(base, w)) == Visibility(e, modules, Val(base, u))
    ensures Reverse(e, modules, Val(base, w)) == Reverse(e, modules, Val(base, u))
  {
    hide Val, AgreeOnSymbols, EvalOption, PromptsOr, DefaultValue, PropsMention, MentionsOption;
    var d, r, i, p := MentionsOption(e.dirDep), MentionsOption(e.revDep), MentionsOption(e.implied), PropsMention(e.props);
    AgreeSplit(w, u, d + r + i, p);
    AgreeSplit(w, u, d + r, i);
    AgreeSplit(w, u, d, r);
    OptionAgree(base, w, u, e.dirDep);
    OptionAgree(base, w, u, e.revDep);
    OptionAgree(base, w, u, e.implied);
    PropsAgree(base, w, u, e.props);
  }

  /** The graph has been found acyclic, with this order as the witness. */
  ghost predicate Ordered(g: Graph, order: seq<nat>) {
    Closed(g) && Topological(g, order) && forall s: nat | s < |g| :: s in order
  }

  lemma {:induction false} EdgesEarlier(g: Graph, order: seq<nat>, s: nat, k: nat)
    requires Ordered(g, order) && s < |g| && k < |Edges(g[s])|
    ensures Edges(g[s])[k].id < |g| && IndexIn(order, Edges(g[s])[k].id) < IndexIn(order, s)
  {
    hide Edges;
    assert DependsOn(g, s, Edges(g[s])[k].id);
    EarlierDependency(g, order, s, Edges(g[s])[k].id);
  }

  /** The value of t depends, directly or not, on that of s. */
  ghost predicate Reaches(g: Graph, t: nat, s: nat) {
    exists p: seq<nat> :: |p| >= 1 && p[0] == t && p[|p| - 1] == s && IsPath(g, p)
  }

  lemma ReachesItself(g: Graph, s: nat)
    ensures Reaches(g, s, s)
  {
    assert IsPath(g, [s]) && [s][0] == s;
  }

  lemma ReachesThrough(g: Graph, t: nat, d: nat, s: nat)
    requires DependsOn(g, t, d) && Reaches(g, d, s)
    ensures Reaches(g, t, s)
  {
    hide DependsOn;
    var p: seq<nat> :| |p| >= 1 && p[0] == d && p[|p| - 1] == s && IsPath(g, p);
    var q := [t] + p;
    forall k | 0 <= k < |q| - 1 ensures DependsOn(g, q[k], q[k + 1]) {
      if k > 0 { assert DependsOn(g, p[k - 1], p[k]); }
    }
    assert IsPath(g, q) && q[0] == t && q[|q| - 1] == s;
  }

  /** User values may differ only at s: symbols that do not depend on s have the same value. */
  ghost predicate DifferAt(users: Users, others: Users, s: nat) {
    |users| == |others| && forall t | 0 <= t < |users| && t != s :: users[t] == others[t]
  }

  lemma {:induction false} UnaffectedAt(c: Config, order: seq<nat>, users: Users, others: Users, w: seq<Tri>, u: seq<Tri>, s: nat, t: nat)
    requires Ordered(c.g, order) && Solution(c, users, w) && Solution(c, others, u) && DifferAt(users, others, s)
    requires t < |c.g| && !Reaches(c.g, t, s)
    ensures w[t] == u[t]
    decreases IndexIn(order, t)
  {
    hide Calc, Edges, Ordered, Reaches;
    UnaffectedEdges(c, order, users, others, w, u, s, t);
    ReachesItself(c.g, s);
    CalcAgree(c.base, w, u, c.g[t], users[t], c.modules);
  }

  lemma {:induction false} UnaffectedEdges(c: Config, order: seq<nat>, users: Users, others: Users, w: seq<Tri>, u: seq<Tri>, s: nat, t: nat)
    requires Ordered(c.g, order) && Solution(c, users, w) && Solution(c, others, u) && DifferAt(users, others, s)
    requires t < |c.g| && (t == s || !Reaches(c.g, t, s))
    ensures AgreeOnSymbols(w, u, Edges(c.g[t]))
    decreases IndexIn(order, t), 0
  {
    hide Calc, Edges, Reaches;
    forall k | 0 <= k < |Edges(c.g[t])|
      ensures Edges(c.g[t])[k].id < |c.g| && w[Edges(c.g[t])[k].id] == u[Edges(c.g[t])[k].id]
    {
      var d := Edges(c.g[t])[k].id;
      EdgesEarlier(c.g, order, t, k);
      assert DependsOn(c.g, t, d);
      if Reaches(c.g, d, s) {
        ReachesThrough(c.g, t, d, s);
        NoWayBack(c.g, order, s, d);
      }
      UnaffectedAt(c, order, users, others, w, u, s, d);
    }
  }

  /** On an acyclic graph a dependency of s does not depend on s. */
  lemma NoWayBack(g: Graph, order: seq<nat>, s: nat, d: nat)
    requires Ordered(g, order) && s < |g| && DependsOn(g, s, d)
    ensures !Reaches(g, d, s)
  {
    hide DependsOn;
    if Reaches(g, d, s) {
      var p: seq<nat> :| |p| >= 1 && p[0] == d && p[|p| - 1] == s && IsPath(g, p);
      var q := [s] + p;
      forall k | 0 <= k < |q| - 1 ensures DependsOn(g, q[k], q[k + 1]) {
        if k > 0 { assert DependsOn(g, p[k - 1], p[k]); }
      }
      PathDescends(g, order, q);
    }
  }

  /** On an acyclic graph the recursive definition determines every value. */
  lemma SolutionUnique(c: Config, order: seq<nat>, users: Users, w: seq<Tri>, u: seq<Tri>)
    requires Ordered(c.g, order) && Solution(c, users, w) && Solution(c, users, u)
    ensures w == u
  {
    hide Solution, Ordered, Reaches;
    SameLength(c, users, w, u);
    forall s: nat | s < |w| ensures w[s] == u[s] {
      NothingReaches(c.g, order, s);
      UnaffectedAt(c, order, users, users, w, u, |c.g|, s);
    }
  }

  lemma SameLength(c: Config, users: Users, w: seq<Tri>, u: seq<Tri>)
    requires Solution(c, users, w) && Solution(c, users, u)
    ensures |w| == |u| == |c.g| && DifferAt(users, users, |c.g|)
  {
  }

  /** Nothing depends on a number outside the table. */
  lemma NothingReaches(g: Graph, order: seq<nat>, s: nat)
    requires Ordered(g, order) && s < |g|
    ensures !Reaches(g, s, |g|)
  {
    if Reaches(g, s, |g|) {
      var p: seq<nat> :| |p| >= 1 && p[0] == s && p[|p| - 1] == |g| && IsPath(g, p);
      PathStaysInside(g, p);
    }
  }

  lemma PathStaysInside(g: Graph, p: seq<nat>)
    requires Closed(g) && IsPath(g, p) && |p| >= 1 && p[0] < |g|
    ensures p[|p| - 1] < |g|
  {
    if |p| >= 2 {
      assert DependsOn(g, p[|p| - 2], p[|p| - 1]);
    }
  }

  /** Values filled in along the order. */
  function Fill(c: Config, order: seq<nat>, users: Users): (w: seq<Tri>)
    requires |users| == |c.g| && InTable(c.g, order)
    ensures |w| == |c.g|
  {
    if order == [] then seq(|c.g|, _ => 0)
    else
      var n := |order| - 1;
      var w := Fill(c, order[..n], users);
      w[order[n] := Calc(c.g[order[n]], users[order[n]], c.modules, Val(c.base, w))]
  }

  lemma {:induction false} FillSolves(c: Config, order: seq<nat>, users: Users, s: nat)
    requires |users| == |c.g| && Closed(c.g) && Topological(c.g, order) && InTable(c.g, order) && s in order
    ensures var w := Fill(c, order, users); w[s] == Calc(c.g[s], users[s], c.modules, Val(c.base, w))
  {
    hide Calc, Edges;
    var n := |order| - 1;
    var x, before := order[n], order[..n];
    PrefixTopological(c.g, order);
    var w0 := Fill(c, before, users);
    var w := Fill(c, order, users);
    if x in before {
      FillSolves(c, before, users, x);
      assert w == w0;
      assert s in before;
      FillSolves(c, before, users, s);
    } else {
      forall k | 0 <= k < |Edges(c.g[s])| ensures w0[Edges(c.g[s])[k].id] == w[Edges(c.g[s])[k].id] {
        assert DependsOn(c.g, s, Edges(c.g[s])[k].id);
        EarlierThanLast(c.g, order, s, Edges(c.g[s])[k].id);
      }
      CalcAgree(c.base, w0, w, c.g[s], users[s], c.modules);
      if s != x { FillSolves(c, before, users, s); }
    }
  }

  lemma PrefixTopological(g: Graph, order: seq<nat>)
    requires Topological(g, order) && order != []
    ensures Topological(g, order[..|order| - 1])
  {
    hide DependsOn;
    var p := order[..|order| - 1];
    forall k, t | 0 <= k < |p| && DependsOn(g, p[k], t) ensures t in p[..k] {
      assert t in order[..k] && order[..k] == p[..k];
    }
  }

  lemma EarlierThanLast(g: Graph, order: seq<nat>, s: nat, t: nat)
    requires Topological(g, order) && s in order && DependsOn(g, s, t)
    ensures t in order[..|order| - 1]
  {
    hide DependsOn;
    var k :| 0 <= k < |order| && order[k] == s;
    assert t in order[..k];
    assert order[..k] == order[..|order| - 1][..k];
  }

  /** And it has a solution. */
  lemma {:induction false} SolutionExists(c: Config, order: seq<nat>, users: Users)
    requires Ordered(c.g, order) && |users| == |c.g| && InTable(c.g, order)
    ensures Solution(c, users, Fill(c, order, users))
  {
    hide Calc;
    forall s | 0 <= s < |c.g|
      ensures Fill(c, order, users)[s] == Calc(c.g[s], users[s], c.modules, Val(c.base, Fill(c, order, users)))
    {
      FillSolves(c, order, users, s);
    }
  }

  // ---- Setting a value --------------------------------------------------------------------

  /** `sym_tristate_within_range`, given the symbol's visibility and reverse dependency. */
  predicate WithinRange(kind: Kind, modules: bool, visible: Tri, reverse: Tri, val: Tri) {
    && visible != 0 && (kind.Boolean? || kind.Tristate?)
    && !(val == 1 && (kind.Boolean? || !modules))
    && visible > reverse && reverse <= val <= visible
  }

  /** A user value within range reads back unchanged, and symbols that do not depend on the symbol keep
      their values. */
  lemma SetReadsBack(c: Config, order: seq<nat>, users: Users, w: seq<Tri>, u: seq<Tri>, s: nat, val: Tri)
    requires Ordered(c.g, order) && s < |c.g| && Solution(c, users, w) && Solution(c, users[s := Some(val)], u)
    requires WithinRange(c.g[s].kind, c.modules, Visibility(c.g[s], c.modules, Val(c.base, w)), Reverse(c.g[s], c.modules, Val(c.base, w)), val)
    ensures u[s] == val
    ensures forall t: nat | t < |c.g| && !Reaches(c.g, t, s) :: u[t] == w[t]
  {
    hide Visibility, Reverse, Unset, Edges, Reaches, Ordered;
    var others := users[s := Some(val)];
    UnaffectedEdges(c, order, users, others, w, u, s, s);
    CalcAgree(c.base, w, u, c.g[s], Some(val), c.modules);
    forall t: nat | t < |c.g| && !Reaches(c.g, t, s) ensures u[t] == w[t] {
      UnaffectedAt(c, order, users, others, w, u, s, t);
    }
  }

  /** A new value lasts exactly when it is possible for the type and lies between the reverse dependency
      and the visible limit; it is accepted exactly when it lasts and these two differ. So the only value
      that would last and is refused is the one they both are. */
  lemma SettingLastsIff(c: Config, order: seq<nat>, users: Users, w: seq<Tri>, u: seq<Tri>, s: nat, val: Tri)
    requires Ordered(c.g, order) && s < |c.g| && Solution(c, users, w) && Solution(c, users[s := Some(val)], u) && val != w[s]
    requires c.g[s].kind.Boolean? || c.g[s].kind.Tristate?
    ensures var e, v := c.g[s], Val(c.base, w);
            var visible, reverse := Visibility(e, c.modules, v), Reverse(e, c.modules, v);
            && (u[s] == val <==>
                  visible != 0 && reverse <= val <= visible && !(val == 1 && (e.kind.Boolean? || !c.modules)))
            && (WithinRange(e.kind, c.modules, visible, reverse, val) <==> u[s] == val && reverse < visible)
            && (u[s] == val && !WithinRange(e.kind, c.modules, visible, reverse, val) ==> visible == reverse == val)
  {
    hide Unset, Edges, Ordered, PromptsOr, OrNo;
    UnaffectedEdges(c, order, users, users[s := Some(val)], w, u, s, s);
    CalcAgree(c.base, w, u, c.g[s], Some(val), c.modules);
    SameUnset(c.base, w, u, c.g[s], c.modules);
  }

  /** Setting the value a symbol already shows is accepted unchecked. The value then lasts exactly when
      the symbol is invisible, the value is within the visible limit, or a reverse dependency gives it. */
  lemma UnchangedReadsBackIff(c: Config, order: seq<nat>, users: Users, w: seq<Tri>, u: seq<Tri>, s: nat)
    requires Ordered(c.g, order) && s < |c.g| && Solution(c, users, w) && Solution(c, users[s := Some(w[s])], u)
    ensures var visible := Visibility(c.g[s], c.modules, Val(c.base, w));
            u[s] == w[s] <==> visible == 0 || w[s] <= visible || Reverse(c.g[s], c.modules, Val(c.base, w)) == w[s]
  {
    hide Unset, Edges, Ordered, PromptsOr, OrNo;
    UnaffectedEdges(c, order, users, users[s := Some(w[s])], w, u, s, s);
    CalcAgree(c.base, w, u, c.g[s], Some(w[s]), c.modules);
    SameUnset(c.base, w, u, c.g[s], c.modules);
  }

  lemma SameUnset(base: Valuation, w: seq<Tri>, u: seq<Tri>, e: Entry, modules: bool)
    requires AgreeOnSymbols(w, u, Edges(e))
    ensures Unset(e, modules, Val(base, w)) == Unset(e, modules, Val(base, u))
  {
    hide Val, AgreeOnSymbols, EvalOption, PromptsOr, DefaultValue, PropsMention, MentionsOption;
    var d, r, i, p := MentionsOption(e.dirDep), MentionsOption(e.revDep), MentionsOption(e.implied), PropsMention(e.props);
    AgreeSplit(w, u, d + r + i, p);
    AgreeSplit(w, u, d + r, i);
    AgreeSplit(w, u, d, r);
    OptionAgree(base, w, u, e.dirDep);
    OptionAgree(base, w, u, e.implied);
    PropsAgree(base, w, u, e.props);
  }
}
