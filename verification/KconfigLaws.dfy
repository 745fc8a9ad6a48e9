/** What the value of a symbol is, said of any solution of the recursive definition in terms of prompts,
    defaults, selects and implies, and not by way of the functions that compute it. */
module KconfigLaws {
  import opened Word
  import opened KconfigExpr
  import opened KconfigCheck
  import opened KconfigValues

  /** Only n and y are possible: a boolean, or a tristate while modules are off. */
  predicate TwoWay(c: Config, s: nat)
    requires s < |c.g|
  {
    c.g[s].kind.Boolean? || (c.g[s].kind.Tristate? && !c.modules)
  }

  predicate HasValues(c: Config, s: nat)
    requires s < |c.g|
  {
    c.g[s].kind.Boolean? || c.g[s].kind.Tristate?
  }

  /** Where only n and y are possible m counts as y. */
  function Rounded(two: bool, t: Tri): Tri { if two && t == 1 then 2 else t }

  function Condition(e: Entry, v: Valuation, k: nat): Tri
    requires k < |e.props|
  {
    EvalOption(v, e.props[k].visible)
  }

  /** t is the highest condition of a prompt, n when there is none. */
  ghost predicate HighestPrompt(e: Entry, v: Valuation, t: Tri) {
    && (t == 0 || exists k | 0 <= k < |e.props| :: e.props[k].kind.Prompt? && Condition(e, v, k) == t)
    && forall k | 0 <= k < |e.props| && e.props[k].kind.Prompt? :: Condition(e, v, k) <= t
  }

  predicate Applies(e: Entry, v: Valuation, k: nat)
    requires k < |e.props|
  {
    e.props[k].kind.Default? && Condition(e, v, k) != 0
  }

  /** Default k is the first whose condition is not n. */
  predicate FirstDefault(e: Entry, v: Valuation, k: nat) {
    k < |e.props| && Applies(e, v, k) && forall i | 0 <= i < k :: !Applies(e, v, i)
  }

  predicate NoDefault(e: Entry, v: Valuation) { forall i | 0 <= i < |e.props| :: !Applies(e, v, i) }

  /** d is the value of the first default that applies, bounded by its condition; n when none does. */
  ghost predicate DefaultIs(e: Entry, v: Valuation, d: Tri) {
    || (NoDefault(e, v) && d == 0)
    || exists k: nat :: FirstDefault(e, v, k) && d == Min(EvalOption(v, e.props[k].value), Condition(e, v, k))
  }

  /** What selects or implies give; n when there are none. */
  function Given(e: Option<Expr>, v: Valuation): Tri { match e case None => 0 case Some(x) => Eval(v, x) }

  // ---- The computed parts are these -------------------------------------------------------

  function Tail(e: Entry): Entry
    requires e.props != []
  {
    e.(props := e.props[1..])
  }

  lemma {:induction false} PromptsHighest(e: Entry, v: Valuation)
    ensures HighestPrompt(e, v, PromptsOr(e.props, v))
    decreases |e.props|
  {
    hide Eval;
    if e.props != [] {
      PromptsHighest(Tail(e), v);
      var t, rest := PromptsOr(e.props, v), PromptsOr(e.props[1..], v);
      forall k | 0 <= k < |e.props| && e.props[k].kind.Prompt? ensures Condition(e, v, k) <= t {
        if k > 0 { assert Condition(Tail(e), v, k - 1) <= rest; }
      }
      if t == rest && t != 0 {
        var k :| 0 <= k < |Tail(e).props| && Tail(e).props[k].kind.Prompt? && Condition(Tail(e), v, k) == rest;
        assert e.props[k + 1].kind.Prompt? && Condition(e, v, k + 1) == t;
      } else if t != 0 {
        assert e.props[0].kind.Prompt? && Condition(e, v, 0) == t;
      }
    }
  }

  lemma {:induction false} HighestUnique(e: Entry, v: Valuation, t: Tri, u: Tri)
    requires HighestPrompt(e, v, t) && HighestPrompt(e, v, u)
    ensures t == u
  {
    hide Condition;
  }

  lemma {:induction false} DefaultComputed(e: Entry, v: Valuation)
    ensures DefaultIs(e, v, DefaultValue(e.props, v))
    decreases |e.props|
  {
    hide Eval;
    if e.props != [] {
      if Applies(e, v, 0) {
        assert FirstDefault(e, v, 0);
      } else {
        DefaultComputed(Tail(e), v);
        var d := DefaultValue(e.props, v);
        forall i | 1 <= i < |e.props| ensures Applies(e, v, i) == Applies(Tail(e), v, i - 1) {
        }
        if k: nat :| FirstDefault(Tail(e), v, k) && d == Min(EvalOption(v, Tail(e).props[k].value), Condition(Tail(e), v, k)) {
          assert Applies(e, v, k + 1) == Applies(Tail(e), v, k);
          forall i | 0 <= i < k + 1 ensures !Applies(e, v, i) {
            if i > 0 { assert !Applies(Tail(e), v, i - 1); }
          }
          assert FirstDefault(e, v, k + 1);
        }
      }
    }
  }

  lemma {:induction false} DefaultUnique(e: Entry, v: Valuation, d: Tri, f: Tri)
    requires DefaultIs(e, v, d) && DefaultIs(e, v, f)
    ensures d == f
  {
    hide Condition, EvalOption;
    if k: nat :| FirstDefault(e, v, k) && d == Min(EvalOption(v, e.props[k].value), Condition(e, v, k)) {
      var i: nat :| FirstDefault(e, v, i) && f == Min(EvalOption(v, e.props[i].value), Condition(e, v, i));
      assert !(i < k) && !(k < i);
    }
  }

  // ---- Laws of a solution -----------------------------------------------------------------

  /** The pieces of the value of symbol s: what its prompts, defaults, dependency, selects and implies are
      worth, m counting as y where only n and y are possible. */
  datatype Pieces = Pieces(visible: Tri, usual: Tri, dependency: Tri, selected: Tri, implied: Tri)

  ghost predicate PiecesOf(c: Config, w: seq<Tri>, s: nat, p: Pieces)
    requires s < |c.g|
  {
    var e, v, two := c.g[s], Val(c.base, w), TwoWay(c, s);
    && (exists t: Tri :: HighestPrompt(e, v, t) && p.visible == Rounded(two, t))
    && DefaultIs(e, v, p.usual) && p.dependency == Rounded(two, EvalOption(v, e.dirDep))
    && p.selected == Rounded(two, Given(e.revDep, v)) && p.implied == Rounded(two, Given(e.implied, v))
  }

  /** The value, in full. */
  function Decides(two: bool, user: Option<Tri>, p: Pieces): Tri {
    var own := if user.Some? && p.visible != 0 then Min(user.value, p.visible)
               else if p.implied == 0 then p.usual
               else Min(Max(p.usual, p.implied), p.dependency);
    Rounded(two, Max(own, p.selected))
  }

  lemma {:induction false} PiecesComputed(c: Config, w: seq<Tri>, s: nat)
    requires s < |c.g| && HasValues(c, s)
    ensures var e, v := c.g[s], Val(c.base, w);
            PiecesOf(c, w, s, Pieces(Visibility(e, c.modules, v), DefaultValue(e.props, v),
                                     Promote(e.kind, c.modules, EvalOption(v, e.dirDep)), Reverse(e, c.modules, v),
                                     Promote(e.kind, c.modules, OrNo(e.implied, v))))
  {
    hide Eval, Val, HighestPrompt, DefaultIs;
    var e, v := c.g[s], Val(c.base, w);
    PromptsHighest(e, v);
    DefaultComputed(e, v);
    assert HighestPrompt(e, v, PromptsOr(e.props, v)) && Visibility(e, c.modules, v) == Rounded(TwoWay(c, s), PromptsOr(e.props, v));
  }

  /** Every symbol with a tristate value has such pieces. */
  lemma {:induction false} PiecesExist(c: Config, w: seq<Tri>, s: nat) returns (p: Pieces)
    requires s < |c.g| && HasValues(c, s)
    ensures PiecesOf(c, w, s, p)
  {
    hide PiecesOf;
    PiecesComputed(c, w, s);
    var e, v := c.g[s], Val(c.base, w);
    p := Pieces(Visibility(e, c.modules, v), DefaultValue(e.props, v), Promote(e.kind, c.modules, EvalOption(v, e.dirDep)),
                Reverse(e, c.modules, v), Promote(e.kind, c.modules, OrNo(e.implied, v)));
  }

  lemma {:induction false} PiecesUnique(c: Config, w: seq<Tri>, s: nat, p: Pieces, q: Pieces)
    requires s < |c.g| && PiecesOf(c, w, s, p) && PiecesOf(c, w, s, q)
    ensures p == q
  {
    hide Eval, Val, HighestPrompt, DefaultIs, EvalOption;
    var e, v, two := c.g[s], Val(c.base, w), TwoWay(c, s);
    var t: Tri :| HighestPrompt(e, v, t) && p.visible == Rounded(two, t);
    var u: Tri :| HighestPrompt(e, v, u) && q.visible == Rounded(two, u);
    HighestUnique(e, v, t, u);
    DefaultUnique(e, v, p.usual, q.usual);
  }

  /** A solution gives every symbol the value its pieces decide; symbols of other types have n. */
  lemma {:induction false} ValueDecided(c: Config, users: Users, w: seq<Tri>, s: nat, p: Pieces)
    requires Solution(c, users, w) && s < |w| && PiecesOf(c, w, s, p)
    ensures HasValues(c, s) ==> w[s] == Decides(TwoWay(c, s), users[s], p)
    ensures !HasValues(c, s) ==> w[s] == 0
  {
    hide Eval, Val, HighestPrompt, DefaultIs, EvalOption, PiecesOf, Visibility, Reverse, DefaultValue, OrNo;
    assert w[s] == Calc(c.g[s], users[s], c.modules, Val(c.base, w));
    if HasValues(c, s) {
      PiecesComputed(c, w, s);
      var e, v := c.g[s], Val(c.base, w);
      PiecesUnique(c, w, s, p, Pieces(Visibility(e, c.modules, v), DefaultValue(e.props, v),
                                      Promote(e.kind, c.modules, EvalOption(v, e.dirDep)), Reverse(e, c.modules, v),
                                      Promote(e.kind, c.modules, OrNo(e.implied, v))));
    }
  }

  /** No usable user value: the symbol cannot be seen, or the user has not set it. */
  predicate Untouched(user: Option<Tri>, p: Pieces) { user.None? || p.visible == 0 }

  /** A symbol is never below what selects it; and where only n and y are possible it is never m. */
  lemma {:induction false} NeverBelowSelects(c: Config, users: Users, w: seq<Tri>, s: nat, p: Pieces)
    requires Solution(c, users, w) && s < |w| && HasValues(c, s) && PiecesOf(c, w, s, p)
    ensures p.selected <= w[s] && (TwoWay(c, s) ==> w[s] != 1)
  {
    hide PiecesOf, Calc, Val;
    ValueDecided(c, users, w, s, p);
  }

  /** Left alone, not selected but implied, a symbol never exceeds its direct dependency: with that at n
      it is n. */
  lemma {:induction false} ImpliedBelowDependency(c: Config, users: Users, w: seq<Tri>, s: nat, p: Pieces)
    requires Solution(c, users, w) && s < |w| && HasValues(c, s) && PiecesOf(c, w, s, p)
    requires Untouched(users[s], p) && p.selected == 0 && p.implied != 0
    ensures w[s] <= p.dependency && (p.dependency == 0 ==> w[s] == 0)
    ensures w[s] == p.dependency || p.implied <= w[s]
  {
    hide PiecesOf, Calc, Val;
    if TwoWay(c, s) { PiecesRounded(c, w, s, p); }
    ValueDecided(c, users, w, s, p);
  }

  lemma {:induction false} PiecesRounded(c: Config, w: seq<Tri>, s: nat, p: Pieces)
    requires s < |c.g| && PiecesOf(c, w, s, p) && TwoWay(c, s)
    ensures p.visible != 1 && p.dependency != 1 && p.selected != 1 && p.implied != 1
  {
    hide HighestPrompt, DefaultIs, EvalOption, Val, Given;
  }

  /** Left alone, neither selected nor implied, it has the value of the first default whose condition is not
      n, bounded by that condition, and n when no default applies. */
  lemma {:induction false} DefaultDecides(c: Config, users: Users, w: seq<Tri>, s: nat, p: Pieces, k: nat)
    requires Solution(c, users, w) && s < |w| && HasValues(c, s) && PiecesOf(c, w, s, p)
    requires Untouched(users[s], p) && p.selected == 0 && p.implied == 0
    ensures var e, v := c.g[s], Val(c.base, w);
            && (FirstDefault(e, v, k) ==>
                  w[s] == Rounded(TwoWay(c, s), Min(EvalOption(v, e.props[k].value), Condition(e, v, k))))
            && (NoDefault(e, v) ==> w[s] == 0)
  {
    hide Calc, Val, EvalOption, Condition, HighestPrompt;
    var e, v := c.g[s], Val(c.base, w);
    ValueDecided(c, users, w, s, p);
    if FirstDefault(e, v, k) {
      DefaultUnique(e, v, p.usual, Min(EvalOption(v, e.props[k].value), Condition(e, v, k)));
    } else if NoDefault(e, v) {
      DefaultUnique(e, v, p.usual, 0);
    }
  }

  /** A usable user value is cut to what the prompts allow and raised to what selects the symbol. */
  lemma {:induction false} UserDecides(c: Config, users: Users, w: seq<Tri>, s: nat, p: Pieces)
    requires Solution(c, users, w) && s < |w| && HasValues(c, s) && PiecesOf(c, w, s, p) && !Untouched(users[s], p)
    ensures w[s] <= Max(p.visible, p.selected)
    ensures p.selected <= users[s].value <= p.visible && !(TwoWay(c, s) && users[s].value == 1) ==> w[s] == users[s].value
  {
    hide PiecesOf, Calc, Val;
    if TwoWay(c, s) { PiecesRounded(c, w, s, p); }
    ValueDecided(c, users, w, s, p);
  }
}
