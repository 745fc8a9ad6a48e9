/** `sym_calc_value` as the memoised, recursive program it is: a value is computed once, whatever symbol
    is asked for first, and it is the value of the recursive definition. */
module KconfigEvaluator {
  import opened Word
  import opened KconfigExpr
  import opened KconfigCheck
  import opened KconfigValues

  /** The cached fields of a symbol. */
  datatype Cell = Cell(valid: bool, curr: Tri, visible: Tri, reverse: Tri)

  /** The cell holds the values of the solution w for symbol t. */
  predicate Right(c: Config, w: seq<Tri>, t: nat, cell: Cell)
    requires |w| == |c.g| && t < |c.g|
  {
    && cell.curr == w[t]
    && (c.g[t].kind.Boolean? || c.g[t].kind.Tristate? ==>
          && cell.visible == Visibility(c.g[t], c.modules, Val(c.base, w))
          && cell.reverse == Reverse(c.g[t], c.modules, Val(c.base, w)))
  }

  /** Whatever is marked valid and stands below the bound is right. */
  predicate RightBelow(c: Config, order: seq<nat>, w: seq<Tri>, cells: seq<Cell>, bound: nat) {
    && |w| == |c.g| == |cells|
    && forall t: nat | t < |cells| && cells[t].valid && IndexIn(order, t) < bound :: Right(c, w, t, cells[t])
  }

  /** What was valid before is unchanged, what has become valid is right. */
  predicate Progress(c: Config, w: seq<Tri>, before: seq<Cell>, after: seq<Cell>) {
    && |w| == |c.g| == |before| == |after|
    && forall t: nat | t < |before| && after[t] != before[t] :: !before[t].valid && after[t].valid && Right(c, w, t, after[t])
  }

  lemma ProgressKeeps(c: Config, order: seq<nat>, w: seq<Tri>, before: seq<Cell>, after: seq<Cell>, bound: nat)
    requires RightBelow(c, order, w, before, bound) && Progress(c, w, before, after)
    ensures RightBelow(c, order, w, after, bound)
  {
    hide Right;
  }

  lemma ProgressChain(c: Config, w: seq<Tri>, a: seq<Cell>, b: seq<Cell>, d: seq<Cell>)
    requires Progress(c, w, a, b) && Progress(c, w, b, d)
    ensures Progress(c, w, a, d)
  {
    hide Right;
  }

  /** All the symbols stand below the bound. */
  predicate Below(g: Graph, order: seq<nat>, symbols: seq<Symbol>, bound: nat) {
    forall k | 0 <= k < |symbols| :: symbols[k].id < |g| && IndexIn(order, symbols[k].id) < bound && g[symbols[k].id].kind == symbols[k].kind
  }

  lemma BelowSplit(g: Graph, order: seq<nat>, a: seq<Symbol>, b: seq<Symbol>, bound: nat)
    requires Below(g, order, a + b, bound)
    ensures Below(g, order, a, bound) && Below(g, order, b, bound)
  {
    forall k | 0 <= k < |a|
      ensures a[k].id < |g| && IndexIn(order, a[k].id) < bound && g[a[k].id].kind == a[k].kind
    {
      assert (a + b)[k] == a[k];
    }
    forall k | 0 <= k < |b|
      ensures b[k].id < |g| && IndexIn(order, b[k].id) < bound && g[b[k].id].kind == b[k].kind
    {
      assert (a + b)[|a| + k] == b[k];
    }
  }

  lemma {:induction false} EdgesBelow(g: Graph, order: seq<nat>, s: nat)
    requires Ordered(g, order) && s < |g|
    ensures var e, i := g[s], IndexIn(order, s);
            && Below(g, order, MentionsOption(e.dirDep), i) && Below(g, order, MentionsOption(e.revDep), i)
            && Below(g, order, MentionsOption(e.implied), i) && Below(g, order, PropsMention(e.props), i)
  {
    hide MentionsOption, PropsMention;
    var e, i := g[s], IndexIn(order, s);
    forall k | 0 <= k < |Edges(e)|
      ensures Edges(e)[k].id < |g| && IndexIn(order, Edges(e)[k].id) < i && g[Edges(e)[k].id].kind == Edges(e)[k].kind
    {
      EdgesEarlier(g, order, s, k);
    }
    var d, r, m, p := MentionsOption(e.dirDep), MentionsOption(e.revDep), MentionsOption(e.implied), PropsMention(e.props);
    assert Edges(e) == d + r + m + p;
    BelowSplit(g, order, d + r + m, p, i);
    BelowSplit(g, order, d + r, m, i);
    BelowSplit(g, order, d, r, i);
  }

  lemma {:induction false} PropBelow(g: Graph, order: seq<nat>, props: seq<Prop>, k: nat, bound: nat)
    requires Below(g, order, PropsMention(props), bound) && k < |props|
    ensures Below(g, order, PropsMention(props[k..]), bound) && Below(g, order, PropMentions(props[k]), bound)
    decreases k
  {
    hide PropMentions, Below;
    BelowSplit(g, order, PropMentions(props[0]), PropsMention(props[1..]), bound);
    if k > 0 {
      PropBelow(g, order, props[1..], k - 1, bound);
      assert props[1..][k - 1..] == props[k..];
    } else {
      assert props[0..] == props;
    }
  }

  /** Marking a symbol valid does not disturb what stands below it. */
  lemma {:induction false} StartKeeps(c: Config, order: seq<nat>, w: seq<Tri>, cells: seq<Cell>, s: nat, cell: Cell)
    requires RightBelow(c, order, w, cells, IndexIn(order, s)) && s < |cells|
    ensures RightBelow(c, order, w, cells[s := cell], IndexIn(order, s))
  {
    hide Right;
  }

  lemma Unchanged(c: Config, w: seq<Tri>, cells: seq<Cell>)
    requires |w| == |c.g| == |cells|
    ensures Progress(c, w, cells, cells)
  {
  }

  /** The symbol was not valid before, its dependencies made progress, and its own cell is right. */
  lemma FinishProgress(c: Config, w: seq<Tri>, before: seq<Cell>, started: seq<Cell>, after: seq<Cell>, s: nat, r: Cell)
    requires s < |before| == |started| && !before[s].valid && started == before[s := started[s]] && started[s].valid
    requires Progress(c, w, started, after) && r.valid && Right(c, w, s, r)
    ensures Progress(c, w, before, after[s := r])
  {
    hide Right;
  }

  lemma {:induction false} BelowRight(c: Config, order: seq<nat>, w: seq<Tri>, cells: seq<Cell>, bound: nat, s: nat)
    requires RightBelow(c, order, w, cells, bound) && IndexIn(order, s) < bound
    ensures RightBelow(c, order, w, cells, IndexIn(order, s) + 1)
  {
  }

  class Evaluator {
    const c: Config
    ghost const order: seq<nat>
    var users: Users
    var cells: seq<Cell>

    ghost predicate Shaped()
      reads this
    {
      Ordered(c.g, order) && InTable(c.g, order) && |users| == |c.g| == |cells|
    }

    constructor (config: Config, values: Users, ghost checkOrder: seq<nat>)
      requires Ordered(config.g, checkOrder) && InTable(config.g, checkOrder) && |values| == |config.g|
      ensures Shaped() && c == config && users == values && order == checkOrder
      ensures forall t | 0 <= t < |cells| :: !cells[t].valid
    {
      c, users, order := config, values, checkOrder;
      cells := seq(|config.g|, _ => Cell(false, 0, 0, 0));
    }

    /** `sym_clear_all_valid`. */
    method ClearAllValid()
      requires Shaped()
      modifies this`cells
      ensures Shaped() && forall t | 0 <= t < |cells| :: !cells[t].valid
    {
      var was := cells;
      cells := seq(|was|, i requires 0 <= i < |was| => was[i].(valid := false));
    }

    /** `sym_calc_value`. */
    method CalcValue(s: nat, ghost w: seq<Tri>)
      requires Shaped() && s < |c.g| && Solution(c, users, w) && RightBelow(c, order, w, cells, IndexIn(order, s) + 1)
      modifies this`cells
      ensures Shaped() && Progress(c, w, old(cells), cells)
      ensures cells[s].valid && Right(c, w, s, cells[s])
      decreases IndexIn(order, s), 5, 0
    {
      hide Ordered, InTable, Calc, IndexIn, Right, Progress, Visibility, Reverse;
      Unchanged(c, w, cells);
      if cells[s].valid {
        return;
      }
      ghost var before := cells;
      StartKeeps(c, order, w, cells, s, Cell(true, 0, cells[s].visible, cells[s].reverse));
      cells := cells[s := Cell(true, 0, cells[s].visible, cells[s].reverse)];
      ghost var started := cells;
      var r := cells[s];
      if c.g[s].kind.Boolean? || c.g[s].kind.Tristate? {
        r := CalcLogical(s, w);
      } else {
        OtherRight(c, users, w, s, r);
        Unchanged(c, w, cells);
      }
      FinishProgress(c, w, before, started, cells, s, r);
      cells := cells[s := r];
    }

    lemma OtherRight(c: Config, users: Users, w: seq<Tri>, s: nat, r: Cell)
      requires Solution(c, users, w) && s < |c.g| && !c.g[s].kind.Boolean? && !c.g[s].kind.Tristate? && r.curr == 0
      ensures Right(c, w, s, r)
    {
    }

    /** The bool and tristate case; the symbol is marked valid while its dependencies are computed. */
    method CalcLogical(s: nat, ghost w: seq<Tri>) returns (r: Cell)
      requires Shaped() && s < |c.g| && (c.g[s].kind.Boolean? || c.g[s].kind.Tristate?)
      requires Solution(c, users, w) && RightBelow(c, order, w, cells, IndexIn(order, s))
      modifies this`cells
      ensures Shaped() && Progress(c, w, old(cells), cells) && r.valid && Right(c, w, s, r)
      decreases IndexIn(order, s), 4, 0
    {
      hide Ordered, InTable, IndexIn, Progress, RightBelow, Below, PromptsOr, DefaultValue, MentionsOption, PropsMention, Val, EvalOption, OrNo;
      var e := c.g[s];
      ghost var bound, start := IndexIn(order, s), cells;
      EdgesBelow(c.g, order, s);
      var prompts := EvalPrompts(e.props, bound, w);
      var vis := Promote(e.kind, c.modules, prompts);
      ghost var mid := cells;
      var dir := EvalOptional(e.dirDep, 2, bound, w);
      ProgressChain(c, w, start, mid, cells);
      mid := cells;
      var rev := EvalOptional(e.revDep, 0, bound, w);
      ProgressChain(c, w, start, mid, cells);
      mid := cells;
      var imp := EvalOptional(e.implied, 0, bound, w);
      ProgressChain(c, w, start, mid, cells);
      mid := cells;
      var value: Tri;
      if vis != 0 && users[s].Some? {
        value := Min(users[s].value, vis);
      } else {
        value := EvalDefaults(e.props, bound, w);
        ProgressChain(c, w, start, mid, cells);
        imp := Promote(e.kind, c.modules, imp);
        if imp != 0 { value := Min(Max(value, imp), Promote(e.kind, c.modules, dir)); }
      }
      rev := Promote(e.kind, c.modules, rev);
      r := Cell(true, Promote(e.kind, c.modules, Max(value, rev)), vis, rev);
      OptionOrNo(e.revDep, e.implied, Val(c.base, w));
      OptionValue(e.dirDep, Val(c.base, w));
    }

    lemma OptionOrNo(r: Option<Expr>, i: Option<Expr>, v: Valuation)
      ensures OrNo(r, v) == if r.None? then 0 else EvalOption(v, r)
      ensures OrNo(i, v) == if i.None? then 0 else EvalOption(v, i)
    {
    }

    /** Value of a possibly missing expression. */
    method EvalOptional(e: Option<Expr>, missing: Tri, ghost bound: nat, ghost w: seq<Tri>) returns (t: Tri)
      requires Shaped() && Solution(c, users, w) && RightBelow(c, order, w, cells, bound)
      requires Below(c.g, order, MentionsOption(e), bound)
      modifies this`cells
      ensures Shaped() && Progress(c, w, old(cells), cells) && RightBelow(c, order, w, cells, bound)
      ensures t == if e.None? then missing else EvalOption(Val(c.base, w), e)
      decreases bound, 2, 0
    {
      hide Ordered, InTable, IndexIn, Progress, RightBelow, Below, Val, Solution;
      match e
      case None =>
        SameCells(w, bound);
        t := missing;
      case Some(x) =>
        t := EvalExpr(x, bound, w);
    }

    lemma SameCells(w: seq<Tri>, bound: nat)
      requires RightBelow(c, order, w, cells, bound)
      ensures Progress(c, w, cells, cells)
    {
      Unchanged(c, w, cells);
    }

    /** The loop over the prompts. */
    method EvalPrompts(props: seq<Prop>, ghost bound: nat, ghost w: seq<Tri>) returns (t: Tri)
      requires Shaped() && Solution(c, users, w) && RightBelow(c, order, w, cells, bound)
      requires Below(c.g, order, PropsMention(props), bound)
      modifies this`cells
      ensures Shaped() && Progress(c, w, old(cells), cells) && RightBelow(c, order, w, cells, bound)
      ensures t == PromptsOr(props, Val(c.base, w))
      decreases bound, 3, 0
    {
      hide Ordered, InTable, IndexIn, Progress, RightBelow, Below, Val, Solution, PropsMention, MentionsOption, EvalOption;
      ghost var start, v := cells, Val(c.base, w);
      SameCells(w, bound);
      t := 0;
      for k := 0 to |props|
        invariant Shaped() && Progress(c, w, start, cells) && RightBelow(c, order, w, cells, bound)
        invariant PromptsOr(props, v) == Max(t, PromptsOr(props[k..], v))
      {
        PropBelow(c.g, order, props, k, bound);
        NextProp(props, k);
        if props[k].kind.Prompt? {
          PromptMentions(props[k]);
          ghost var mid := cells;
          var x := EvalOptional(props[k].visible, 2, bound, w);
          OptionValue(props[k].visible, v);
          ProgressChain(c, w, start, mid, cells);
          t := Max(t, x);
        }
      }
      assert props[|props|..] == [];
    }

    lemma NextProp(props: seq<Prop>, k: nat)
      requires k < |props|
      ensures props[k..] == [props[k]] + props[k + 1..]
    {
    }

    lemma PromptMentions(p: Prop)
      requires p.kind.Prompt?
      ensures PropMentions(p) == MentionsOption(p.visible)
    {
    }

    lemma OptionValue(e: Option<Expr>, v: Valuation)
      ensures EvalOption(v, e) == if e.None? then 2 else EvalOption(v, e)
    {
    }

    /** The first default whose condition is not n. */
    method EvalDefaults(props: seq<Prop>, ghost bound: nat, ghost w: seq<Tri>) returns (t: Tri)
      requires Shaped() && Solution(c, users, w) && RightBelow(c, order, w, cells, bound)
      requires Below(c.g, order, PropsMention(props), bound)
      modifies this`cells
      ensures Shaped() && Progress(c, w, old(cells), cells) && RightBelow(c, order, w, cells, bound)
      ensures t == DefaultValue(props, Val(c.base, w))
      decreases bound, 3, 0
    {
      hide Ordered, InTable, IndexIn, Progress, RightBelow, Below, Val, Solution, PropsMention, MentionsOption, EvalOption;
      ghost var start, v := cells, Val(c.base, w);
      SameCells(w, bound);
      for k := 0 to |props|
        invariant Shaped() && Progress(c, w, start, cells) && RightBelow(c, order, w, cells, bound)
        invariant DefaultValue(props, v) == DefaultValue(props[k..], v)
      {
        PropBelow(c.g, order, props, k, bound);
        NextProp(props, k);
        if props[k].kind.Default? {
          DefaultMentions(c.g, order, props[k], bound);
          ghost var mid := cells;
          var shown := EvalOptional(props[k].visible, 2, bound, w);
          OptionValue(props[k].visible, v);
          ProgressChain(c, w, start, mid, cells);
          if shown != 0 {
            mid := cells;
            var x := EvalOptional(props[k].value, 2, bound, w);
            OptionValue(props[k].value, v);
            ProgressChain(c, w, start, mid, cells);
            return Min(x, shown);
          }
        }
      }
      assert props[|props|..] == [];
      t := 0;
    }

    lemma DefaultMentions(g: Graph, order: seq<nat>, p: Prop, bound: nat)
      requires p.kind.Default? && Below(g, order, PropMentions(p), bound)
      ensures Below(g, order, MentionsOption(p.visible), bound) && Below(g, order, MentionsOption(p.value), bound)
    {
      BelowSplit(g, order, MentionsOption(p.visible), MentionsOption(p.value), bound);
    }

    /** `expr_calc_value`. */
    method EvalExpr(e: Expr, ghost bound: nat, ghost w: seq<Tri>) returns (t: Tri)
      requires Shaped() && Solution(c, users, w) && RightBelow(c, order, w, cells, bound)
      requires Below(c.g, order, Mentions(e), bound)
      modifies this`cells
      ensures Shaped() && Progress(c, w, old(cells), cells) && RightBelow(c, order, w, cells, bound)
      ensures t == Eval(Val(c.base, w), e)
      decreases bound, 1, Size(e)
    {
      hide Ordered, InTable, IndexIn, Progress, RightBelow, Below, Val, Solution, Compare;
      ghost var start := cells;
      match e
      case ESym(s) =>
        t := Lookup(s, bound, w);
        ValTri(c.base, w, s);
      case ENot(x) =>
        t := EvalExpr(x, bound, w);
        t := 2 - t;
      case EComp(op, l, r) =>
        t := EvalComparison(op, l, r, bound, w);
      case EAnd(a, b) =>
        BelowSplit(c.g, order, Mentions(a), Mentions(b), bound);
        var x := EvalExpr(a, bound, w);
        ghost var mid := cells;
        var y := EvalExpr(b, bound, w);
        ProgressChain(c, w, start, mid, cells);
        t := Min(x, y);
      case EOr(a, b) =>
        BelowSplit(c.g, order, Mentions(a), Mentions(b), bound);
        var x := EvalExpr(a, bound, w);
        ghost var mid := cells;
        var y := EvalExpr(b, bound, w);
        ProgressChain(c, w, start, mid, cells);
        t := Max(x, y);
    }

    lemma ValTri(base: Valuation, w: seq<Tri>, s: Symbol)
      ensures Val(base, w).tri(s) == TriOf(base, w, s)
    {
    }

    /** The value of a symbol, computed if it is not valid yet. */
    method Lookup(s: Symbol, ghost bound: nat, ghost w: seq<Tri>) returns (t: Tri)
      requires Shaped() && Solution(c, users, w) && RightBelow(c, order, w, cells, bound) && Below(c.g, order, [s], bound)
      modifies this`cells
      ensures Shaped() && Progress(c, w, old(cells), cells) && RightBelow(c, order, w, cells, bound)
      ensures s.id < |c.g| && cells[s.id].valid && t == TriOf(c.base, w, s)
      decreases bound, 0, 0
    {
      hide Ordered, InTable, IndexIn, Progress, RightBelow, Solution;
      assert [s][0] == s;
      ghost var before := cells;
      BelowRight(c, order, w, cells, bound, s.id);
      SolutionLength(c, users, w);
      CalcValue(s.id, w);
      ProgressKeeps(c, order, w, before, cells, bound);
      t := if Logical(s) then cells[s.id].curr else c.base.tri(s);
    }

    lemma SolutionLength(c: Config, users: Users, w: seq<Tri>)
      requires Solution(c, users, w)
      ensures |w| == |c.g|
    {
    }

    /** Both sides are computed, then their string values compared. */
    method EvalComparison(op: Relation, l: Symbol, r: Symbol, ghost bound: nat, ghost w: seq<Tri>) returns (t: Tri)
      requires Shaped() && Solution(c, users, w) && RightBelow(c, order, w, cells, bound) && Below(c.g, order, [l, r], bound)
      modifies this`cells
      ensures Shaped() && Progress(c, w, old(cells), cells) && RightBelow(c, order, w, cells, bound)
      ensures t == Decided(Holds(op, Compare(Val(c.base, w), l, r)))
      decreases bound, 0, 1
    {
      hide Ordered, InTable, IndexIn, Progress, RightBelow, Below, Solution, Compare;
      assert [l, r] == [l] + [r];
      BelowSplit(c.g, order, [l], [r], bound);
      ghost var start := cells;
      var a := Lookup(l, bound, w);
      ghost var mid := cells;
      var b := Lookup(r, bound, w);
      ProgressChain(c, w, start, mid, cells);
      var v := Sides(c.base, l, a, r, b);
      SidesCompare(c.base, w, l, r);
      t := Decided(Holds(op, Compare(v, l, r)));
    }
    // ---- Queries and updates ----------------------------------------------------------------

    /** Everything marked valid is right. */
    ghost predicate AllRight(w: seq<Tri>)
      reads this
    {
      Shaped() && Solution(c, users, w) && RightBelow(c, order, w, cells, |order| + 1)
    }

    /** Asking for a symbol gives it its value, whatever has been asked before. */
    method Query(s: nat, ghost w: seq<Tri>) returns (t: Tri)
      requires AllRight(w) && s < |c.g|
      modifies this`cells
      ensures AllRight(w) && cells[s].valid && t == cells[s].curr == w[s] && Right(c, w, s, cells[s])
    {
      hide Right, Progress, Ordered, InTable, Calc;
      ghost var before := cells;
      LowerBound(c, order, w, cells, s);
      CalcValue(s, w);
      ProgressKeeps(c, order, w, before, cells, |order| + 1);
      t := cells[s].curr;
      RightValue(c, w, s, cells[s]);
    }

    lemma {:induction false} LowerBound(c: Config, order: seq<nat>, w: seq<Tri>, cells: seq<Cell>, s: nat)
      requires RightBelow(c, order, w, cells, |order| + 1)
      ensures RightBelow(c, order, w, cells, IndexIn(order, s) + 1)
    {
    }

    lemma RightValue(c: Config, w: seq<Tri>, t: nat, cell: Cell)
      requires |w| == |c.g| && t < |c.g| && Right(c, w, t, cell)
      ensures cell.curr == w[t]
    {
    }

    /** After clearing the caches, queries in any order and number return the recursive values. */
    method QueryAll(queries: seq<nat>, ghost w: seq<Tri>) returns (values: seq<Tri>)
      requires Shaped() && Solution(c, users, w) && forall k | 0 <= k < |queries| :: queries[k] < |c.g|
      modifies this`cells
      ensures |values| == |queries| && forall k | 0 <= k < |queries| :: values[k] == w[queries[k]]
      ensures AllRight(w)
    {
      hide Right, Ordered, InTable, Calc, Solution;
      SolutionLength(c, users, w);
      ClearAllValid();
      values := [];
      for k := 0 to |queries|
        invariant AllRight(w) && |values| == k && forall i | 0 <= i < k :: values[i] == w[queries[i]]
      {
        var t := Query(queries[k], w);
        values := values + [t];
      }
    }

    /** `sym_set_tristate_value` on a symbol whose value is up to date. */
    method SetTristate(s: nat, val: Tri, ghost w: seq<Tri>) returns (ok: bool)
      requires AllRight(w) && s < |c.g| && cells[s].valid
      modifies this
      ensures ok == (w[s] == val || WithinRange(c.g[s].kind, c.modules, old(cells[s].visible), old(cells[s].reverse), val))
      ensures !ok ==> users == old(users) && cells == old(cells)
      ensures ok ==> Shaped() && users == old(users)[s := Some(val)]
      ensures ok && w[s] != val ==> forall t | 0 <= t < |cells| :: !cells[t].valid
    {
      hide Ordered, InTable, Calc, IndexIn, Visibility, Reverse;
      StaysBelow(c, order, w, cells, s);
      var previous := cells[s].curr;
      if previous != val && !WithinRange(c.g[s].kind, c.modules, cells[s].visible, cells[s].reverse, val) {
        return false;
      }
      users := users[s := Some(val)];
      if previous != val { ClearAllValid(); }
      return true;
    }

    lemma StaysBelow(c: Config, order: seq<nat>, w: seq<Tri>, cells: seq<Cell>, s: nat)
      requires RightBelow(c, order, w, cells, |order| + 1) && s < |cells| && cells[s].valid
      ensures Right(c, w, s, cells[s])
    {
    }

    /** An accepted change reads back unchanged. */
    method SetThenRead(s: nat, val: Tri, ghost w: seq<Tri>) returns (ok: bool, t: Tri)
      requires AllRight(w) && s < |c.g| && cells[s].valid && w[s] != val
      modifies this
      ensures ok ==> t == val
      ensures !ok ==> t == w[s] && users == old(users)
    {
      hide Ordered, InTable, Calc, IndexIn, Visibility, Reverse, RightBelow, Solution, WithinRange;
      StaysBelow(c, order, w, cells, s);
      ghost var before, was := users, cells[s];
      RangeLogical(c.g[s].kind, c.modules, was.visible, was.reverse, val);
      ok := SetTristate(s, val, w);
      t := cells[s].curr;
      if ok {
        SolutionExists(c, order, users);
        ghost var u := Fill(c, order, users);
        NothingValid(c, order, u, cells);
        t := Query(s, u);
        Accepted(c, order, before, w, u, s, val);
      }
    }

    lemma RangeLogical(kind: Kind, modules: bool, visible: Tri, reverse: Tri, val: Tri)
      ensures WithinRange(kind, modules, visible, reverse, val) ==> kind.Boolean? || kind.Tristate?
    {
    }

    lemma NothingValid(c: Config, order: seq<nat>, w: seq<Tri>, cells: seq<Cell>)
      requires |w| == |c.g| == |cells| && forall t | 0 <= t < |cells| :: !cells[t].valid
      ensures RightBelow(c, order, w, cells, |order| + 1)
    {
    }

    lemma Accepted(c: Config, order: seq<nat>, users: Users, w: seq<Tri>, u: seq<Tri>, s: nat, val: Tri)
      requires Ordered(c.g, order) && s < |c.g| && Solution(c, users, w) && Solution(c, users[s := Some(val)], u)
      requires WithinRange(c.g[s].kind, c.modules, Visibility(c.g[s], c.modules, Val(c.base, w)), Reverse(c.g[s], c.modules, Val(c.base, w)), val)
      ensures u[s] == val
    {
      SetReadsBack(c, order, users, w, u, s, val);
    }
  }

  /** A valuation that knows the two symbols of a comparison. */
  function SideTri(base: Valuation, l: Symbol, a: Tri, r: Symbol, b: Tri, s: Symbol): Tri {
    if s == l then a else if s == r then b else base.tri(s)
  }

  function SideText(base: Valuation, l: Symbol, a: Tri, r: Symbol, b: Tri, s: Symbol): string {
    if Logical(s) then TriText(SideTri(base, l, a, r, b, s)) else base.text(s)
  }

  function SideNumber(base: Valuation, l: Symbol, a: Tri, r: Symbol, b: Tri, s: Symbol): Option<Number> {
    if Logical(s) then Some(SignedNumber(SideTri(base, l, a, r, b, s))) else base.number(s)
  }

  function Sides(base: Valuation, l: Symbol, a: Tri, r: Symbol, b: Tri): Valuation {
    Valuation((s: Symbol) => SideTri(base, l, a, r, b, s), (s: Symbol) => SideText(base, l, a, r, b, s),
              (s: Symbol) => SideNumber(base, l, a, r, b, s))
  }

  lemma SidesCompare(base: Valuation, w: seq<Tri>, l: Symbol, r: Symbol)
    ensures Compare(Sides(base, l, TriOf(base, w, l), r, TriOf(base, w, r)), l, r) == Compare(Val(base, w), l, r)
  {
  }

  /** A tristate with a prompt that is visible up to m and a default y that need not respect it. */
  function Movable(): Entry {
    Entry(Tristate, None, None, None, [Prop(Prompt, Some(ESym(MOD)), None), Prop(Default, None, Some(ESym(YES)))])
  }

  /** It shows y until y is set as the user value, and m from then on. */
  lemma UnchangedValueCanMove(v: Valuation)
    requires Fixed(v, MOD) && Fixed(v, YES)
    ensures Calc(Movable(), None, true, v) == 2 && Calc(Movable(), Some(2), true, v) == 1
  {
    var props := Movable().props;
    assert props[1..] == [Prop(Default, None, Some(ESym(YES)))] && props[1..][1..] == [];
    assert PromptsOr(props[1..][1..], v) == 0;
    assert PromptsOr(props[1..], v) == 0;
    assert DefaultValue(props[1..], v) == 2;
  }
}
