/** The recursive-dependency check (`sym_check_deps` and its helpers in tools/kconfig/symbol.c, called
    for every symbol by `conf_parse`): a depth-first search with two colour flags. */
module KconfigCheck {
  import opened Word
  import opened KconfigExpr

  datatype PropKind = Prompt | Default | Select | Imply | OtherProp

  /** A property: its condition and, for defaults, its value. */
  datatype Prop = Prop(kind: PropKind, visible: Option<Expr>, value: Option<Expr>)

  /** What is known about a symbol; symbols are numbered by their position. */
  datatype Entry = Entry(kind: Kind, dirDep: Option<Expr>, revDep: Option<Expr>, implied: Option<Expr>, props: seq<Prop>)

  type Graph = seq<Entry>

  /** The symbols an expression mentions, in the order the check visits them. */
  function Mentions(e: Expr): seq<Symbol> {
    match e
    case ESym(s) => [s]
    case ENot(x) => Mentions(x)
    case EComp(_, l, r) => [l, r]
    case EAnd(a, b) => Mentions(a) + Mentions(b)
    case EOr(a, b) => Mentions(a) + Mentions(b)
  }

  function MentionsOption(e: Option<Expr>): seq<Symbol> {
    match e case None => [] case Some(x) => Mentions(x)
  }

  /** Selects and implies are accounted for by the reverse dependencies of their targets. */
  function PropMentions(p: Prop): seq<Symbol> {
    if p.kind.Select? || p.kind.Imply? then []
    else MentionsOption(p.visible) + if p.kind.Default? then MentionsOption(p.value) else []
  }

  function PropsMention(props: seq<Prop>): seq<Symbol> {
    if props == [] then [] else PropMentions(props[0]) + PropsMention(props[1..])
  }

  /** Everything the value of a symbol depends on directly. */
  function Edges(e: Entry): seq<Symbol> {
    MentionsOption(e.dirDep) + MentionsOption(e.revDep) + MentionsOption(e.implied) + PropsMention(e.props)
  }

  // ---- Which symbols these are ------------------------------------------------------------

  predicate Occurs(x: Symbol, e: Expr) {
    match e
    case ESym(s) => x == s
    case ENot(a) => Occurs(x, a)
    case EComp(_, l, r) => x == l || x == r
    case EAnd(a, b) => Occurs(x, a) || Occurs(x, b)
    case EOr(a, b) => Occurs(x, a) || Occurs(x, b)
  }

  predicate OccursIn(x: Symbol, e: Option<Expr>) { e.Some? && Occurs(x, e.value) }

  /** The property makes the symbol's value or visibility depend on x: by its condition, unless it is a
      select or imply, and by its value if it is a default. */
  predicate PropNeeds(p: Prop, x: Symbol) {
    !p.kind.Select? && !p.kind.Imply? && (OccursIn(x, p.visible) || (p.kind.Default? && OccursIn(x, p.value)))
  }

  predicate Needs(e: Entry, x: Symbol) {
    || OccursIn(x, e.dirDep) || OccursIn(x, e.revDep) || OccursIn(x, e.implied)
    || exists k | 0 <= k < |e.props| :: PropNeeds(e.props[k], x)
  }

  lemma {:induction false} MentionsIff(e: Expr, x: Symbol)
    ensures x in Mentions(e) <==> Occurs(x, e)
  {
    match e
    case ESym(_) =>
    case ENot(a) => MentionsIff(a, x);
    case EComp(_, _, _) =>
    case EAnd(a, b) =>
      MentionsIff(a, x);
      MentionsIff(b, x);
    case EOr(a, b) =>
      MentionsIff(a, x);
      MentionsIff(b, x);
  }

  lemma {:induction false} OptionMentionsIff(e: Option<Expr>, x: Symbol)
    ensures x in MentionsOption(e) <==> OccursIn(x, e)
  {
    if e.Some? { MentionsIff(e.value, x); }
  }

  lemma {:induction false} PropsMentionIff(props: seq<Prop>, x: Symbol)
    ensures x in PropsMention(props) <==> exists k :: 0 <= k < |props| && PropNeeds(props[k], x)
  {
    hide Mentions, Occurs;
    if props != [] {
      OptionMentionsIff(props[0].visible, x);
      OptionMentionsIff(props[0].value, x);
      PropsMentionIff(props[1..], x);
      assert forall k | 1 <= k < |props| :: PropNeeds(props[k], x) == PropNeeds(props[1..][k - 1], x);
      if k :| 0 <= k < |props[1..]| && PropNeeds(props[1..][k], x) {
        assert PropNeeds(props[k + 1], x);
      }
    }
  }

  /** The symbols walked from an entry are exactly those its value or visibility needs: not the conditions
      of its selects and implies, which count for their targets. */
  lemma {:induction false} EdgesExact(e: Entry, x: Symbol)
    ensures x in Edges(e) <==> Needs(e, x)
  {
    hide MentionsOption, OccursIn, PropsMention, PropNeeds;
    OptionMentionsIff(e.dirDep, x);
    OptionMentionsIff(e.revDep, x);
    OptionMentionsIff(e.implied, x);
    PropsMentionIff(e.props, x);
  }

  /** Every mentioned symbol is in the table, under its own type. */
  predicate Closed(g: Graph) {
    forall s, k | 0 <= s < |g| && 0 <= k < |Edges(g[s])| :: Edges(g[s])[k].id < |g| && g[Edges(g[s])[k].id].kind == Edges(g[s])[k].kind
  }

  predicate DependsOn(g: Graph, s: nat, t: nat) {
    s < |g| && exists k | 0 <= k < |Edges(g[s])| :: Edges(g[s])[k].id == t
  }

  /** So one symbol depends on another exactly when it needs it. */
  lemma {:induction false} DependsIff(g: Graph, s: nat, t: nat)
    requires s < |g|
    ensures DependsOn(g, s, t) <==> exists x: Symbol :: x.id == t && Needs(g[s], x)
  {
    hide Edges, Needs;
    if DependsOn(g, s, t) {
      var k :| 0 <= k < |Edges(g[s])| && Edges(g[s])[k].id == t;
      EdgesExact(g[s], Edges(g[s])[k]);
    }
    if x: Symbol :| x.id == t && Needs(g[s], x) {
      EdgesExact(g[s], x);
      var k :| 0 <= k < |Edges(g[s])| && Edges(g[s])[k] == x;
    }
  }

  // ---- Cycles and topological orders ------------------------------------------------------

  predicate IsPath(g: Graph, p: seq<nat>) { forall k | 0 <= k < |p| - 1 :: DependsOn(g, p[k], p[k + 1]) }

  ghost predicate OnCycle(g: Graph, s: nat) {
    exists p: seq<nat> :: |p| >= 2 && p[0] == s && p[|p| - 1] == s && IsPath(g, p)
  }

  ghost predicate Acyclic(g: Graph) { forall s: nat :: !OnCycle(g, s) }

  /** Every symbol of the order comes after all it depends on. */
  ghost predicate Topological(g: Graph, order: seq<nat>) {
    forall k, t | 0 <= k < |order| && DependsOn(g, order[k], t) :: t in order[..k]
  }

  predicate InTable(g: Graph, order: seq<nat>) { forall k | 0 <= k < |order| :: order[k] < |g| }

  function IndexIn(order: seq<nat>, x: nat): (i: nat)
    ensures i <= |order| && (i < |order| ==> order[i] == x) && (x in order ==> i < |order|)
    ensures forall k | 0 <= k < i :: order[k] != x
  {
    if order == [] || order[0] == x then 0 else 1 + IndexIn(order[1..], x)
  }

  /** A dependency stands earlier. */
  lemma {:induction false} EarlierDependency(g: Graph, order: seq<nat>, s: nat, t: nat)
    requires Topological(g, order) && s in order && DependsOn(g, s, t)
    ensures t in order && IndexIn(order, t) < IndexIn(order, s)
  {
    var k := IndexIn(order, s);
    assert t in order[..k];
    var i :| 0 <= i < k && order[..k][i] == t;
    assert order[i] == t;
  }

  lemma {:induction false} PathDescends(g: Graph, order: seq<nat>, p: seq<nat>)
    requires Topological(g, order) && |p| >= 2 && IsPath(g, p) && p[0] in order
    ensures p[|p| - 1] in order && IndexIn(order, p[|p| - 1]) < IndexIn(order, p[0])
  {
    EarlierDependency(g, order, p[0], p[1]);
    if |p| > 2 {
      var rest := p[1..];
      assert forall k | 0 <= k < |rest| - 1 :: DependsOn(g, rest[k], rest[k + 1]) by {
        forall k | 0 <= k < |rest| - 1 ensures DependsOn(g, rest[k], rest[k + 1]) {
          assert DependsOn(g, p[k + 1], p[k + 2]);
        }
      }
      PathDescends(g, order, rest);
    }
  }

  /** A topological order of all symbols rules out cycles. */
  lemma OrderedIsAcyclic(g: Graph, order: seq<nat>)
    requires Topological(g, order) && forall s: nat | s < |g| :: s in order
    ensures Acyclic(g)
  {
    forall s: nat ensures !OnCycle(g, s) {
      if OnCycle(g, s) {
        var p: seq<nat> :| |p| >= 2 && p[0] == s && p[|p| - 1] == s && IsPath(g, p);
        assert DependsOn(g, p[0], p[1]);
        PathDescends(g, order, p);
      }
    }
  }

  const FIRST: Symbol := Sym(0, Boolean, false)
  const SECOND: Symbol := Sym(1, Boolean, false)

  /** Symbol 0 selects symbol 1 on the condition that it is on itself. */
  const SELECTING: Graph := [Entry(Boolean, None, None, None, [Prop(Select, Some(ESym(FIRST)), Some(ESym(SECOND)))]),
                             Entry(Boolean, None, Some(EAnd(ESym(FIRST), ESym(FIRST))), None, [])]

  lemma {:induction false} SelectingEdges()
    ensures Edges(SELECTING[0]) == [] && Edges(SELECTING[1]) == [FIRST, FIRST]
  {
    assert SELECTING[0].props[1..] == [];
    assert PropsMention(SELECTING[1].props) == [];
    assert Mentions(EAnd(ESym(FIRST), ESym(FIRST))) == [FIRST] + [FIRST];
  }

  /** A select conditional on the symbol that selects closes no cycle. */
  lemma {:induction false} SelectingIsNoCycle()
    ensures Closed(SELECTING) && Acyclic(SELECTING) && DependsOn(SELECTING, 1, 0)
  {
    hide Edges;
    SelectingEdges();
    assert Edges(SELECTING[1])[0].id == 0;
    forall k, t | 0 <= k < 2 && DependsOn(SELECTING, [0, 1][k], t) ensures t in [0, 1][..k] {
      assert k == 1 && t == 0;
      assert [0, 1][..1] == [0];
    }
    OrderedIsAcyclic(SELECTING, [0, 1]);
  }

  // ---- The search -------------------------------------------------------------------------

  function All(n: nat): (r: set<nat>)
    ensures forall s: nat :: s in r <==> s < n
  {
    if n == 0 then {} else All(n - 1) + {n - 1}
  }

  lemma Shrinks(all: set<nat>, done: set<nat>, s: nat)
    requires s in all && s !in done
    ensures |all - (done + {s})| < |all - done|
  {
    assert all - done == (all - (done + {s})) + {s};
  }

  lemma NoLarger(all: set<nat>, before: set<nat>, after: set<nat>)
    requires before <= after
    ensures |all - after| <= |all - before|
  {
    var rest := (all - before) - (all - after);
    assert all - before == (all - after) + rest;
    assert |(all - after) + rest| == |all - after| + |rest|;
  }

  /** A dependency on a symbol of the path closes a cycle through it. */
  lemma ClosesCycle(g: Graph, stack: seq<nat>, s: nat)
    requires IsPath(g, stack) && s in stack && DependsOn(g, stack[|stack| - 1], s)
    ensures OnCycle(g, s)
  {
    var i :| 0 <= i < |stack| && stack[i] == s;
    var p := stack[i..] + [s];
    forall k | 0 <= k < |p| - 1 ensures DependsOn(g, p[k], p[k + 1]) {
      if k < |p| - 2 { assert DependsOn(g, stack[i + k], stack[i + k + 1]); }
    }
    assert IsPath(g, p) && p[0] == s && p[|p| - 1] == s;
  }

  lemma PathGrows(g: Graph, stack: seq<nat>, s: nat)
    requires IsPath(g, stack) && (stack != [] ==> DependsOn(g, stack[|stack| - 1], s))
    ensures IsPath(g, stack + [s])
  {
    var p := stack + [s];
    forall k | 0 <= k < |p| - 1 ensures DependsOn(g, p[k], p[k + 1]) {
      if k < |stack| - 1 { assert DependsOn(g, stack[k], stack[k + 1]); }
    }
  }

  lemma EdgeDepends(g: Graph, s: nat, k: nat)
    requires Closed(g) && s < |g| && k < |Edges(g[s])|
    ensures DependsOn(g, s, Edges(g[s])[k].id) && Edges(g[s])[k].id < |g|
  {
  }

  lemma PathShrinks(g: Graph, stack: seq<nat>)
    requires IsPath(g, stack) && stack != []
    ensures IsPath(g, stack[..|stack| - 1])
  {
    var p := stack[..|stack| - 1];
    forall k | 0 <= k < |p| - 1 ensures DependsOn(g, p[k], p[k + 1]) {
      assert DependsOn(g, stack[k], stack[k + 1]);
    }
  }

  lemma OrderGrows(g: Graph, order: seq<nat>, s: nat)
    requires Topological(g, order) && forall t: nat | DependsOn(g, s, t) :: t in order
    ensures Topological(g, order + [s])
  {
    var after := order + [s];
    forall k, t | 0 <= k < |after| && DependsOn(g, after[k], t) ensures t in after[..k] {
      if k < |order| {
        assert t in order[..k];
        assert after[..k] == order[..k];
      } else {
        assert after[..k] == order;
      }
    }
  }

  class DepChecker {
    const g: Graph
    var check: set<nat>
    var checked: set<nat>
    ghost var order: seq<nat>
    ghost var stack: seq<nat>

    /** The flagged symbols under examination form a dependency path. */
    ghost predicate Valid()
      reads this
    {
      && Closed(g) && checked <= All(|g|) && check <= checked
      && (forall s: nat :: s in check <==> s in stack) && (forall s | s in stack :: s < |g|)
      && (forall i, k | 0 <= i < k < |stack| :: stack[i] != stack[k])
      && IsPath(g, stack)
    }

    /** While no cycle has been met: what has been left behind is in topological order. */
    ghost predicate Clean()
      reads this
    {
      && Topological(g, order) && (forall s: nat :: s in checked <==> s in check || s in order)
      && (forall s | s in check :: s !in order)
    }

    constructor (graph: Graph)
      requires Closed(graph)
      ensures Valid() && Clean() && g == graph && check == {} && checked == {} && stack == []
    {
      g := graph;
      check, checked, order, stack := {}, {}, [], [];
    }

    /** `sym_check_deps`; the symbol it returns has been reached again while under examination. */
    method CheckDeps(s: nat) returns (found: Option<nat>)
      requires Valid() && s < |g| && (stack != [] ==> DependsOn(g, stack[|stack| - 1], s))
      modifies this
      ensures Valid() && stack == old(stack) && check == old(check) && old(checked) <= checked
      ensures found.Some? ==> OnCycle(g, found.value)
      ensures found.None? ==> s in checked && s !in check
      ensures old(Clean()) && found.None? ==> Clean() && s in order
      decreases |All(|g|) - checked|, 1
    {
      hide IsPath, Topological, DependsOn, Closed, OnCycle, Edges;
      if s in check {
        ClosesCycle(g, stack, s);
        return Some(s);
      }
      if s in checked {
        return None;
      }
      Shrinks(All(|g|), checked, s);
      Enter(s);
      found := CheckEdges(s);
      Leave(s, found.Some?);
    }

    /** Both flags are set and the symbol goes on the stack. */
    method Enter(s: nat)
      requires Valid() && s < |g| && s !in checked && (stack != [] ==> DependsOn(g, stack[|stack| - 1], s))
      modifies this
      ensures Valid() && stack == old(stack) + [s] && check == old(check) + {s} && checked == old(checked) + {s}
      ensures order == old(order) && (old(Clean()) ==> Clean())
    {
      PathGrows(g, stack, s);
      check, checked := check + {s}, checked + {s};
      stack := stack + [s];
    }

    /** The examination flag is cleared again. */
    method Leave(s: nat, failed: bool)
      requires Valid() && s < |g| && stack != [] && stack[|stack| - 1] == s
      requires !failed ==> forall k | 0 <= k < |Edges(g[s])| :: Edges(g[s])[k].id in checked && Edges(g[s])[k].id !in check
      modifies this
      ensures Valid() && stack == old(stack[..|stack| - 1]) && check == old(check) - {s} && checked == old(checked)
      ensures old(Clean()) && !failed ==> Clean() && s in order
    {
      PathShrinks(g, stack);
      if !failed {
        if Clean() {
          forall t: nat | DependsOn(g, s, t) ensures t in order {}
          OrderGrows(g, order, s);
        }
        order := order + [s];
      }
      check := check - {s};
      stack := stack[..|stack| - 1];
    }

    /** `sym_check_sym_deps`: every direct dependency in turn, up to the first that fails. */
    method CheckEdges(s: nat) returns (found: Option<nat>)
      requires Valid() && s < |g| && stack != [] && stack[|stack| - 1] == s && s in checked
      modifies this
      ensures Valid() && stack == old(stack) && check == old(check) && old(checked) <= checked
      ensures found.Some? ==> OnCycle(g, found.value)
      ensures found.None? ==> forall k | 0 <= k < |Edges(g[s])| :: Edges(g[s])[k].id in checked && Edges(g[s])[k].id !in check
      ensures old(Clean()) && found.None? ==> Clean()
      decreases |All(|g|) - checked|, 2
    {
      hide IsPath, Topological, DependsOn, Closed, OnCycle, Edges, All;
      var edges := Edges(g[s]);
      for k := 0 to |edges|
        invariant Valid() && stack == old(stack) && check == old(check) && old(checked) <= checked
        invariant forall i | 0 <= i < k :: edges[i].id in checked && edges[i].id !in check
        invariant old(Clean()) ==> Clean()
      {
        EdgeDepends(g, s, k);
        NoLarger(All(|g|), old(checked), checked);
        found := CheckDeps(edges[k].id);
        if found.Some? { return; }
      }
      found := None;
    }

    /** The loop of `conf_parse` over all symbols. */
    method CheckAll() returns (errors: nat)
      requires Valid() && Clean() && checked == {} && stack == []
      modifies this
      ensures errors == 0 <==> Acyclic(g)
      ensures errors == 0 ==> Topological(g, order) && InTable(g, order) && forall s: nat | s < |g| :: s in order
    {
      errors := 0;
      ghost var cycle: Option<nat> := None;
      for s := 0 to |g|
        invariant Valid() && stack == []
        invariant errors == 0 ==> Clean() && forall t: nat | t < s :: t in order
        invariant errors > 0 ==> cycle.Some? && OnCycle(g, cycle.value)
      {
        var found := CheckDeps(s);
        if found.Some? {
          errors := errors + 1;
          cycle := found;
        }
      }
      if errors == 0 {
        OrderedIsAcyclic(g, order);
        assert forall k | 0 <= k < |order| :: order[k] in checked;
      }
    }
  }
}
