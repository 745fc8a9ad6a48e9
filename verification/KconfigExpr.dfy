/** Kconfig expressions and their three-valued meaning (`struct expr` and `expr_calc_value` of
    tools/kconfig/expr.c). */
module KconfigExpr {
  import opened Word

  /** The declared type of a symbol; the constants y, m and n have none. */
  datatype Kind = Unknown | Boolean | Tristate | Int | Hex | Text

  datatype AnySymbol = Sym(id: nat, kind: Kind, constant: bool)

  /** Only declared symbols have a type, and constants are never declared. */
  type Symbol = s: AnySymbol | s.constant ==> s.kind.Unknown? witness Sym(0, Unknown, true)

  const NO: Symbol := Sym(0, Unknown, true)
  const MOD: Symbol := Sym(1, Unknown, true)
  const YES: Symbol := Sym(2, Unknown, true)

  /** n, m and y as 0, 1 and 2. */
  type Tri = t: int | 0 <= t <= 2

  datatype Relation = Eq | Ne | Lt | Le | Gt | Ge

  datatype Expr =
    | ESym(sym: Symbol)
    | ENot(arg: Expr)
    | EComp(op: Relation, left: Symbol, right: Symbol)
    | EAnd(l: Expr, r: Expr)
    | EOr(l: Expr, r: Expr)

  /** A number as its symbol's type parses it. */
  datatype Number = SignedNumber(s: int) | UnsignedNumber(u: nat)

  /** What the symbols are at one moment: tristate values, string values and how these parse. */
  datatype Valuation = Valuation(tri: Symbol -> Tri, text: Symbol -> string, number: Symbol -> Option<Number>)

  function Min(a: Tri, b: Tri): Tri { if a < b then a else b }

  function Max(a: Tri, b: Tri): Tri { if a > b then a else b }

  function Decided(b: bool): Tri { if b then 2 else 0 }

  /** Sign of the lexicographic comparison. */
  function Strcmp(a: string, b: string): int {
    if a == [] then (if b == [] then 0 else -1)
    else if b == [] then 1
    else if a[0] < b[0] then -1 else if a[0] > b[0] then 1 else Strcmp(a[1..], b[1..])
  }

  lemma {:induction false} StrcmpZero(a: string, b: string)
    ensures Strcmp(a, b) == 0 <==> a == b
  {
    if a != [] && b != [] {
      assert a == [a[0]] + a[1..] && b == [b[0]] + b[1..];
      StrcmpZero(a[1..], b[1..]);
    }
  }

  /** 64-bit pattern of a parsed number. */
  function Bits(n: Number): int {
    match n
    case SignedNumber(s) => s % 0x1_0000_0000_0000_0000
    case UnsignedNumber(u) => u % 0x1_0000_0000_0000_0000
  }

  /** Numbers compare numerically, anything else as strings. */
  function Compare(v: Valuation, l: Symbol, r: Symbol): int {
    if (l.kind.Text? && r.kind.Text?) || v.number(l).None? || v.number(r).None? then Strcmp(v.text(l), v.text(r))
    else
      var a, b := v.number(l).value, v.number(r).value;
      if a.SignedNumber? && b.SignedNumber? then a.s - b.s else Bits(a) - Bits(b)
  }

  predicate Holds(op: Relation, c: int) {
    match op
    case Eq => c == 0
    case Ne => c != 0
    case Lt => c < 0
    case Le => c <= 0
    case Gt => c > 0
    case Ge => c >= 0
  }

  /** `expr_calc_value`. */
  function Eval(v: Valuation, e: Expr): Tri {
    match e
    case ESym(s) => v.tri(s)
    case ENot(x) => 2 - Eval(v, x)
    case EComp(op, l, r) => Decided(Holds(op, Compare(v, l, r)))
    case EAnd(a, b) => Min(Eval(v, a), Eval(v, b))
    case EOr(a, b) => Max(Eval(v, a), Eval(v, b))
  }

  /** A missing expression counts as y. */
  function EvalOption(v: Valuation, e: Option<Expr>): Tri {
    match e case None => 2 case Some(x) => Eval(v, x)
  }

  // ---- What comparisons mean --------------------------------------------------------------

  /** a comes before b in the order of a dictionary: it is a proper start of b, or smaller where they
      first differ. */
  ghost predicate Precedes(a: string, b: string) {
    exists k: nat :: PrecedesAt(a, b, k)
  }

  predicate PrecedesAt(a: string, b: string, k: nat) {
    k <= |a| && k < |b| && a[..k] == b[..k] && (k == |a| || a[k] < b[k])
  }

  lemma {:induction false} FirstNotAbove(a: string, b: string, k: nat)
    requires PrecedesAt(a, b, k) && a != []
    ensures a[0] == b[0] || a[0] < b[0]
  {
    if k > 0 { assert a[..k][0] == b[..k][0]; }
  }

  lemma {:induction false} StrcmpOrders(a: string, b: string)
    ensures Strcmp(a, b) < 0 <==> Precedes(a, b)
  {
    if a == [] {
      if b != [] { assert PrecedesAt(a, b, 0); }
    } else if b != [] {
      StrcmpOrders(a[1..], b[1..]);
      if a[0] == b[0] {
        if k: nat :| PrecedesAt(a[1..], b[1..], k) {
          assert a[..k + 1] == [a[0]] + a[1..][..k] && b[..k + 1] == [b[0]] + b[1..][..k];
          assert PrecedesAt(a, b, k + 1);
        }
        if k: nat :| PrecedesAt(a, b, k) {
          assert a[..k][1..] == a[1..][..k - 1] && b[..k][1..] == b[1..][..k - 1];
          assert PrecedesAt(a[1..], b[1..], k - 1);
        }
      } else {
        if a[0] < b[0] { assert PrecedesAt(a, b, 0); }
        forall k: nat | PrecedesAt(a, b, k) ensures a[0] < b[0] {
          FirstNotAbove(a, b, k);
        }
      }
    }
  }

  /** The order of two things and its five companions. */
  ghost predicate Ordered6(v: Valuation, l: Symbol, r: Symbol, less: bool, same: bool) {
    && Eval(v, EComp(Lt, l, r)) == Decided(less) && Eval(v, EComp(Eq, l, r)) == Decided(same)
    && Eval(v, EComp(Le, l, r)) == Decided(less || same) && Eval(v, EComp(Ne, l, r)) == Decided(!same)
    && Eval(v, EComp(Gt, l, r)) == Decided(!less && !same) && Eval(v, EComp(Ge, l, r)) == Decided(!less)
  }

  /** Two signed numbers are compared as numbers; strings, and anything that is no number, in dictionary
      order. */
  lemma {:induction false} ComparisonsMean(v: Valuation, l: Symbol, r: Symbol)
    ensures !(l.kind.Text? && r.kind.Text?) && v.number(l).Some? && v.number(r).Some?
              && v.number(l).value.SignedNumber? && v.number(r).value.SignedNumber? ==>
              Ordered6(v, l, r, v.number(l).value.s < v.number(r).value.s, v.number(l).value.s == v.number(r).value.s)
    ensures (l.kind.Text? && r.kind.Text?) || v.number(l).None? || v.number(r).None? ==>
              Ordered6(v, l, r, Precedes(v.text(l), v.text(r)), v.text(l) == v.text(r))
  {
    hide Strcmp, Precedes;
    StrcmpOrders(v.text(l), v.text(r));
    StrcmpZero(v.text(l), v.text(r));
  }

  // ---- Legal valuations -------------------------------------------------------------------

  predicate IsConstant3(s: Symbol) { s == NO || s == MOD || s == YES }

  function TriText(t: Tri): string { if t == 0 then "n" else if t == 1 then "m" else "y" }

  /** The constants n, m and y have their fixed values. */
  predicate Fixed(v: Valuation, s: Symbol) {
    IsConstant3(s) ==>
      v.tri(s) == s.id && v.text(s) == (if s == NO then "n" else if s == MOD then "m" else "y") && v.number(s) == None
  }

  predicate Logical(s: Symbol) { s.kind.Boolean? || s.kind.Tristate? }

  /** A logical symbol shows its tristate value; a boolean one is never m. */
  predicate Consistent(v: Valuation, s: Symbol) {
    Logical(s) ==> v.text(s) == TriText(v.tri(s)) && v.number(s) == Some(SignedNumber(v.tri(s))) && (s.kind.Boolean? ==> v.tri(s) != 1)
  }

  ghost predicate BaseLegal(v: Valuation) {
    && (forall s: Symbol :: Fixed(v, s))
    && (forall s: Symbol :: Consistent(v, s))
    && (forall s: Symbol, t: Symbol | s.constant && t.constant && v.text(s) == v.text(t) :: s == t)
  }

  /** A logical symbol of value t equals the constant c. */
  predicate Denotes(v: Valuation, c: Symbol, t: Tri) {
    match v.number(c)
    case None => v.text(c) == TriText(t)
    case Some(n) => (if n.SignedNumber? then n.s else Bits(n)) == t
  }

  const WORDS: set<Symbol> := {NO, MOD, YES}

  /** No two of the constants mean the same value, as "y" and "2" do. */
  ghost predicate Apart(v: Valuation, cs: set<Symbol>) {
    forall c: Symbol, d: Symbol, t: Tri | c in cs && d in cs && c.constant && d.constant && Denotes(v, c, t) && Denotes(v, d, t) ::
      c == d
  }

  /** The comparisons of the expression are with symbols of cs. */
  predicate Over(e: Expr, cs: set<Symbol>) {
    match e
    case ESym(_) => true
    case ENot(x) => Over(x, cs)
    case EComp(_, _, r) => r in cs
    case EAnd(a, b) => Over(a, cs) && Over(b, cs)
    case EOr(a, b) => Over(a, cs) && Over(b, cs)
  }

  /** Legal for expressions over cs, which n, m and y always belong to: simplifying introduces them. */
  ghost predicate Legal(v: Valuation, cs: set<Symbol>) { BaseLegal(v) && Apart(v, cs) && WORDS <= cs }

  /** A logical symbol equals a constant exactly when the constant denotes its value. */
  lemma CompareConstant(v: Valuation, s: Symbol, c: Symbol)
    requires Consistent(v, s) && Logical(s)
    ensures Compare(v, s, c) == 0 <==> Denotes(v, c, v.tri(s))
  {
    StrcmpZero(v.text(s), v.text(c));
  }

  /** Comparing a logical symbol with n, m or y compares its tristate value. */
  lemma CompareConstant3(v: Valuation, l: Symbol, c: Symbol)
    requires BaseLegal(v) && Logical(l) && IsConstant3(c)
    ensures Compare(v, l, c) == 0 <==> v.tri(l) == c.id
  {
    assert Fixed(v, c) && Consistent(v, l);
    StrcmpZero(v.text(l), v.text(c));
  }

  // ---- Legal valuations exist -------------------------------------------------------------

  function AssignedTri(values: Symbol -> Tri, s: Symbol): Tri {
    if IsConstant3(s) then s.id else if Logical(s) then values(s) else 0
  }

  function AssignedText(values: Symbol -> Tri, words: nat -> string, s: Symbol): string {
    if IsConstant3(s) || Logical(s) then TriText(AssignedTri(values, s)) else words(s.id)
  }

  function AssignedNumber(values: Symbol -> Tri, numbers: nat -> Option<Number>, s: Symbol): Option<Number> {
    if Logical(s) then Some(SignedNumber(values(s))) else if IsConstant3(s) then None else numbers(s.id)
  }

  /** Logical symbols have the given values; the other symbols have the words and numbers of their ids. */
  function Assigned(values: Symbol -> Tri, words: nat -> string, numbers: nat -> Option<Number>): Valuation {
    Valuation((s: Symbol) => AssignedTri(values, s), (s: Symbol) => AssignedText(values, words, s),
              (s: Symbol) => AssignedNumber(values, numbers, s))
  }

  /** The words are distinct, and none is n, m or y. */
  ghost predicate Words(words: nat -> string) {
    && (forall i: nat, k: nat | words(i) == words(k) :: i == k)
    && (forall i: nat, t: Tri :: words(i) != TriText(t))
  }

  ghost predicate BooleansDecided(values: Symbol -> Tri) { forall s: Symbol | s.kind.Boolean? :: values(s) != 1 }

  lemma AssignedLegal(values: Symbol -> Tri, words: nat -> string, numbers: nat -> Option<Number>)
    requires BooleansDecided(values) && Words(words)
    ensures BaseLegal(Assigned(values, words, numbers))
    ensures (forall k: nat :: numbers(k) == None) ==>
              forall cs: set<Symbol> | WORDS <= cs :: Legal(Assigned(values, words, numbers), cs)
  {
    var v := Assigned(values, words, numbers);
    forall s: Symbol, t: Symbol | s.constant && t.constant && v.text(s) == v.text(t) ensures s == t {
    }
    forall c: Symbol, d: Symbol, t: Tri | c.constant && d.constant && numbers(c.id) == None && numbers(d.id) == None
        && Denotes(v, c, t) && Denotes(v, d, t)
      ensures c == d
    {
      assert v.text(c) == v.text(d);
    }
  }

  /** Words that are longer than one character. */
  function LongWord(k: nat): string { seq(k + 2, _ => 'w') }

  lemma LongWords()
    ensures Words(LongWord)
  {
    forall i: nat, k: nat | LongWord(i) == LongWord(k) ensures i == k {
      assert |LongWord(i)| == i + 2 && |LongWord(k)| == k + 2;
    }
    forall i: nat, t: Tri ensures LongWord(i) != TriText(t) {
      assert |LongWord(i)| == i + 2;
    }
  }

  /** Every assignment of values to the logical symbols, m to no boolean, is that of a legal valuation. */
  lemma EveryAssignmentIsLegal(values: Symbol -> Tri) returns (v: Valuation)
    requires BooleansDecided(values)
    ensures forall cs: set<Symbol> | WORDS <= cs :: Legal(v, cs)
    ensures forall s: Symbol | Logical(s) :: v.tri(s) == values(s)
  {
    LongWords();
    AssignedLegal(values, LongWord, _ => None);
    v := Assigned(values, LongWord, _ => None);
  }

  /** In particular a tristate symbol can have any value. */
  lemma LegalWith(s: Symbol, t: Tri) returns (v: Valuation)
    requires s.kind.Tristate?
    ensures v.tri(s) == t && forall cs: set<Symbol> | WORDS <= cs :: Legal(v, cs)
  {
    v := EveryAssignmentIsLegal((x: Symbol) => if x.kind.Tristate? then t else 0);
  }

  // ---- Sizes ------------------------------------------------------------------------------

  function Size(e: Expr): (n: nat)
    ensures n >= 1
  {
    match e
    case ESym(_) => 1
    case ENot(x) => 1 + Size(x)
    case EComp(_, _, _) => 1
    case EAnd(a, b) => 1 + Size(a) + Size(b)
    case EOr(a, b) => 1 + Size(a) + Size(b)
  }
}
