/** What `menu_finalize` makes of a menu tree, said of the whole result: below which entry each one ends
    up, and that no entry without a prompt keeps entries below it. */
module KconfigSubmenus {
  import opened Word
  import opened KconfigExpr
  import opened KconfigTransform
  import opened KconfigCheck
  import opened KconfigDups
  import opened KconfigDependencies
  import opened KconfigMenu

  // ---- The owner of an entry --------------------------------------------------------------

  /** An entry that takes siblings behind it: a symbol with nothing below it. */
  predicate Takes(x: Facts, f: Forest, j: nat)
    requires j < |f|
  {
    f[j].kids == [] && x.symbol(f[j].id)
  }

  /** The sibling entry k goes under: of the one before it and those that one is under, the innermost that
      takes siblings and that k depends on. */
  function Owner(x: Facts, f: Forest, k: nat): (o: Option<nat>)
    requires k < |f|
    ensures o.Some? ==> o.value < k
    decreases k, 1
  {
    if k == 0 then None else Climb(x, f, k, Some(k - 1))
  }

  function Climb(x: Facts, f: Forest, k: nat, j: Option<nat>): (o: Option<nat>)
    requires k < |f| && (j.Some? ==> j.value < k)
    ensures o.Some? ==> j.Some? && o.value <= j.value
    decreases if j.Some? then j.value + 1 else 0, 0
  {
    match j
    case None => None
    case Some(i) => if Takes(x, f, i) && x.joins(f[i].id, f[k].id) then Some(i) else Climb(x, f, k, Owner(x, f, i))
  }

  /** A tree as the list of its entries with the entry each is under. */
  function Listing(f: Forest, over: Option<nat>): seq<(nat, Option<nat>)> {
    if f == [] then [] else [(f[0].id, over)] + Listing(f[0].kids, Some(f[0].id)) + Listing(f[1..], over)
  }

  lemma {:induction false} CountKids(f: Forest, k: nat)
    requires k < |f|
    ensures Count(f[k].kids) < Count(f)
  {
    if k > 0 { CountKids(f[1..], k - 1); }
  }

  /** The entries k to c of a level, each under its owner or else under what the level is under, and with
      them the levels below them. */
  function Grouped(x: Facts, f: Forest, over: Option<nat>, k: nat, c: nat): seq<(nat, Option<nat>)>
    requires k <= c <= |f|
    decreases Count(f), c - k
  {
    if k == c then []
    else
      CountKids(f, k);
      var o := Owner(x, f, k);
      [(f[k].id, if o.Some? then Some(f[o.value].id) else over)]
      + Grouped(x, f[k].kids, Some(f[k].id), 0, |f[k].kids|) + Grouped(x, f, over, k + 1, c)
  }

  lemma {:induction false} GroupedSplit(x: Facts, f: Forest, over: Option<nat>, k: nat, m: nat, c: nat)
    requires k <= m <= c <= |f|
    ensures Grouped(x, f, over, k, c) == Grouped(x, f, over, k, m) + Grouped(x, f, over, m, c)
    decreases m - k
  {
    hide Owner;
    if k < m {
      GroupedSplit(x, f, over, k + 1, m, c);
    }
  }

  /** The facts without regard to prompts: then nothing is flattened. */
  function Unflattened(x: Facts): Facts { x.(prompted := _ => true) }

  lemma {:induction false} NothingFlattened(x: Facts, f: Forest)
    requires forall i :: x.prompted(i)
    ensures Flatten(x, f) == f
    decreases Count(f)
  {
    if f != [] {
      NothingFlattened(x, f[1..]);
      assert f == [f[0]] + f[1..];
    }
  }

  /** Where an entry and what it takes end: the next sibling is met by the owners of the entry. */
  lemma {:induction false} FinalizeGroups(x: Facts, f: Forest, over: Option<nat>, k: nat) returns (c: nat)
    requires k < |f| && forall i :: x.prompted(i)
    ensures k < c <= |f|
    ensures var r := Finalize(x, f[k], f[k + 1..]);
            && r.1 == f[c..] && r.0.id == f[k].id
            && Listing(r.0.kids, Some(f[k].id)) ==
                 Grouped(x, f[k].kids, Some(f[k].id), 0, |f[k].kids|) + Grouped(x, f, over, k + 1, c)
    ensures forall i | k < i < c :: Owner(x, f, i).Some?
    ensures c < |f| ==> Owner(x, f, c) == Climb(x, f, c, Owner(x, f, k))
    decreases Count(f), |f| - k, 0
  {
    hide Grouped, Flatten, Count;
    var n := f[k];
    var r := Finalize(x, n, f[k + 1..]);
    GroupedEmpty(x, f, over, k + 1);
    if n.kids != [] {
      c := k + 1;
      CountKids(f, k);
      NothingFlattened(x, FinalizeAll(x, n.kids).0);
      LevelGroups(x, n.kids, Some(n.id), 0);
      assert n.kids[0..] == n.kids;
    } else {
      GroupedEmpty(x, n.kids, Some(n.id), 0);
      if x.symbol(n.id) {
        c := AbsorbGroups(x, f, over, k, k + 1);
        NothingFlattened(x, Absorb(x, n.id, f[k + 1..]).0);
      } else {
        c := k + 1;
      }
    }
  }

  lemma {:induction false} GroupedEmpty(x: Facts, f: Forest, over: Option<nat>, k: nat)
    requires k <= |f|
    ensures Grouped(x, f, over, k, k) == [] && Listing([], over) == []
  {
  }

  lemma {:induction false} ListingHead(n: Node, rest: Forest, over: Option<nat>)
    ensures Listing([n] + rest, over) == [(n.id, over)] + Listing(n.kids, Some(n.id)) + Listing(rest, over)
  {
    assert ([n] + rest)[1..] == rest;
  }

  lemma {:induction false} GroupedHead(x: Facts, f: Forest, over: Option<nat>, k: nat, c: nat)
    requires k < c <= |f|
    ensures var o := Owner(x, f, k);
            Grouped(x, f, over, k, c) == [(f[k].id, if o.Some? then Some(f[o.value].id) else over)]
              + Grouped(x, f[k].kids, Some(f[k].id), 0, |f[k].kids|) + Grouped(x, f, over, k + 1, c)
  {
  }

  /** The loop that takes siblings m and on for entry k. */
  lemma {:induction false} AbsorbGroups(x: Facts, f: Forest, over: Option<nat>, k: nat, m: nat) returns (c: nat)
    requires k < m <= |f| && Takes(x, f, k) && forall i :: x.prompted(i)
    requires m < |f| ==> Owner(x, f, m) == Climb(x, f, m, Some(k))
    ensures m <= c <= |f|
    ensures var r := Absorb(x, f[k].id, f[m..]); r.1 == f[c..] && Listing(r.0, Some(f[k].id)) == Grouped(x, f, over, m, c)
    ensures forall i | m <= i < c :: Owner(x, f, i).Some?
    ensures c < |f| ==> !x.joins(f[k].id, f[c].id) && Owner(x, f, c) == Climb(x, f, c, Owner(x, f, k))
    decreases Count(f), |f| - m, 3
  {
    hide Grouped, Finalize, Count, Listing;
    var rest := f[m..];
    GroupedEmpty(x, f, over, m);
    if m == |f| || !x.joins(f[k].id, f[m].id) {
      c := m;
      GroupedEmpty(x, [], Some(f[k].id), 0);
    } else {
      assert rest[0] == f[m] && rest[1..] == f[m + 1..];
      var next := FinalizeGroups(x, f, over, m);
      var head := Finalize(x, f[m], f[m + 1..]);
      c := AbsorbGroups(x, f, over, k, next);
      JoinedGroup(x, f, over, m, next, c, Some(f[k].id), head.0, Absorb(x, f[k].id, f[next..]).0);
    }
  }

  /** Entry m with what it took, and what follows up to c, listed together. */
  lemma {:induction false} JoinedGroup(x: Facts, f: Forest, over: Option<nat>, m: nat, next: nat, c: nat, under: Option<nat>,
                                       head: Node, more: Forest)
    requires m < next <= c <= |f| && head.id == f[m].id
    requires under == match Owner(x, f, m) case Some(o) => Some(f[o].id) case None => over
    requires Listing(head.kids, Some(f[m].id)) ==
               Grouped(x, f[m].kids, Some(f[m].id), 0, |f[m].kids|) + Grouped(x, f, over, m + 1, next)
    requires Listing(more, under) == Grouped(x, f, over, next, c)
    ensures Listing([head] + more, under) == Grouped(x, f, over, m, c)
  {
    hide Grouped, Listing, Owner, Climb;
    ListingHead(head, more, under);
    GroupedHead(x, f, over, m, next);
    GroupedSplit(x, f, over, m, next, c);
  }

  /** The loop over a level, from entry k on. */
  lemma {:induction false} LevelGroups(x: Facts, f: Forest, over: Option<nat>, k: nat)
    requires k <= |f| && (k < |f| ==> Owner(x, f, k) == None) && forall i :: x.prompted(i)
    ensures Listing(FinalizeAll(x, f[k..]).0, over) == Grouped(x, f, over, k, |f|)
    decreases Count(f), |f| - k, 1
  {
    hide Grouped, Finalize, Count, Listing;
    GroupedEmpty(x, f, over, k);
    if k < |f| {
      var rest := f[k..];
      assert rest[0] == f[k] && rest[1..] == f[k + 1..];
      var c := FinalizeGroups(x, f, over, k);
      var head := Finalize(x, f[k], f[k + 1..]);
      LevelGroups(x, f, over, c);
      JoinedGroup(x, f, over, k, c, |f|, over, head.0, FinalizeAll(x, f[c..]).0);
    }
  }

  /** The tree as `menu_finalize` groups it, before prompts matter: every entry of a level is under its
      owner, or else under what the level is under. */
  lemma {:induction false} GroupedByOwner(x: Facts, root: Node)
    ensures Listing(FinalizeTree(Unflattened(x), root).kids, Some(root.id)) ==
              Grouped(Unflattened(x), root.kids, Some(root.id), 0, |root.kids|)
    ensures Grouped(Unflattened(x), root.kids, Some(root.id), 0, |root.kids|) == Grouped(x, root.kids, Some(root.id), 0, |root.kids|)
  {
    hide Grouped, Flatten, Count, Listing;
    var y := Unflattened(x);
    SameGrouped(x, root.kids, Some(root.id), 0, |root.kids|);
    if root.kids != [] {
      NothingFlattened(y, FinalizeAll(y, root.kids).0);
      LevelGroups(y, root.kids, Some(root.id), 0);
      assert root.kids[0..] == root.kids;
    } else {
      GroupedEmpty(y, root.kids, Some(root.id), 0);
      if x.symbol(root.id) { NothingFlattened(y, Absorb(y, root.id, []).0); }
    }
  }

  lemma {:induction false} SameOwner(x: Facts, f: Forest, k: nat)
    requires k < |f|
    ensures Owner(Unflattened(x), f, k) == Owner(x, f, k)
    decreases k, 1
  {
    if k > 0 { SameClimb(x, f, k, Some(k - 1)); }
  }

  lemma {:induction false} SameClimb(x: Facts, f: Forest, k: nat, j: Option<nat>)
    requires k < |f| && (j.Some? ==> j.value < k)
    ensures Climb(Unflattened(x), f, k, j) == Climb(x, f, k, j)
    decreases if j.Some? then j.value + 1 else 0, 0
  {
    if j.Some? {
      SameOwner(x, f, j.value);
      SameClimb(x, f, k, Owner(x, f, j.value));
    }
  }

  lemma {:induction false} SameGrouped(x: Facts, f: Forest, over: Option<nat>, k: nat, c: nat)
    requires k <= c <= |f|
    ensures Grouped(Unflattened(x), f, over, k, c) == Grouped(x, f, over, k, c)
    decreases Count(f), c - k
  {
    hide Owner, Count;
    if k < c {
      CountKids(f, k);
      SameOwner(x, f, k);
      SameGrouped(x, f[k].kids, Some(f[k].id), 0, |f[k].kids|);
      SameGrouped(x, f, over, k + 1, c);
    }
  }

  // ---- Flattening -------------------------------------------------------------------------

  /** No entry without a prompt has entries below it, at any depth. */
  predicate Flat(x: Facts, f: Forest) {
    f == [] || ((f[0].kids != [] ==> x.prompted(f[0].id)) && Flat(x, f[0].kids) && Flat(x, f[1..]))
  }

  /** Of the forests below the entries. */
  predicate KidsFlat(x: Facts, f: Forest) { forall k | 0 <= k < |f| :: Flat(x, f[k].kids) }

  lemma {:induction false} FlatAppend(x: Facts, f: Forest, g: Forest)
    ensures Flat(x, f + g) <==> Flat(x, f) && Flat(x, g)
  {
    if f == [] {
      assert f + g == g;
    } else {
      FlatAppend(x, f[1..], g);
      assert (f + g)[1..] == f[1..] + g;
    }
  }

  lemma {:induction false} FlatKids(x: Facts, f: Forest)
    requires Flat(x, f)
    ensures KidsFlat(x, f)
  {
    if f != [] {
      FlatKids(x, f[1..]);
      forall k | 0 <= k < |f| ensures Flat(x, f[k].kids) {
        if k > 0 { assert f[k] == f[1..][k - 1]; }
      }
    }
  }

  lemma {:induction false} FlattenFlat(x: Facts, f: Forest)
    requires KidsFlat(x, f)
    ensures Flat(x, Flatten(x, f))
    decreases Count(f)
  {
    if f != [] {
      var rest := f[1..];
      assert KidsFlat(x, rest);
      if f[0].kids != [] && !x.prompted(f[0].id) {
        CountAppend(f[0].kids, rest);
        FlatKids(x, f[0].kids);
        FlattenFlat(x, f[0].kids + rest);
        FlatAppend(x, [Node(f[0].id, [])], Flatten(x, f[0].kids + rest));
      } else {
        FlattenFlat(x, rest);
        assert ([f[0]] + Flatten(x, rest))[1..] == Flatten(x, rest);
        assert Flat(x, f[0].kids);
      }
    }
  }

  /** Each level flattened, from the leaves up. */
  function FlattenBelow(x: Facts, f: Forest): (r: Forest)
    ensures |r| == |f| && forall k | 0 <= k < |f| :: r[k].id == f[k].id
  {
    if f == [] then [] else [Node(f[0].id, Flatten(x, FlattenBelow(x, f[0].kids)))] + FlattenBelow(x, f[1..])
  }

  lemma {:induction false} FlattenBelowFlat(x: Facts, f: Forest)
    ensures KidsFlat(x, FlattenBelow(x, f))
  {
    if f != [] {
      FlattenBelowFlat(x, f[0].kids);
      FlattenFlat(x, FlattenBelow(x, f[0].kids));
      FlattenBelowFlat(x, f[1..]);
    }
  }

  lemma {:induction false} FlattenBelowHead(x: Facts, n: Node, rest: Forest)
    ensures FlattenBelow(x, [n] + rest) == [Node(n.id, Flatten(x, FlattenBelow(x, n.kids)))] + FlattenBelow(x, rest)
  {
    assert ([n] + rest)[1..] == rest;
  }

  /** Finalizing is grouping without regard to prompts, and then flattening. */
  lemma {:induction false} FinalizeFlattens(x: Facts, n: Node, rest: Forest)
    ensures var r, g := Finalize(x, n, rest), Finalize(Unflattened(x), n, rest);
            && r.0 == Node(n.id, Flatten(x, FlattenBelow(x, g.0.kids))) && r.1 == g.1 && r.2 == g.2
    decreases Count(n.kids) + Count(rest), 2
  {
    hide Flatten, FinalizeAll, Absorb, Count, FlattenBelow;
    var y := Unflattened(x);
    EmptyBelow(x);
    if n.kids != [] {
      NonEmptyCount(n.kids);
      AllFlattens(x, n.kids);
      NothingFlattened(y, FinalizeAll(y, n.kids).0);
    } else {
      EmptyPreorder();
      if x.symbol(n.id) {
        AbsorbFlattens(x, n.id, rest);
        NothingFlattened(y, Absorb(y, n.id, rest).0);
      }
    }
  }

  lemma {:induction false} EmptyBelow(x: Facts)
    ensures FlattenBelow(x, []) == [] && Flatten(x, []) == []
  {
  }

  lemma {:induction false} AllFlattens(x: Facts, f: Forest)
    ensures FinalizeAll(x, f).0 == FlattenBelow(x, FinalizeAll(Unflattened(x), f).0)
    ensures FinalizeAll(x, f).1 == FinalizeAll(Unflattened(x), f).1
    decreases Count(f), 1
  {
    hide Finalize, Count, Flatten, FlattenBelow;
    EmptyBelow(x);
    if f != [] {
      NonEmptyCount(f);
      FinalizeFlattens(x, f[0], f[1..]);
      var g := Finalize(Unflattened(x), f[0], f[1..]);
      AllFlattens(x, g.1);
      FlattenBelowHead(x, g.0, FinalizeAll(Unflattened(x), g.1).0);
    }
  }

  lemma {:induction false} AbsorbFlattens(x: Facts, owner: nat, rest: Forest)
    ensures var r, g := Absorb(x, owner, rest), Absorb(Unflattened(x), owner, rest);
            r.0 == FlattenBelow(x, g.0) && r.1 == g.1 && r.2 == g.2
    decreases Count(rest), 1
  {
    hide Finalize, Count, Flatten, FlattenBelow;
    EmptyBelow(x);
    if rest != [] && x.joins(owner, rest[0].id) {
      NonEmptyCount(rest);
      FinalizeFlattens(x, rest[0], rest[1..]);
      var g := Finalize(Unflattened(x), rest[0], rest[1..]);
      AbsorbFlattens(x, owner, g.1);
      FlattenBelowHead(x, g.0, Absorb(Unflattened(x), owner, g.1).0);
    }
  }

  /** The entries, each under the nearest one above it that has a prompt. */
  function PromptListing(x: Facts, f: Forest, over: Option<nat>): seq<(nat, Option<nat>)> {
    if f == [] then []
    else
      [(f[0].id, over)] + PromptListing(x, f[0].kids, if x.prompted(f[0].id) then Some(f[0].id) else over)
      + PromptListing(x, f[1..], over)
  }

  lemma {:induction false} PromptAppend(x: Facts, f: Forest, g: Forest, over: Option<nat>)
    ensures PromptListing(x, f + g, over) == PromptListing(x, f, over) + PromptListing(x, g, over)
  {
    if f == [] {
      assert f + g == g;
    } else {
      PromptAppend(x, f[1..], g, over);
      assert (f + g)[1..] == f[1..] + g;
    }
  }

  /** On a flat forest that is where they are. */
  lemma {:induction false} FlatListing(x: Facts, f: Forest, over: Option<nat>)
    requires Flat(x, f)
    ensures PromptListing(x, f, over) == Listing(f, over)
  {
    if f != [] {
      FlatListing(x, f[1..], over);
      if f[0].kids != [] {
        FlatListing(x, f[0].kids, Some(f[0].id));
      }
    }
  }

  lemma {:induction false} PromptHead(x: Facts, n: Node, rest: Forest, over: Option<nat>)
    ensures PromptListing(x, [n] + rest, over) ==
              [(n.id, over)] + PromptListing(x, n.kids, if x.prompted(n.id) then Some(n.id) else over) + PromptListing(x, rest, over)
  {
    assert ([n] + rest)[1..] == rest;
  }

  lemma {:induction false} HandedUp(x: Facts, n: Node, rest: Forest, over: Option<nat>, flat: Forest)
    requires !x.prompted(n.id) && Listing(flat, over) == PromptListing(x, n.kids + rest, over)
    ensures Listing([Node(n.id, [])] + flat, over) == PromptListing(x, [n] + rest, over)
  {
    hide Listing, PromptListing;
    PromptHead(x, n, rest, over);
    PromptAppend(x, n.kids, rest, over);
    ListingHead(Node(n.id, []), flat, over);
    GroupedEmpty(x, [], Some(n.id), 0);
    assert [(n.id, over)] + [] == [(n.id, over)];
    assert [(n.id, over)] + (PromptListing(x, n.kids, over) + PromptListing(x, rest, over))
        == [(n.id, over)] + PromptListing(x, n.kids, over) + PromptListing(x, rest, over);
  }

  lemma {:induction false} Untouched(x: Facts, n: Node, rest: Forest, over: Option<nat>, flat: Forest)
    requires (n.kids == [] || x.prompted(n.id)) && Flat(x, n.kids) && Listing(flat, over) == PromptListing(x, rest, over)
    ensures Listing([n] + flat, over) == PromptListing(x, [n] + rest, over)
  {
    hide Listing, PromptListing;
    PromptHead(x, n, rest, over);
    ListingHead(n, flat, over);
    if n.kids == [] {
      EmptyPromptListing(x, over, Some(n.id));
      EmptyPromptListing(x, Some(n.id), Some(n.id));
    } else {
      FlatListing(x, n.kids, Some(n.id));
    }
  }

  lemma {:induction false} EmptyPromptListing(x: Facts, over: Option<nat>, under: Option<nat>)
    ensures PromptListing(x, [], over) == [] == Listing([], under)
  {
  }

  lemma {:induction false} FlattenListing(x: Facts, f: Forest, over: Option<nat>)
    requires KidsFlat(x, f)
    ensures Listing(Flatten(x, f), over) == PromptListing(x, f, over)
    decreases Count(f)
  {
    hide Listing, PromptListing, Flat;
    EmptyPromptListing(x, over, over);
    if f != [] {
      var rest := f[1..];
      assert KidsFlat(x, rest) && f == [f[0]] + rest;
      if f[0].kids != [] && !x.prompted(f[0].id) {
        CountAppend(f[0].kids, rest);
        FlatKids(x, f[0].kids);
        FlattenListing(x, f[0].kids + rest, over);
        HandedUp(x, f[0], rest, over, Flatten(x, f[0].kids + rest));
      } else {
        FlattenListing(x, rest, over);
        Untouched(x, f[0], rest, over, Flatten(x, rest));
      }
    }
  }

  lemma {:induction false} BelowListing(x: Facts, f: Forest, over: Option<nat>)
    ensures PromptListing(x, FlattenBelow(x, f), over) == PromptListing(x, f, over)
  {
    hide Flatten;
    if f != [] {
      var under := if x.prompted(f[0].id) then Some(f[0].id) else over;
      var below := FlattenBelow(x, f[0].kids);
      FlattenBelowFlat(x, f[0].kids);
      FlattenFlat(x, below);
      FlatListing(x, Flatten(x, below), under);
      FlattenListing(x, below, under);
      BelowListing(x, f[0].kids, under);
      BelowListing(x, f[1..], over);
      assert FlattenBelow(x, f)[1..] == FlattenBelow(x, f[1..]);
    }
  }

  /** The finalized tree, whole: no entry without a prompt has entries below it, and every entry is under
      the nearest one with a prompt among those it is grouped under. */
  lemma {:induction false} TreeFlattened(x: Facts, root: Node)
    ensures var kids, grouped := FinalizeTree(x, root).kids, FinalizeTree(Unflattened(x), root).kids;
            Flat(x, kids) && Listing(kids, Some(root.id)) == PromptListing(x, grouped, Some(root.id))
  {
    hide Flatten, FlattenBelow, Finalize, Flat, Listing, PromptListing;
    var grouped := FinalizeTree(Unflattened(x), root).kids;
    var below := FlattenBelow(x, grouped);
    FinalizeFlattens(x, root, []);
    FlattenBelowFlat(x, grouped);
    FlattenFlat(x, below);
    FlattenListing(x, below, Some(root.id));
    BelowListing(x, grouped, Some(root.id));
  }
}
