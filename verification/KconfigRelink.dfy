/** `menu_finalize` on linked records: the links are changed in place and end up describing the
    restructured tree, with every parent pointer in place. */
module KconfigRelink {
  import opened Word
  import opened KconfigMenu
  import opened KconfigLinks

  predicate NoDup(s: seq<nat>) { forall i, k | 0 <= i < k < |s| :: s[i] != s[k] }

  predicate Apart(a: seq<nat>, b: seq<nat>) { forall i | i in a :: i !in b }

  lemma NoDupParts(a: seq<nat>, b: seq<nat>)
    requires NoDup(a + b)
    ensures NoDup(a) && NoDup(b) && Apart(a, b)
  {
    var s := a + b;
    forall i, k | 0 <= i < k < |a| ensures a[i] != a[k] { assert s[i] != s[k]; }
    forall i, k | 0 <= i < k < |b| ensures b[i] != b[k] { assert s[|a| + i] != s[|a| + k]; }
    forall x | x in a ensures x !in b {
      var i :| 0 <= i < |a| && a[i] == x;
      forall k | 0 <= k < |b| ensures b[k] != x { assert s[i] != s[|a| + k]; }
    }
  }

  /** Only the links of the given entries have changed. */
  predicate OnlyOn(before: Links, after: Links, ids: seq<nat>) {
    before.Keys == after.Keys && forall i | i in before && i !in ids :: after[i] == before[i]
  }

  lemma {:induction false} LinkedKeys(links: Links, f: Forest, parent: Option<nat>, tail: Option<nat>)
    requires Linked(links, f, parent, tail)
    ensures forall i | i in Preorder(f) :: i in links
    decreases Count(f)
  {
    if f != [] {
      LinkedKeys(links, f[0].kids, Some(f[0].id), None);
      LinkedKeys(links, f[1..], parent, tail);
    }
  }

  /** A level apart from what has changed is still described. */
  lemma {:induction false} LinkedElsewhere(before: Links, after: Links, f: Forest, parent: Option<nat>, tail: Option<nat>, ids: seq<nat>)
    requires Linked(before, f, parent, tail) && OnlyOn(before, after, ids) && Apart(Preorder(f), ids)
    ensures Linked(after, f, parent, tail)
  {
    hide Linked, Preorder;
    LinkedKeys(before, f, parent, tail);
    LinkedFrame(before, after, f, parent, tail);
  }

  lemma OnlyOnChain(a: Links, b: Links, c: Links, ids: seq<nat>, more: seq<nat>)
    requires OnlyOn(a, b, ids) && OnlyOn(b, c, more) && forall i | i in more :: i in ids
    ensures OnlyOn(a, c, ids)
  {
  }

  /** Updating one entry of a level. */
  lemma OneUpdate(links: Links, i: nat, l: Link)
    requires i in links
    ensures OnlyOn(links, links[i := l], [i])
  {
    assert links[i := l].Keys == links.Keys;
  }

  /** The first entry of a level, and what it is made of. */
  lemma {:induction false} HeadLinked(links: Links, f: Forest, parent: Option<nat>, tail: Option<nat>)
    requires Linked(links, f, parent, tail) && f != []
    ensures f[0].id in links && links[f[0].id] == Link(Head(f[0].kids, None), Head(f[1..], tail), parent)
    ensures Linked(links, f[0].kids, Some(f[0].id), None) && Linked(links, f[1..], parent, tail)
    ensures Preorder(f) == [f[0].id] + Preorder(f[0].kids) + Preorder(f[1..])
  {
  }

  /** Conversely, how a level is put together. */
  lemma {:induction false} MakeLinked(links: Links, n: Node, rest: Forest, parent: Option<nat>, tail: Option<nat>)
    requires n.id in links && links[n.id] == Link(Head(n.kids, None), Head(rest, tail), parent)
    requires Linked(links, n.kids, Some(n.id), None) && Linked(links, rest, parent, tail)
    ensures Linked(links, [n] + rest, parent, tail)
  {
    assert ([n] + rest)[1..] == rest;
  }

  /** The first entry of a level gets other pointers to its surroundings; the rest of the level and what
      is below it stay as they were. */
  lemma Retop(links: Links, f: Forest, parent: Option<nat>, tail: Option<nat>, l: Link)
    requires Linked(links, f, parent, tail) && f != [] && NoDup(Preorder(f)) && l.list == Head(f[0].kids, None)
    ensures var after := links[f[0].id := l];
            && Linked(after, [f[0]], l.parent, l.next) && Linked(after, f[1..], parent, tail)
            && OnlyOn(links, after, [f[0].id])
  {
    hide Linked, Preorder;
    HeadLinked(links, f, parent, tail);
    var id, kids, rest := f[0].id, f[0].kids, f[1..];
    Assoc([id], Preorder(kids), Preorder(rest));
    NoDupParts([id], Preorder(kids) + Preorder(rest));
    OneUpdate(links, id, l);
    var after := links[id := l];
    LinkedElsewhere(links, after, kids, Some(id), None, [id]);
    LinkedElsewhere(links, after, rest, parent, tail, [id]);
    NothingLinked(after, l.parent, l.next);
    MakeLinked(after, f[0], [], l.parent, l.next);
    assert [f[0]] + [] == [f[0]];
  }

  lemma {:induction false} NothingLinked(links: Links, parent: Option<nat>, tail: Option<nat>)
    ensures Linked(links, [], parent, tail) && Head([], tail) == tail
  {
  }

  class MenuTree {
    const facts: Facts
    var links: Links

    constructor (f: Facts, l: Links)
      ensures facts == f && links == l
    {
      facts, links := f, l;
    }

    /** The children of an entry get another parent, one after the other; `last` is the last of them. */
    method Adopt(menu: nat, parent: nat, ghost kids: Forest) returns (last: nat)
      requires Linked(links, kids, Some(menu), None) && kids != [] && NoDup(Preorder(kids))
      requires menu in links && links[menu].list == Some(kids[0].id) && menu !in Preorder(kids)
      modifies this
      ensures Linked(links, kids, Some(parent), None) && OnlyOn(old(links), links, Preorder(kids))
      ensures last == kids[|kids| - 1].id
    {
      hide Linked, Preorder;
      ghost var k, start := 0, links;
      last := links[menu].list.value;
      NothingLinked(links, Some(parent), Some(kids[0].id));
      assert kids[0..] == kids && kids[..0] == [];
      while true
        invariant 0 <= k < |kids| && last == kids[k].id
        invariant Linked(links, kids[..k], Some(parent), Some(kids[k].id)) && Linked(links, kids[k..], Some(menu), None)
        invariant OnlyOn(start, links, Preorder(kids))
        decreases |kids| - k
      {
        ghost var before := links;
        AdoptOne(links, kids, k, menu, parent);
        links := links[last := links[last].(parent := Some(parent))];
        OnlyOnChain(start, before, links, Preorder(kids), [last]);
        if links[last].next.None? { break; }
        last := links[last].next.value;
        k := k + 1;
      }
      assert kids[..|kids|] == kids;
    }

    /** One child changes its parent. */
    lemma {:induction false} AdoptOne(links: Links, kids: Forest, k: nat, menu: nat, parent: nat)
      requires k < |kids| && NoDup(Preorder(kids))
      requires Linked(links, kids[..k], Some(parent), Some(kids[k].id)) && Linked(links, kids[k..], Some(menu), None)
      ensures kids[k].id in links && kids[k].id in Preorder(kids) && links[kids[k].id].next == Head(kids[k + 1..], None)
      ensures var after := links[kids[k].id := links[kids[k].id].(parent := Some(parent))];
              && Linked(after, kids[..k + 1], Some(parent), Head(kids[k + 1..], None)) && Linked(after, kids[k + 1..], Some(menu), None)
              && OnlyOn(links, after, [kids[k].id])
    {
      hide Linked, Preorder;
      var done, todo := kids[..k], kids[k..];
      assert kids == done + todo && todo[1..] == kids[k + 1..] && todo[0] == kids[k];
      PreorderAppend(done, todo);
      NoDupParts(Preorder(done), Preorder(todo));
      HeadLinked(links, todo, Some(menu), None);
      var l := links[kids[k].id].(parent := Some(parent));
      Retop(links, todo, Some(menu), None, l);
      var after := links[kids[k].id := l];
      LinkedElsewhere(links, after, done, Some(parent), Some(kids[k].id), [kids[k].id]);
      LinkedAppend(after, done, [kids[k]], Some(parent), Head(kids[k + 1..], None));
      assert kids[..k + 1] == done + [kids[k]];
    }

    /** The last entry of a level gets another successor. */
    lemma SetTail(links: Links, f: Forest, parent: Option<nat>, tail: Option<nat>, next: Option<nat>)
      requires Linked(links, f, parent, tail) && f != [] && NoDup(Preorder(f))
      ensures var last := f[|f| - 1].id;
              last in links && last in Preorder(f) &&
              Linked(links[last := links[last].(next := next)], f, parent, next)
      ensures OnlyOn(links, links[f[|f| - 1].id := links[f[|f| - 1].id].(next := next)], [f[|f| - 1].id])
    {
      hide Linked, Preorder;
      var k := |f| - 1;
      var front, end := f[..k], f[k..];
      assert f == front + end && end[0] == f[k] && end[1..] == [];
      PreorderAppend(front, end);
      NoDupParts(Preorder(front), Preorder(end));
      LinkedAppend(links, front, end, parent, tail);
      HeadLinked(links, end, parent, tail);
      var l := links[f[k].id].(next := next);
      Retop(links, end, parent, tail, l);
      var after := links[f[k].id := l];
      LinkedElsewhere(links, after, front, parent, Head(end, tail), [f[k].id]);
      assert [end[0]] == end;
      LinkedAppend(after, front, end, parent, next);
    }

    /** What a level with its first entry flattened looks like. */
    lemma {:induction false} Assemble(links: Links, menu: nat, kids: Forest, rest: Forest, parent: nat)
      requires kids != [] && menu in links && links[menu] == Link(None, Some(kids[0].id), Some(parent))
      requires Linked(links, kids, Some(parent), Head(rest, None)) && Linked(links, rest, Some(parent), None)
      ensures Linked(links, [Node(menu, [])] + (kids + rest), Some(parent), None)
      ensures Linked(links, [Node(menu, [])], Some(parent), Some(kids[0].id)) && Linked(links, kids + rest, Some(parent), None)
    {
      hide Linked;
      LinkedAppend(links, kids, rest, Some(parent), None);
      NothingLinked(links, Some(menu), None);
      NothingLinked(links, Some(parent), Some(kids[0].id));
      MakeLinked(links, Node(menu, []), kids + rest, Some(parent), None);
      MakeLinked(links, Node(menu, []), [], Some(parent), Some(kids[0].id));
      assert [Node(menu, [])] + [] == [Node(menu, [])];
    }

    /** An entry without a prompt hands its children over to its own level. */
    method Splice(menu: nat, parent: nat, ghost g: Forest)
      requires g != [] && g[0].id == menu && g[0].kids != [] && NoDup(Preorder(g)) && Linked(links, g, Some(parent), None)
      modifies this
      ensures Linked(links, [Node(menu, [])], Some(parent), Some(g[0].kids[0].id))
      ensures Linked(links, g[0].kids + g[1..], Some(parent), None)
      ensures OnlyOn(old(links), links, Preorder(g))
      ensures menu in links && links[menu].next == Some(g[0].kids[0].id)
    {
      hide Linked, Preorder;
      ghost var kids, rest, start := g[0].kids, g[1..], links;
      ghost var all := Preorder(g);
      HeadLinked(links, g, Some(parent), None);
      Assoc([menu], Preorder(kids), Preorder(rest));
      NoDupParts([menu], Preorder(kids) + Preorder(rest));
      NoDupParts(Preorder(kids), Preorder(rest));
      assert menu in [menu];
      assert menu !in Preorder(kids) + Preorder(rest);
      var last := Adopt(menu, parent, kids);
      ghost var adopted := links;
      LinkedElsewhere(start, adopted, rest, Some(parent), None, Preorder(kids));
      SetTail(links, kids, Some(parent), None, Head(rest, None));
      links := links[last := links[last].(next := links[menu].next)];
      ghost var tied := links;
      LinkedElsewhere(adopted, tied, rest, Some(parent), None, [last]);
      OnlyOnChain(start, adopted, tied, Preorder(kids), [last]);
      OneUpdate(links, menu, Link(None, links[menu].list, links[menu].parent));
      links := links[menu := Link(None, links[menu].list, links[menu].parent)];
      LinkedElsewhere(tied, links, kids, Some(parent), Head(rest, None), [menu]);
      LinkedElsewhere(tied, links, rest, Some(parent), None, [menu]);
      Assemble(links, menu, kids, rest, parent);
      OnlyOnMore(start, tied, Preorder(kids), all);
      OnlyOnChain(start, tied, links, all, [menu]);
    }

    lemma OnlyOnMore(a: Links, b: Links, ids: seq<nat>, more: seq<nat>)
      requires OnlyOn(a, b, ids) && forall i | i in ids :: i in more
      ensures OnlyOn(a, b, more)
    {
    }

    lemma NothingChanged(a: Links, ids: seq<nat>)
      ensures OnlyOn(a, a, ids)
    {
    }

    /** The loop that flattens the children of an entry. */
    method FlattenLevel(parent: nat, ghost f: Forest)
      requires parent in links && parent !in Preorder(f) && NoDup(Preorder(f))
      requires Linked(links, f, Some(parent), None) && links[parent].list == Head(f, None)
      modifies this
      ensures Linked(links, Flatten(facts, f), Some(parent), None) && Head(Flatten(facts, f), None) == Head(f, None)
      ensures OnlyOn(old(links), links, Preorder(f))
    {
      hide Linked, Preorder, Flatten;
      ghost var done: Forest, g, start := [], f, links;
      var menu := links[parent].list;
      NothingLinked(links, Some(parent), Head(f, None));
      NothingChanged(links, Preorder(f));
      EmptyPreorder();
      assert [] + Preorder(f) == Preorder(f) && [] + Flatten(facts, f) == Flatten(facts, f);
      while menu.Some?
        invariant menu == Head(g, None) && Flatten(facts, f) == done + Flatten(facts, g)
        invariant Linked(links, done, Some(parent), Head(g, None)) && Linked(links, g, Some(parent), None)
        invariant Preorder(done) + Preorder(g) == Preorder(f) && OnlyOn(start, links, Preorder(f))
        decreases Count(g)
      {
        NoDupParts(Preorder(done), Preorder(g));
        HeadLinked(links, g, Some(parent), None);
        NonEmptyCount(g);
        FlattenStep(g, done);
        if links[menu.value].list.Some? && !facts.prompted(menu.value) {
          ghost var before := links;
          Splice(menu.value, parent, g);
          LinkedElsewhere(before, links, done, Some(parent), Head(g, None), Preorder(g));
          LinkedAppend(links, done, [Node(menu.value, [])], Some(parent), Some(g[0].kids[0].id));
          OnlyOnChain(start, before, links, Preorder(f), Preorder(g));
          SplicedPreorder(done, g);
          CountAppend(g[0].kids, g[1..]);
          done, g := done + [Node(menu.value, [])], g[0].kids + g[1..];
        } else {
          LinkedAppend(links, done, [g[0]], Some(parent), Head(g[1..], None));
          SingleLinked(links, g, Some(parent), None);
          KeptPreorder(done, g);
          done, g := done + [g[0]], g[1..];
        }
        menu := links[menu.value].next;
      }
      FlattenHead(facts, f);
      assert Flatten(facts, g) == [] && done + [] == done by { FlattenNone(facts, g); }
    }

    lemma {:induction false} FlattenNone(x: Facts, g: Forest)
      requires g == []
      ensures Flatten(x, g) == []
    {
    }

    lemma {:induction false} FlattenHead(x: Facts, f: Forest)
      ensures Head(Flatten(x, f), None) == Head(f, None)
    {
    }

    lemma {:induction false} FlattenStep(g: Forest, done: Forest)
      requires g != []
      ensures var spliced := g[0].kids != [] && !facts.prompted(g[0].id);
              done + Flatten(facts, g) ==
              if spliced then done + [Node(g[0].id, [])] + Flatten(facts, g[0].kids + g[1..])
              else done + [g[0]] + Flatten(facts, g[1..])
    {
      hide Count;
      if g[0].kids != [] && !facts.prompted(g[0].id) {
        JoinForests(done, [Node(g[0].id, [])], Flatten(facts, g[0].kids + g[1..]));
      } else {
        JoinForests(done, [g[0]], Flatten(facts, g[1..]));
      }
    }

    lemma JoinForests(a: Forest, b: Forest, c: Forest)
      ensures a + (b + c) == a + b + c
    {
    }

    lemma {:induction false} SingleLinked(links: Links, g: Forest, parent: Option<nat>, tail: Option<nat>)
      requires Linked(links, g, parent, tail) && g != []
      ensures Linked(links, [g[0]], parent, Head(g[1..], tail))
    {
      hide Linked;
      assert g == [g[0]] + g[1..];
      LinkedAppend(links, [g[0]], g[1..], parent, tail);
    }

    lemma {:induction false} SplicedPreorder(done: Forest, g: Forest)
      requires g != []
      ensures Preorder(done + [Node(g[0].id, [])]) + Preorder(g[0].kids + g[1..]) == Preorder(done) + Preorder(g)
    {
      hide Preorder;
      PreorderAppend(done, [Node(g[0].id, [])]);
      PreorderAppend(g[0].kids, g[1..]);
      PreorderOne(Node(g[0].id, []));
      EmptyPreorder();
      PreorderNode(g[0], g[1..]);
      assert g == [g[0]] + g[1..];
      assert [g[0].id] + [] == [g[0].id];
    }

    lemma {:induction false} KeptPreorder(done: Forest, g: Forest)
      requires g != []
      ensures Preorder(done + [g[0]]) + Preorder(g[1..]) == Preorder(done) + Preorder(g)
    {
      hide Preorder;
      PreorderAppend(done, [g[0]]);
      PreorderAppend([g[0]], g[1..]);
      assert g == [g[0]] + g[1..];
    }

    /** `menu_finalize`: the links of an entry and the siblings behind it end up describing the
        restructured level. */
    method FinalizeMenu(menu: nat, ghost n: Node, ghost rest: Forest, ghost up: Option<nat>)
      requires n.id == menu && Linked(links, [n] + rest, up, None) && NoDup(Preorder([n] + rest))
      modifies this
      ensures var r := Finalize(facts, n, rest); Linked(links, [r.0] + r.1, up, None)
      ensures OnlyOn(old(links), links, Preorder([n] + rest))
      decreases Count(n.kids) + Count(rest), 2
    {
      hide Linked, Preorder, Flatten, Count, FinalizeAll, Absorb;
      ghost var start, all := links, Preorder([n] + rest);
      Decompose(n, rest, up);
      if links[menu].list.Some? {
        FinalizeChildren(menu, n.kids);
        ghost var kids := FinalizeAll(facts, n.kids).0;
        FinalizeAllKeeps(facts, n.kids);
        ghost var mid := links;
        FlattenLevel(menu, kids);
        OnlyOnChain(start, mid, links, Preorder(n.kids), Preorder(kids));
        LinkedElsewhere(start, links, rest, up, None, Preorder(n.kids));
        MakeLinked(links, Node(menu, Flatten(facts, kids)), rest, up, None);
        OnlyOnMore(start, links, Preorder(n.kids), all);
      } else if facts.symbol(menu) {
        AbsorbSiblings(menu, rest, up);
        ghost var r := Absorb(facts, menu, rest);
        AbsorbKeeps(facts, menu, rest);
        NoDupParts(Preorder(r.0), Preorder(r.1));
        ghost var mid := links;
        FlattenLevel(menu, r.0);
        LinkedElsewhere(mid, links, r.1, up, None, Preorder(r.0));
        MakeLinked(links, Node(menu, Flatten(facts, r.0)), r.1, up, None);
        OnlyOnMore(start, mid, [menu] + Preorder(rest), all);
        OnlyOnChain(start, mid, links, all, Preorder(r.0));
      } else {
        NothingChanged(links, all);
      }
    }

    lemma {:induction false} Decompose(n: Node, rest: Forest, up: Option<nat>)
      requires Linked(links, [n] + rest, up, None) && NoDup(Preorder([n] + rest))
      ensures n.id in links && links[n.id] == Link(Head(n.kids, None), Head(rest, None), up)
      ensures Linked(links, n.kids, Some(n.id), None) && Linked(links, rest, up, None)
      ensures NoDup(Preorder(n.kids)) && NoDup(Preorder(rest)) && Apart(Preorder(rest), Preorder(n.kids))
      ensures n.id !in Preorder(n.kids) && n.id !in Preorder(rest)
      ensures forall i :: i in Preorder([n] + rest) <==> i == n.id || i in Preorder(n.kids) || i in Preorder(rest)
    {
      hide Linked, Preorder;
      HeadLinked(links, [n] + rest, up, None);
      assert ([n] + rest)[1..] == rest;
      PreorderNode(n, rest);
      Assoc([n.id], Preorder(n.kids), Preorder(rest));
      NoDupParts([n.id], Preorder(n.kids) + Preorder(rest));
      NoDupParts(Preorder(n.kids), Preorder(rest));
      assert n.id in [n.id];
    }

    /** In the middle of the loop over the children: `done` is finalized, g is to come. */
    predicate Finalizing(current: Links, start: Links, f: Forest, done: Forest, g: Forest, parent: nat) {
      && Linked(current, done, Some(parent), Head(g, None)) && Linked(current, g, Some(parent), None)
      && Preorder(done) + Preorder(g) == Preorder(f) && OnlyOn(start, current, Preorder(f))
      && FinalizeAll(facts, f).0 == done + FinalizeAll(facts, g).0 && Count(g) <= Count(f)
    }

    method FinalizeOne(menu: nat, parent: nat, ghost start: Links, ghost f: Forest, ghost done: Forest, ghost g: Forest)
      requires Finalizing(links, start, f, done, g, parent) && NoDup(Preorder(f)) && g != [] && menu == g[0].id
      modifies this
      ensures var r := Finalize(facts, g[0], g[1..]);
              && Finalizing(links, start, f, done + [r.0], r.1, parent) && Count(r.1) < Count(g)
              && menu in links && links[menu].next == Head(r.1, None)
      decreases Count(g), 0
    {
      hide Linked, Preorder, Count, Finalize, FinalizeAll;
      ghost var before, r := links, Finalize(facts, g[0], g[1..]);
      NoDupParts(Preorder(done), Preorder(g));
      NonEmptyCount(g);
      assert g == [g[0]] + g[1..];
      FinalizeMenu(menu, g[0], g[1..], Some(parent));
      LinkedElsewhere(before, links, done, Some(parent), Head(g, None), Preorder(g));
      OnlyOnChain(start, before, links, Preorder(f), Preorder(g));
      FinalizedHead(facts, g, done);
      HeadLinked(links, [r.0] + r.1, Some(parent), None);
      assert ([r.0] + r.1)[1..] == r.1;
      SingleLinked(links, [r.0] + r.1, Some(parent), None);
      LinkedAppend(links, done, [r.0], Some(parent), Head(r.1, None));
    }

    /** The loop over the children. */
    method FinalizeChildren(parent: nat, ghost f: Forest)
      requires parent in links && parent !in Preorder(f) && NoDup(Preorder(f))
      requires Linked(links, f, Some(parent), None) && links[parent].list == Head(f, None)
      modifies this
      ensures Linked(links, FinalizeAll(facts, f).0, Some(parent), None)
      ensures Head(FinalizeAll(facts, f).0, None) == Head(f, None) && OnlyOn(old(links), links, Preorder(f))
      decreases Count(f), 1
    {
      hide Linked, Preorder, Count, Finalize, FinalizeAll;
      ghost var done: Forest, g, start := [], f, links;
      var menu := links[parent].list;
      FinalizingStarts(links, f, parent);
      while menu.Some?
        invariant menu == Head(g, None) && Finalizing(links, start, f, done, g, parent)
        decreases Count(g)
      {
        ghost var r := Finalize(facts, g[0], g[1..]);
        FinalizeOne(menu.value, parent, start, f, done, g);
        menu := links[menu.value].next;
        done, g := done + [r.0], r.1;
      }
      AllDone(facts, g, f, done);
    }

    lemma {:induction false} FinalizingStarts(current: Links, f: Forest, parent: nat)
      requires Linked(current, f, Some(parent), None)
      ensures Finalizing(current, current, f, [], f, parent)
    {
      hide Linked, Preorder, Count, FinalizeAll;
      NothingLinked(current, Some(parent), Head(f, None));
      NothingChanged(current, Preorder(f));
      EmptyPreorder();
      assert [] + Preorder(f) == Preorder(f) && [] + FinalizeAll(facts, f).0 == FinalizeAll(facts, f).0;
    }

    lemma {:induction false} AllDone(x: Facts, g: Forest, f: Forest, done: Forest)
      requires g == []
      ensures done + FinalizeAll(x, g).0 == done && Head(FinalizeAll(x, f).0, None) == Head(f, None)
    {
      if f != [] { assert Finalize(x, f[0], f[1..]).0.id == f[0].id; }
    }

    /** One more finalized entry, the preorder kept. */
    lemma {:induction false} FinalizedHead(x: Facts, g: Forest, done: Forest)
      requires g != []
      ensures var r := Finalize(x, g[0], g[1..]);
              && r.0.id == g[0].id && Count(r.1) < Count(g)
              && done + FinalizeAll(x, g).0 == done + [r.0] + FinalizeAll(x, r.1).0
              && Preorder(done + [r.0]) + Preorder(r.1) == Preorder(done) + Preorder(g)
              && Preorder([r.0] + r.1) == Preorder(g)
    {
      hide Preorder, Finalize;
      var r := Finalize(x, g[0], g[1..]);
      NonEmptyCount(g);
      FinalizeKeeps(x, g[0], g[1..]);
      assert g == [g[0]] + g[1..];
      PreorderNode(g[0], g[1..]);
      PreorderNode(r.0, r.1);
      PreorderAppend(done, [r.0]);
      PreorderAppend([r.0], r.1);
      JoinForests(done, [r.0], FinalizeAll(x, r.1).0);
      Assoc(Preorder(done), Preorder([r.0]), Preorder(r.1));
    }

    lemma {:induction false} AbsorbStep(x: Facts, owner: nat, g: Forest, done: Forest)
      requires g != [] && x.joins(owner, g[0].id)
      ensures var r, a := Finalize(x, g[0], g[1..]), Absorb(x, owner, g);
              && a.1 == Absorb(x, owner, r.1).1 && done + a.0 == done + [r.0] + Absorb(x, owner, r.1).0
    {
      hide Preorder, Finalize, Count;
      var r := Finalize(x, g[0], g[1..]);
      JoinForests(done, [r.0], Absorb(x, owner, r.1).0);
    }

    lemma {:induction false} AbsorbEnds(x: Facts, owner: nat, g: Forest, done: Forest)
      requires g == [] || !x.joins(owner, g[0].id)
      ensures Absorb(x, owner, g).0 == [] && Absorb(x, owner, g).1 == g && done + [] == done
    {
    }

    /** In the middle of the absorbing loop: `done` has been moved under the symbol, g is left. */
    predicate Absorbing(current: Links, start: Links, rest: Forest, done: Forest, g: Forest, menu: nat, up: Option<nat>) {
      && Linked(current, done, Some(menu), Head(g, None)) && Linked(current, g, up, None)
      && Preorder(done) + Preorder(g) == Preorder(rest) && OnlyOn(start, current, Preorder(rest)) && Head(done + g, None) == Head(rest, None)
      && Absorb(facts, menu, rest).0 == done + Absorb(facts, menu, g).0 && Absorb(facts, menu, rest).1 == Absorb(facts, menu, g).1
      && Count(g) <= Count(rest)
    }

    /** One sibling is finalized and moves under the symbol. */
    method MoveOne(item: nat, menu: nat, ghost start: Links, ghost rest: Forest, ghost done: Forest, ghost g: Forest, ghost up: Option<nat>)
      requires Absorbing(links, start, rest, done, g, menu, up) && NoDup(Preorder(rest))
      requires g != [] && item == g[0].id && facts.joins(menu, item)
      modifies this
      ensures var r := Finalize(facts, g[0], g[1..]);
              && Absorbing(links, start, rest, done + [r.0], r.1, menu, up) && Count(r.1) < Count(g)
              && r.0.id == item && item in links && links[item].next == Head(r.1, None)
      decreases Count(g), 0
    {
      hide Linked, Preorder, Count, Finalize, Absorb;
      ghost var before, r := links, Finalize(facts, g[0], g[1..]);
      NoDupParts(Preorder(done), Preorder(g));
      NonEmptyCount(g);
      FirstIn(g);
      assert g == [g[0]] + g[1..];
      FinalizeMenu(item, g[0], g[1..], up);
      ghost var mid := links;
      FinalizedHead(facts, g, done);
      AbsorbStep(facts, menu, g, done);
      MoveUnder(mid, r.0, r.1, up, menu);
      links := links[item := links[item].(parent := Some(menu))];
      LinkedElsewhere(before, mid, done, Some(menu), Head(g, None), Preorder(g));
      LinkedElsewhere(mid, links, done, Some(menu), Head(g, None), [item]);
      LinkedAppend(links, done, [r.0], Some(menu), Head(r.1, None));
      OnlyOnChain(start, before, mid, Preorder(rest), Preorder(g));
      OnlyOnChain(start, mid, links, Preorder(rest), [item]);
    }

    /** The moved siblings become the list of the symbol, which is followed by what is left. */
    method CutOff(menu: nat, last: nat, ghost start: Links, ghost rest: Forest, ghost done: Forest, ghost g: Forest, ghost up: Option<nat>)
      requires Absorbing(links, start, rest, done, g, menu, up) && NoDup(Preorder(rest)) && menu !in Preorder(rest)
      requires done != [] && last == done[|done| - 1].id && menu in links && links[menu] == Link(None, Head(rest, None), up)
      modifies this
      ensures Linked(links, done, Some(menu), None) && Linked(links, g, up, None)
      ensures menu in links && links[menu] == Link(Head(done, None), Head(g, None), up)
      ensures OnlyOn(start, links, [menu] + Preorder(rest))
    {
      hide Linked, Preorder, Count, Absorb;
      ghost var before := links;
      NoDupParts(Preorder(done), Preorder(g));
      OnlyOnMore(start, links, Preorder(rest), [menu] + Preorder(rest));
      LastNext(links, done, Some(menu), Head(g, None));
      OneUpdate(links, menu, Link(links[menu].next, links[last].next, links[menu].parent));
      links := links[menu := Link(links[menu].next, links[last].next, links[menu].parent)];
      ghost var mid := links;
      LinkedElsewhere(before, mid, done, Some(menu), Head(g, None), [menu]);
      LinkedElsewhere(before, mid, g, up, None, [menu]);
      OnlyOnChain(start, before, mid, [menu] + Preorder(rest), [menu]);
      SetTail(mid, done, Some(menu), Head(g, None), None);
      links := links[last := links[last].(next := None)];
      LinkedElsewhere(mid, links, g, up, None, [last]);
      OnlyOnChain(start, mid, links, [menu] + Preorder(rest), [last]);
    }

    /** The loop that moves the siblings behind a symbol under it, and the relinking at its end. */
    method AbsorbSiblings(menu: nat, ghost rest: Forest, ghost up: Option<nat>)
      requires menu in links && links[menu] == Link(None, Head(rest, None), up)
      requires Linked(links, rest, up, None) && NoDup(Preorder(rest)) && menu !in Preorder(rest)
      modifies this
      ensures var r := Absorb(facts, menu, rest);
              && Linked(links, r.0, Some(menu), None) && Linked(links, r.1, up, None)
              && menu in links && links[menu] == Link(Head(r.0, None), Head(r.1, None), up)
      ensures OnlyOn(old(links), links, [menu] + Preorder(rest))
      decreases Count(rest), 1
    {
      hide Linked, Preorder, Count, Finalize, Absorb;
      ghost var done: Forest, g, start := [], rest, links;
      var item, last: Option<nat> := links[menu].next, None;
      AbsorbStarts(links, rest, menu, up);
      while item.Some? && facts.joins(menu, item.value)
        invariant item == Head(g, None) && Absorbing(links, start, rest, done, g, menu, up)
        invariant last == if done == [] then None else Some(done[|done| - 1].id)
        decreases Count(g)
      {
        ghost var r := Finalize(facts, g[0], g[1..]);
        MoveOne(item.value, menu, start, rest, done, g, up);
        last := item;
        item := links[item.value].next;
        done, g := done + [r.0], r.1;
      }
      AbsorbEnds(facts, menu, g, done);
      if last.Some? {
        CutOff(menu, last.value, start, rest, done, g, up);
      } else {
        OnlyOnMore(start, links, Preorder(rest), [menu] + Preorder(rest));
        NothingLinked(links, Some(menu), None);
      }
    }

    lemma {:induction false} AbsorbStarts(current: Links, rest: Forest, menu: nat, up: Option<nat>)
      requires Linked(current, rest, up, None)
      ensures Absorbing(current, current, rest, [], rest, menu, up)
    {
      hide Linked, Preorder, Count, Absorb;
      NothingLinked(current, Some(menu), Head(rest, None));
      NothingChanged(current, Preorder(rest));
      EmptyPreorder();
      assert [] + Preorder(rest) == Preorder(rest) && [] + Absorb(facts, menu, rest).0 == Absorb(facts, menu, rest).0;
      assert [] + rest == rest;
    }

    lemma {:induction false} FirstIn(g: Forest)
      requires g != []
      ensures g[0].id in Preorder(g)
    {
    }

    lemma {:induction false} MoveUnder(links: Links, h: Node, rest: Forest, up: Option<nat>, menu: nat)
      requires Linked(links, [h] + rest, up, None) && NoDup(Preorder([h] + rest))
      ensures h.id in links && links[h.id].next == Head(rest, None)
      ensures var after := links[h.id := links[h.id].(parent := Some(menu))];
              && Linked(after, [h], Some(menu), Head(rest, None)) && Linked(after, rest, up, None)
              && OnlyOn(links, after, [h.id])
    {
      hide Linked, Preorder;
      var f := [h] + rest;
      assert f[1..] == rest && [f[0]] == [h];
      HeadLinked(links, f, up, None);
      Retop(links, f, up, None, links[h.id].(parent := Some(menu)));
    }

    lemma {:induction false} LastNext(links: Links, f: Forest, parent: Option<nat>, tail: Option<nat>)
      requires Linked(links, f, parent, tail) && f != []
      ensures f[|f| - 1].id in links && links[f[|f| - 1].id].next == tail && f[|f| - 1].id in Preorder(f)
      decreases |f|
    {
      if |f| > 1 {
        LastNext(links, f[1..], parent, tail);
      } else {
        assert f[1..] == [];
      }
    }

    /** The whole tree: afterwards the links describe the restructured tree, and the walk over them visits
        the entries in the order in which they were parsed. */
    method FinalizeRoot(root: nat, ghost tree: Node) returns (visited: seq<nat>)
      requires tree.id == root && Linked(links, [tree], None, None) && NoDup(Preorder([tree]))
      modifies this
      ensures Linked(links, [FinalizeTree(facts, tree)], None, None)
      ensures visited == Preorder(tree.kids)
    {
      hide Linked, Preorder, Finalize;
      assert [tree] + [] == [tree];
      FinalizeMenu(root, tree, [], None);
      TreeKeepsPreorder(facts, tree);
      ghost var after := FinalizeTree(facts, tree);
      assert [after] + [] == [after];
      LinkedKeys(links, [after], None, None);
      visited := Walk(links, root, after);
      PreorderOne(after);
      PreorderOne(tree);
      assert Preorder([after])[1..] == Preorder(after.kids) && Preorder([tree])[1..] == Preorder(tree.kids);
    }
  }
}
