/** Menu entries as linked records: the stackless walk of `conf_write` (tools/kconfig/confdata.c) and
    the relinking done by `menu_finalize` (tools/kconfig/menu.c). */
module KconfigLinks {
  import opened Word
  import opened KconfigMenu

  /** First child, next sibling and parent of an entry. */
  datatype Link = Link(list: Option<nat>, next: Option<nat>, parent: Option<nat>)

  type Links = map<nat, Link>

  /** The first entry of a level, or what comes behind it. */
  function Head(f: Forest, tail: Option<nat>): Option<nat> { if f == [] then tail else Some(f[0].id) }

  /** The links describe the level f under `parent`, followed by `tail`. */
  predicate Linked(links: Links, f: Forest, parent: Option<nat>, tail: Option<nat>)
    decreases Count(f)
  {
    f == [] ||
    (&& f[0].id in links && links[f[0].id] == Link(Head(f[0].kids, None), Head(f[1..], tail), parent)
     && Linked(links, f[0].kids, Some(f[0].id), None) && Linked(links, f[1..], parent, tail))
  }

  lemma {:induction false} LinkedAppend(links: Links, f: Forest, g: Forest, parent: Option<nat>, tail: Option<nat>)
    ensures Linked(links, f + g, parent, tail) <==> Linked(links, f, parent, Head(g, tail)) && Linked(links, g, parent, tail)
    decreases Count(f)
  {
    if f == [] {
      assert f + g == g;
    } else {
      LinkedAppend(links, f[1..], g, parent, tail);
      assert (f + g)[1..] == f[1..] + g;
    }
  }

  predicate SameOn(links: Links, other: Links, ids: seq<nat>) {
    forall i | i in ids :: i in links && i in other && links[i] == other[i]
  }

  /** A level depends only on the links of its own entries. */
  lemma {:induction false} LinkedFrame(links: Links, other: Links, f: Forest, parent: Option<nat>, tail: Option<nat>)
    requires Linked(links, f, parent, tail) && SameOn(links, other, Preorder(f))
    ensures Linked(other, f, parent, tail)
    decreases Count(f)
  {
    if f != [] {
      assert f[0].id in Preorder(f);
      LinkedFrame(links, other, f[0].kids, Some(f[0].id), None);
      LinkedFrame(links, other, f[1..], parent, tail);
    }
  }

  // ---- The walk ---------------------------------------------------------------------------

  /** A level the walk has entered: the entry above it and the siblings still to come. */
  datatype Level = Level(above: nat, rest: Forest)

  /** From the innermost level outwards, the links lead back to the root. */
  predicate WayUp(links: Links, levels: seq<Level>) {
    levels != [] && levels[0].above in links && Linked(links, levels[0].rest, Some(levels[0].above), None) &&
    if |levels| == 1 then links[levels[0].above].next == None && links[levels[0].above].parent == None
    else
      && links[levels[0].above].next == Head(levels[1].rest, None) && links[levels[0].above].parent == Some(levels[1].above)
      && WayUp(links, levels[1..])
  }

  /** What is still to be visited on the way up. */
  function Ahead(levels: seq<Level>): seq<nat> {
    if levels == [] then [] else Preorder(levels[0].rest) + Ahead(levels[1..])
  }

  /** The walk stands at entry n, the innermost level being what comes behind it. */
  predicate At(links: Links, n: Node, levels: seq<Level>) {
    && WayUp(links, levels) && n.id in links
    && links[n.id] == Link(Head(n.kids, None), Head(levels[0].rest, None), Some(levels[0].above))
    && Linked(links, n.kids, Some(n.id), None)
  }

  /** What the walk still visits, the present entry included. */
  function ToVisit(n: Node, levels: seq<Level>): seq<nat> { [n.id] + Preorder(n.kids) + Ahead(levels) }

  /** Going down to the first child. */
  lemma Down(links: Links, n: Node, levels: seq<Level>)
    requires At(links, n, levels) && n.kids != []
    ensures At(links, n.kids[0], [Level(n.id, n.kids[1..])] + levels)
    ensures ToVisit(n, levels) == [n.id] + ToVisit(n.kids[0], [Level(n.id, n.kids[1..])] + levels)
  {
    var inner := [Level(n.id, n.kids[1..])] + levels;
    assert inner[1..] == levels;
    Assoc([n.kids[0].id] + Preorder(n.kids[0].kids), Preorder(n.kids[1..]), Ahead(levels));
    Assoc([n.id], Preorder(n.kids), Ahead(levels));
  }

  /** Going on to the next sibling. */
  lemma {:induction false} Across(links: Links, levels: seq<Level>)
    requires WayUp(links, levels) && levels[0].rest != []
    ensures var r := levels[0].rest;
            At(links, r[0], levels[0 := Level(levels[0].above, r[1..])]) &&
            Ahead(levels) == ToVisit(r[0], levels[0 := Level(levels[0].above, r[1..])])
  {
    var r := levels[0].rest;
    var after := levels[0 := Level(levels[0].above, r[1..])];
    assert after[1..] == levels[1..];
    Assoc([r[0].id] + Preorder(r[0].kids), Preorder(r[1..]), Ahead(levels[1..]));
  }

  /** Leaving a finished level. */
  lemma {:induction false} Up(links: Links, levels: seq<Level>)
    requires WayUp(links, levels) && levels[0].rest == []
    ensures levels[0].above in links
    ensures |levels| == 1 ==> links[levels[0].above].next == None && links[levels[0].above].parent == None && Ahead(levels) == []
    ensures |levels| > 1 ==> WayUp(links, levels[1..]) && Ahead(levels) == Ahead(levels[1..])
                             && links[levels[0].above].next == Head(levels[1].rest, None)
                             && links[levels[0].above].parent == Some(levels[1].above)
  {
    assert Ahead(levels) == [] + Ahead(levels[1..]);
  }

  /** The inner loop of the walk: up the parents to the first that has a next sibling. */
  method Climb(links: Links, menu: nat, ghost levels: seq<Level>) returns (next: Option<nat>, ghost n: Node, ghost left: seq<Level>)
    requires levels != [] && WayUp(links, levels) && levels[0].rest == [] && menu in links && links[menu].parent == Some(levels[0].above)
    ensures next.None? ==> Ahead(levels) == []
    ensures next.Some? ==> next.value == n.id && At(links, n, left) && Ahead(levels) == ToVisit(n, left)
  {
    hide At, WayUp, ToVisit, Ahead;
    n, left := Node(0, []), levels;
    next := Some(menu);
    ghost var top := false;
    while next.Some?
      invariant next.None? || top ==> Ahead(levels) == []
      invariant next.Some? ==> next.value in links
      invariant next.Some? && top ==> links[next.value].parent == None
      invariant left != []
      invariant next.Some? && !top ==> WayUp(links, left) && left[0].rest == [] && Ahead(left) == Ahead(levels)
                                       && links[next.value].parent == Some(left[0].above)
      decreases if next.None? then 0 else if top then 1 else 2 + |left|
    {
      if !top { Up(links, left); }
      next := links[next.value].parent;
      if next.Some? {
        if links[next.value].next.Some? {
          left := left[1..];
          Across(links, left);
          n, left := left[0].rest[0], left[0 := Level(left[0].above, left[0].rest[1..])];
          next := links[next.value].next;
          return;
        }
        top := |left| == 1;
        left := if top then left else left[1..];
      }
    }
  }

  /** The walk over all entries below the root: down if possible, else across, else up. It ends, and it
      visits exactly the preorder. */
  method Walk(links: Links, root: nat, ghost tree: Node) returns (visited: seq<nat>)
    requires Linked(links, [tree], None, None) && tree.id == root
    ensures visited == Preorder(tree.kids)
  {
    hide At, WayUp, ToVisit, Ahead, Preorder;
    visited := [];
    ghost var goal := Preorder(tree.kids);
    var menu := links[root].list;
    ghost var n, levels := tree, [Level(root, [])];
    if menu.Some? {
      EnterTree(links, tree);
      n, levels := tree.kids[0], [Level(root, tree.kids[1..])];
    } else {
      EmptyPreorder();
    }
    while menu.Some?
      invariant menu.Some? ==> menu.value == n.id && At(links, n, levels) && visited + ToVisit(n, levels) == goal
      invariant menu.None? ==> visited == goal
      decreases |goal| - |visited|, if menu.Some? then 1 else 0
    {
      Standing(links, n, levels);
      Assoc(visited, [n.id], ToVisit(n, levels)[1..]);
      visited := visited + [menu.value];
      if links[menu.value].list.Some? {
        Down(links, n, levels);
        n, levels := n.kids[0], [Level(n.id, n.kids[1..])] + levels;
        menu := links[menu.value].list;
      } else if links[menu.value].next.Some? {
        Across(links, levels);
        n, levels := levels[0].rest[0], levels[0 := Level(levels[0].above, levels[0].rest[1..])];
        menu := links[menu.value].next;
      } else {
        menu, n, levels := Climb(links, menu.value, levels);
      }
    }
  }

  lemma {:induction false} EnterTree(links: Links, tree: Node)
    requires Linked(links, [tree], None, None) && tree.kids != []
    ensures At(links, tree.kids[0], [Level(tree.id, tree.kids[1..])])
    ensures ToVisit(tree.kids[0], [Level(tree.id, tree.kids[1..])]) == Preorder(tree.kids)
  {
    var levels := [Level(tree.id, tree.kids[1..])];
    assert [tree][1..] == [] && levels[1..] == [];
    assert Ahead(levels) == Preorder(tree.kids[1..]) + Ahead([]) == Preorder(tree.kids[1..]);
  }

  lemma {:induction false} Standing(links: Links, n: Node, levels: seq<Level>)
    requires At(links, n, levels)
    ensures WayUp(links, levels) && levels != [] && n.id in links
    ensures links[n.id] == Link(Head(n.kids, None), Head(levels[0].rest, None), Some(levels[0].above))
    ensures ToVisit(n, levels) == [n.id] + ToVisit(n, levels)[1..]
    ensures n.kids == [] ==> ToVisit(n, levels)[1..] == Ahead(levels)
  {
    EmptyPreorder();
  }
}
