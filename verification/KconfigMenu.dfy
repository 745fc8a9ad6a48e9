/** The restructuring of the menu tree (`menu_finalize` of tools/kconfig/menu.c): automatic submenus
    and the flattening of entries without a prompt, on trees. */
module KconfigMenu {
  import opened Word

  /** A menu entry with the entries below it. */
  datatype Node = Node(id: nat, kids: seq<Node>)

  type Forest = seq<Node>

  /** What decides the restructuring: which entries are symbols, which have a prompt, and which entry
      goes under which symbol. */
  datatype Facts = Facts(symbol: nat -> bool, prompted: nat -> bool, joins: (nat, nat) -> bool)

  /** The entries in the order a reader meets them. */
  function Preorder(f: Forest): seq<nat> {
    if f == [] then [] else [f[0].id] + Preorder(f[0].kids) + Preorder(f[1..])
  }

  lemma Assoc(a: seq<nat>, b: seq<nat>, c: seq<nat>)
    ensures a + (b + c) == a + b + c
  {
  }

  lemma {:induction false} PreorderAppend(f: Forest, g: Forest)
    ensures Preorder(f + g) == Preorder(f) + Preorder(g)
  {
    if f == [] {
      assert f + g == g;
    } else {
      PreorderAppend(f[1..], g);
      assert (f + g)[1..] == f[1..] + g;
      Assoc([f[0].id] + Preorder(f[0].kids), Preorder(f[1..]), Preorder(g));
    }
  }

  lemma {:induction false} PreorderNode(n: Node, rest: Forest)
    ensures Preorder([n] + rest) == [n.id] + Preorder(n.kids) + Preorder(rest)
  {
    assert ([n] + rest)[1..] == rest;
  }

  function Count(f: Forest): nat { if f == [] then 0 else 1 + Count(f[0].kids) + Count(f[1..]) }

  lemma {:induction false} CountAppend(f: Forest, g: Forest)
    ensures Count(f + g) == Count(f) + Count(g)
  {
    if f == [] {
      assert f + g == g;
    } else {
      CountAppend(f[1..], g);
      assert (f + g)[1..] == f[1..] + g;
    }
  }

  /** An entry without a prompt hands its children to the level it is on, right behind itself. */
  function Flatten(x: Facts, f: Forest): (r: Forest)
    ensures Count(r) == Count(f)
    decreases Count(f)
  {
    if f == [] then []
    else if f[0].kids != [] && !x.prompted(f[0].id) then
      CountAppend(f[0].kids, f[1..]);
      [Node(f[0].id, [])] + Flatten(x, f[0].kids + f[1..])
    else
      [f[0]] + Flatten(x, f[1..])
  }

  lemma {:induction false} FlattenKeeps(x: Facts, f: Forest)
    ensures Preorder(Flatten(x, f)) == Preorder(f)
    decreases Count(f)
  {
    if f == [] {
    } else if f[0].kids != [] && !x.prompted(f[0].id) {
      CountAppend(f[0].kids, f[1..]);
      PreorderAppend(f[0].kids, f[1..]);
      FlattenKeeps(x, f[0].kids + f[1..]);
      PreorderNode(Node(f[0].id, []), Flatten(x, f[0].kids + f[1..]));
      Assoc([f[0].id], Preorder(f[0].kids), Preorder(f[1..]));
      assert [f[0].id] + [] == [f[0].id];
    } else {
      FlattenKeeps(x, f[1..]);
      PreorderNode(f[0], Flatten(x, f[1..]));
    }
  }

  /** `menu_finalize` on an entry and the siblings behind it: the entry as it ends up, the siblings left
      over, and the entries the function was called for, in order. */
  function Finalize(x: Facts, n: Node, rest: Forest): (r: (Node, Forest, seq<nat>))
    ensures Count(r.0.kids) + Count(r.1) == Count(n.kids) + Count(rest) && r.0.id == n.id
    decreases Count(n.kids) + Count(rest), 2
  {
    if n.kids != [] then
      var kids := FinalizeAll(x, n.kids);
      (Node(n.id, Flatten(x, kids.0)), rest, [n.id] + kids.1)
    else if x.symbol(n.id) then
      var taken := Absorb(x, n.id, rest);
      (Node(n.id, Flatten(x, taken.0)), taken.1, [n.id] + taken.2)
    else (n, rest, [n.id])
  }

  /** The loop over the children of an entry. */
  function FinalizeAll(x: Facts, f: Forest): (r: (Forest, seq<nat>))
    ensures Count(r.0) == Count(f)
    decreases Count(f), 1
  {
    if f == [] then ([], [])
    else
      var head := Finalize(x, f[0], f[1..]);
      var tail := FinalizeAll(x, head.1);
      ([head.0] + tail.0, head.2 + tail.1)
  }

  /** The siblings that become an automatic submenu of `owner`, and those that stay. */
  function Absorb(x: Facts, owner: nat, rest: Forest): (r: (Forest, Forest, seq<nat>))
    ensures Count(r.0) + Count(r.1) == Count(rest)
    decreases Count(rest), 1
  {
    if rest == [] || !x.joins(owner, rest[0].id) then ([], rest, [])
    else
      var head := Finalize(x, rest[0], rest[1..]);
      var more := Absorb(x, owner, head.1);
      ([head.0] + more.0, more.1, head.2 + more.2)
  }

  lemma {:induction false} FinalizeKeeps(x: Facts, n: Node, rest: Forest)
    ensures var r := Finalize(x, n, rest);
            && [n.id] + Preorder(r.0.kids) + Preorder(r.1) == [n.id] + Preorder(n.kids) + Preorder(rest)
            && r.2 + Preorder(r.1) == [n.id] + Preorder(n.kids) + Preorder(rest)
    decreases Count(n.kids) + Count(rest), 2
  {
    hide Preorder, Flatten, FinalizeAll, Absorb, Count;
    if n.kids != [] {
      NonEmptyCount(n.kids);
      FinalizeAllKeeps(x, n.kids);
      FlattenKeeps(x, FinalizeAll(x, n.kids).0);
    } else {
      EmptyPreorder();
      if x.symbol(n.id) {
        AbsorbKeeps(x, n.id, rest);
        var taken := Absorb(x, n.id, rest);
        FlattenKeeps(x, taken.0);
        Assoc([n.id], Preorder(taken.0), Preorder(taken.1));
        Assoc([n.id], taken.2, Preorder(taken.1));
        assert [n.id] + [] == [n.id];
      }
    }
  }

  lemma {:induction false} NonEmptyCount(f: Forest)
    ensures f != [] ==> Count(f) >= 1
    ensures f != [] ==> Count(f) == 1 + Count(f[0].kids) + Count(f[1..])
  {
  }

  lemma EmptyPreorder()
    ensures Preorder([]) == [] && Count([]) == 0
  {
  }

  lemma {:induction false} FinalizeAllKeeps(x: Facts, f: Forest)
    ensures Preorder(FinalizeAll(x, f).0) == Preorder(f) == FinalizeAll(x, f).1
    decreases Count(f), 1
  {
    hide Preorder, Finalize, Count;
    EmptyPreorder();
    if f != [] {
      NonEmptyCount(f);
      assert f == [f[0]] + f[1..];
      PreorderNode(f[0], f[1..]);
      var head := Finalize(x, f[0], f[1..]);
      FinalizeKeeps(x, f[0], f[1..]);
      FinalizeAllKeeps(x, head.1);
      PreorderNode(head.0, FinalizeAll(x, head.1).0);
    }
  }

  lemma {:induction false} AbsorbKeeps(x: Facts, owner: nat, rest: Forest)
    ensures var r := Absorb(x, owner, rest);
            Preorder(r.0) + Preorder(r.1) == Preorder(rest) && r.2 + Preorder(r.1) == Preorder(rest)
    decreases Count(rest), 1
  {
    hide Preorder, Finalize, Count;
    EmptyPreorder();
    if rest == [] || !x.joins(owner, rest[0].id) {
      assert [] + Preorder(rest) == Preorder(rest);
    } else {
      NonEmptyCount(rest);
      assert rest == [rest[0]] + rest[1..];
      PreorderNode(rest[0], rest[1..]);
      var head := Finalize(x, rest[0], rest[1..]);
      FinalizeKeeps(x, rest[0], rest[1..]);
      var more := Absorb(x, owner, head.1);
      AbsorbKeeps(x, owner, head.1);
      PreorderNode(head.0, more.0);
      Assoc([head.0.id] + Preorder(head.0.kids), Preorder(more.0), Preorder(more.1));
      Assoc(head.2, more.2, Preorder(more.1));
    }
  }

  /** The whole tree, finalized from the root. */
  function FinalizeTree(x: Facts, root: Node): Node { Finalize(x, root, []).0 }

  lemma PreorderOne(n: Node)
    ensures Preorder([n]) == [n.id] + Preorder(n.kids)
  {
    PreorderNode(n, []);
    assert [n] + [] == [n] && [n.id] + Preorder(n.kids) + [] == [n.id] + Preorder(n.kids);
  }

  /** Restructuring keeps the preorder of the entries, whatever the dependencies say, and the function
      is called exactly once for every entry, in that very order. */
  lemma {:induction false} TreeKeepsPreorder(x: Facts, root: Node)
    ensures Preorder([FinalizeTree(x, root)]) == Preorder([root])
    ensures Finalize(x, root, []).2 == Preorder([root])
    ensures FinalizeTree(x, root).id == root.id && Finalize(x, root, []).1 == []
  {
    hide Finalize, Preorder;
    var r := Finalize(x, root, []);
    FinalizeKeeps(x, root, []);
    RootKeepsRest(x, root);
    EmptyPreorder();
    PreorderOne(r.0);
    PreorderOne(root);
    assert r.2 + [] == r.2;
    assert [root.id] + Preorder(r.0.kids) + [] == [root.id] + Preorder(r.0.kids);
    assert [root.id] + Preorder(root.kids) + [] == [root.id] + Preorder(root.kids);
  }

  lemma {:induction false} RootKeepsRest(x: Facts, root: Node)
    ensures Finalize(x, root, []).1 == []
  {
    if root.kids == [] && x.symbol(root.id) {
      assert Absorb(x, root.id, []).1 == [];
    }
  }

  /** No entry without a prompt keeps children on a flattened level. */
  lemma {:induction false} FlattenedPrompts(x: Facts, f: Forest)
    ensures forall k | 0 <= k < |Flatten(x, f)| :: Flatten(x, f)[k].kids != [] ==> x.prompted(Flatten(x, f)[k].id)
    decreases Count(f)
  {
    if f == [] {
    } else if f[0].kids != [] && !x.prompted(f[0].id) {
      CountAppend(f[0].kids, f[1..]);
      FlattenedPrompts(x, f[0].kids + f[1..]);
    } else {
      FlattenedPrompts(x, f[1..]);
    }
  }
}
