/** The order in which the reference model applies the stores of one cycle. */
module StoreOrder {
  import opened Word
  import opened Memory

  predicate Leq(a: Store, b: Store) {
    a.addr < b.addr || (a.addr == b.addr && (a.mask < b.mask || (a.mask == b.mask && a.data <= b.data)))
  }

  predicate Sorted(s: seq<Store>) { forall i, j | 0 <= i < j < |s| :: Leq(s[i], s[j]) }

  function Insert(x: Store, s: seq<Store>): (r: seq<Store>)
    requires Sorted(s)
    ensures Sorted(r) && multiset(r) == multiset(s) + multiset{x}
  {
    if s == [] then [x]
    else if Leq(x, s[0]) then [x] + s
    else
      var rest := Insert(x, s[1..]);
      InsertBack(x, s, rest);
      [s[0]] + rest
  }

  lemma InsertBack(x: Store, s: seq<Store>, rest: seq<Store>)
    requires Sorted(s) && s != [] && !Leq(x, s[0])
    requires Sorted(rest) && multiset(rest) == multiset(s[1..]) + multiset{x}
    ensures Sorted([s[0]] + rest) && multiset([s[0]] + rest) == multiset(s) + multiset{x}
  {
    forall j | 0 <= j < |rest| ensures Leq(s[0], rest[j]) {
      assert rest[j] in multiset(rest);
      if rest[j] != x {
        assert rest[j] in s[1..];
      }
    }
    assert s == [s[0]] + s[1..];
  }

  /** What `std::sort` leaves: the sorted rearrangement of the transactions. */
  function Sort(s: seq<Store>): (r: seq<Store>)
    ensures Sorted(r) && multiset(r) == multiset(s)
  {
    if s == [] then []
    else
      assert s == s[..|s| - 1] + [s[|s| - 1]];
      Insert(s[|s| - 1], Sort(s[..|s| - 1]))
  }

  lemma SplitHead<T>(s: seq<T>)
    requires s != []
    ensures s == [s[0]] + s[1..]
    ensures multiset(s[1..]) == multiset(s) - multiset{s[0]}
  {
    assert s == [s[0]] + s[1..];
  }

  lemma SameSize<T>(a: seq<T>, b: seq<T>)
    requires multiset(a) == multiset(b)
    ensures |a| == |b|
  {
    assert |multiset(a)| == |a| && |multiset(b)| == |b|;
  }

  lemma SameHead(a: seq<Store>, b: seq<Store>)
    requires Sorted(a) && Sorted(b) && multiset(a) == multiset(b) && a != [] && b != []
    ensures a[0] == b[0]
  {
    assert a[0] in multiset(b) && b[0] in multiset(a);
  }

  /** There is only one sorted rearrangement, so the order of arrival cannot matter. */
  lemma {:induction false} SortedUnique(a: seq<Store>, b: seq<Store>)
    requires Sorted(a) && Sorted(b) && multiset(a) == multiset(b)
    ensures a == b
  {
    hide Leq;
    SameSize(a, b);
    if a != [] {
      SameHead(a, b);
      SplitHead(a);
      SplitHead(b);
      SortedUnique(a[1..], b[1..]);
    }
  }

  function ApplyStores(m: Mem, s: seq<Store>): (r: Mem)
    ensures |r| == |m|
  {
    if s == [] then m else StoreRef(ApplyStores(m, s[..|s| - 1]), s[|s| - 1])
  }

  /** The store writes the byte at offset i of a memory of the given size. */
  predicate Dirties(size: nat, s: Store, i: nat) {
    i < size && 0 <= i + MBASE - s.addr < 4 && MaskBit(s.mask, i + MBASE - s.addr)
  }

  predicate DirtiesAny(size: nat, stores: seq<Store>, i: nat) {
    exists k | 0 <= k < |stores| :: Dirties(size, stores[k], i)
  }

  // ---- Sorting keeps track of who stored --------------------------------------------------

  type Owned = (Store, nat)

  function Firsts(p: seq<Owned>): (r: seq<Store>)
    ensures |r| == |p| && forall i | 0 <= i < |p| :: r[i] == p[i].0
  {
    seq(|p|, i requires 0 <= i < |p| => p[i].0)
  }

  predicate DistinctOwners(p: seq<Owned>) { forall i, j | 0 <= i < j < |p| :: p[i].1 != p[j].1 }

  /** Taking out entry i. */
  function Without<T>(p: seq<T>, i: nat): (r: seq<T>)
    requires i < |p|
    ensures |r| == |p| - 1
  {
    p[..i] + p[i + 1..]
  }

  lemma WithoutParts<T>(p: seq<T>, i: nat)
    requires i < |p|
    ensures multiset(p) == multiset(Without(p, i)) + multiset{p[i]}
  {
    assert p == p[..i] + [p[i]] + p[i + 1..];
  }

  lemma WithoutFirsts(p: seq<Owned>, i: nat)
    requires i < |p|
    ensures Firsts(Without(p, i)) == Without(Firsts(p), i)
  {
  }

  lemma WithoutDistinct(p: seq<Owned>, i: nat)
    requires i < |p| && DistinctOwners(p)
    ensures DistinctOwners(Without(p, i))
    ensures forall x | x in Without(p, i) :: x.1 != p[i].1
  {
  }

  /** The transactions in application order, each still with the core that made it. */
  lemma {:induction false} MoveOwners(p: seq<Owned>, sorted: seq<Store>) returns (q: seq<Owned>)
    requires multiset(Firsts(p)) == multiset(sorted) && DistinctOwners(p)
    ensures Firsts(q) == sorted && multiset(q) == multiset(p) && DistinctOwners(q)
    decreases |sorted|
  {
    SameSize(Firsts(p), sorted);
    if sorted == [] {
      q := [];
      assert p == [];
    } else {
      var i := FindFirst(p, sorted[0]);
      WithoutParts(p, i);
      WithoutParts(Firsts(p), i);
      WithoutFirsts(p, i);
      WithoutDistinct(p, i);
      SplitHead(sorted);
      var tail := MoveOwners(Without(p, i), sorted[1..]);
      q := [p[i]] + tail;
      PutBack(Without(p, i), tail, p[i]);
    }
  }

  lemma FindFirst(p: seq<Owned>, x: Store) returns (i: nat)
    requires x in multiset(Firsts(p))
    ensures i < |p| && p[i].0 == x
  {
    assert x in Firsts(p);
    i :| 0 <= i < |p| && Firsts(p)[i] == x;
  }

  lemma PutBack(rest: seq<Owned>, tail: seq<Owned>, x: Owned)
    requires multiset(tail) == multiset(rest) && DistinctOwners(tail) && forall y | y in rest :: y.1 != x.1
    ensures multiset([x] + tail) == multiset(rest) + multiset{x}
    ensures DistinctOwners([x] + tail) && Firsts([x] + tail) == [x.0] + Firsts(tail)
  {
    forall j | 0 <= j < |tail| ensures tail[j].1 != x.1 {
      assert tail[j] in multiset(tail);
      assert tail[j] in multiset(rest);
    }
  }
}
