/**
 Deleting an item: `mdb_cursor_del0`, and `mdb_rebalance`, which moves a node from a
 neighbour (`mdb_node_move`) or merges two pages (`mdb_page_merge`) and then looks at
 the parent page, up to the root.
 */
module BTreeDelete {
  import opened PageSplit
  import opened BTree
  import opened BTreePut

  /** The page after the deletion below it; `check` says that it lost a node itself and
      is to be looked at by `mdb_rebalance`. */
  datatype DelResult = DelResult(tree: Tree, check: bool)

  /** Two neighbours and the separator between them. */
  datatype Pair = Pair(left: Tree, sep: int, right: Tree)

  predicate IsUnderfull(env: Env, t: Tree)
    requires env.Valid()
  {
    Underfull(Used(env, t), NumKeys(t), MinKeys(t), env.PMax())
  }

  predicate Lends(env: Env, t: Tree)
    requires env.Valid()
  {
    CanLend(Used(env, t), NumKeys(t), MinKeys(t), env.PMax())
  }

  /** `mdb_page_search_lowest`: the key that slot 0 of a branch page does not store. */
  function Lowest(t: Tree): int
    decreases t
  {
    match t
    case Leaf(items) => if items == [] then 0 else items[0].key
    case Branch(_, kids) => if kids == [] then 0 else Lowest(kids[0])
  }

  /** Two pages of the same kind and depth, in shape to be merged. */
  predicate Alike(a: Tree, b: Tree) {
    match a
    case Leaf(_) => b.Leaf?
    case Branch(s, k) => b.Branch? && |s| == |k| > 0 && |b.seps| == |b.kids| > 0
  }

  /** `mdb_page_merge`: the nodes of `b` after those of `a`. */
  function Join(a: Tree, b: Tree): (c: Tree)
    requires Alike(a, b)
    ensures Alike(a, c) && NumKeys(c) == NumKeys(a) + NumKeys(b)
  {
    match a
    case Leaf(items) => Leaf(items + b.items)
    case Branch(seps, kids) => Branch(seps + [Key(Lowest(b))] + b.seps[1..], kids + b.kids)
  }

  /** `mdb_node_move` of the first node of `b` to the end of `a`. */
  function ShiftLeft(a: Tree, b: Tree): Pair
    requires Alike(a, b) && NumKeys(b) > MinKeys(b)
  {
    match a
    case Leaf(items) => Pair(Leaf(items + [b.items[0]]), b.items[1].key, Leaf(b.items[1..]))
    case Branch(seps, kids) =>
      Pair(Branch(seps + [Key(Lowest(b))], kids + [b.kids[0]]),
           if b.seps[1].Key? then b.seps[1].k else 0,
           Branch([NoKey] + b.seps[2..], b.kids[1..]))
  }

  /** `mdb_node_move` of the last node of `a` to the front of `b`. */
  function ShiftRight(a: Tree, b: Tree): Pair
    requires Alike(a, b) && NumKeys(a) > MinKeys(a)
  {
    var n := NumKeys(a) - 1;
    match a
    case Leaf(items) => Pair(Leaf(items[..n]), items[n].key, Leaf([items[n]] + b.items))
    case Branch(seps, kids) =>
      Pair(Branch(seps[..n], kids[..n]),
           if seps[n].Key? then seps[n].k else 0,
           Branch([NoKey, Key(Lowest(b))] + b.seps[1..], [kids[n]] + b.kids))
  }

  /** `mdb_rebalance` for child `i`: its neighbour is the one on the left, or for the
      first child the one on the right. */
  function Rebalance(env: Env, seps: seq<Sep>, kids: seq<Tree>, i: nat): DelResult
    requires env.Valid() && |seps| == |kids| > 1 && i < |kids|
  {
    var j := if i == 0 then 0 else i - 1;
    var a, b := kids[j], kids[j + 1];
    if !Alike(a, b) then DelResult(Branch(seps, kids), false)
    else if Lends(env, if i == 0 then b else a) then
      var p := if i == 0 then ShiftLeft(a, b) else ShiftRight(a, b);
      DelResult(Branch(seps[j + 1 := Key(p.sep)], kids[j := p.left][j + 1 := p.right]), false)
    else
      DelResult(Branch(seps[..j + 1] + seps[j + 2..], kids[..j] + [Join(a, b)] + kids[j + 2..]), true)
  }

  function DelTree(env: Env, t: Tree, k: int): DelResult
    requires env.Valid()
    decreases t
  {
    match t
    case Leaf(items) => DelResult(Leaf(Remove(items, k)), true)
    case Branch(seps, kids) =>
      if |seps| != |kids| || |kids| < 2 then DelResult(t, false) else
      var i := ChildIndex(seps, k);
      var r := DelTree(env, kids[i], k);
      var kids' := kids[i := r.tree];
      if r.check && IsUnderfull(env, r.tree) then Rebalance(env, seps, kids', i)
      else DelResult(Branch(seps, kids'), false)
  }

  // --- Bounds can move ---------------------------------------------------------------------

  lemma {:induction false} LowestIs(env: Env, t: Tree, lo: int, hi: int, d: nat)
    requires env.Valid() && Wf(env, t, lo, hi, d)
    ensures Items(t) != [] && Lowest(t) == Items(t)[0].key && lo <= Lowest(t) < hi
    decreases t
  {
    hide Sorted;
    PageItems(env, t, lo, hi, d);
    match t
    case Leaf(_) =>
    case Branch(seps, kids) =>
      BranchParts(env, seps, kids, lo, hi, d);
      assert Wf(env, kids[0], Bound(seps, 0, lo, hi), Bound(seps, 1, lo, hi), d - 1);
      LowestIs(env, kids[0], Bound(seps, 0, lo, hi), Bound(seps, 1, lo, hi), d - 1);
  }

  /** The lower bound of a tree can be raised up to its lowest key or lowered, and the
      upper bound can be raised. */
  lemma {:induction false} Rebound(env: Env, t: Tree, lo: int, hi: int, lo2: int, hi2: int, d: nat)
    requires env.Valid() && Wf(env, t, lo, hi, d) && lo2 <= Lowest(t) && hi <= hi2
    ensures Wf(env, t, lo2, hi2, d)
    decreases t, 1
  {
    match t
    case Leaf(items) =>
      assert forall i :: 0 <= i < |items| ==> items[0].key <= items[i].key;
    case Branch(seps, kids) => ReboundKids(env, seps, kids, lo, hi, lo2, hi2, d - 1);
  }

  lemma {:induction false} ReboundKids(env: Env, seps: seq<Sep>, kids: seq<Tree>, lo: int, hi: int, lo2: int,
          hi2: int, d: nat)
    requires env.Valid() && kids != [] && |seps| == |kids| && Seps(seps, lo, hi) && KidsWf(env, seps, kids, lo, hi, d)
    requires lo2 <= Lowest(kids[0]) && hi <= hi2
    ensures Seps(seps, lo2, hi2) && KidsWf(env, seps, kids, lo2, hi2, d)
    decreases kids, 0
  {
    assert Wf(env, kids[0], Bound(seps, 0, lo, hi), Bound(seps, 1, lo, hi), d);
    LowestIs(env, kids[0], Bound(seps, 0, lo, hi), Bound(seps, 1, lo, hi), d);
    ReboundSeps(seps, lo, hi, lo2, hi2);
    forall i | 0 <= i < |kids| ensures Wf(env, kids[i], Bound(seps, i, lo2, hi2), Bound(seps, i + 1, lo2, hi2), d) {
      var l, h := Bound(seps, i, lo, hi), Bound(seps, i + 1, lo, hi);
      var l2, h2 := Bound(seps, i, lo2, hi2), Bound(seps, i + 1, lo2, hi2);
      assert Wf(env, kids[i], l, h, d);
      LowestIs(env, kids[i], l, h, d);
      Rebound(env, kids[i], l, h, l2, h2, d);
    }
  }

  lemma ReboundSeps(seps: seq<Sep>, lo: int, hi: int, lo2: int, hi2: int)
    requires Seps(seps, lo, hi) && lo2 < Bound(seps, 1, lo, hi) && hi <= hi2
    ensures Seps(seps, lo2, hi2)
    ensures forall i: int :: 0 < i ==> Bound(seps, i, lo, hi) <= Bound(seps, i, lo2, hi2)
    ensures forall i: int :: 0 < i < |seps| ==> Bound(seps, i, lo, hi) == Bound(seps, i, lo2, hi2)
  {
  }

  // --- Joining and cutting pages of either kind ----------------------------------------------

  /** A page in order, whatever its size and number of nodes. */
  ghost predicate Ordered(env: Env, t: Tree, lo: int, hi: int, d: nat)
    requires env.Valid()
  {
    match t
    case Leaf(items) => d == 1 && Sorted(items) && InRange(items, lo, hi)
    case Branch(seps, kids) => d > 1 && |seps| == |kids| && Seps(seps, lo, hi) && KidsWf(env, seps, kids, lo, hi, d - 1)
  }

  lemma PageIs(env: Env, t: Tree, lo: int, hi: int, d: nat)
    requires env.Valid()
    ensures Page(env, t, lo, hi, d) <==> Ordered(env, t, lo, hi, d) && Used(env, t) <= env.PMax()
  {
  }

  /** Nodes `m` and up of a page, as a page of their own. */
  function Tail(t: Tree, m: nat): Tree
    requires m < NumKeys(t) && (t.Branch? ==> |t.seps| == |t.kids|)
  {
    match t
    case Leaf(items) => Leaf(items[m..])
    case Branch(seps, kids) => Branch(DropSeps(seps, m), kids[m..])
  }

  function Head(t: Tree, m: nat): Tree
    requires m < NumKeys(t) && (t.Branch? ==> |t.seps| == |t.kids|)
  {
    match t
    case Leaf(items) => Leaf(items[..m])
    case Branch(seps, kids) => Branch(seps[..m], kids[..m])
  }

  function KeyAt(t: Tree, m: nat): int
    requires m < NumKeys(t) && (t.Branch? ==> |t.seps| == |t.kids|)
  {
    match t
    case Leaf(items) => items[m].key
    case Branch(seps, kids) => if seps[m].Key? then seps[m].k else 0
  }

  lemma CutOrdered(env: Env, t: Tree, lo: int, hi: int, d: nat, m: nat)
    requires env.Valid() && Ordered(env, t, lo, hi, d) && 0 < m < NumKeys(t)
    ensures lo <= KeyAt(t, m) <= hi
    ensures Ordered(env, Head(t, m), lo, KeyAt(t, m), d) && Ordered(env, Tail(t, m), KeyAt(t, m), hi, d)
    ensures Items(Head(t, m)) + Items(Tail(t, m)) == Items(t)
  {
    match t
    case Leaf(items) =>
      assert items == items[..m] + items[m..];
    case Branch(seps, kids) =>
      CutKids(env, seps, kids, lo, hi, d - 1, m);
      FlatConcat(kids[..m], kids[m..]);
      assert kids == kids[..m] + kids[m..];
  }

  lemma JoinOrdered(env: Env, a: Tree, b: Tree, lo: int, mid: int, hi: int, d: nat)
    requires env.Valid() && Ordered(env, a, lo, mid, d) && Ordered(env, b, mid, hi, d) && Alike(a, b) && lo <= mid <= hi
    ensures Ordered(env, Join(a, b), lo, hi, d) && Items(Join(a, b)) == Items(a) + Items(b)
  {
    match a
    case Leaf(items) =>
      SortedConcat(items, b.items, lo, mid, hi);
    case Branch(seps, kids) =>
      var k := Lowest(b);
      assert Wf(env, b.kids[0], Bound(b.seps, 0, mid, hi), Bound(b.seps, 1, mid, hi), d - 1);
      LowestIs(env, b.kids[0], mid, Bound(b.seps, 1, mid, hi), d - 1);
      assert Wf(env, kids[0], Bound(seps, 0, lo, mid), Bound(seps, 1, lo, mid), d - 1);
      LowestIs(env, kids[0], lo, Bound(seps, 1, lo, mid), d - 1);
      BoundsOrdered(b.seps, 1, |b.seps|, mid, hi);
      ReboundKids(env, b.seps, b.kids, mid, hi, k, hi, d - 1);
      ReboundKids(env, seps, kids, lo, mid, lo, k, d - 1);
      JoinKids(env, seps, kids, b.seps, b.kids, lo, k, hi, d - 1);
      FlatConcat(kids, b.kids);
  }

  function CutAt(t: Tree, m: nat): Pair
    requires m < NumKeys(t) && (t.Branch? ==> |t.seps| == |t.kids|)
  {
    Pair(Head(t, m), KeyAt(t, m), Tail(t, m))
  }

  /** Moving one node is joining the pages and cutting them elsewhere. */
  lemma ShiftLeftIsCut(a: Tree, b: Tree)
    requires Alike(a, b) && NumKeys(b) > MinKeys(b)
    ensures ShiftLeft(a, b) == CutAt(Join(a, b), NumKeys(a) + 1)
  {
    hide Lowest;
    var c, m := Join(a, b), NumKeys(a) + 1;
    match a
    case Leaf(items) =>
      assert c.items[..m] == items + [b.items[0]] && c.items[m..] == b.items[1..];
    case Branch(seps, kids) =>
      assert c.seps[..m] == seps + [Key(Lowest(b))] && c.kids[..m] == kids + [b.kids[0]];
      assert c.seps[m + 1..] == b.seps[2..] && c.kids[m..] == b.kids[1..];
  }

  lemma ShiftRightIsCut(a: Tree, b: Tree)
    requires Alike(a, b) && NumKeys(a) > MinKeys(a)
    ensures ShiftRight(a, b) == CutAt(Join(a, b), NumKeys(a) - 1)
  {
    hide Lowest;
    var c, m := Join(a, b), NumKeys(a) - 1;
    match a
    case Leaf(items) =>
      assert c.items[..m] == items[..m] && c.items[m..] == [items[m]] + b.items;
    case Branch(seps, kids) =>
      assert c.seps[..m] == seps[..m] && c.kids[..m] == kids[..m];
      assert c.kids[m..] == [kids[m]] + b.kids;
      assert DropSeps(c.seps, m) == [NoKey, Key(Lowest(b))] + b.seps[1..];
  }

  // --- Sizes -----------------------------------------------------------------------------------

  lemma LeafHalves(env: Env, items: seq<Item>)
    requires env.Valid()
    ensures forall i :: 0 <= i < |items| ==> 2 * LeafSizes(env, items)[i] <= env.PMax()
  {
  }

  /** A merge that `mdb_rebalance` decides on fits on one page. */
  lemma MergeFits(env: Env, a: Tree, b: Tree)
    requires env.Valid() && Alike(a, b)
    requires (IsUnderfull(env, a) && !Lends(env, b)) || (IsUnderfull(env, b) && !Lends(env, a))
    ensures Used(env, Join(a, b)) <= env.PMax()
  {
    hide PageFill;
    match a
    case Leaf(items) =>
      LeafSizesConcat(env, items, b.items);
      LeafHalves(env, items);
      LeafHalves(env, b.items);
      if IsUnderfull(env, a) && !Lends(env, b) {
        LeafMergeFits(LeafSizes(env, items), LeafSizes(env, b.items), env.PMax());
      } else {
        LeafMergeFits(LeafSizes(env, b.items), LeafSizes(env, items), env.PMax());
      }
    case Branch(seps, kids) =>
      if IsUnderfull(env, a) && !Lends(env, b) {
        BranchMergeFits(env, |kids|, |b.kids|);
      } else {
        BranchMergeFits(env, |b.kids|, |kids|);
      }
  }

  /** One more node fits on an underfull branch page, even while slot 0 still has a key. */
  lemma BranchBorrowFits(env: Env, n: nat)
    requires env.Valid() && n > 0 && Underfull(BranchUsed(env, n), n, 2, env.PMax())
    ensures BranchUsed(env, n + 1) + BranchSize(env, false) - BranchSize(env, true) <= env.PMax()
  {
    var b := BranchSize(env, false);
    BelowThreshold(BranchUsed(env, n), env.PMax());
    assert BranchUsed(env, n + 1) == BranchUsed(env, n) + b by { assert n * b == (n - 1) * b + b; }
    assert n == 1 ==> BranchUsed(env, n) == 10;
  }

  lemma LeafBorrowFits(env: Env, a: seq<Item>, x: Item, rest: seq<Item>)
    requires env.Valid() && Underfull(LeafUsed(env, a), |a|, 1, env.PMax())
    ensures LeafUsed(env, a + [x]) <= env.PMax() && LeafUsed(env, [x] + a) <= env.PMax()
    ensures LeafUsed(env, rest) <= LeafUsed(env, rest + [x]) && LeafUsed(env, rest) <= LeafUsed(env, [x] + rest)
  {
    hide Sum, PageFill;
    BorrowFits(env, LeafSizes(env, a), InNode(env, x.val));
    LeafUsedOne(env, x);
    LeafSizesConcat(env, a, [x]);
    LeafSizesConcat(env, [x], a);
    LeafSizesConcat(env, rest, [x]);
    LeafSizesConcat(env, [x], rest);
  }

  lemma ShiftLeftFits(env: Env, a: Tree, b: Tree)
    requires env.Valid() && Alike(a, b) && NumKeys(b) > MinKeys(b) && IsUnderfull(env, a) && Used(env, b) <= env.PMax()
    ensures Used(env, ShiftLeft(a, b).left) <= env.PMax() && Used(env, ShiftLeft(a, b).right) <= env.PMax()
  {
    hide PageFill, LeafUsed, BranchUsed;
    match a
    case Leaf(items) =>
      LeafBorrowFits(env, items, b.items[0], b.items[1..]);
      assert b.items == [b.items[0]] + b.items[1..];
    case Branch(seps, kids) =>
      BranchBorrowFits(env, |kids|);
      BranchUsedMonotone(env, |b.kids| - 1, |b.kids|);
  }

  lemma ShiftRightFits(env: Env, a: Tree, b: Tree)
    requires env.Valid() && Alike(a, b) && NumKeys(a) > MinKeys(a) && IsUnderfull(env, b) && Used(env, a) <= env.PMax()
    ensures Used(env, ShiftRight(a, b).left) <= env.PMax() && Used(env, ShiftRight(a, b).right) <= env.PMax()
  {
    hide PageFill, LeafUsed, BranchUsed;
    var n := NumKeys(a) - 1;
    match a
    case Leaf(items) =>
      LeafBorrowFits(env, b.items, items[n], items[..n]);
      assert items == items[..n] + [items[n]];
    case Branch(seps, kids) =>
      BranchBorrowFits(env, |b.kids|);
      BranchUsedMonotone(env, n, n + 1);
  }

  // --- Two neighbours ---------------------------------------------------------------------------

  /** Neighbours `a` and `b`, one of which may have too few nodes. */
  ghost predicate Neighbours(env: Env, a: Tree, b: Tree, lo: int, mid: int, hi: int, d: nat)
    requires env.Valid()
  {
    Page(env, a, lo, mid, d) && Page(env, b, mid, hi, d) && Alike(a, b) && lo <= mid <= hi
  }

  lemma MoveOk(env: Env, a: Tree, b: Tree, lo: int, mid: int, hi: int, d: nat, first: bool)
    requires env.Valid() && Neighbours(env, a, b, lo, mid, hi, d)
    requires if first then IsUnderfull(env, a) && NumKeys(b) > MinKeys(b)
        else IsUnderfull(env, b) && NumKeys(a) > MinKeys(a)
    ensures var p := if first then ShiftLeft(a, b) else ShiftRight(a, b);
      && lo <= p.sep <= hi && Wf(env, p.left, lo, p.sep, d) && Wf(env, p.right, p.sep, hi, d)
      && Items(p.left) + Items(p.right) == Items(a) + Items(b)
  {
    hide Used, IsUnderfull, Items, Ordered;
    PageIs(env, a, lo, mid, d);
    PageIs(env, b, mid, hi, d);
    var p := if first then ShiftLeft(a, b) else ShiftRight(a, b);
    var m := if first then NumKeys(a) + 1 else NumKeys(a) - 1;
    JoinOrdered(env, a, b, lo, mid, hi, d);
    CutOrdered(env, Join(a, b), lo, hi, d, m);
    if first {
      ShiftLeftIsCut(a, b);
      ShiftLeftFits(env, a, b);
    } else {
      ShiftRightIsCut(a, b);
      ShiftRightFits(env, a, b);
    }
    PageIs(env, p.left, lo, p.sep, d);
    PageIs(env, p.right, p.sep, hi, d);
  }

  lemma MergeOk(env: Env, a: Tree, b: Tree, lo: int, mid: int, hi: int, d: nat)
    requires env.Valid() && Neighbours(env, a, b, lo, mid, hi, d)
    requires (IsUnderfull(env, a) && !Lends(env, b)) || (IsUnderfull(env, b) && !Lends(env, a))
    requires NumKeys(a) + NumKeys(b) >= MinKeys(a)
    ensures Wf(env, Join(a, b), lo, hi, d) && Items(Join(a, b)) == Items(a) + Items(b)
  {
    hide Used, IsUnderfull, Lends, Items, Ordered;
    PageIs(env, a, lo, mid, d);
    PageIs(env, b, mid, hi, d);
    JoinOrdered(env, a, b, lo, mid, hi, d);
    MergeFits(env, a, b);
    PageIs(env, Join(a, b), lo, hi, d);
  }

  // --- The parent ---------------------------------------------------------------------------------

  /** Children of a page, all in shape but number `i`, which may have too few nodes. */
  ghost predicate KidsBut(env: Env, seps: seq<Sep>, kids: seq<Tree>, i: nat, lo: int, hi: int, d: nat)
    requires env.Valid()
  {
    && |seps| == |kids| && Seps(seps, lo, hi) && i < |kids|
    && (forall m :: 0 <= m < |kids| && m != i ==>
          Wf(env, kids[m], Bound(seps, m, lo, hi), Bound(seps, m + 1, lo, hi), d))
    && Page(env, kids[i], Bound(seps, i, lo, hi), Bound(seps, i + 1, lo, hi), d)
    && (kids[i].Branch? ==> kids[i].kids != [])
  }

  lemma NeighboursIn(env: Env, seps: seq<Sep>, kids: seq<Tree>, i: nat, j: nat, lo: int, hi: int, d: nat)
    requires env.Valid() && KidsBut(env, seps, kids, i, lo, hi, d) && j + 1 < |kids| && (i == j || i == j + 1)
    ensures Neighbours(env, kids[j], kids[j + 1],
      Bound(seps, j, lo, hi), Bound(seps, j + 1, lo, hi), Bound(seps, j + 2, lo, hi), d)
    ensures NumKeys(kids[j]) + NumKeys(kids[j + 1]) >= MinKeys(kids[j])
  {
    BoundsOrdered(seps, j, j + 1, lo, hi);
    BoundsOrdered(seps, j + 1, j + 2, lo, hi);
    var k := if i == j then j + 1 else j;
    assert Wf(env, kids[k], Bound(seps, k, lo, hi), Bound(seps, k + 1, lo, hi), d);
  }

  lemma PairMiddle(a: seq<Item>, b: seq<Item>, c: seq<Item>, d: seq<Item>)
    ensures a + b + ([] + c + d) == a + (b + c) + d
  {
    assert [] + c + d == c + d;
  }

  lemma FlatPair(kids: seq<Tree>, j: nat, mid: seq<Tree>)
    requires j + 1 < |kids|
    ensures Flat(kids) == Flat(kids[..j]) + (Items(kids[j]) + Items(kids[j + 1])) + Flat(kids[j + 2..])
    ensures Flat(kids[..j] + mid + kids[j + 2..]) == Flat(kids[..j]) + Flat(mid) + Flat(kids[j + 2..])
  {
    assert Flat([]) == [];
    hide Items, Flat;
    FlatAt(kids, j);
    FlatAt(kids[j + 1..], 0);
    assert kids[j + 1..][0] == kids[j + 1] && kids[j + 1..][1..] == kids[j + 2..] && kids[j + 1..][..0] == [];
    PairMiddle(Flat(kids[..j]), Items(kids[j]), Items(kids[j + 1]), Flat(kids[j + 2..]));
    FlatConcat(kids[..j], mid);
    FlatConcat(kids[..j] + mid, kids[j + 2..]);
  }

  /** Two neighbours exchanged for two others around another separator. */
  lemma ReplacePair(env: Env, seps: seq<Sep>, kids: seq<Tree>, i: nat, j: nat, p: Pair, lo: int, hi: int, d: nat)
    requires env.Valid() && KidsBut(env, seps, kids, i, lo, hi, d) && j + 1 < |kids| && (i == j || i == j + 1)
    requires Bound(seps, j, lo, hi) <= p.sep <= Bound(seps, j + 2, lo, hi)
    requires Wf(env, p.left, Bound(seps, j, lo, hi), p.sep, d) && Wf(env, p.right, p.sep, Bound(seps, j + 2, lo, hi), d)
    requires Items(p.left) + Items(p.right) == Items(kids[j]) + Items(kids[j + 1])
    ensures var s, k := seps[j + 1 := Key(p.sep)], kids[j := p.left][j + 1 := p.right];
      Seps(s, lo, hi) && KidsWf(env, s, k, lo, hi, d) && Flat(k) == Flat(kids)
  {
    hide Wf, Page, Flat, Items;
    var s, k := seps[j + 1 := Key(p.sep)], kids[j := p.left][j + 1 := p.right];
    FlatPair(kids, j, [p.left, p.right]);
    FlatConcat([p.left], [p.right]);
    FlatOne(p.left);
    FlatOne(p.right);
    assert [p.left, p.right] == [p.left] + [p.right] && k == kids[..j] + [p.left, p.right] + kids[j + 2..];
    ReplacedSeps(seps, j + 1, p.sep, lo, hi);
    forall m | 0 <= m < |k| ensures Wf(env, k[m], Bound(s, m, lo, hi), Bound(s, m + 1, lo, hi), d) {
      if m != j && m != j + 1 {
        assert Wf(env, kids[m], Bound(seps, m, lo, hi), Bound(seps, m + 1, lo, hi), d);
      }
    }
  }

  lemma ReplacedSeps(seps: seq<Sep>, i: nat, sep: int, lo: int, hi: int)
    requires Seps(seps, lo, hi) && 0 < i < |seps| && Bound(seps, i - 1, lo, hi) <= sep <= Bound(seps, i + 1, lo, hi)
    ensures Seps(seps[i := Key(sep)], lo, hi)
  {
  }

  /** Two neighbours exchanged for one page, the separator between them gone. */
  lemma MergePair(env: Env, seps: seq<Sep>, kids: seq<Tree>, i: nat, j: nat, c: Tree, lo: int, hi: int, d: nat)
    requires env.Valid() && KidsBut(env, seps, kids, i, lo, hi, d) && j + 1 < |kids| && (i == j || i == j + 1)
    requires Wf(env, c, Bound(seps, j, lo, hi), Bound(seps, j + 2, lo, hi), d)
    requires Items(c) == Items(kids[j]) + Items(kids[j + 1])
    ensures var s, k := seps[..j + 1] + seps[j + 2..], kids[..j] + [c] + kids[j + 2..];
      Seps(s, lo, hi) && KidsWf(env, s, k, lo, hi, d) && Flat(k) == Flat(kids)
  {
    hide Wf, Page, Flat, Items;
    var s, k := seps[..j + 1] + seps[j + 2..], kids[..j] + [c] + kids[j + 2..];
    FlatPair(kids, j, [c]);
    FlatOne(c);
    forall m | 0 <= m < |k| ensures Wf(env, k[m], Bound(s, m, lo, hi), Bound(s, m + 1, lo, hi), d) {
      MergedBounds(seps, j + 1, lo, hi, m);
      MergedBounds(seps, j + 1, lo, hi, m + 1);
      if m < j { assert k[m] == kids[m]; }
      if m > j { assert k[m] == kids[m + 1]; }
    }
  }

  lemma MergedBounds(seps: seq<Sep>, i: nat, lo: int, hi: int, m: nat)
    requires 0 < i < |seps| && m < |seps|
    ensures Bound(seps[..i] + seps[i + 1..], m, lo, hi) == Bound(seps, if m < i then m else m + 1, lo, hi)
  {
  }

  // --- Rebalancing one child ---------------------------------------------------------------------

  /** `r` is a page with the items `all`; it is left to be checked only if it may have
      too few nodes. */
  ghost predicate Leaves(env: Env, r: DelResult, all: seq<Item>, lo: int, hi: int, d: nat)
    requires env.Valid()
  {
    && Page(env, r.tree, lo, hi, d) && Items(r.tree) == all
    && (!r.check ==> Wf(env, r.tree, lo, hi, d))
    && (r.tree.Branch? ==> r.tree.kids != [])
  }

  lemma RebalanceOk(env: Env, seps: seq<Sep>, kids: seq<Tree>, i: nat, lo: int, hi: int, d: nat)
    requires env.Valid() && d > 0 && KidsBut(env, seps, kids, i, lo, hi, d) && |seps| == |kids| > 1 && i < |kids|
    requires BranchUsed(env, |kids|) <= env.PMax() && IsUnderfull(env, kids[i])
    ensures Leaves(env, Rebalance(env, seps, kids, i), Flat(kids), lo, hi, d + 1)
  {
    hide *;
    var j := if i == 0 then 0 else i - 1;
    NeighboursIn(env, seps, kids, i, j, lo, hi, d);
    if Lends(env, if i == 0 then kids[1] else kids[j]) {
      RebalanceMoves(env, seps, kids, i, j, lo, hi, d);
    } else {
      RebalanceMerges(env, seps, kids, i, j, lo, hi, d);
    }
  }

  lemma RebalanceMoves(env: Env, seps: seq<Sep>, kids: seq<Tree>, i: nat, j: nat, lo: int, hi: int, d: nat)
    requires env.Valid() && d > 0 && KidsBut(env, seps, kids, i, lo, hi, d) && |seps| == |kids| && i < |kids|
    requires j + 1 < |kids| && (if i == 0 then j == 0 else i == j + 1)
    requires Neighbours(env, kids[j], kids[j + 1],
      Bound(seps, j, lo, hi), Bound(seps, j + 1, lo, hi), Bound(seps, j + 2, lo, hi), d)
    requires BranchUsed(env, |kids|) <= env.PMax() && IsUnderfull(env, kids[i])
    requires Lends(env, kids[if i == 0 then 1 else j])
    ensures Leaves(env, Rebalance(env, seps, kids, i), Flat(kids), lo, hi, d + 1)
  {
    hide KidsBut, IsUnderfull, Wf, Page, BranchUsed, Used, Join, ShiftLeft, ShiftRight, Alike, Flat, Items, KidsWf,
      Seps;
    var a, b := kids[j], kids[j + 1];
    MoveOk(env, a, b, Bound(seps, j, lo, hi), Bound(seps, j + 1, lo, hi), Bound(seps, j + 2, lo, hi), d, i == 0);
    var p := if i == 0 then ShiftLeft(a, b) else ShiftRight(a, b);
    ReplacePair(env, seps, kids, i, j, p, lo, hi, d);
    BranchIs(env, seps[j + 1 := Key(p.sep)], kids[j := p.left][j + 1 := p.right], lo, hi, d + 1);
  }

  lemma RebalanceMerges(env: Env, seps: seq<Sep>, kids: seq<Tree>, i: nat, j: nat, lo: int, hi: int, d: nat)
    requires env.Valid() && d > 0 && KidsBut(env, seps, kids, i, lo, hi, d) && |seps| == |kids| && i < |kids|
    requires j + 1 < |kids| && (if i == 0 then j == 0 else i == j + 1)
    requires Neighbours(env, kids[j], kids[j + 1],
      Bound(seps, j, lo, hi), Bound(seps, j + 1, lo, hi), Bound(seps, j + 2, lo, hi), d)
    requires NumKeys(kids[j]) + NumKeys(kids[j + 1]) >= MinKeys(kids[j])
    requires BranchUsed(env, |kids|) <= env.PMax() && IsUnderfull(env, kids[i])
    requires !Lends(env, kids[if i == 0 then 1 else j])
    ensures Leaves(env, Rebalance(env, seps, kids, i), Flat(kids), lo, hi, d + 1)
  {
    hide KidsBut, IsUnderfull, Lends, Wf, Page, BranchUsed, Join, Alike, Flat, Items, KidsWf, Seps;
    var a, b := kids[j], kids[j + 1];
    MergeOk(env, a, b, Bound(seps, j, lo, hi), Bound(seps, j + 1, lo, hi), Bound(seps, j + 2, lo, hi), d);
    MergePair(env, seps, kids, i, j, Join(a, b), lo, hi, d);
    BranchUsedMonotone(env, |kids| - 1, |kids|);
    BranchIs(env, seps[..j + 1] + seps[j + 2..], kids[..j] + [Join(a, b)] + kids[j + 2..], lo, hi, d + 1);
  }

  lemma BranchIs(env: Env, seps: seq<Sep>, kids: seq<Tree>, lo: int, hi: int, d: nat)
    requires env.Valid() && d > 1 && |seps| == |kids| && Seps(seps, lo, hi) && KidsWf(env, seps, kids, lo, hi, d - 1)
    requires BranchUsed(env, |kids|) <= env.PMax()
    ensures Page(env, Branch(seps, kids), lo, hi, d) && Items(Branch(seps, kids)) == Flat(kids)
    ensures |kids| >= 2 ==> Wf(env, Branch(seps, kids), lo, hi, d)
  {
  }

  lemma DelLeafOk(env: Env, items: seq<Item>, k: int, lo: int, hi: int)
    requires env.Valid() && Wf(env, Leaf(items), lo, hi, 1)
    ensures Page(env, Leaf(Remove(items, k)), lo, hi, 1)
  {
    hide Rank, LeafUsed;
    RemoveUsed(env, items, k);
    var r := Remove(items, k);
    assert forall i :: 0 <= i < |r| ==> r[i] == items[if i < Rank(items, k) || r == items then i else i + 1];
  }

  /** The page over a child that changed. */
  lemma DelKidOk(env: Env, seps: seq<Sep>, kids: seq<Tree>, i: nat, r: DelResult, all: seq<Item>, lo: int, hi: int,
          d: nat)
    requires env.Valid() && d > 1 && Wf(env, Branch(seps, kids), lo, hi, d) && i < |kids| == |seps| && |kids| > 1
    requires Leaves(env, r, all, Bound(seps, i, lo, hi), Bound(seps, i + 1, lo, hi), d - 1)
    ensures var u :=
        if r.check && IsUnderfull(env, r.tree) then Rebalance(env, seps, kids[i := r.tree], i)
        else DelResult(Branch(seps, kids[i := r.tree]), false);
      Leaves(env, u, Flat(kids[..i]) + all + Flat(kids[i + 1..]), lo, hi, d)
  {
    hide Rebalance, Flat, Items;
    BranchParts(env, seps, kids, lo, hi, d);
    var kids' := kids[i := r.tree];
    assert kids' == kids[..i] + [r.tree] + kids[i + 1..];
    FlatReplace(kids, i, [r.tree]);
    FlatOne(r.tree);
    if r.check && IsUnderfull(env, r.tree) {
      RebalanceOk(env, seps, kids', i, lo, hi, d - 1);
    } else {
      ReplaceKid(env, seps, kids, i, r.tree, lo, hi, d - 1);
      BranchIs(env, seps, kids', lo, hi, d);
    }
  }

  /** Deleting below a page removes exactly the key and leaves a page in order; all
      pages under it have enough nodes again. */
  lemma {:induction false} DelTreeOk(env: Env, t: Tree, k: int, lo: int, hi: int, d: nat)
    requires env.Valid() && Wf(env, t, lo, hi, d) && lo <= k < hi
    ensures Leaves(env, DelTree(env, t, k), Remove(Items(t), k), lo, hi, d)
    decreases t
  {
    hide Remove, Rebalance;
    match t
    case Leaf(items) =>
      assert d == 1;
      DelLeafOk(env, items, k, lo, hi);
    case Branch(seps, kids) =>
      BranchParts(env, seps, kids, lo, hi, d);
      var i := ChildIndex(seps, k);
      ChildIndexBounds(seps, k, lo, hi);
      var l, h := Bound(seps, i, lo, hi), Bound(seps, i + 1, lo, hi);
      DelTreeOk(env, kids[i], k, l, h, d - 1);
      Around(env, seps, kids, lo, hi, d - 1, i, k);
      MiddleRemove(Flat(kids[..i]), Items(kids[i]), Flat(kids[i + 1..]), k, l, h);
      DelKidOk(env, seps, kids, i, DelTree(env, kids[i], k), Remove(Items(kids[i]), k), lo, hi, d);
  }

  // --- When and how pages are rebalanced ------------------------------------------------------------

  /** A page is below a quarter of its room, or has too few nodes. */
  predicate TooSmall(env: Env, t: Tree)
    requires env.Valid()
  {
    4 * Used(env, t) < env.PMax() || NumKeys(t) < (if t.Branch? then 2 else 1)
  }

  /** A page has a quarter of its room in use, and a node more than it needs. */
  predicate CanSpare(env: Env, t: Tree)
    requires env.Valid()
  {
    4 * Used(env, t) >= env.PMax() && NumKeys(t) > (if t.Branch? then 2 else 1)
  }

  lemma TestsMean(env: Env, t: Tree)
    requires env.Valid()
    ensures IsUnderfull(env, t) <==> TooSmall(env, t)
    ensures Lends(env, t) <==> CanSpare(env, t)
  {
    hide Used;
    BelowThreshold(Used(env, t), env.PMax());
  }

  /** What the rebalancing of child `i` does: a node comes over from the neighbour, or both
      become one page; the other children stay. */
  ghost predicate Rebalanced(env: Env, kids: seq<Tree>, i: nat, r: DelResult)
    requires env.Valid() && i < |kids| && |kids| > 1
  {
    var j := if i == 0 then 1 else i - 1;
    var first := if i == 0 then 0 else i - 1;
    && r.tree.Branch? && r.check == !CanSpare(env, kids[j])
    && var kids' := r.tree.kids;
       if CanSpare(env, kids[j]) then
         && |kids'| == |kids|
         && NumKeys(kids'[i]) == NumKeys(kids[i]) + 1 && NumKeys(kids'[j]) == NumKeys(kids[j]) - 1
         && forall m :: 0 <= m < |kids| && m != i && m != j ==> kids'[m] == kids[m]
       else
         && |kids'| == |kids| - 1 && NumKeys(kids'[first]) == NumKeys(kids[i]) + NumKeys(kids[j])
         && kids'[..first] == kids[..first] && kids'[first + 1..] == kids[first + 2..]
  }

  /** The separator that goes up with a moved node: the lowest key of the right page, and on
      branches the key that the node had there. */
  lemma MovedSep(a: Tree, b: Tree)
    requires Alike(a, b)
    ensures NumKeys(b) > MinKeys(b) ==> var p := ShiftLeft(a, b);
      if a.Leaf? then p.right.items[0].key == p.sep && p.left.items[..|a.items|] == a.items
      else p.left.kids[|a.kids|] == b.kids[0] && (b.seps[1].Key? ==> Key(p.sep) == b.seps[1])
    ensures NumKeys(a) > MinKeys(a) ==> var p := ShiftRight(a, b);
      if a.Leaf? then p.right.items[0].key == p.sep && p.right.items[1..] == b.items
      else p.right.kids[0] == a.kids[|a.kids| - 1] && (a.seps[|a.kids| - 1].Key? ==> Key(p.sep) == a.seps[|a.kids| - 1])
  {
    hide Lowest;
  }

  lemma RebalancedIs(env: Env, seps: seq<Sep>, kids: seq<Tree>, i: nat)
    requires env.Valid() && |seps| == |kids| > 1 && i < |kids|
    requires var j := if i == 0 then 0 else i - 1; Alike(kids[j], kids[j + 1])
    ensures Rebalanced(env, kids, i, Rebalance(env, seps, kids, i))
  {
    hide Lends, Lowest, Used;
    var first, j := if i == 0 then 0 else i - 1, if i == 0 then 1 else i - 1;
    TestsMean(env, kids[j]);
    var r := Rebalance(env, seps, kids, i).tree.kids;
    if CanSpare(env, kids[j]) {
      var p := if i == 0 then ShiftLeft(kids[0], kids[1]) else ShiftRight(kids[first], kids[i]);
      assert NumKeys(p.left) + NumKeys(p.right) == NumKeys(kids[i]) + NumKeys(kids[j]);
    } else {
      assert r[..first] == kids[..first] && r[first + 1..] == kids[first + 2..];
    }
  }

  /** The page a deletion went through is of the kind of its neighbours. */
  lemma DelAlike(env: Env, seps: seq<Sep>, kids: seq<Tree>, k: int, lo: int, hi: int, d: nat)
    requires env.Valid() && Wf(env, Branch(seps, kids), lo, hi, d) && lo <= k < hi && |kids| == |seps| > 1
    ensures var i := ChildIndex(seps, k);
      var kids', j := kids[i := DelTree(env, kids[i], k).tree], if i == 0 then 0 else i - 1;
      Alike(kids'[j], kids'[j + 1])
  {
    hide Remove, Rebalance, DelTree, Items, Alike, Used, IsUnderfull;
    var i := ChildIndex(seps, k);
    var page := DelTree(env, kids[i], k);
    BranchParts(env, seps, kids, lo, hi, d);
    ChildIndexBounds(seps, k, lo, hi);
    DelTreeOk(env, kids[i], k, Bound(seps, i, lo, hi), Bound(seps, i + 1, lo, hi), d - 1);
    hide Wf, Page;
    NeighboursIn(env, seps, kids[i := page.tree], i, if i == 0 then 0 else i - 1, lo, hi, d - 1);
  }

  lemma {:induction false} DelUnfold(env: Env, seps: seq<Sep>, kids: seq<Tree>, k: int)
    requires env.Valid() && |kids| == |seps| > 1
    ensures var i := ChildIndex(seps, k);
      var page := DelTree(env, kids[i], k);
      DelTree(env, Branch(seps, kids), k) ==
        if page.check && IsUnderfull(env, page.tree) then Rebalance(env, seps, kids[i := page.tree], i)
        else DelResult(Branch(seps, kids[i := page.tree]), false)
  {
    hide Rebalance, IsUnderfull, ChildIndex;
  }

  /** A deletion rebalances the page it took a node from exactly if that page became too
      small, and then the page above exactly if it lost a child. */
  lemma {:induction false} DelShape(env: Env, seps: seq<Sep>, kids: seq<Tree>, k: int, lo: int, hi: int, d: nat)
    requires env.Valid() && Wf(env, Branch(seps, kids), lo, hi, d) && lo <= k < hi && |kids| == |seps| > 1
    ensures var i := ChildIndex(seps, k);
      var page, r := DelTree(env, kids[i], k), DelTree(env, Branch(seps, kids), k);
      if page.check && TooSmall(env, page.tree) then Rebalanced(env, kids[i := page.tree], i, r)
      else r == DelResult(Branch(seps, kids[i := page.tree]), false)
  {
    hide DelTree, Wf, Rebalance, Alike, IsUnderfull, TooSmall, Rebalanced, ChildIndex;
    var i := ChildIndex(seps, k);
    var page := DelTree(env, kids[i], k);
    DelAlike(env, seps, kids, k, lo, hi, d);
    DelUnfold(env, seps, kids, k);
    TestsMean(env, page.tree);
    RebalancedIs(env, seps, kids[i := page.tree], i);
  }

  /** A page is looked at again exactly if it is a leaf or lost a child. */
  lemma {:induction false} DelCheck(env: Env, t: Tree, k: int, lo: int, hi: int, d: nat)
    requires env.Valid() && Wf(env, t, lo, hi, d) && lo <= k < hi
    ensures var r := DelTree(env, t, k); r.check <==> t.Leaf? || NumKeys(r.tree) < NumKeys(t)
  {
    if t.Branch? {
      BranchParts(env, t.seps, t.kids, lo, hi, d);
      DelShape(env, t.seps, t.kids, k, lo, hi, d);
      hide Wf, TooSmall, CanSpare;
    }
  }
}
