/**
 The B+tree on values: a page is a sequence of nodes, a branch page holds its
 children. Keys all have the same length, so a key is the number its bytes spell.
 */
module BTree {
  import opened Basics
  import opened PageSplit

  /** The data stored under a key: its length, and its bytes read as one number. */
  datatype Data = Data(size: nat, bits: int)
  /** Data with the number of overflow pages it is on, 0 if it is in its node. */
  datatype Val = Val(data: Data, ov: nat)
  datatype Item = Item(key: int, val: Val)

  /** The key of a branch node; slot 0 of a page has none. */
  datatype Sep = NoKey | Key(k: int)
  /** Node `i` of a branch page is its key seps[i] and its child kids[i]. */
  datatype Tree = Leaf(items: seq<Item>) | Branch(seps: seq<Sep>, kids: seq<Tree>)

  /** All items of a tree, left to right. */
  function Items(t: Tree): seq<Item>
    decreases t
  {
    match t
    case Leaf(items) => items
    case Branch(_, kids) => Flat(kids)
  }

  function Flat(kids: seq<Tree>): seq<Item>
    decreases kids
  {
    if kids == [] then [] else Items(kids[0]) + Flat(kids[1..])
  }

  // --- Sorted sequences: what the tree stands for -------------------------------------

  ghost predicate Sorted(s: seq<Item>) { forall i, j :: 0 <= i < j < |s| ==> s[i].key < s[j].key }

  ghost predicate InRange(s: seq<Item>, lo: int, hi: int) { forall i :: 0 <= i < |s| ==> lo <= s[i].key < hi }

  /** The position of the first key not below `k`. */
  function Rank(s: seq<Item>, k: int): (r: nat)
    ensures r <= |s|
    ensures forall i :: 0 <= i < r ==> s[i].key < k
    ensures r < |s| ==> s[r].key >= k
  {
    if s == [] || s[0].key >= k then 0 else 1 + Rank(s[1..], k)
  }

  predicate Present(s: seq<Item>, k: int) {
    var r := Rank(s, k);
    r < |s| && s[r].key == k
  }

  /** Stores an item under its key, replacing one that is there. */
  function Put(s: seq<Item>, it: Item): seq<Item> {
    var r := Rank(s, it.key);
    if Present(s, it.key) then s[r := it] else s[..r] + [it] + s[r..]
  }

  /** Removes the item with key `k`, if there is one. */
  function Remove(s: seq<Item>, k: int): seq<Item> {
    var r := Rank(s, k);
    if Present(s, k) then s[..r] + s[r + 1..] else s
  }

  // --- Pages ---------------------------------------------------------------------------

  /** The footprint of a leaf node: one with an overflow page stays as small as it is
      although its data may have become small enough for the node. */
  function NodeSize(env: Env, v: Val): nat
    requires env.Valid()
  {
    LeafSize(env, InNode(env, v))
  }

  /** The data size that counts for the node; that of overflow data does not. */
  function InNode(env: Env, v: Val): nat { if v.ov > 0 then env.psize else v.data.size }

  /** The footprint in numbers: a node holds its data or the number of an overflow page. */
  lemma NodeSizeMeans(env: Env, v: Val)
    requires env.Valid() && (v.ov == 0 ==> NODESIZE + env.ksize + v.data.size <= env.NodeMax())
    ensures NodeSize(env, v) == Even(NODESIZE + env.ksize + if v.ov > 0 then SIZEOF_PGNO else v.data.size) + SIZEOF_INDX
  {
  }

  function LeafSizes(env: Env, items: seq<Item>): (s: seq<nat>)
    requires env.Valid()
    ensures |s| == |items| && forall i :: 0 <= i < |s| ==> s[i] == NodeSize(env, items[i].val)
  {
    if items == [] then [] else LeafSizes(env, items[..|items| - 1]) + [NodeSize(env, items[|items| - 1].val)]
  }

  function LeafUsed(env: Env, items: seq<Item>): nat
    requires env.Valid()
  {
    Sum(LeafSizes(env, items))
  }

  function NumKeys(t: Tree): nat { match t case Leaf(items) => |items| case Branch(_, kids) => |kids| }

  function MinKeys(t: Tree): nat { if t.Branch? then 2 else 1 }

  function Used(env: Env, t: Tree): nat
    requires env.Valid()
  {
    match t case Leaf(items) => LeafUsed(env, items) case Branch(_, kids) => BranchUsed(env, |kids|)
  }

  /** Child `i` of a branch holds keys from Bound(i) up to, not including, Bound(i + 1). */
  function Bound(seps: seq<Sep>, i: int, lo: int, hi: int): int {
    if i <= 0 then lo else if i >= |seps| then hi else if seps[i].Key? then seps[i].k else lo
  }

  /** Slot 0 has no key, all others have, in order and within the bounds. */
  ghost predicate Seps(seps: seq<Sep>, lo: int, hi: int) {
    && seps != [] && seps[0].NoKey? && lo <= hi
    && (forall i :: 0 < i < |seps| ==> seps[i].Key? && lo <= seps[i].k <= hi)
    && (forall i, j :: 0 < i < j < |seps| ==> seps[i].k <= seps[j].k)
  }

  /** A page of depth `d` that fits and is in order; it may have too few nodes. */
  ghost predicate Page(env: Env, t: Tree, lo: int, hi: int, d: nat)
    requires env.Valid()
    decreases t, 0
  {
    && Used(env, t) <= env.PMax()
    && match t
       case Leaf(items) => d == 1 && Sorted(items) && InRange(items, lo, hi)
       case Branch(seps, kids) =>
         d > 1 && |seps| == |kids| && Seps(seps, lo, hi) && KidsWf(env, seps, kids, lo, hi, d - 1)
  }

  ghost predicate KidsWf(env: Env, seps: seq<Sep>, kids: seq<Tree>, lo: int, hi: int, d: nat)
    requires env.Valid() && |seps| == |kids|
    decreases kids
  {
    forall i :: 0 <= i < |kids| ==> Wf(env, kids[i], Bound(seps, i, lo, hi), Bound(seps, i + 1, lo, hi), d)
  }

  /** The same with enough nodes: no empty leaf, no branch with fewer than two. */
  ghost predicate Wf(env: Env, t: Tree, lo: int, hi: int, d: nat)
    requires env.Valid()
    decreases t, 1
  {
    Page(env, t, lo, hi, d) && NumKeys(t) >= MinKeys(t)
  }

  // --- Facts about sequences -----------------------------------------------------------

  lemma {:induction false} FlatConcat(a: seq<Tree>, b: seq<Tree>)
    ensures Flat(a + b) == Flat(a) + Flat(b)
  {
    hide Items;
    if a == [] {
      assert a + b == b;
    } else {
      FlatConcat(a[1..], b);
      assert (a + b)[1..] == a[1..] + b && (a + b)[0] == a[0];
      assert Flat(a + b) == Items(a[0]) + Flat(a[1..] + b);
      assert Flat(a) == Items(a[0]) + Flat(a[1..]);
    }
  }

  lemma FlatOne(t: Tree)
    ensures Flat([t]) == Items(t)
  {
    hide Items;
    assert [t][1..] == [] && Flat([]) == [];
    assert Flat([t]) == Items(t) + [];
  }

  lemma FlatAt(kids: seq<Tree>, i: nat)
    requires i < |kids|
    ensures Flat(kids) == Flat(kids[..i]) + Items(kids[i]) + Flat(kids[i + 1..])
    ensures Flat(kids[..i + 1]) == Flat(kids[..i]) + Items(kids[i])
  {
    hide Flat, Items;
    FlatConcat(kids[..i], [kids[i]]);
    FlatOne(kids[i]);
    assert kids[..i + 1] == kids[..i] + [kids[i]];
    FlatConcat(kids[..i + 1], kids[i + 1..]);
    assert kids == kids[..i + 1] + kids[i + 1..];
  }

  lemma RankIs(s: seq<Item>, k: int, r: nat)
    requires r <= |s| && (forall i :: 0 <= i < r ==> s[i].key < k) && (r < |s| ==> s[r].key >= k)
    ensures Rank(s, k) == r
  {
  }

  /** `k` lies in the range [lo, hi) of the middle part of a + b + c. */
  ghost predicate Between(a: seq<Item>, c: seq<Item>, lo: int, k: int, hi: int) {
    && (forall i :: 0 <= i < |a| ==> a[i].key < lo)
    && lo <= k < hi
    && (forall i :: 0 <= i < |c| ==> c[i].key >= hi)
  }

  lemma MiddleRank(a: seq<Item>, b: seq<Item>, c: seq<Item>, lo: int, k: int, hi: int)
    requires Between(a, c, lo, k, hi)
    ensures Rank(a + b + c, k) == |a| + Rank(b, k)
    ensures Present(a + b + c, k) <==> Present(b, k)
  {
    hide Rank;
    RankIs(a + b + c, k, |a| + Rank(b, k));
  }

  /** Storing and removing only concerns the part of a sequence whose range holds the key. */
  lemma MiddlePut(a: seq<Item>, b: seq<Item>, c: seq<Item>, it: Item, lo: int, hi: int)
    requires Between(a, c, lo, it.key, hi)
    ensures Put(a + b + c, it) == a + Put(b, it) + c
  {
    hide Rank, Put;
    MiddleRank(a, b, c, lo, it.key, hi);
    var s, r := a + b + c, Rank(b, it.key);
    var r' := if Present(b, it.key) then r + 1 else r;
    PutParts(b, it);
    PutParts(s, it);
    CutMiddle(a, b, c, r);
    CutMiddle(a, b, c, r');
    Regroup(a, b[..r], [it], b[r'..], c);
  }

  lemma CutMiddle(a: seq<Item>, b: seq<Item>, c: seq<Item>, r: nat)
    requires r <= |b|
    ensures (a + b + c)[..|a| + r] == a + b[..r] && (a + b + c)[|a| + r..] == b[r..] + c
  {
  }

  lemma Regroup(a: seq<Item>, x: seq<Item>, m: seq<Item>, y: seq<Item>, c: seq<Item>)
    ensures (a + x) + m + (y + c) == a + (x + m + y) + c
  {
  }

  /** The item goes between the smaller and the larger keys. */
  lemma PutParts(s: seq<Item>, it: Item)
    ensures var r := Rank(s, it.key); Put(s, it) == s[..r] + [it] + s[if Present(s, it.key) then r + 1 else r..]
  {
  }

  lemma RemoveParts(s: seq<Item>, k: int)
    ensures var r := Rank(s, k); Remove(s, k) == s[..r] + s[if Present(s, k) then r + 1 else r..]
  {
    var r := Rank(s, k);
    hide Rank;
    if !Present(s, k) { assert s[..r] + s[r..] == s; }
  }

  lemma MiddleRemove(a: seq<Item>, b: seq<Item>, c: seq<Item>, k: int, lo: int, hi: int)
    requires Between(a, c, lo, k, hi)
    ensures Remove(a + b + c, k) == a + Remove(b, k) + c
  {
    hide Rank, Remove;
    MiddleRank(a, b, c, lo, k, hi);
    var s, r := a + b + c, Rank(b, k);
    var r' := if Present(b, k) then r + 1 else r;
    RemoveParts(b, k);
    RemoveParts(s, k);
    CutMiddle(a, b, c, r);
    CutMiddle(a, b, c, r');
    RegroupPair(a, b[..r], b[r'..], c);
  }

  lemma RegroupPair(a: seq<Item>, x: seq<Item>, y: seq<Item>, c: seq<Item>)
    ensures (a + x) + (y + c) == a + (x + y) + c
  {
  }

  lemma SortedConcat(a: seq<Item>, b: seq<Item>, lo: int, mid: int, hi: int)
    requires Sorted(a) && Sorted(b) && InRange(a, lo, mid) && InRange(b, mid, hi) && lo <= mid <= hi
    ensures Sorted(a + b) && InRange(a + b, lo, hi)
  {
  }

  lemma PutSorted(s: seq<Item>, it: Item, lo: int, hi: int)
    requires Sorted(s) && InRange(s, lo, hi) && lo <= it.key < hi
    ensures Sorted(Put(s, it)) && InRange(Put(s, it), lo, hi) && Put(s, it) != []
    ensures var r := Rank(s, it.key); r < |Put(s, it)| && Put(s, it)[r] == it
  {
    hide Rank;
    var r, p := Rank(s, it.key), Put(s, it);
    assert forall i :: r < i < |s| ==> s[i].key > s[r].key >= it.key;
  }

  // --- What a well-formed tree holds -----------------------------------------------------

  lemma BoundsOrdered(seps: seq<Sep>, i: int, j: int, lo: int, hi: int)
    requires Seps(seps, lo, hi) && i <= j
    ensures lo <= Bound(seps, i, lo, hi) <= Bound(seps, j, lo, hi) <= hi
  {
  }

  /** The items of a page are in order and within its bounds. */
  lemma {:induction false} PageItems(env: Env, t: Tree, lo: int, hi: int, d: nat)
    requires env.Valid() && Page(env, t, lo, hi, d)
    ensures Sorted(Items(t)) && InRange(Items(t), lo, hi)
    ensures Wf(env, t, lo, hi, d) ==> Items(t) != [] && lo < hi
    decreases t, 1
  {
    match t
    case Leaf(items) => if items != [] { assert lo <= items[0].key < hi; }
    case Branch(seps, kids) =>
      PrefixItems(env, seps, kids, lo, hi, d - 1, |kids|);
      assert kids[..|kids|] == kids;
  }

  lemma {:induction false} PrefixItems(env: Env, seps: seq<Sep>, kids: seq<Tree>, lo: int, hi: int, d: nat, n: nat)
    requires env.Valid() && |seps| == |kids| && Seps(seps, lo, hi) && KidsWf(env, seps, kids, lo, hi, d) && n <= |kids|
    ensures Sorted(Flat(kids[..n])) && InRange(Flat(kids[..n]), lo, Bound(seps, n, lo, hi))
    ensures n > 0 ==> Flat(kids[..n]) != [] && lo < Bound(seps, n, lo, hi)
    decreases kids, n
  {
    if n > 0 {
      PrefixItems(env, seps, kids, lo, hi, d, n - 1);
      PageItems(env, kids[n - 1], Bound(seps, n - 1, lo, hi), Bound(seps, n, lo, hi), d);
      FlatAt(kids, n - 1);
      BoundsOrdered(seps, n - 1, n, lo, hi);
      SortedConcat(Flat(kids[..n - 1]), Items(kids[n - 1]), lo, Bound(seps, n - 1, lo, hi), Bound(seps, n, lo, hi));
    }
  }

  lemma {:induction false} SuffixItems(env: Env, seps: seq<Sep>, kids: seq<Tree>, lo: int, hi: int, d: nat, n: nat)
    requires env.Valid() && |seps| == |kids| && Seps(seps, lo, hi) && KidsWf(env, seps, kids, lo, hi, d) && n <= |kids|
    ensures InRange(Flat(kids[n..]), Bound(seps, n, lo, hi), hi)
    decreases |kids| - n
  {
    if n < |kids| {
      SuffixItems(env, seps, kids, lo, hi, d, n + 1);
      PageItems(env, kids[n], Bound(seps, n, lo, hi), Bound(seps, n + 1, lo, hi), d);
      assert kids[n..] == [kids[n]] + kids[n + 1..];
      FlatConcat([kids[n]], kids[n + 1..]);
      FlatOne(kids[n]);
      BoundsOrdered(seps, n, n + 1, lo, hi);
      BoundsOrdered(seps, n + 1, |seps|, lo, hi);
    }
  }

  /** The items left and right of child `i`, and the bounds that keep them apart. */
  lemma Around(env: Env, seps: seq<Sep>, kids: seq<Tree>, lo: int, hi: int, d: nat, i: nat, k: int)
    requires env.Valid() && |seps| == |kids| && Seps(seps, lo, hi) && KidsWf(env, seps, kids, lo, hi, d) && i < |kids|
    requires Bound(seps, i, lo, hi) <= k < Bound(seps, i + 1, lo, hi)
    ensures Flat(kids) == Flat(kids[..i]) + Items(kids[i]) + Flat(kids[i + 1..])
    ensures Between(Flat(kids[..i]), Flat(kids[i + 1..]), Bound(seps, i, lo, hi), k, Bound(seps, i + 1, lo, hi))
  {
    FlatAt(kids, i);
    PrefixItems(env, seps, kids, lo, hi, d, i);
    SuffixItems(env, seps, kids, lo, hi, d, i + 1);
  }

  // --- Descending --------------------------------------------------------------------------

  /** The child `mdb_page_search_root` follows: the last one whose key is not above `k`. */
  function ChildIndex(seps: seq<Sep>, k: int): (i: nat)
    requires seps != []
    ensures i < |seps|
  {
    var last := |seps| - 1;
    if last == 0 || (seps[last].Key? && seps[last].k <= k) then last else ChildIndex(seps[..last], k)
  }

  lemma {:induction false} ChildIndexBounds(seps: seq<Sep>, k: int, lo: int, hi: int)
    requires Seps(seps, lo, hi) && lo <= k < hi
    ensures var i := ChildIndex(seps, k); Bound(seps, i, lo, hi) <= k < Bound(seps, i + 1, lo, hi)
  {
    var last := |seps| - 1;
    if !(last == 0 || seps[last].k <= k) {
      ChildIndexBounds(seps[..last], k, lo, seps[last].k);
    }
  }

  /** `mdb_get`: descends to a leaf and looks there. */
  function Lookup(t: Tree, k: int): Option<Val>
    decreases t
  {
    match t
    case Leaf(items) => if Present(items, k) then Some(items[Rank(items, k)].val) else None
    case Branch(seps, kids) =>
      if seps == [] || |seps| != |kids| then None else Lookup(kids[ChildIndex(seps, k)], k)
  }

  /** A lookup finds a key iff the tree has it, with its value. */
  lemma {:induction false} LookupIsPresent(env: Env, t: Tree, k: int, lo: int, hi: int, d: nat)
    requires env.Valid() && Wf(env, t, lo, hi, d) && lo <= k < hi
    ensures Lookup(t, k) == if Present(Items(t), k) then Some(Items(t)[Rank(Items(t), k)].val) else None
    decreases t
  {
    match t
    case Leaf(items) =>
    case Branch(seps, kids) =>
      var i := ChildIndex(seps, k);
      ChildIndexBounds(seps, k, lo, hi);
      Around(env, seps, kids, lo, hi, d - 1, i, k);
      var a, b, c := Flat(kids[..i]), Items(kids[i]), Flat(kids[i + 1..]);
      MiddleRank(a, b, c, Bound(seps, i, lo, hi), k, Bound(seps, i + 1, lo, hi));
      LookupIsPresent(env, kids[i], k, Bound(seps, i, lo, hi), Bound(seps, i + 1, lo, hi), d - 1);
      if Present(b, k) { MiddleAt(a, b, c, Rank(b, k)); }
  }

  lemma MiddleAt(a: seq<Item>, b: seq<Item>, c: seq<Item>, i: nat)
    requires i < |b|
    ensures (a + b + c)[|a| + i] == b[i]
  {
  }

  // --- Cutting and joining branch pages ------------------------------------------------------

  /** The page right of a cut: its slot 0 has no key. */
  function DropSeps(seps: seq<Sep>, m: nat): seq<Sep>
    requires m < |seps|
  {
    [NoKey] + seps[m + 1..]
  }

  lemma CutKids(env: Env, seps: seq<Sep>, kids: seq<Tree>, lo: int, hi: int, d: nat, m: nat)
    requires env.Valid() && |seps| == |kids| && Seps(seps, lo, hi) && KidsWf(env, seps, kids, lo, hi, d)
    requires 0 < m < |kids|
    ensures Seps(seps[..m], lo, seps[m].k) && KidsWf(env, seps[..m], kids[..m], lo, seps[m].k, d)
    ensures Seps(DropSeps(seps, m), seps[m].k, hi) && KidsWf(env, DropSeps(seps, m), kids[m..], seps[m].k, hi, d)
  {
    var k := seps[m].k;
    forall i | 0 <= i < m ensures Wf(env, kids[..m][i], Bound(seps[..m], i, lo, k), Bound(seps[..m], i + 1, lo, k), d) {
      assert Wf(env, kids[i], Bound(seps, i, lo, hi), Bound(seps, i + 1, lo, hi), d);
    }
    var r := DropSeps(seps, m);
    forall i | 0 <= i < |kids[m..]| ensures Wf(env, kids[m..][i], Bound(r, i, k, hi), Bound(r, i + 1, k, hi), d) {
      assert Wf(env, kids[m + i], Bound(seps, m + i, lo, hi), Bound(seps, m + i + 1, lo, hi), d);
    }
  }

  lemma JoinKids(env: Env, s1: seq<Sep>, k1: seq<Tree>, s2: seq<Sep>, k2: seq<Tree>, lo: int, mid: int, hi: int, d: nat)
    requires env.Valid() && |s1| == |k1| && |s2| == |k2| && Seps(s1, lo, mid) && Seps(s2, mid, hi)
    requires KidsWf(env, s1, k1, lo, mid, d) && KidsWf(env, s2, k2, mid, hi, d)
    ensures Seps(s1 + [Key(mid)] + s2[1..], lo, hi) && KidsWf(env, s1 + [Key(mid)] + s2[1..], k1 + k2, lo, hi, d)
  {
    var s, k := s1 + [Key(mid)] + s2[1..], k1 + k2;
    forall i | 0 <= i < |k| ensures Wf(env, k[i], Bound(s, i, lo, hi), Bound(s, i + 1, lo, hi), d) {
      if i < |k1| {
        assert Wf(env, k1[i], Bound(s1, i, lo, mid), Bound(s1, i + 1, lo, mid), d);
      } else {
        var j := i - |k1|;
        assert Wf(env, k2[j], Bound(s2, j, mid, hi), Bound(s2, j + 1, mid, hi), d);
      }
    }
  }
}
