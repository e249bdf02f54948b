/**
 Storing an item: `mdb_cursor_put` on a leaf, and `mdb_page_split`, which splits a
 full page and hands a separator to its parent, as far up as needed.
 */
module BTreePut {
  import opened PageSplit
  import opened BTree

  /** What storing an item below a page does to the page: it stays, or it is split
      at a separator, or the split has no room for the new node (MDB_PAGE_FULL). */
  datatype PutResult = Done(tree: Tree) | Split(left: Tree, sep: int, right: Tree) | PageFull

  /** Footprints of branch nodes; only slot 0 has no key. */
  function BranchSizes(env: Env, n: nat): (s: seq<nat>)
    requires n > 0
    ensures |s| == n && s[0] == BranchSize(env, true) && forall i :: 0 < i < n ==> s[i] == BranchSize(env, false)
  {
    [BranchSize(env, true)] + Repeat(n - 1, BranchSize(env, false))
  }

  lemma SumBranch(env: Env, n: nat)
    requires n > 0
    ensures Sum(BranchSizes(env, n)) == BranchUsed(env, n)
  {
    SumConcat([BranchSize(env, true)], Repeat(n - 1, BranchSize(env, false)));
    SumRepeat(n - 1, BranchSize(env, false));
    assert [BranchSize(env, true)][..0] == [];
  }

  /** Room for one more node with a key on a branch page, as the code tests it. */
  predicate BranchHasRoom(env: Env, n: nat)
    requires env.Valid()
  {
    env.PMax() - BranchUsed(env, n) >= NODESIZE + env.ksize + SIZEOF_INDX
  }

  /** The overflow pages that data of a size takes. */
  function OvPages(env: Env, size: nat): nat
    requires env.Valid()
  {
    (PAGEHDRSZ - 1 + size) / env.psize + 1
  }

  /** They are just enough for the data after one page header. */
  lemma OvPagesExact(env: Env, size: nat, n: nat)
    requires env.Valid()
    ensures n >= OvPages(env, size) <==> n * env.psize >= PAGEHDRSZ + size
  {
    var x := PAGEHDRSZ - 1 + size;
    Quotient(x, env.psize);
    if n >= x / env.psize + 1 { Times(x / env.psize + 1, n, env.psize); } else { Times(n, x / env.psize, env.psize); }
  }

  /** A new node for an item: data too large for it goes to overflow pages. */
  function Place(env: Env, it: Item): Item
    requires env.Valid()
  {
    var size := it.val.data.size;
    it.(val := Val(it.val.data, if NODESIZE + env.ksize + size > env.NodeMax() then OvPages(env, size) else 0))
  }

  /** The old data can be overwritten where it is: on overflow pages that are dirty in the
      transaction and enough for the new data, or in a node if the size is the same. */
  predicate InPlace(env: Env, was: Val, size: nat, dirty: bool)
    requires env.Valid()
  {
    if was.ov > 0 then dirty && was.ov >= OvPages(env, size) else was.data.size == size
  }

  lemma InPlaceMeans(env: Env, was: Val, size: nat, dirty: bool)
    requires env.Valid()
    ensures InPlace(env, was, size, dirty) <==>
      if was.ov > 0 then dirty && was.ov * env.psize >= PAGEHDRSZ + size else size == was.data.size
  {
    OvPagesExact(env, size, was.ov);
  }

  /** A new item has overflow pages exactly if its node would be too large, and then no
      more than it needs. */
  lemma PlaceMeans(env: Env, it: Item)
    requires env.Valid()
    ensures var size, ov := it.val.data.size, Place(env, it).val.ov;
      && (ov > 0 <==> NODESIZE + env.ksize + size > env.NodeMax())
      && (ov > 0 ==> ov * env.psize >= PAGEHDRSZ + size > (ov - 1) * env.psize)
  {
    hide OvPages;
    var size := it.val.data.size;
    OvPagesExact(env, size, OvPages(env, size));
    OvPagesExact(env, size, 0);
    if OvPages(env, size) > 0 { OvPagesExact(env, size, OvPages(env, size) - 1); }
  }

  predicate Overwrites(env: Env, items: seq<Item>, it: Item, dirty: bool)
    requires env.Valid()
  {
    Present(items, it.key) && InPlace(env, items[Rank(items, it.key)].val, it.val.data.size, dirty)
  }

  /** The item as it is stored among `items`. */
  function Stored(env: Env, items: seq<Item>, it: Item, dirty: bool): (r: Item)
    requires env.Valid()
    ensures r.key == it.key && r.val.data == it.val.data
  {
    if Overwrites(env, items, it, dirty) && items[Rank(items, it.key)].val.ov > 0
    then it.(val := Val(it.val.data, items[Rank(items, it.key)].val.ov))
    else Place(env, it)
  }

  /** Data that is overwritten on overflow pages keeps them; all other is placed anew. */
  lemma StoredMeans(env: Env, items: seq<Item>, it: Item, dirty: bool)
    requires env.Valid()
    ensures var was := if Present(items, it.key) then items[Rank(items, it.key)].val.ov else 0;
      var fits := was > 0 && dirty && was * env.psize >= PAGEHDRSZ + it.val.data.size;
      Stored(env, items, it, dirty).val.ov == if fits then was else Place(env, it).val.ov
  {
    hide Rank, OvPages;
    if Present(items, it.key) { InPlaceMeans(env, items[Rank(items, it.key)].val, it.val.data.size, dirty); }
  }

  /** `mdb_cursor_put` on a leaf. `dirty` says whether overflow pages under the key, if any,
      are dirty in the transaction. */
  function PutLeaf(env: Env, items: seq<Item>, it: Item, dirty: bool): PutResult
    requires env.Valid()
  {
    var r, fit := Rank(items, it.key), Stored(env, items, it, dirty);
    var merged := Put(items, fit);
    if Overwrites(env, items, it, dirty) then Done(Leaf(merged))
    else if LeafUsed(env, Remove(items, it.key)) + NodeSize(env, fit.val) <= env.PMax() then Done(Leaf(merged))
    else
      LeafMustSplit(env, items, fit);
      var split := SplitIndex(LeafSizes(env, merged), r, env.PMax());
      if split < |merged| && LeafUsed(env, merged[..split]) <= env.PMax() &&
         LeafUsed(env, merged[split..]) <= env.PMax()
      then Split(Leaf(merged[..split]), merged[split].key, Leaf(merged[split..]))
      else PageFull
  }

  lemma LeafSizesConcat(env: Env, a: seq<Item>, b: seq<Item>)
    requires env.Valid()
    ensures LeafSizes(env, a + b) == LeafSizes(env, a) + LeafSizes(env, b)
    ensures LeafUsed(env, a + b) == LeafUsed(env, a) + LeafUsed(env, b)
  {
    hide NodeSize;
    SumConcat(LeafSizes(env, a), LeafSizes(env, b));
    assert LeafSizes(env, a + b) == LeafSizes(env, a) + LeafSizes(env, b);
  }

  lemma LeafUsedOne(env: Env, it: Item)
    requires env.Valid()
    ensures LeafUsed(env, [it]) == NodeSize(env, it.val)
  {
    var s := LeafSizes(env, [it]);
    assert |s| == 1 && s[..|s| - 1] == [];
    assert Sum(s) == Sum(s[..|s| - 1]) + s[0];
  }

  /** The page after the put takes the space of the other nodes and of the new one. */
  lemma PutUsed(env: Env, items: seq<Item>, it: Item)
    requires env.Valid()
    ensures LeafUsed(env, Put(items, it)) == LeafUsed(env, Remove(items, it.key)) + NodeSize(env, it.val)
  {
    hide Put, Remove, LeafUsed, LeafSizes, NodeSize;
    var r := Rank(items, it.key);
    var rest := items[if Present(items, it.key) then r + 1 else r..];
    PutParts(items, it);
    RemoveParts(items, it.key);
    LeafSizesConcat(env, items[..r] + [it], rest);
    LeafSizesConcat(env, items[..r], [it]);
    LeafSizesConcat(env, items[..r], rest);
    LeafUsedOne(env, it);
  }

  lemma LeafMustSplit(env: Env, items: seq<Item>, it: Item)
    requires env.Valid()
    requires LeafUsed(env, Remove(items, it.key)) + NodeSize(env, it.val) > env.PMax()
    ensures Rank(items, it.key) < |Put(items, it)| && Sum(LeafSizes(env, Put(items, it))) > env.PMax()
    ensures LeafUsed(env, Remove(items, it.key)) <= env.PMax() ==>
      MustSplit(LeafSizes(env, Put(items, it)), Rank(items, it.key), env.PMax())
  {
    PutUsed(env, items, it);
    var s := LeafSizes(env, Put(items, it));
    assert Put(items, it)[Rank(items, it.key)] == it;
    forall i | 0 <= i < |s| ensures 0 < s[i] && 2 * s[i] <= env.PMax() {
      NodesAreHalf(env, InNode(env, Put(items, it)[i].val));
    }
  }

  /** The leaf a key belongs to. */
  function LeafFor(t: Tree, k: int): seq<Item>
    decreases t
  {
    match t
    case Leaf(items) => items
    case Branch(seps, kids) =>
      if seps == [] || |seps| != |kids| then [] else LeafFor(kids[ChildIndex(seps, k)], k)
  }

  /** The new child of a split goes right after the old one, under the separator. */
  function InsertSep(seps: seq<Sep>, i: nat, sep: int): seq<Sep>
    requires i < |seps|
  {
    seps[..i + 1] + [Key(sep)] + seps[i + 1..]
  }

  function InsertKid(kids: seq<Tree>, i: nat, left: Tree, right: Tree): seq<Tree>
    requires i < |kids|
  {
    kids[..i] + [left, right] + kids[i + 1..]
  }

  /** A branch page whose child `i` was split. */
  function PutBranch(env: Env, seps: seq<Sep>, kids: seq<Tree>, i: nat, left: Tree, sep: int, right: Tree): PutResult
    requires env.Valid() && i < |seps| == |kids|
  {
    var s, k := InsertSep(seps, i, sep), InsertKid(kids, i, left, right);
    if BranchHasRoom(env, |kids|) then Done(Branch(s, k))
    else
      SumBranch(env, |k|);
      BranchRoom(env, |kids|);
      var m := SplitIndex(BranchSizes(env, |k|), i + 1, env.PMax());
      if 0 < m < |k| && s[m].Key? && BranchUsed(env, m) <= env.PMax() && BranchUsed(env, |k| - m) <= env.PMax()
      then Split(Branch(s[..m], k[..m]), s[m].k, Branch(DropSeps(s, m), k[m..]))
      else PageFull
  }

  /** What a page makes of the result for its child `i`. */
  function PutKid(env: Env, seps: seq<Sep>, kids: seq<Tree>, i: nat, r: PutResult): PutResult
    requires env.Valid() && i < |seps| == |kids|
  {
    match r
    case Done(kid) => Done(Branch(seps, kids[i := kid]))
    case Split(left, sep, right) => PutBranch(env, seps, kids, i, left, sep, right)
    case PageFull => PageFull
  }

  /** Stores `it` below a page. */
  function PutTree(env: Env, t: Tree, it: Item, dirty: bool): PutResult
    requires env.Valid()
    decreases t
  {
    match t
    case Leaf(items) => PutLeaf(env, items, it, dirty)
    case Branch(seps, kids) =>
      if seps == [] || |seps| != |kids| then PageFull else
      var i := ChildIndex(seps, it.key);
      PutKid(env, seps, kids, i, PutTree(env, kids[i], it, dirty))
  }

  // --- Branch pages never overflow ------------------------------------------------------------

  /** The room test of the code is right although it does not round up. */
  lemma BranchRoom(env: Env, n: nat)
    requires env.Valid() && n > 0
    ensures BranchUsed(env, n) <= env.PMax() ==> (BranchHasRoom(env, n) <==> BranchUsed(env, n + 1) <= env.PMax())
    ensures !BranchHasRoom(env, n) ==> BranchUsed(env, n + 1) > env.PMax()
  {
    var b := BranchSize(env, false);
    assert b % 2 == 0;
    assert BranchUsed(env, n + 1) == BranchUsed(env, n) + b by { Next(n, b); }
    assert ((n - 1) * b) % 2 == 0 by { EvenProduct(n - 1, b); }
  }

  lemma {:induction false} EvenProduct(n: nat, b: nat)
    requires b % 2 == 0
    ensures (n * b) % 2 == 0
  {
    if n > 0 {
      EvenProduct(n - 1, b);
      Next(n, b);
      EvenSum((n - 1) * b, b);
    }
  }

  lemma Next(n: nat, b: nat)
    requires n > 0
    ensures n * b == (n - 1) * b + b
  {
  }

  lemma EvenSum(x: nat, y: nat)
    requires x % 2 == 0 && y % 2 == 0
    ensures (x + y) % 2 == 0
  {
  }

  lemma BranchUsedMonotone(env: Env, m: nat, n: nat)
    requires m <= n
    ensures BranchUsed(env, m) <= BranchUsed(env, n)
  {
  }

  /** A branch page that has to be split can be: both halves get two nodes or more and fit. */
  lemma BranchSplits(env: Env, n: nat, newindx: nat)
    requires env.Valid() && n > 0 && BranchUsed(env, n) <= env.PMax() < BranchUsed(env, n + 1) && 0 < newindx <= n
    ensures Sum(BranchSizes(env, n + 1)) > env.PMax()
    ensures var m := SplitIndex(BranchSizes(env, n + 1), newindx, env.PMax());
      2 <= m <= n - 1 && BranchUsed(env, m) <= env.PMax() && BranchUsed(env, n + 1 - m) <= env.PMax()
  {
    hide SplitIndex;
    var s, pmax := BranchSizes(env, n + 1), env.PMax();
    SumBranch(env, n + 1);
    NodesAreHalf(env, 0);
    assert BranchUsed(env, n + 1) == BranchUsed(env, n) + BranchSize(env, false) by {
      assert n * BranchSize(env, false) == (n - 1) * BranchSize(env, false) + BranchSize(env, false);
    }
    assert MustSplit(s, newindx, pmax);
    var m := SplitIndex(s, newindx, pmax);
    assert n >= 4 by { assert n < 4 ==> n * BranchSize(env, false) <= 3 * BranchSize(env, false); }
    SplitTwo(s, newindx, pmax);
    BranchUsedMonotone(env, m, n);
    BranchUsedMonotone(env, n + 1 - m, n);
  }

  // --- The theorem ------------------------------------------------------------------------------

  /** `r` is one page, or two pages around a separator, with the items `all`. */
  ghost predicate Yields(env: Env, r: PutResult, all: seq<Item>, lo: int, hi: int, d: nat)
    requires env.Valid()
  {
    match r
    case Done(u) => Wf(env, u, lo, hi, d) && Items(u) == all
    case Split(left, sep, right) =>
      && lo <= sep <= hi && Wf(env, left, lo, sep, d) && Wf(env, right, sep, hi, d)
      && Items(left) + Items(right) == all
    case PageFull => false
  }

  lemma CutLeaf(env: Env, s: seq<Item>, m: nat, lo: int, hi: int)
    requires env.Valid() && Sorted(s) && InRange(s, lo, hi) && 0 < m < |s|
    requires LeafUsed(env, s[..m]) <= env.PMax() && LeafUsed(env, s[m..]) <= env.PMax()
    ensures var k := s[m].key;
      lo <= k <= hi && Wf(env, Leaf(s[..m]), lo, k, 1) && Wf(env, Leaf(s[m..]), k, hi, 1) && s[..m] + s[m..] == s
  {
    hide LeafUsed;
    var a, b, k := s[..m], s[m..], s[m].key;
    assert a + b == s && |a| == m && |b| == |s| - m;
    assert Sorted(a) && InRange(a, lo, k);
    assert Sorted(b) && InRange(b, k, hi);
    hide Sorted, InRange;
  }

  lemma PutLeafOk(env: Env, items: seq<Item>, it: Item, dirty: bool, lo: int, hi: int)
    requires env.Valid() && Wf(env, Leaf(items), lo, hi, 1) && lo <= it.key < hi
    ensures var r := PutLeaf(env, items, it, dirty);
      r.PageFull? || Yields(env, r, Put(items, Stored(env, items, it, dirty)), lo, hi, 1)
    ensures var r := PutLeaf(env, items, it, dirty); r.Split? ==> r.sep == r.right.items[0].key
  {
    hide Rank, Put, Stored, Overwrites, LeafUsed, LeafSizes, SplitIndex, Sorted, InRange, NodeSize;
    var fit := Stored(env, items, it, dirty);
    var merged := Put(items, fit);
    PutSorted(items, fit, lo, hi);
    PutUsed(env, items, fit);
    SameUsed(env, items, it, dirty);
    RemoveUsed(env, items, it.key);
    match PutLeaf(env, items, it, dirty)
    case Split(_, _, _) =>
      LeafMustSplit(env, items, fit);
      SplitIndexInside(LeafSizes(env, merged), Rank(items, it.key), env.PMax());
      CutLeaf(env, merged, SplitIndex(LeafSizes(env, merged), Rank(items, it.key), env.PMax()), lo, hi);
    case Done(_) => OneLeafOk(env, merged, lo, hi);
    case PageFull =>
  }

  lemma OneLeafOk(env: Env, s: seq<Item>, lo: int, hi: int)
    requires env.Valid() && s != [] && Sorted(s) && InRange(s, lo, hi) && LeafUsed(env, s) <= env.PMax()
    ensures Yields(env, Done(Leaf(s)), s, lo, hi, 1)
  {
    hide LeafUsed, Sorted, InRange;
    assert Wf(env, Leaf(s), lo, hi, 1);
  }

  lemma SplitIndexInside(s: seq<nat>, newindx: nat, pmax: nat)
    requires MustSplit(s, newindx, pmax)
    ensures 0 < SplitIndex(s, newindx, pmax) < |s|
  {
    AtLeastThree(s, newindx, pmax);
    if Scans(s, newindx, pmax) { ScanFits(s, newindx, pmax); } else { HalfSplit(s, newindx, pmax); }
  }

  lemma RemoveUsed(env: Env, items: seq<Item>, k: int)
    requires env.Valid()
    ensures LeafUsed(env, Remove(items, k)) <= LeafUsed(env, items)
  {
    var r := Rank(items, k);
    if Present(items, k) {
      assert items == items[..r] + [items[r]] + items[r + 1..];
      LeafSizesConcat(env, items[..r] + [items[r]], items[r + 1..]);
      LeafSizesConcat(env, items[..r], [items[r]]);
      LeafSizesConcat(env, items[..r], items[r + 1..]);
    }
  }

  /** Overwriting in place does not change the space a page uses. */
  lemma SameUsed(env: Env, items: seq<Item>, it: Item, dirty: bool)
    requires env.Valid()
    ensures Overwrites(env, items, it, dirty) ==>
        LeafUsed(env, Put(items, Stored(env, items, it, dirty))) == LeafUsed(env, items)
  {
    if Overwrites(env, items, it, dirty) {
      var r := Rank(items, it.key);
      assert NodeSize(env, Stored(env, items, it, dirty).val) == NodeSize(env, items[r].val);
      assert LeafSizes(env, Put(items, Stored(env, items, it, dirty))) == LeafSizes(env, items);
    }
  }

  /** What makes a put fail, in terms of the leaf `items` before it: the data cannot be
      overwritten in place, the new node does not fit on the page, the split point is
      not looked for, and the half the node falls into cannot take it. */
  predicate NoRoom(env: Env, items: seq<Item>, it: Item, dirty: bool)
    requires env.Valid()
  {
    var fit := Stored(env, items, it, dirty);
    var s, r, pmax := LeafSizes(env, Put(items, fit)), Rank(items, it.key), env.PMax();
    var half := |s| / 2;
    && !Overwrites(env, items, it, dirty)
    && LeafUsed(env, Remove(items, it.key)) + NodeSize(env, fit.val) > pmax
    && |s| > 20 && r < |s| - 1 && 16 * s[r] <= pmax
    && if r < half then s[r] > pmax - Sum(s[..r]) - Sum(s[r + 1..half])
       else s[r] > pmax - Sum(s[half..r]) - Sum(s[r + 1..])
  }

  lemma PutAt(items: seq<Item>, it: Item)
    ensures Rank(items, it.key) < |Put(items, it)| && Put(items, it)[Rank(items, it.key)] == it
  {
  }

  /** The slices of the footprints are the footprints of the slices. */
  lemma LeafCut(env: Env, s: seq<Item>, m: nat)
    requires env.Valid() && m <= |s|
    ensures LeafSizes(env, s[..m]) == LeafSizes(env, s)[..m] && LeafSizes(env, s[m..]) == LeafSizes(env, s)[m..]
  {
  }

  lemma SplitFitsIff(env: Env, s: seq<Item>, r: nat)
    requires env.Valid() && MustSplit(LeafSizes(env, s), r, env.PMax())
    ensures var m := SplitIndex(LeafSizes(env, s), r, env.PMax());
      && 0 < m < |s|
      && (BothFit(LeafSizes(env, s), m, env.PMax()) <==>
            LeafUsed(env, s[..m]) <= env.PMax() && LeafUsed(env, s[m..]) <= env.PMax())
  {
    hide Sum, SplitIndex, Scans;
    SplitIndexInside(LeafSizes(env, s), r, env.PMax());
    LeafCut(env, s, SplitIndex(LeafSizes(env, s), r, env.PMax()));
  }

  lemma LeafFullIff(env: Env, items: seq<Item>, it: Item, dirty: bool)
    requires env.Valid() && LeafUsed(env, items) <= env.PMax()
    ensures PutLeaf(env, items, it, dirty).PageFull? <==> NoRoom(env, items, it, dirty)
  {
    hide Rank, Put, Sum, SplitIndex, Scans, LeafUsed, BothFit, Stored, Overwrites, NodeSize;
    var fit := Stored(env, items, it, dirty);
    RemoveUsed(env, items, it.key);
    PutAt(items, fit);
    if LeafUsed(env, Remove(items, it.key)) + NodeSize(env, fit.val) > env.PMax() {
      LeafMustSplit(env, items, fit);
      var r, s := Rank(items, it.key), LeafSizes(env, Put(items, fit));
      SplitFitsIff(env, Put(items, fit), r);
      ScansMeans(s, r, env.PMax());
      if Scans(s, r, env.PMax()) { ScanFits(s, r, env.PMax()); } else { HalfSplit(s, r, env.PMax()); }
    }
  }

  /** A leaf is split exactly if its new nodes do not fit on it, and where. */
  lemma LeafSplitsAt(env: Env, items: seq<Item>, it: Item, dirty: bool)
    requires env.Valid() && LeafUsed(env, items) <= env.PMax()
    ensures var r, all := PutLeaf(env, items, it, dirty), Put(items, Stored(env, items, it, dirty));
      && (r.Done? <==> Overwrites(env, items, it, dirty) || LeafUsed(env, all) <= env.PMax())
      && (r.Done? ==> r.tree == Leaf(all))
      && (r.Split? ==>
            && MustSplit(LeafSizes(env, all), Rank(items, it.key), env.PMax())
            && var m := SplitIndex(LeafSizes(env, all), Rank(items, it.key), env.PMax());
               m < |all| && r == Split(Leaf(all[..m]), all[m].key, Leaf(all[m..])))
  {
    hide Rank, Put, SplitIndex, Stored, Overwrites, NodeSize, LeafUsed;
    var fit := Stored(env, items, it, dirty);
    RemoveUsed(env, items, it.key);
    PutUsed(env, items, fit);
    if LeafUsed(env, Remove(items, it.key)) + NodeSize(env, fit.val) > env.PMax() { LeafMustSplit(env, items, fit); }
  }

  // --- Branches ---------------------------------------------------------------------------------

  lemma FlatReplace(kids: seq<Tree>, i: nat, mid: seq<Tree>)
    requires i < |kids|
    ensures Flat(kids[..i] + mid + kids[i + 1..]) == Flat(kids[..i]) + Flat(mid) + Flat(kids[i + 1..])
  {
    FlatConcat(kids[..i], mid);
    FlatConcat(kids[..i] + mid, kids[i + 1..]);
  }

  lemma ReplaceKid(env: Env, seps: seq<Sep>, kids: seq<Tree>, i: nat, kid: Tree, lo: int, hi: int, d: nat)
    requires env.Valid() && |seps| == |kids| && KidsWf(env, seps, kids, lo, hi, d) && i < |kids|
    requires Wf(env, kid, Bound(seps, i, lo, hi), Bound(seps, i + 1, lo, hi), d)
    ensures KidsWf(env, seps, kids[i := kid], lo, hi, d)
    ensures Flat(kids[i := kid]) == Flat(kids[..i]) + Items(kid) + Flat(kids[i + 1..])
  {
    hide Wf;
    assert kids[i := kid] == kids[..i] + [kid] + kids[i + 1..];
    FlatReplace(kids, i, [kid]);
    FlatOne(kid);
  }

  lemma InsertedWf(env: Env, seps: seq<Sep>, kids: seq<Tree>, i: nat, left: Tree, sep: int, right: Tree,
      lo: int, hi: int, d: nat)
    requires env.Valid() && |seps| == |kids| && Seps(seps, lo, hi) && KidsWf(env, seps, kids, lo, hi, d) && i < |kids|
    requires Bound(seps, i, lo, hi) <= sep <= Bound(seps, i + 1, lo, hi)
    requires Wf(env, left, Bound(seps, i, lo, hi), sep, d) && Wf(env, right, sep, Bound(seps, i + 1, lo, hi), d)
    ensures Seps(InsertSep(seps, i, sep), lo, hi)
    ensures KidsWf(env, InsertSep(seps, i, sep), InsertKid(kids, i, left, right), lo, hi, d)
    ensures Flat(InsertKid(kids, i, left, right))
         == Flat(kids[..i]) + (Items(left) + Items(right)) + Flat(kids[i + 1..])
  {
    hide Wf, Flat;
    var s, k := InsertSep(seps, i, sep), InsertKid(kids, i, left, right);
    FlatReplace(kids, i, [left, right]);
    FlatConcat([left], [right]);
    FlatOne(left);
    FlatOne(right);
    assert [left, right] == [left] + [right];
    forall j | 0 <= j < |k| ensures Wf(env, k[j], Bound(s, j, lo, hi), Bound(s, j + 1, lo, hi), d) {
      InsertedBounds(seps, i, sep, lo, hi, j);
      if j < i { assert k[j] == kids[j]; }
      if j > i + 1 { assert k[j] == kids[j - 1]; }
    }
    InsertedSeps(seps, i, sep, lo, hi);
  }

  lemma InsertedSeps(seps: seq<Sep>, i: nat, sep: int, lo: int, hi: int)
    requires Seps(seps, lo, hi) && i < |seps| && Bound(seps, i, lo, hi) <= sep <= Bound(seps, i + 1, lo, hi)
    ensures Seps(InsertSep(seps, i, sep), lo, hi)
  {
  }

  lemma InsertedBounds(seps: seq<Sep>, i: nat, sep: int, lo: int, hi: int, j: nat)
    requires Seps(seps, lo, hi) && i < |seps| && j <= |seps|
    ensures var s := InsertSep(seps, i, sep);
      && (j < i ==>
          Bound(s, j, lo, hi) == Bound(seps, j, lo, hi) && Bound(s, j + 1, lo, hi) == Bound(seps, j + 1, lo, hi))
      && (j == i ==> Bound(s, j, lo, hi) == Bound(seps, i, lo, hi) && Bound(s, j + 1, lo, hi) == sep)
      && (j == i + 1 ==> Bound(s, j, lo, hi) == sep && Bound(s, j + 1, lo, hi) == Bound(seps, i + 1, lo, hi))
      && (j > i + 1 ==>
          Bound(s, j, lo, hi) == Bound(seps, j - 1, lo, hi) && Bound(s, j + 1, lo, hi) == Bound(seps, j, lo, hi))
  {
  }

  /** The page over a child that was split: it always has a way to take the separator. */
  lemma PutBranchOk(env: Env, seps: seq<Sep>, kids: seq<Tree>, i: nat, left: Tree, sep: int, right: Tree,
      lo: int, hi: int, d: nat)
    requires env.Valid() && d > 1 && Wf(env, Branch(seps, kids), lo, hi, d) && i < |kids| == |seps|
    requires Bound(seps, i, lo, hi) <= sep <= Bound(seps, i + 1, lo, hi)
    requires Wf(env, left, Bound(seps, i, lo, hi), sep, d - 1) && Wf(env, right, sep, Bound(seps, i + 1, lo, hi), d - 1)
    ensures Yields(env, PutBranch(env, seps, kids, i, left, sep, right),
      Flat(kids[..i]) + (Items(left) + Items(right)) + Flat(kids[i + 1..]), lo, hi, d)
  {
    hide InsertSep, InsertKid, BranchUsed, SplitIndex, Yields, Wf;
    BranchParts(env, seps, kids, lo, hi, d);
    hide Page, Seps, KidsWf, BranchHasRoom;
    var s, k := InsertSep(seps, i, sep), InsertKid(kids, i, left, right);
    InsertedLengths(seps, kids, i, left, sep, right);
    InsertedWf(env, seps, kids, i, left, sep, right, lo, hi, d - 1);
    BranchRoom(env, |kids|);
    if BranchHasRoom(env, |kids|) {
      WholePage(env, s, k, lo, hi, d);
    } else {
      BranchSplits(env, |kids|, i + 1);
      CutPage(env, s, k, lo, hi, d, SplitIndex(BranchSizes(env, |k|), i + 1, env.PMax()));
    }
  }

  lemma BranchParts(env: Env, seps: seq<Sep>, kids: seq<Tree>, lo: int, hi: int, d: nat)
    requires env.Valid() && Wf(env, Branch(seps, kids), lo, hi, d)
    ensures d > 1 && |seps| == |kids| >= 2 && BranchUsed(env, |kids|) <= env.PMax()
    ensures Seps(seps, lo, hi) && KidsWf(env, seps, kids, lo, hi, d - 1)
  {
  }

  lemma WholePage(env: Env, s: seq<Sep>, k: seq<Tree>, lo: int, hi: int, d: nat)
    requires env.Valid() && d > 1 && |s| == |k| >= 2 && Seps(s, lo, hi) && KidsWf(env, s, k, lo, hi, d - 1)
    requires BranchUsed(env, |k|) <= env.PMax()
    ensures Yields(env, Done(Branch(s, k)), Flat(k), lo, hi, d)
  {
  }

  lemma InsertedLengths(seps: seq<Sep>, kids: seq<Tree>, i: nat, left: Tree, sep: int, right: Tree)
    requires i < |seps| == |kids|
    ensures |InsertSep(seps, i, sep)| == |InsertKid(kids, i, left, right)| == |kids| + 1
  {
  }

  /** Splitting a branch page in two. */
  lemma CutPage(env: Env, s: seq<Sep>, k: seq<Tree>, lo: int, hi: int, d: nat, m: nat)
    requires env.Valid() && d > 1 && |s| == |k| && Seps(s, lo, hi) && KidsWf(env, s, k, lo, hi, d - 1)
    requires 2 <= m <= |k| - 2
    requires BranchUsed(env, m) <= env.PMax() && BranchUsed(env, |k| - m) <= env.PMax()
    ensures s[m].Key?
    ensures Yields(env, Split(Branch(s[..m], k[..m]), s[m].k, Branch(DropSeps(s, m), k[m..])), Flat(k), lo, hi, d)
  {
    hide BranchUsed, Flat;
    CutKids(env, s, k, lo, hi, d - 1, m);
    FlatConcat(k[..m], k[m..]);
    assert k[..m] + k[m..] == k;
    assert Wf(env, Branch(s[..m], k[..m]), lo, s[m].k, d);
    assert Wf(env, Branch(DropSeps(s, m), k[m..]), s[m].k, hi, d);
    assert Items(Branch(s[..m], k[..m])) == Flat(k[..m]) && Items(Branch(DropSeps(s, m), k[m..])) == Flat(k[m..]);
  }

  /** Whether old data is overwritten is decided by the part of the items it is in. */
  lemma StoredMiddle(env: Env, a: seq<Item>, b: seq<Item>, c: seq<Item>, it: Item, dirty: bool, lo: int, hi: int)
    requires env.Valid() && Between(a, c, lo, it.key, hi)
    ensures Stored(env, a + b + c, it, dirty) == Stored(env, b, it, dirty)
  {
    hide Rank, Present;
    MiddleRank(a, b, c, lo, it.key, hi);
    PresentHas(b, it.key);
    assert Present(b, it.key) ==> (a + b + c)[|a| + Rank(b, it.key)] == b[Rank(b, it.key)];
  }

  lemma PresentHas(s: seq<Item>, k: int)
    ensures Present(s, k) ==> Rank(s, k) < |s|
  {
  }

  /** Storing an item below a page does to its items what it does to a sorted sequence,
      and keeps the tree in order, or fails exactly when the leaf has no room. */
  lemma {:induction false} PutTreeOk(env: Env, t: Tree, it: Item, dirty: bool, lo: int, hi: int, d: nat)
    requires env.Valid() && Wf(env, t, lo, hi, d) && lo <= it.key < hi
    ensures PutTree(env, t, it, dirty).PageFull? <==> NoRoom(env, LeafFor(t, it.key), it, dirty)
    ensures PutTree(env, t, it, dirty).PageFull? ||
      Yields(env, PutTree(env, t, it, dirty), Put(Items(t), Stored(env, Items(t), it, dirty)), lo, hi, d)
    decreases t
  {
    hide Put, Stored, NoRoom, PutLeaf, PutBranch;
    match t
    case Leaf(items) =>
      assert d == 1;
      PutLeafOk(env, items, it, dirty, lo, hi);
      LeafFullIff(env, items, it, dirty);
    case Branch(seps, kids) =>
      BranchParts(env, seps, kids, lo, hi, d);
      var i := ChildIndex(seps, it.key);
      ChildIndexBounds(seps, it.key, lo, hi);
      var l, h := Bound(seps, i, lo, hi), Bound(seps, i + 1, lo, hi);
      PutTreeOk(env, kids[i], it, dirty, l, h, d - 1);
      Around(env, seps, kids, lo, hi, d - 1, i, it.key);
      var a, b, c := Flat(kids[..i]), Items(kids[i]), Flat(kids[i + 1..]);
      StoredMiddle(env, a, b, c, it, dirty, l, h);
      MiddlePut(a, b, c, Stored(env, b, it, dirty), l, h);
      PutKidOk(env, seps, kids, i, PutTree(env, kids[i], it, dirty), Put(b, Stored(env, b, it, dirty)), lo, hi, d);
  }

  lemma PutKidOk(env: Env, seps: seq<Sep>, kids: seq<Tree>, i: nat, r: PutResult, all: seq<Item>, lo: int, hi: int,
          d: nat)
    requires env.Valid() && d > 1 && Wf(env, Branch(seps, kids), lo, hi, d) && i < |kids| == |seps|
    requires r.PageFull? || Yields(env, r, all, Bound(seps, i, lo, hi), Bound(seps, i + 1, lo, hi), d - 1)
    ensures PutKid(env, seps, kids, i, r).PageFull? <==> r.PageFull?
    ensures r.PageFull? ||
        Yields(env, PutKid(env, seps, kids, i, r), Flat(kids[..i]) + all + Flat(kids[i + 1..]), lo, hi, d)
  {
    hide PutBranch;
    BranchParts(env, seps, kids, lo, hi, d);
    match r
    case Done(kid) =>
      ReplaceKid(env, seps, kids, i, kid, lo, hi, d - 1);
      WholePage(env, seps, kids[i := kid], lo, hi, d);
    case Split(left, sep, right) =>
      PutBranchOk(env, seps, kids, i, left, sep, right, lo, hi, d);
    case PageFull =>
  }
}
