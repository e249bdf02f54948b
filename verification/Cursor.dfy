/**
 Cursors: a stack of pages and node indices from the root to a leaf, moved in place
 over a tree that does not change meanwhile.
 */
module Cursor {
  import opened Basics
  import opened PageSplit
  import opened BTree
  import opened BTreeDelete
  import opened CursorPath

  // --- Search within a page ----------------------------------------------------------------

  function LowSlot(t: Tree): nat { if t.Leaf? then 0 else 1 }

  /** The keys of a page are strictly increasing, slot 0 of a branch aside. */
  ghost predicate Keyed(t: Tree) {
    && (t.Branch? ==> |t.seps| == |t.kids| > 1)
    && forall i, j :: LowSlot(t) <= i < j < NumKeys(t) ==> KeyAt(t, i) < KeyAt(t, j)
  }

  /** `mdb_node_search`: binary search for the first key not below `k`. */
  method NodeSearch(t: Tree, k: int) returns (i: nat, exact: bool)
    requires Keyed(t)
    ensures LowSlot(t) <= i <= NumKeys(t)
    ensures forall j :: LowSlot(t) <= j < i ==> KeyAt(t, j) < k
    ensures forall j :: i <= j < NumKeys(t) ==> KeyAt(t, j) >= k
    ensures exact <==> i < NumKeys(t) && KeyAt(t, i) == k
  {
    var nkeys: int := NumKeys(t);
    var low: int := LowSlot(t);
    var high := nkeys - 1;
    var rc := 0;
    i := 0;
    while low <= high
      invariant LowSlot(t) <= low <= high + 1 <= nkeys
      invariant forall j :: LowSlot(t) <= j < low ==> KeyAt(t, j) < k
      invariant forall j :: high < j < nkeys ==> KeyAt(t, j) > k
      invariant rc == 0 ==> i == 0 && low == LowSlot(t) && high == nkeys - 1
      invariant rc > 0 ==> low == i + 1
      invariant rc < 0 ==> high == i - 1
    {
      i := (low + high) / 2;
      var nodekey := KeyAt(t, i);
      rc := if k == nodekey then 0 else if k > nodekey then 1 else -1;
      if rc == 0 { break; }
      if rc > 0 { low := i + 1; } else { high := i - 1; }
    }
    if rc > 0 { i := i + 1; }
    exact := rc == 0 && nkeys > 0;
  }

  lemma PageIsKeyed(env: Env, t: Tree, lo: int, hi: int, d: nat)
    requires env.Valid() && Wf(env, t, lo, hi, d)
    ensures Keyed(t)
  {
    PageIs(env, t, lo, hi, d);
    if t.Branch? {
      forall i, j | 1 <= i < j < |t.kids| ensures KeyAt(t, i) < KeyAt(t, j) {
        assert Wf(env, t.kids[i], Bound(t.seps, i, lo, hi), Bound(t.seps, i + 1, lo, hi), d - 1);
        PageItems(env, t.kids[i], Bound(t.seps, i, lo, hi), Bound(t.seps, i + 1, lo, hi), d - 1);
        BoundsOrdered(t.seps, i + 1, j, lo, hi);
      }
    }
  }

  /** The child that the search of a branch page leads to holds the range of `k`. */
  lemma ChildHolds(env: Env, t: Tree, lo: int, hi: int, d: nat, k: int, i: nat, exact: bool)
    requires env.Valid() && Wf(env, t, lo, hi, d) && t.Branch? && lo <= k < hi && 1 <= i <= NumKeys(t)
    requires |t.seps| == |t.kids|
    requires forall j :: 1 <= j < i ==> KeyAt(t, j) < k
    requires forall j :: i <= j < NumKeys(t) ==> KeyAt(t, j) >= k
    requires exact <==> i < NumKeys(t) && KeyAt(t, i) == k
    ensures var c := if i >= NumKeys(t) then NumKeys(t) - 1 else if exact then i else i - 1;
      Bound(t.seps, c, lo, hi) <= k < Bound(t.seps, c + 1, lo, hi)
  {
    PageIs(env, t, lo, hi, d);
    if exact {
      assert Wf(env, t.kids[i], Bound(t.seps, i, lo, hi), Bound(t.seps, i + 1, lo, hi), d - 1);
      PageItems(env, t.kids[i], Bound(t.seps, i, lo, hi), Bound(t.seps, i + 1, lo, hi), d - 1);
    } else if i < NumKeys(t) {
      assert KeyAt(t, i) > k;
      assert i > 1 ==> KeyAt(t, i - 1) < k;
    } else {
      assert KeyAt(t, i - 1) < k;
    }
  }

  lemma DescendRank(env: Env, t: Tree, lo: int, hi: int, d: nat, k: int, c: nat)
    requires env.Valid() && Wf(env, t, lo, hi, d) && t.Branch? && c < |t.kids| == |t.seps|
    requires Bound(t.seps, c, lo, hi) <= k < Bound(t.seps, c + 1, lo, hi)
    ensures Rank(Items(t), k) == |Flat(t.kids[..c])| + Rank(Items(t.kids[c]), k)
    ensures Present(Items(t), k) <==> Present(Items(t.kids[c]), k)
    ensures d > 1 && Wf(env, t.kids[c], Bound(t.seps, c, lo, hi), Bound(t.seps, c + 1, lo, hi), d - 1)
  {
    PageIs(env, t, lo, hi, d);
    Around(env, t.seps, t.kids, lo, hi, d - 1, c, k);
    MiddleRank(Flat(t.kids[..c]), Items(t.kids[c]), Flat(t.kids[c + 1..]), Bound(t.seps, c, lo, hi), k,
      Bound(t.seps, c + 1, lo, hi));
  }

  // --- The cursor ----------------------------------------------------------------------------

  datatype Target = ToFirst | ToLast | ToKey(k: int)

  /** Child `i` of a branch page is on the way to the target. */
  predicate Leads(t: Tree, target: Target, i: nat, lo: int, hi: int)
    requires t.Branch? && i < |t.kids| == |t.seps|
  {
    match target
    case ToFirst => i == 0
    case ToLast => i == |t.kids| - 1
    case ToKey(k) => Bound(t.seps, i, lo, hi) <= k < Bound(t.seps, i + 1, lo, hi)
  }

  /** The child that `mdb_page_search_root` goes to. */
  method ChildFor(t: Tree, target: Target, ghost env: Env, ghost lo: int, ghost hi: int, ghost d: nat)
    returns (i: nat)
    requires t.Branch? && |t.seps| == |t.kids| > 1
    requires target.ToKey? ==> env.Valid() && Wf(env, t, lo, hi, d) && lo <= target.k < hi && Keyed(t)
    ensures i < |t.kids| && Leads(t, target, i, lo, hi)
  {
    hide Wf;
    match target {
      case ToFirst => i := 0;
      case ToLast => i := NumKeys(t) - 1;
      case ToKey(k) =>
        var j, exact := NodeSearch(t, k);
        i := if j >= NumKeys(t) then NumKeys(t) - 1 else if exact then j else j - 1;
        ChildHolds(env, t, lo, hi, d, k, j, exact);
    }
  }

  class Cursor {
    const root: Option<Tree>
    ghost const env: Env
    ghost const lo: int
    ghost const hi: int
    ghost const d: nat
    var pg: seq<Tree>
    var ki: seq<nat>
    var snum: nat
    var initialized: bool
    var eof: bool

    /** The tree is in order. */
    ghost predicate TreeOk() { env.Valid() && (root.Some? ==> Wf(env, root.value, lo, hi, d)) }

    ghost function All(): seq<Item> { match root case None => [] case Some(t) => Items(t) }

    /** The stack leads from the root to a leaf. */
    ghost predicate OnLeaf()
      reads this
    {
      root.Some? && 0 < snum == d && snum <= |pg| == |ki| && Path(pg, ki, snum, d) && pg[0] == root.value
    }

    ghost predicate Valid()
      reads this
    {
      && TreeOk()
      && (eof ==> initialized)
      && (initialized ==> OnLeaf() && ki[snum - 1] <= NumKeys(pg[snum - 1]) && (eof ==> End(pg, ki, snum) == |All()|))
    }

    /** Where the cursor is among all items. */
    ghost function Pos(): nat
      requires Valid() && initialized
      reads this
    {
      Start(pg, ki, snum) + ki[snum - 1]
    }

    /** `mdb_cursor_init` */
    constructor (root: Option<Tree>, ghost env: Env, ghost lo: int, ghost hi: int, ghost d: nat)
      requires env.Valid() && (root.Some? ==> Wf(env, root.value, lo, hi, d))
      ensures Valid() && this.root == root && this.env == env && this.lo == lo && this.hi == hi && this.d == d
      ensures !initialized
    {
      this.root, this.env, this.lo, this.hi, this.d := root, env, lo, hi, d;
      pg, ki, snum, initialized, eof := [], [], 0, false, false;
    }

    /** `mdb_cursor_sibling`: replaces the page on top by the one beside it. */
    method Sibling(right: bool) returns (ok: bool)
      requires Path(pg, ki, snum, d)
      modifies this`pg, this`ki, this`snum
      ensures snum == old(snum) <= |pg| == |ki| && Path(pg, ki, snum, d) && pg[0] == old(pg)[0]
      ensures ok == old(CanMove(pg, ki, snum, right))
      ensures ok ==> Moved(old(pg), old(ki), pg, ki, snum, d, right)
      ensures !ok ==> pg == old(pg) && ki == old(ki)
      decreases snum
    {
      hide Moved, CanMove, Start, End, Shape, Items, Flat, Down;
      if snum < 2 {
        OnlyRoot(pg, ki, d, right);
        return false;
      }
      StepDown(pg, ki, snum, d);
      PathFrame(pg, ki, pg, ki, snum - 1, d);
      hide Path;
      ghost var n := snum;
      snum := snum - 1;
      var top := snum - 1;
      if HasSibling(pg[top], ki[top], right) {
        MovesBeside(pg, ki, n, d, right);
        var i := if right then ki[top] + 1 else ki[top] - 1;
        SetLast(ki, top, i, FirstIndex(pg[top].kids[i], right));
        ki := ki[top := i];
      } else {
        MovesAbove(pg, ki, n, d, right);
        ok := Sibling(right);
        if !ok {
          snum := snum + 1;
          return;
        }
        PushAfterMove(old(pg), old(ki), pg, ki, n, d, right);
      }
      ok := true;
      var mp := pg[top].kids[ki[top]];
      pg := Push(pg, snum, mp);
      ki := ki[..snum] + [FirstIndex(mp, right)];
      MovedIs(old(pg), old(ki), pg, ki, n, d, right);
      snum := snum + 1;
    }

    /** `mdb_page_search`: from the root down to the first leaf, the last leaf, or the
        leaf whose range holds a key. */
    method PageSearch(target: Target) returns (ok: bool)
      requires TreeOk() && (target.ToKey? ==> lo <= target.k < hi)
      modifies this
      ensures ok == root.Some?
      ensures !ok ==>
          pg == old(pg) && ki == old(ki) && snum == old(snum) && initialized == old(initialized) && eof == old(eof)
      ensures ok ==> OnLeaf() && initialized && !eof
      ensures ok && target.ToFirst? ==> Start(pg, ki, snum) == 0
      ensures ok && target.ToLast? ==> End(pg, ki, snum) == |All()|
      ensures ok && target.ToKey? ==>
        && Rank(All(), target.k) == Start(pg, ki, snum) + Rank(Items(pg[snum - 1]), target.k)
        && (Present(All(), target.k) <==> Present(Items(pg[snum - 1]), target.k))
    {
      hide Reached, Leads, Start, End, Rank, Items, Flat, Wf, Shape, Keyed, Path, Present;
      if root.None? { return false; }
      var mp := root.value;
      pg, ki, snum := [mp], if ki == [] then [0] else [ki[0]], 1;
      AtRoot(env, pg, ki, lo, hi, d);
      ghost var l, h := lo, hi;
      while mp.Branch?
        invariant |pg| == |ki| == snum > 0 && snum <= d && Path(pg, ki, snum, d) && pg[0] == root.value
        invariant mp == pg[snum - 1]
        invariant Reached(env, pg, ki, snum, d, target, l, h)
        decreases mp
      {
        ReachedPage(env, pg, ki, snum, d, target, l, h);
        var i := ChildFor(mp, target, env, l, h, d - (snum - 1));
        ReachedDown(env, pg, ki, snum, d, target, l, h, i);
        l, h := Bound(mp.seps, i, l, h), Bound(mp.seps, i + 1, l, h);
        Pushed(pg, ki, snum, d, i, 0);
        mp := mp.kids[i];
        pg := Push(pg, snum, mp);
        ki := ki[..snum - 1] + [i, 0];
        snum := snum + 1;
      }
      LeafReached(env, pg, ki, snum, d, target, l, h);
      initialized, eof := true, false;
      ok := true;
    }

    /** Puts index `k` on top of the stack. */
    method SetTop(k: nat)
      requires OnLeaf() && k <= NumKeys(pg[snum - 1])
      modifies this`ki
      ensures OnLeaf() && |ki| == |pg| && ki[snum - 1] == k && ki == old(ki)[snum - 1 := k]
      ensures Start(pg, ki, snum) == old(Start(pg, ki, snum)) && End(pg, ki, snum) == old(End(pg, ki, snum))
    {
      hide Start, End;
      PathFrame(pg, ki, pg, ki[snum - 1 := k], snum, d);
      StartFrame(pg, ki, pg, ki[snum - 1 := k], snum);
      ki := ki[snum - 1 := k];
    }

    /** The item under the cursor. */
    method Current() returns (it: Item)
      requires Valid() && initialized && ki[snum - 1] < NumKeys(pg[snum - 1])
      ensures Pos() < |All()| && it == All()[Pos()]
    {
      hide Start, End, Items, Path, Wf;
      LeafItems(pg, ki, snum, d);
      it := pg[snum - 1].items[ki[snum - 1]];
      assert it == All()[Start(pg, ki, snum)..End(pg, ki, snum)][ki[snum - 1]];
    }

    /** `mdb_cursor_first` */
    method First() returns (r: Option<Item>)
      requires Valid()
      modifies this
      ensures Valid()
      ensures r == if All() == [] then None else Some(All()[0])
      ensures r.Some? ==> initialized && !eof && Pos() == 0 && ki[snum - 1] < NumKeys(pg[snum - 1])
    {
      hide Start, End, Items, Path, Wf;
      if !initialized || snum > 1 {
        var ok := PageSearch(ToFirst);
        if !ok { return None; }
      } else {
        RootLeaf(pg, ki, d);
      }
      LeafItems(pg, ki, snum, d);
      initialized, eof := true, false;
      SetTop(0);
      var it := Current();
      r := Some(it);
    }

    /** `mdb_cursor_last` */
    method Last() returns (r: Option<Item>)
      requires Valid()
      modifies this
      ensures Valid()
      ensures r == if All() == [] then None else Some(All()[|All()| - 1])
      ensures r.Some? ==> initialized && eof && Pos() == |All()| - 1
    {
      hide TreeOk, Start, End, Items, Path;
      if !eof {
        if !initialized || snum > 1 {
          var ok := PageSearch(ToLast);
          if !ok { return None; }
        } else {
          RootLeaf(pg, ki, d);
        }
      }
      LeafItems(pg, ki, snum, d);
      SetTop(NumKeys(pg[snum - 1]) - 1);
      initialized, eof := true, true;
      var it := Current();
      r := Some(it);
    }

    /** `mdb_cursor_next`; at the end the cursor stays where it is and is marked. */
    method Next() returns (r: Option<Item>)
      requires Valid() && initialized
      modifies this
      ensures Valid() && initialized
      ensures var p := if old(ki[snum - 1] < NumKeys(pg[snum - 1])) then old(Pos()) + 1 else old(Pos());
        && r == (if old(eof) || p >= |All()| then None else Some(All()[p]))
        && (r.Some? ==> !eof && Pos() == p && ki[snum - 1] < NumKeys(pg[snum - 1]))
      ensures r.None? ==> eof && pg == old(pg) && ki == old(ki) && snum == old(snum)
    {
      hide TreeOk, Start, End, Items, Path, Moved, CanMove;
      if eof { return None; }
      LeafItems(pg, ki, snum, d);
      ghost var p := if ki[snum - 1] < NumKeys(pg[snum - 1]) then Pos() + 1 else Pos();
      if ki[snum - 1] + 1 >= NumKeys(pg[snum - 1]) {
        CanMoveIs(pg, ki, snum);
        var ok := Sibling(true);
        if !ok {
          eof := true;
          return None;
        }
        MovedRight(old(pg), old(ki), pg, ki, snum, d);
        LeafItems(pg, ki, snum, d);
      } else {
        SetTop(ki[snum - 1] + 1);
      }
      assert Valid() && Pos() == p && ki[snum - 1] < NumKeys(pg[snum - 1]);
      var it := Current();
      r := Some(it);
    }

    /** `mdb_cursor_prev` */
    method Prev() returns (r: Option<Item>)
      requires Valid() && initialized
      modifies this
      ensures Valid() && initialized
      ensures r.None? <==> old(Pos()) == 0
      ensures r.Some? ==>
          !eof && Pos() == old(Pos()) - 1 < |All()| && r.value == All()[Pos()] && ki[snum - 1] < NumKeys(pg[snum - 1])
      ensures r.None? ==> eof == old(eof) && pg == old(pg) && ki == old(ki) && snum == old(snum)
    {
      hide TreeOk, Start, End, Items, Path, Moved, CanMove;
      LeafItems(pg, ki, snum, d);
      if ki[snum - 1] == 0 {
        CanMoveIs(pg, ki, snum);
        var ok := Sibling(false);
        if !ok { return None; }
        MovedLeft(old(pg), old(ki), pg, ki, snum, d);
      } else {
        SetTop(ki[snum - 1] - 1);
      }
      eof := false;
      LeafItems(pg, ki, snum, d);
      var it := Current();
      r := Some(it);
    }

    /** The last part of `mdb_cursor_set`, on the leaf where the key belongs. */
    method SetOnPage(k: int, exact: bool) returns (r: Option<Item>)
      requires TreeOk() && OnLeaf() && initialized && (eof ==> End(pg, ki, snum) == |All()|)
      requires Rank(All(), k) == Start(pg, ki, snum) + Rank(Items(pg[snum - 1]), k)
      requires Present(All(), k) <==> Present(Items(pg[snum - 1]), k)
      modifies this
      ensures Valid() && initialized && SetResult(All(), k, exact, r)
      ensures r.Some? ==> !eof && Pos() == Rank(All(), k) && ki[snum - 1] < NumKeys(pg[snum - 1])
      ensures r.None? && !exact ==> eof
    {
      hide Start, End, Items, Path, Moved, CanMove, Rank, Present, Wf, Sorted, Keyed;
      LeafItems(pg, ki, snum, d);
      TreeSorted(env, root.value, lo, hi, d);
      LeafKeyed(All(), Start(pg, ki, snum), End(pg, ki, snum));
      var i, found := NodeSearch(pg[snum - 1], k);
      NodeSearchIsRank(pg[snum - 1], k, i, found);
      if exact && !found {
        SetTop(i);
        return None;
      }
      if i < NumKeys(pg[snum - 1]) {
        r := Land(i, k, exact);
      } else {
        SetTop(i);
        r := LandBeyond(k);
      }
    }

    /** The key is beyond this leaf: the next one has its place. */
    method LandBeyond(k: int) returns (r: Option<Item>)
      requires TreeOk() && OnLeaf() && initialized && ki[snum - 1] <= NumKeys(pg[snum - 1])
      requires Rank(All(), k) == End(pg, ki, snum)
      modifies this
      ensures Valid() && initialized && SetResult(All(), k, false, r)
      ensures r.Some? ==> !eof && Pos() == Rank(All(), k) && ki[snum - 1] < NumKeys(pg[snum - 1])
      ensures r.None? ==> eof
    {
      hide Start, End, Items, Path, Moved, CanMove, Rank, Present, Wf;
      CanMoveIs(pg, ki, snum);
      LeafItems(pg, ki, snum, d);
      var ok := Sibling(true);
      if !ok {
        eof := true;
        return None;
      }
      MovedRight(old(pg), old(ki), pg, ki, snum, d);
      LeafItems(pg, ki, snum, d);
      r := Land(0, k, false);
    }

    /** Positioning by a search from the root. */
    method SetFresh(k: int, exact: bool) returns (r: Option<Item>)
      requires Valid() && lo <= k < hi
      modifies this
      ensures Valid() && SetResult(All(), k, exact, r)
      ensures r.Some? ==> initialized && !eof && Pos() == Rank(All(), k) && ki[snum - 1] < NumKeys(pg[snum - 1])
      ensures r.None? && !exact && root.Some? ==> eof
    {
      hide Start, End, Items, Path, Rank;
      var ok := PageSearch(ToKey(k));
      if ok { r := SetOnPage(k, exact); } else { r := None; }
    }

    /** True if some page above the leaf has a node right of the one on the path. */
    method ParentsHaveRight() returns (b: bool)
      requires OnLeaf()
      ensures !b ==> End(pg, ki, snum) == |All()|
      ensures b ==> snum > 1
    {
      hide End, Items;
      var i := 0;
      while i < snum - 1
        invariant 0 <= i <= snum - 1
        invariant forall j :: 0 <= j < i ==> !HasSibling(pg[j], ki[j], true)
      {
        if HasSibling(pg[i], ki[i], true) { return true; }
        i := i + 1;
      }
      LastLeaf(pg, ki, snum, d);
      return false;
    }

    /** Ends a positioning call on the item at index `i` of the leaf. */
    method Land(i: nat, k: int, exact: bool) returns (r: Option<Item>)
      requires TreeOk() && OnLeaf() && i < NumKeys(pg[snum - 1]) && Start(pg, ki, snum) + i == Rank(All(), k)
      requires exact ==> Present(All(), k)
      modifies this
      ensures Valid() && SetResult(All(), k, exact, r)
      ensures r.Some? && initialized && !eof && Pos() == Rank(All(), k) && ki[snum - 1] < NumKeys(pg[snum - 1])
    {
      hide Start, End, Items, Path, Rank, Present, Wf;
      SetTop(i);
      initialized, eof := true, false;
      var it := Current();
      r := Some(it);
    }

    /** `mdb_cursor_set`: looks at the present leaf before it searches from the root. */
    method Set(k: int, exact: bool) returns (r: Option<Item>)
      requires Valid() && lo <= k < hi
      modifies this
      ensures Valid() && SetResult(All(), k, exact, r)
      ensures r.Some? ==> initialized && !eof && Pos() == Rank(All(), k) && ki[snum - 1] < NumKeys(pg[snum - 1])
    {
      hide Start, End, Items, Path, Rank, Present, Wf, Sorted;
      if initialized {
        OnThisLeaf(env, pg, ki, snum, d, lo, hi, k);
        var items := pg[snum - 1].items;
        var nkeys := |items|;
        if k == items[0].key {
          r := Land(0, k, exact);
          return;
        }
        if k > items[0].key {
          if nkeys > 1 {
            if k == items[nkeys - 1].key {
              r := Land(nkeys - 1, k, exact);
              return;
            }
            if k < items[nkeys - 1].key {
              var i := ki[snum - 1];
              if i < nkeys && items[i].key == k {
                r := Land(i, k, exact);
                return;
              }
              r := SetOnPage(k, exact);
              return;
            }
          }
          var more := ParentsHaveRight();
          if !more {
            SetTop(nkeys);
            return None;
          }
        }
        if snum == 1 {
          if !exact {
            r := Land(0, k, exact);
            return;
          }
          SetTop(0);
          return None;
        }
      }
      r := SetFresh(k, exact);
    }
  }

  /** First and then next until it fails: every item once, in order. */
  method Walk(c: Cursor) returns (s: seq<Item>)
    requires c.Valid()
    modifies c
    ensures c.Valid() && s == c.All()
  {
    s := [];
    var r := c.First();
    while r.Some?
      invariant c.Valid() && |s| <= |c.All()| && s == c.All()[..|s|]
      invariant if r.None? then |s| == |c.All()| else
        c.initialized && !c.eof && c.ki[c.snum - 1] < NumKeys(c.pg[c.snum - 1]) && c.Pos() == |s| < |c.All()| &&
            r.value == c.All()[|s|]
      decreases |c.All()| - |s|, r.Some?
    {
      s := s + [r.value];
      r := c.Next();
    }
  }

  /** Last and then previous until it fails: the same backwards. */
  method WalkBack(c: Cursor) returns (s: seq<Item>)
    requires c.Valid()
    modifies c
    ensures c.Valid() && s == c.All()
  {
    s := [];
    var r := c.Last();
    ghost var p := |c.All()|;
    while r.Some?
      invariant c.Valid() && 0 <= p <= |c.All()| && s == c.All()[p..]
      invariant if r.None? then p == 0 else c.initialized && p > 0 && c.Pos() == p - 1 && r.value == c.All()[p - 1]
      decreases p, r.Some?
    {
      s := [r.value] + s;
      p := p - 1;
      r := c.Prev();
    }
  }

  /** What the leaf under the cursor tells about the place of a key. */
  lemma OnThisLeaf(env: Env, pg: seq<Tree>, ki: seq<nat>, n: nat, d: nat, lo: int, hi: int, k: int)
    requires env.Valid() && Path(pg, ki, n, d) && n == d && Wf(env, pg[0], lo, hi, d)
    ensures pg[n - 1].Leaf? && pg[n - 1].items != [] && Items(pg[n - 1]) == pg[n - 1].items
    ensures var s, a, items := Items(pg[0]), Start(pg, ki, n), pg[n - 1].items;
      && Sorted(s)
      && (forall i :: 0 <= i < |items| && items[i].key == k ==> Rank(s, k) == a + i && Present(s, k))
      && (items[0].key < k < items[|items| - 1].key ==>
            Rank(s, k) == a + Rank(items, k) && (Present(s, k) <==> Present(items, k)))
      && (items[|items| - 1].key < k && End(pg, ki, n) == |s| ==> Rank(s, k) == |s|)
      && (k < items[0].key && n == 1 ==> a == 0 && Rank(s, k) == 0 && !Present(s, k))
  {
    hide Rank, Present, Sorted, Start, End, Items, Path, Wf;
    LeafItems(pg, ki, n, d);
    if n == 1 { RootLeaf(pg, ki, d); }
    TreeSorted(env, pg[0], lo, hi, d);
    RankOnLeaf(Items(pg[0]), Start(pg, ki, n), End(pg, ki, n), k);
    KeyOnLeaf(Items(pg[0]), Start(pg, ki, n), End(pg, ki, n), k);
  }

  lemma KeyOnLeaf(s: seq<Item>, a: nat, b: nat, k: int)
    requires Sorted(s) && a < b <= |s|
    ensures forall i :: 0 <= i < b - a && s[a..b][i].key == k ==> Rank(s, k) == a + i && Present(s, k)
  {
  }

  /** What a positioning call answers: with `exact` only the key itself will do,
      otherwise the smallest key not below it. */
  ghost predicate SetResult(s: seq<Item>, k: int, exact: bool, r: Option<Item>) {
    r == if exact && !Present(s, k) then None else if Rank(s, k) < |s| then Some(s[Rank(s, k)]) else None
  }

  lemma LeafKeyed(s: seq<Item>, a: nat, b: nat)
    requires Sorted(s) && a <= b <= |s|
    ensures Keyed(Leaf(s[a..b]))
  {
  }

  lemma NodeSearchIsRank(t: Tree, k: int, i: nat, exact: bool)
    requires t.Leaf? && i <= NumKeys(t)
    requires forall j :: 0 <= j < i ==> KeyAt(t, j) < k
    requires forall j :: i <= j < NumKeys(t) ==> KeyAt(t, j) >= k
    requires exact <==> i < NumKeys(t) && KeyAt(t, i) == k
    ensures i == Rank(Items(t), k) && (exact <==> Present(Items(t), k)) && Items(t) == t.items
  {
    assert forall j :: 0 <= j < i ==> t.items[j].key == KeyAt(t, j);
    RankIs(t.items, k, i);
  }

  lemma TreeSorted(env: Env, t: Tree, lo: int, hi: int, d: nat)
    requires env.Valid() && Wf(env, t, lo, hi, d)
    ensures Sorted(Items(t))
  {
    PageItems(env, t, lo, hi, d);
  }

  /** Where a key belongs that lies between the first and the last key of a leaf, beyond
      the last leaf, or before the first. */
  lemma RankOnLeaf(s: seq<Item>, a: nat, b: nat, k: int)
    requires Sorted(s) && a < b <= |s|
    ensures s[a..b][0].key <= k <= s[a..b][b - a - 1].key ==>
      Rank(s, k) == a + Rank(s[a..b], k) && (Present(s, k) <==> Present(s[a..b], k))
    ensures s[a..b][b - a - 1].key < k && b == |s| ==> Rank(s, k) == |s|
    ensures k < s[a..b][0].key && a == 0 ==> Rank(s, k) == 0 && !Present(s, k)
  {
    hide Rank;
    assert s[a..b][0] == s[a] && s[a..b][b - a - 1] == s[b - 1];
    if s[a].key <= k <= s[b - 1].key {
      var r := Rank(s[a..b], k);
      assert s[a..b][b - a - 1] == s[b - 1];
      assert s[a + r] == s[a..b][r];
      assert forall i :: a <= i < a + r ==> s[i] == s[a..b][i - a];
      RankIs(s, k, a + r);
    }
    if s[b - 1].key < k && b == |s| { RankIs(s, k, |s|); }
    if k < s[a].key && a == 0 { RankIs(s, k, 0); }
  }

  /** No page on the way has a right sibling: the leaf is the last one. */
  lemma {:induction false} LastLeaf(pg: seq<Tree>, ki: seq<nat>, n: nat, d: nat)
    requires Path(pg, ki, n, d) && forall j :: 0 <= j < n - 1 ==> !HasSibling(pg[j], ki[j], true)
    ensures End(pg, ki, n) == |Items(pg[0])|
  {
    if n > 1 {
      StepDown(pg, ki, n, d);
      assert !HasSibling(pg[n - 2], ki[n - 2], true);
      NextKid(pg, ki, n, d);
      LastLeaf(pg, ki, n - 1, d);
    }
  }

  /** A leaf's items are those of the tree from where it starts. */
  lemma LeafItems(pg: seq<Tree>, ki: seq<nat>, n: nat, d: nat)
    requires Path(pg, ki, n, d) && n == d
    ensures 0 < n <= |pg| == |ki| && pg[n - 1].Leaf? && NumKeys(pg[n - 1]) == |pg[n - 1].items| > 0
    ensures End(pg, ki, n) == Start(pg, ki, n) + NumKeys(pg[n - 1]) <= |Items(pg[0])|
    ensures Items(pg[0])[Start(pg, ki, n)..End(pg, ki, n)] == Items(pg[n - 1]) == pg[n - 1].items
  {
    PathShape(pg, ki, n, d);
    ItemsOn(pg, ki, n, d);
  }

  lemma RootLeaf(pg: seq<Tree>, ki: seq<nat>, d: nat)
    requires Path(pg, ki, 1, d)
    ensures Start(pg, ki, 1) == 0 && End(pg, ki, 1) == |Items(pg[0])|
  {
  }

  lemma CanMoveIs(pg: seq<Tree>, ki: seq<nat>, n: nat)
    requires 0 < n <= |pg| == |ki|
    ensures CanMove(pg, ki, n, true) <==> End(pg, ki, n) < |Items(pg[0])|
    ensures CanMove(pg, ki, n, false) <==> Start(pg, ki, n) > 0
  {
  }

  lemma MovedRight(pg: seq<Tree>, ki: seq<nat>, pg': seq<Tree>, ki': seq<nat>, n: nat, d: nat)
    requires 0 < n <= |pg| == |ki| && Moved(pg, ki, pg', ki', n, d, true)
    ensures Start(pg', ki', n) == End(pg, ki, n) && ki'[n - 1] == 0
  {
  }

  lemma MovedLeft(pg: seq<Tree>, ki: seq<nat>, pg': seq<Tree>, ki': seq<nat>, n: nat, d: nat)
    requires 0 < n <= |pg| == |ki| && Moved(pg, ki, pg', ki', n, d, false)
    ensures End(pg', ki', n) == Start(pg, ki, n) && ki'[n - 1] == NumKeys(pg'[n - 1]) - 1
  {
  }

  /** What the descent keeps: it stays at the left or the right edge, or above the place
      of the key. */
  ghost predicate Reached(env: Env, pg: seq<Tree>, ki: seq<nat>, n: nat, d: nat, target: Target, l: int, h: int)
    requires 0 < n <= |pg| == |ki|
  {
    match target
    case ToFirst => Start(pg, ki, n) == 0
    case ToLast => End(pg, ki, n) == |Items(pg[0])|
    case ToKey(k) =>
      && env.Valid() && n <= d && Wf(env, pg[n - 1], l, h, d - (n - 1)) && l <= k < h
      && Rank(Items(pg[0]), k) == Start(pg, ki, n) + Rank(Items(pg[n - 1]), k)
      && (Present(Items(pg[0]), k) <==> Present(Items(pg[n - 1]), k))
  }

  lemma AtRoot(env: Env, pg: seq<Tree>, ki: seq<nat>, lo: int, hi: int, d: nat)
    requires env.Valid() && |pg| == |ki| == 1 && Wf(env, pg[0], lo, hi, d)
    ensures Path(pg, ki, 1, d) && d > 0
    ensures forall target: Target :: (target.ToKey? ==> lo <= target.k < hi) ==>
              Reached(env, pg, ki, 1, d, target, lo, hi)
  {
    ShapeOfWf(env, pg[0], lo, hi, d);
    PageIs(env, pg[0], lo, hi, d);
  }

  lemma BranchShape(t: Tree, d: nat)
    requires Shape(t, d)
    ensures NumKeys(t) > 0 && (t.Branch? ==> d > 1 && |t.seps| == |t.kids| > 1) && (t.Leaf? ==> d == 1)
  {
  }

  lemma ReachedPage(env: Env, pg: seq<Tree>, ki: seq<nat>, n: nat, d: nat, target: Target, l: int, h: int)
    requires 0 < n <= |pg| == |ki| && Path(pg, ki, n, d) && Reached(env, pg, ki, n, d, target, l, h)
    ensures n <= d && NumKeys(pg[n - 1]) > 0
    ensures pg[n - 1].Branch? ==> n < d && |pg[n - 1].seps| == |pg[n - 1].kids| > 1
    ensures target.ToKey? ==>
      env.Valid() && Wf(env, pg[n - 1], l, h, d - (n - 1)) && l <= target.k < h && Keyed(pg[n - 1])
  {
    hide Wf, Keyed, Items, Rank, Present, Start, End;
    PathShape(pg, ki, n, d);
    BranchShape(pg[n - 1], d - (n - 1));
    if target.ToKey? { PageIsKeyed(env, pg[n - 1], l, h, d - (n - 1)); }
  }

  lemma ReachedDown(env: Env, pg: seq<Tree>, ki: seq<nat>, n: nat, d: nat, target: Target, l: int, h: int, i: nat)
    requires Path(pg, ki, n, d) && n < d && Reached(env, pg, ki, n, d, target, l, h)
    requires pg[n - 1].Branch? && i < |pg[n - 1].kids| == |pg[n - 1].seps|
    requires Leads(pg[n - 1], target, i, l, h)
    ensures Reached(env, Push(pg, n, pg[n - 1].kids[i]), ki[..n - 1] + [i, 0], n + 1, d, target,
      Bound(pg[n - 1].seps, i, l, h), Bound(pg[n - 1].seps, i + 1, l, h))
  {
    assert 0 < n <= |pg| == |ki| && End(pg, ki, n) == Start(pg, ki, n) + |Items(pg[n - 1])|;
    hide Path, Start, End, Items, Flat, Rank, Present, Wf, Bound;
    Pushed(pg, ki, n, d, i, 0);
    var t, pg', ki' := pg[n - 1], Push(pg, n, pg[n - 1].kids[i]), ki[..n - 1] + [i, 0];
    assert |pg'| == |ki'| == n + 1 && pg'[0] == pg[0] && pg'[n] == t.kids[i];
    hide Push;
    match target
    case ToFirst => EdgeKids(t);
    case ToLast => EdgeKids(t);
    case ToKey(k) => DescendRank(env, t, l, h, d - (n - 1), k, i);
  }

  /** Nothing is left of the first child, and nothing right of the last. */
  lemma EdgeKids(t: Tree)
    requires t.Branch? && t.kids != []
    ensures Flat(t.kids[..0]) == []
    ensures var i := |t.kids| - 1; |Items(t)| == |Flat(t.kids[..i])| + |Items(t.kids[i])|
  {
    assert Flat(t.kids[..0]) == [] && Flat([]) == [];
    BranchItems(t);
    hide Flat, Items;
    var i := |t.kids| - 1;
    FlatAt(t.kids, i);
    assert t.kids[i + 1..] == [];
  }

  lemma LeafReached(env: Env, pg: seq<Tree>, ki: seq<nat>, n: nat, d: nat, target: Target, l: int, h: int)
    requires Path(pg, ki, n, d) && Reached(env, pg, ki, n, d, target, l, h) && pg[n - 1].Leaf?
    ensures n == d
    ensures target.ToFirst? ==> Start(pg, ki, n) == 0
    ensures target.ToLast? ==> End(pg, ki, n) == |Items(pg[0])|
    ensures target.ToKey? ==>
      && Rank(Items(pg[0]), target.k) == Start(pg, ki, n) + Rank(Items(pg[n - 1]), target.k)
      && (Present(Items(pg[0]), target.k) <==> Present(Items(pg[n - 1]), target.k))
  {
    PathShape(pg, ki, n, d);
  }
}
