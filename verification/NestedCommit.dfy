/**
 Committing a nested transaction (`mdb_txn_commit` with a parent): the child's
 dirty list is merged into the parent's in place, from the tail, and the pages the
 child dirtied leave the parent's spill list.
 */
module NestedCommit {

  /** Capacity of a dirty list: MDB_IDL_UM_MAX. */
  const UM_MAX := 0x1FFFF

  /** One element of an ID2 list: a page number and its memory. */
  datatype Entry = Entry(mid: nat, mptr: int)

  /** Ascending page numbers, none twice and none 0. */
  ghost predicate Sorted(s: seq<Entry>) {
    && (forall i, j :: 0 <= i < j < |s| ==> s[i].mid < s[j].mid)
    && (forall i :: 0 <= i < |s| ==> s[i].mid > 0)
  }

  function Last(s: seq<Entry>): Entry
    requires s != []
  {
    s[|s| - 1]
  }

  function Init(s: seq<Entry>): seq<Entry>
    requires s != []
  {
    s[..|s| - 1]
  }

  /** Both lists in order; where both have a page, the child's copy. */
  function Union(parent: seq<Entry>, child: seq<Entry>): (r: seq<Entry>)
    ensures |r| >= |parent| && |r| >= |child|
    decreases |parent| + |child|
  {
    if child == [] then parent
    else if parent == [] then child
    else if Last(child).mid < Last(parent).mid then Union(Init(parent), child) + [Last(parent)]
    else if Last(child).mid == Last(parent).mid then Union(Init(parent), Init(child)) + [Last(child)]
    else Union(parent, Init(child)) + [Last(child)]
  }

  ghost predicate Has(s: seq<Entry>, e: Entry) { exists i :: 0 <= i < |s| && s[i] == e }

  ghost predicate HasPage(s: seq<Entry>, p: nat) { exists i :: 0 <= i < |s| && s[i].mid == p }

  lemma HasSplit(s: seq<Entry>, x: Entry, e: Entry)
    ensures Has(s + [x], e) <==> Has(s, e) || e == x
    ensures HasPage(s + [x], e.mid) <==> HasPage(s, e.mid) || e.mid == x.mid
  {
    var t := s + [x];
    if Has(s, e) { var i :| 0 <= i < |s| && s[i] == e; assert t[i] == e; }
    if HasPage(s, e.mid) { var i :| 0 <= i < |s| && s[i].mid == e.mid; assert t[i].mid == e.mid; }
    assert t[|s|] == x;
  }

  lemma NotBelowLast(s: seq<Entry>, p: nat)
    requires Sorted(s) && s != [] && p > Last(s).mid
    ensures !HasPage(s, p)
  {
  }

  lemma HasItsPage(s: seq<Entry>, e: Entry)
    ensures Has(s, e) ==> HasPage(s, e.mid)
  {
  }

  lemma InitKeeps(s: seq<Entry>)
    requires Sorted(s)
    ensures s != [] ==> Sorted(Init(s))
  {
  }

  /** The union holds every page of the child, and those of the parent that the
      child does not have. */
  lemma {:induction false} UnionHas(parent: seq<Entry>, child: seq<Entry>, e: Entry)
    requires Sorted(parent) && Sorted(child)
    ensures Has(Union(parent, child), e) <==> Has(child, e) || (Has(parent, e) && !HasPage(child, e.mid))
    decreases |parent| + |child|
  {
    assert child == [] ==> !Has(child, e) && !HasPage(child, e.mid);
    assert parent == [] ==> !Has(parent, e);
    InitKeeps(parent);
    InitKeeps(child);
    hide Has, HasPage, Sorted;
    if child != [] && parent != [] {
      HasSplit(Init(parent), Last(parent), e);
      HasSplit(Init(child), Last(child), e);
      assert parent == Init(parent) + [Last(parent)] && child == Init(child) + [Last(child)];
      if Last(child).mid < Last(parent).mid {
        UnionHas(Init(parent), child, e);
        HasSplit(Union(Init(parent), child), Last(parent), e);
        if e == Last(parent) { NotBelowLast(child, e.mid); }
      } else if Last(child).mid == Last(parent).mid {
        UnionHas(Init(parent), Init(child), e);
        HasSplit(Union(Init(parent), Init(child)), Last(child), e);
      } else {
        UnionHas(parent, Init(child), e);
        HasSplit(Union(parent, Init(child)), Last(child), e);
        NotBelowLast(parent, Last(child).mid);
        HasItsPage(parent, e);
      }
    }
  }

  /** All page numbers of a list are below `hi`. */
  ghost predicate Below(s: seq<Entry>, hi: nat) { forall i :: 0 <= i < |s| ==> s[i].mid < hi }

  lemma SnocSorted(s: seq<Entry>, x: Entry, hi: nat)
    requires Sorted(s) && Below(s, x.mid) && 0 < x.mid < hi
    ensures Sorted(s + [x]) && Below(s + [x], hi)
  {
  }

  lemma InitSorted(s: seq<Entry>, hi: nat)
    requires Sorted(s) && s != [] && Below(s, hi)
    ensures Sorted(Init(s)) && Below(Init(s), Last(s).mid) && 0 < Last(s).mid < hi
    ensures forall p :: p > Last(s).mid ==> Below(s, p)
  {
  }

  lemma {:induction false} UnionSorted(parent: seq<Entry>, child: seq<Entry>, hi: nat)
    requires Sorted(parent) && Sorted(child) && Below(parent, hi) && Below(child, hi)
    ensures Sorted(Union(parent, child)) && Below(Union(parent, child), hi)
    decreases |parent| + |child|
  {
    hide Sorted, Below;
    if child != [] && parent != [] {
      InitSorted(parent, hi);
      InitSorted(child, hi);
      if Last(child).mid < Last(parent).mid {
        UnionSorted(Init(parent), child, Last(parent).mid);
        SnocSorted(Union(Init(parent), child), Last(parent), hi);
      } else if Last(child).mid == Last(parent).mid {
        UnionSorted(Init(parent), Init(child), Last(child).mid);
        SnocSorted(Union(Init(parent), Init(child)), Last(child), hi);
      } else {
        UnionSorted(parent, Init(child), Last(child).mid);
        SnocSorted(Union(parent, Init(child)), Last(child), hi);
      }
    }
  }

  // --- The merge loop --------------------------------------------------------------

  /** The list in an ID2 buffer: its length is the mid of slot 0. */
  function ListOf(a: seq<Entry>): seq<Entry>
    requires |a| > 0 && a[0].mid < |a|
  {
    a[1..a[0].mid + 1]
  }

  /** The buffer while merging: `x` parent entries still to be placed at its start,
      and the merged entries `r` from slot `i` + 1 to slot `len`. */
  ghost predicate Merging(v: seq<Entry>, parent: seq<Entry>, child: seq<Entry>, x: int, y: int, i: int, len: int,
          r: seq<Entry>) {
    && 0 <= x <= |parent| && 0 <= y <= |child| && x <= i <= len < |v| && |r| == len - i
    && v[0].mid == 0 && |Union(parent, child)| <= len
    && v[1..x + 1] == parent[..x]
    && v[i + 1..len + 1] == r
    && Union(parent, child) == Union(parent[..x], child[..y]) + r
    && i == |Union(parent[..x], child[..y])| + (len - |Union(parent, child)|)
  }

  lemma MergingStart(v: seq<Entry>, parent: seq<Entry>, child: seq<Entry>, len: int)
    requires |v| > 0 && |parent| < |v| && v[0].mid == 0 && v[1..|parent| + 1] == parent
    requires |Union(parent, child)| <= len < |v|
    ensures Merging(v, parent, child, |parent|, |child|, len, len, [])
  {
    assert parent[..|parent|] == parent && child[..|child|] == child;
  }

  /** What the union does with the last entries. */
  lemma UnionLast(p: seq<Entry>, c: seq<Entry>)
    requires c != []
    ensures p == [] || Last(c).mid > Last(p).mid ==> Union(p, c) == Union(p, Init(c)) + [Last(c)]
    ensures p != [] && Last(c).mid == Last(p).mid ==> Union(p, c) == Union(Init(p), Init(c)) + [Last(c)]
    ensures p != [] && Last(c).mid < Last(p).mid ==> Union(p, c) == Union(Init(p), c) + [Last(p)]
  {
  }

  lemma UnionAt(parent: seq<Entry>, child: seq<Entry>, x: nat, y: nat)
    requires x <= |parent| && 0 < y <= |child|
    ensures var u, e := Union(parent[..x], child[..y]), child[y - 1];
      && (x == 0 || e.mid > parent[x - 1].mid ==> u == Union(parent[..x], child[..y - 1]) + [e])
      && (x > 0 && e.mid == parent[x - 1].mid ==> u == Union(parent[..x - 1], child[..y - 1]) + [e])
      && (x > 0 && e.mid < parent[x - 1].mid ==> u == Union(parent[..x - 1], child[..y]) + [parent[x - 1]])
  {
    hide Union;
    UnionLast(parent[..x], child[..y]);
    assert Init(child[..y]) == child[..y - 1];
    if x > 0 { assert Init(parent[..x]) == parent[..x - 1]; }
  }

  /** Slot `x` holds the next parent entry, or a 0 below every page number. */
  lemma MergingRead(v: seq<Entry>, parent: seq<Entry>, child: seq<Entry>, x: int, y: int, i: int, len: int,
          r: seq<Entry>)
    requires Merging(v, parent, child, x, y, i, len, r)
    ensures 0 <= x <= |parent| && x <= i <= len < |v| && 0 <= y <= |child|
    ensures if x == 0 then v[x].mid == 0 else v[x] == parent[x - 1]
  {
  }

  /** Puts entry `e` in front of the merged ones; `x` and `y` as if the union of
      the remaining entries lost it. */
  lemma MergingPut(v: seq<Entry>, parent: seq<Entry>, child: seq<Entry>, x: int, y: int, i: int, len: int,
          r: seq<Entry>, e: Entry, x': int, y': int)
    requires Merging(v, parent, child, x, y, i, len, r) && 0 <= x' <= x && 0 <= y' <= y
    requires Union(parent[..x], child[..y]) == Union(parent[..x'], child[..y']) + [e]
    ensures i > x' && Merging(v[i := e], parent, child, x', y', i - 1, len, [e] + r)
  {
    Shifted(v, parent, x, i, len, r, e, x');
    assert Union(parent[..x'], child[..y']) + [e] + r == Union(parent[..x'], child[..y']) + ([e] + r);
  }

  lemma MergingStep(v: seq<Entry>, parent: seq<Entry>, child: seq<Entry>, x: int, y: int, i: int, len: int,
          r: seq<Entry>)
    requires Merging(v, parent, child, x, y, i, len, r) && y > 0 && Sorted(child)
    ensures 0 <= x <= |parent| && x <= i <= len < |v| && 0 < i && y <= |child|
    ensures child[y - 1].mid < v[x].mid ==>
        x > 0 && Merging(v[i := v[x]], parent, child, x - 1, y, i - 1, len, [v[x]] + r)
    ensures child[y - 1].mid == v[x].mid ==>
        x > 0 && Merging(v[i := child[y - 1]], parent, child, x - 1, y - 1, i - 1, len, [child[y - 1]] + r)
    ensures child[y - 1].mid > v[x].mid ==>
        Merging(v[i := child[y - 1]], parent, child, x, y - 1, i - 1, len, [child[y - 1]] + r)
  {
    assert y <= |child| && child[y - 1].mid > 0;
    hide Merging, Sorted, Union;
    MergingRead(v, parent, child, x, y, i, len, r);
    UnionAt(parent, child, x, y);
    if child[y - 1].mid < v[x].mid {
      MergingPut(v, parent, child, x, y, i, len, r, v[x], x - 1, y);
    } else if child[y - 1].mid == v[x].mid {
      MergingPut(v, parent, child, x, y, i, len, r, child[y - 1], x - 1, y - 1);
    } else {
      MergingPut(v, parent, child, x, y, i, len, r, child[y - 1], x, y - 1);
    }
  }

  lemma Shifted(v: seq<Entry>, parent: seq<Entry>, x: int, i: int, len: int, r: seq<Entry>, e: Entry, x': int)
    requires 0 <= x' <= x <= |parent| && x <= i <= len < |v| && x' < i
    requires v[1..x + 1] == parent[..x] && v[i + 1..len + 1] == r
    ensures var w := v[i := e]; w[0] == v[0] && w[1..x' + 1] == parent[..x'] && w[i..len + 1] == [e] + r
  {
    var w := v[i := e];
    assert w[1..x' + 1] == v[1..x + 1][..x'];
    assert w[i..len + 1] == [e] + v[i + 1..len + 1];
  }

  /** The final loop of the merge, with `len` as computed before it. The assertion
      i == x after the loop holds exactly when `len` is the size of the union, and
      then the parent's list is the union. */
  method MergeDirty(dst: array<Entry>, src: array<Entry>, len: nat) returns (ok: bool)
    requires dst != src && dst.Length > 0 && src.Length > 0 && dst[0].mid < dst.Length && src[0].mid < src.Length
    requires Sorted(ListOf(dst[..])) && Sorted(ListOf(src[..]))
    requires |Union(ListOf(dst[..]), ListOf(src[..]))| <= len < dst.Length
    modifies dst
    ensures ok <==> len == |Union(old(ListOf(dst[..])), ListOf(src[..]))|
    ensures dst[0].mid == len
    ensures ok ==> ListOf(dst[..]) == Union(old(ListOf(dst[..])), ListOf(src[..]))
  {
    hide Merging, Sorted, Union;
    ghost var parent, child := ListOf(dst[..]), ListOf(src[..]);
    ghost var r: seq<Entry> := [];
    var x, y, i := dst[0].mid, src[0].mid, len;
    dst[0] := dst[0].(mid := 0);
    MergingStart(dst[..], parent, child, len);
    while y > 0
      invariant 0 <= y <= |child| && child == ListOf(src[..])
      invariant Merging(dst[..], parent, child, x, y, i, len, r)
    {
      var yp := src[y].mid;
      assert src[y] == child[y - 1];
      MergingStep(dst[..], parent, child, x, y, i, len, r);
      while yp < dst[x].mid
        invariant 0 <= x <= i <= len < dst.Length && Merging(dst[..], parent, child, x, y, i, len, r)
        invariant child == ListOf(src[..])
        decreases x
      {
        MergingStep(dst[..], parent, child, x, y, i, len, r);
        r := [dst[x]] + r;
        dst[i] := dst[x];
        i := i - 1;
        x := x - 1;
      }
      MergingStep(dst[..], parent, child, x, y, i, len, r);
      if yp == dst[x].mid { x := x - 1; }   // free(dst[x].mptr)
      dst[i] := src[y];
      r := [src[y]] + r;
      i := i - 1;
      y := y - 1;
    }
    ok := i == x;
    ghost var v := dst[..];
    dst[0] := dst[0].(mid := len);
    MergingEnd(v, dst[..], parent, child, x, i, len, r);
  }

  lemma MergingEnd(v: seq<Entry>, w: seq<Entry>, parent: seq<Entry>, child: seq<Entry>, x: int, i: int, len: int,
          r: seq<Entry>)
    requires Merging(v, parent, child, x, 0, i, len, r) && |v| > 0 && w == v[0 := v[0].(mid := len)]
    ensures i == x <==> len == |Union(parent, child)|
    ensures len < |w| && (i == x ==> ListOf(w) == Union(parent, child))
  {
  }

  // --- Computing the length first -----------------------------------------------------

  /** `mdb_mid2l_search`: the first position whose page number is not below `id`. */
  method Search2(a: array<Entry>, id: nat) returns (cursor: nat)
    requires a.Length > 0 && a[0].mid < a.Length && Sorted(ListOf(a[..]))
    ensures 1 <= cursor <= a[0].mid + 1
    ensures forall k :: 0 <= k < cursor - 1 ==> ListOf(a[..])[k].mid < id
    ensures forall k :: cursor - 1 <= k < |ListOf(a[..])| ==> ListOf(a[..])[k].mid >= id
  {
    ghost var s := ListOf(a[..]);
    var base, n := 0, a[0].mid;
    cursor := 1;
    var val := 0;
    while 0 < n
      invariant 0 <= base && 0 <= n && base + n <= |s|
      invariant forall k :: 0 <= k < base ==> s[k].mid < id
      invariant forall k :: base + n <= k < |s| ==> s[k].mid > id
      invariant n == 0 ==> cursor + (if val > 0 then 1 else 0) == base + 1
      invariant 1 <= cursor
    {
      var pivot := n / 2;
      cursor := base + pivot + 1;
      assert a[cursor] == s[cursor - 1];
      val := if id < a[cursor].mid then -1 else if id > a[cursor].mid then 1 else 0;
      if val < 0 {
        n := pivot;
      } else if val > 0 {
        base := cursor;
        n := n - (pivot + 1);
      } else {
        return;
      }
    }
    if val > 0 { cursor := cursor + 1; }
  }

  /** Child entries above every parent entry just follow the rest. */
  lemma {:induction false} UnionAbove(p: seq<Entry>, c: seq<Entry>, y: nat)
    requires y <= |c| && forall k :: y <= k < |c| ==> p == [] || c[k].mid > Last(p).mid
    ensures |Union(p, c)| == |Union(p, c[..y])| + (|c| - y)
    decreases |c|
  {
    if y == |c| {
      assert c[..y] == c;
    } else {
      UnionLast(p, c);
      UnionAbove(p, Init(c), y);
      assert Init(c)[..y] == c[..y];
    }
  }

  /** How many entries the rest of the two lists have in common. */
  ghost function Shared(p: seq<Entry>, c: seq<Entry>, x: nat, y: nat): int
    requires x <= |p| && y <= |c|
  {
    x + y - |Union(p[..x], c[..y])|
  }

  lemma SharedStep(p: seq<Entry>, c: seq<Entry>, x: nat, y: nat)
    requires x <= |p| && 0 < y <= |c|
    ensures x > 0 && c[y - 1].mid < p[x - 1].mid ==> Shared(p, c, x, y) == Shared(p, c, x - 1, y)
    ensures x > 0 && c[y - 1].mid == p[x - 1].mid ==> Shared(p, c, x, y) == Shared(p, c, x - 1, y - 1) + 1
    ensures x == 0 || c[y - 1].mid > p[x - 1].mid ==> Shared(p, c, x, y) == Shared(p, c, x, y - 1)
  {
    UnionLast(p[..x], c[..y]);
    assert Init(c[..y]) == c[..y - 1];
    if x > 0 { assert Init(p[..x]) == p[..x - 1]; }
  }

  /** The counting branch, for a parent that is itself nested: the size of the
      union without building it. Slot 0 of `dst` has been set to 0. */
  method CountUnion(dst: array<Entry>, src: array<Entry>, x: nat) returns (len: nat)
    requires dst != src && x < dst.Length && dst[0].mid == 0 && src.Length > 0 && src[0].mid < src.Length
    requires Sorted(dst[1..x + 1]) && Sorted(ListOf(src[..]))
    ensures len == |Union(dst[1..x + 1], ListOf(src[..]))|
  {
    hide Shared, Union;
    ghost var p, c, last := dst[1..x + 1], ListOf(src[..]), dst[x];
    assert x > 0 ==> |p| == x && p[x - 1] == dst[1..x + 1][x - 1] == dst[x];
    var n := x + src[0].mid;
    var y := Search2(src, dst[x].mid + 1);
    y := y - 1;
    ghost var y0 := y;
    assert c == ListOf(src[..]);
    forall k | y <= k < |c| ensures p == [] || c[k].mid > Last(p).mid { if x > 0 { assert Last(p) == last; } }
    UnionAbove(p, c, y);
    assert p[..x] == p;
    SharedAll(p, c, x, y);
    var i := x;
    while y > 0 && i > 0
      invariant 0 <= i <= x && 0 <= y <= |c|
      invariant |Union(p, c)| == n - Shared(p, c, i, y)
    {
      var yp := src[y].mid;
      assert src[y] == c[y - 1];
      while yp < dst[i].mid
        invariant 0 <= i <= x && |Union(p, c)| == n - Shared(p, c, i, y)
        decreases i
      {
        assert dst[i] == p[i - 1];
        SharedStep(p, c, i, y);
        i := i - 1;
      }
      SharedStep(p, c, i, y);
      if i > 0 { assert dst[i] == p[i - 1]; }
      if yp == dst[i].mid {
        i := i - 1;
        n := n - 1;
      }
      y := y - 1;
    }
    SharedNone(p, c, i, y);
    len := n;
  }

  lemma SharedAll(p: seq<Entry>, c: seq<Entry>, x: nat, y: nat)
    requires x == |p| && y <= |c| && |Union(p, c)| == |Union(p, c[..y])| + (|c| - y)
    ensures |Union(p, c)| == x + |c| - Shared(p, c, x, y)
  {
    assert p[..x] == p;
  }

  lemma SharedNone(p: seq<Entry>, c: seq<Entry>, x: nat, y: nat)
    requires x <= |p| && y <= |c| && (x == 0 || y == 0)
    ensures Shared(p, c, x, y) == 0
  {
  }

  // --- The parent's spill list -----------------------------------------------------------

  /** (pgno_t)-1, above every shifted page number. */
  const TOP := 0xFFFF_FFFF_FFFF_FFFF

  ghost predicate StrictlyFalling(s: seq<nat>) { forall i, j :: 0 <= i < j < |s| ==> s[i] > s[j] }

  function SpillList(a: seq<nat>): seq<nat>
    requires |a| > 0 && a[0] < |a|
  {
    a[1..a[0] + 1]
  }

  /** Pages 1 .. n of the child are 2 * mid of its entries. */
  ghost predicate Dirtied(child: seq<Entry>, n: int, v: nat) {
    exists k :: 0 <= k < n <= |child| && 2 * child[k].mid == v
  }

  /** After the first `n` child pages: entries of the list `s` after the first `x` have
      been looked at, the dirtied ones are 1, and none of the first `y` is among them. */
  ghost predicate Marked(w: seq<nat>, s: seq<nat>, child: seq<Entry>, n: int, x: int, y: int) {
    && |s| < |w| && 0 <= n <= |child| && 0 <= x <= y <= |s| && w[0] == TOP
    && (forall k {:trigger s[k]} :: 0 <= k < |s| ==> w[k + 1] == if k >= x && Dirtied(child, n, s[k]) then 1 else s[k])
    && (forall k :: 0 <= k < y ==> !Dirtied(child, n, s[k]))
    && (n == 0 ==> x == |s|)
    && (forall k :: x <= k < |s| ==> n == 0 || s[k] <= 2 * child[n - 1].mid)
    && (forall k :: 0 <= k < x ==> n == 0 || s[k] > 2 * child[n - 1].mid)
  }

  lemma MarkedNext(w: seq<nat>, s: seq<nat>, child: seq<Entry>, n: int, x: int, y: int, x': int)
    requires Marked(w, s, child, n, x, y) && n < |child| && Sorted(child) && StrictlyFalling(s) && 0 <= x' <= x
    requires forall k :: x' <= k < x ==> s[k] < 2 * child[n].mid
    requires x' > 0 ==> s[x' - 1] >= 2 * child[n].mid
    ensures x' > 0 && s[x' - 1] == 2 * child[n].mid ==> Marked(w[x' := 1], s, child, n + 1, x' - 1, x' - 1)
    ensures x' == 0 || s[x' - 1] != 2 * child[n].mid ==> Marked(w, s, child, n + 1, x', y)
  {
    var pn := 2 * child[n].mid;
    var hit := x' > 0 && s[x' - 1] == pn;
    if n > 0 { assert child[n - 1].mid < child[n].mid; }
    forall k | 0 <= k < |s|
      ensures Dirtied(child, n + 1, s[k]) <==> Dirtied(child, n, s[k]) || (hit && k == x' - 1)
      ensures k < x' - 1 ==> s[k] > pn
      ensures k >= x' ==> s[k] < pn
      ensures k < x ==> !Dirtied(child, n, s[k])
    {
      DirtiedNext(child, n, s[k]);
      if k < x' - 1 { assert s[k] > s[x' - 1]; }
    }
  }

  lemma DirtiedNext(child: seq<Entry>, n: int, v: nat)
    requires 0 <= n < |child|
    ensures Dirtied(child, n + 1, v) <==> Dirtied(child, n, v) || v == 2 * child[n].mid
  {
  }

  /** Marks the child's dirty pages as deleted in the parent's spill list. */
  method MarkSpilled(pspill: array<nat>, src: array<Entry>, ghost s: seq<nat>) returns (y: nat, ghost x1: nat)
    requires src.Length > 0 && src[0].mid < src.Length && pspill.Length > 0 && pspill[0] < pspill.Length
    requires s == SpillList(pspill[..]) && StrictlyFalling(s) && Sorted(ListOf(src[..]))
    requires forall k :: 0 <= k < |ListOf(src[..])| ==> 2 * ListOf(src[..])[k].mid < TOP
    modifies pspill
    ensures Marked(pspill[..], s, ListOf(src[..]), src[0].mid, x1, y)
  {
    hide Marked, StrictlyFalling, Sorted;
    ghost var child := ListOf(src[..]);
    var x := pspill[0];
    y := x;
    pspill[0] := TOP;
    MarkedStart(pspill[..], s, child);
    var i, len := 0, src[0].mid;
    while i < len
      invariant 0 <= i <= len && 0 <= x && Marked(pspill[..], s, child, i, x, y)
    {
      var pn := 2 * src[i + 1].mid;
      assert src[i + 1] == child[i];
      ghost var x0 := x;
      MarkedRead(pspill[..], s, child, i, x0, y);
      while pn > pspill[x]
        invariant 0 <= x <= x0 && x0 < pspill.Length && Marked(pspill[..], s, child, i, x0, y)
        invariant forall k :: x <= k < x0 ==> s[k] < pn
        decreases x
      {
        MarkedRead(pspill[..], s, child, i, x0, y);
        x := x - 1;
      }
      MarkedRead(pspill[..], s, child, i, x0, y);
      MarkedNext(pspill[..], s, child, i, x0, y, x);
      if pn == pspill[x] {
        pspill[x] := 1;
        x := x - 1;
        y := x;
      }
      i := i + 1;
    }
    assert child == ListOf(src[..]);
    x1 := x;
  }

  lemma MarkedStart(w: seq<nat>, s: seq<nat>, child: seq<Entry>)
    requires |s| < |w| && w[0] == TOP && w[1..|s| + 1] == s
    ensures Marked(w, s, child, 0, |s|, |s|)
  {
  }

  lemma MarkedRead(w: seq<nat>, s: seq<nat>, child: seq<Entry>, n: int, x: int, y: int)
    requires Marked(w, s, child, n, x, y)
    ensures w[0] == TOP && 0 <= x <= y <= |s| < |w|
    ensures forall k {:trigger w[k]} :: 0 < k <= x ==> w[k] == s[k - 1]
  {
  }

  /** `r` is what is kept of the first `x` entries of `s`: every live one that the child
      did not dirty, and nothing that was not there. */
  ghost predicate Kept(r: seq<nat>, s: seq<nat>, child: seq<Entry>, x: int) {
    && 0 <= x <= |s| && StrictlyFalling(r)
    && (forall v :: v in r ==> v in s[..x])
    && (forall v :: v % 2 == 0 ==> (v in r <==> v in s[..x] && !Dirtied(child, |child|, v)))
  }

  lemma KeptStart(w: seq<nat>, s: seq<nat>, child: seq<Entry>, x: int, y: int)
    requires Marked(w, s, child, |child|, x, y) && StrictlyFalling(s)
    ensures Kept(s[..y], s, child, y) && w[1..y + 1] == s[..y]
  {
  }

  lemma KeptNext(r: seq<nat>, s: seq<nat>, child: seq<Entry>, x: int, mark: nat)
    requires Kept(r, s, child, x) && x < |s| && StrictlyFalling(s)
    requires mark == if Dirtied(child, |child|, s[x]) then 1 else s[x]
    ensures Kept(if mark % 2 == 0 then r + [mark] else r, s, child, x + 1)
  {
    assert s[..x + 1] == s[..x] + [s[x]];
    forall v | v in r ensures v > s[x] { var k :| 0 <= k < x && s[..x][k] == v; assert s[k] == v; }
    assert s[x] !in r;
    var r' := if mark % 2 == 0 then r + [mark] else r;
    forall i, j | 0 <= i < j < |r'| ensures r'[i] > r'[j] { if j == |r| { assert r[i] in r; } }
  }

  /** The spill-list part of a nested commit: of the live entries exactly those leave
      that the child dirtied, and the list stays in descending order. */
  method DropSpilled(pspill: array<nat>, src: array<Entry>)
    requires src.Length > 0 && src[0].mid < src.Length && pspill.Length > 0 && pspill[0] < pspill.Length
    requires StrictlyFalling(SpillList(pspill[..])) && Sorted(ListOf(src[..]))
    requires forall k :: 0 <= k < |ListOf(src[..])| ==> 2 * ListOf(src[..])[k].mid < TOP
    modifies pspill
    ensures pspill[0] < pspill.Length && StrictlyFalling(SpillList(pspill[..]))
    ensures forall v :: v in SpillList(pspill[..]) ==> v in old(SpillList(pspill[..]))
    ensures forall p: nat :: 2 * p in SpillList(pspill[..]) <==>
              2 * p in old(SpillList(pspill[..])) && !HasPage(ListOf(src[..]), p)
  {
    ghost var s, child := SpillList(pspill[..]), ListOf(src[..]);
    var ps_len := pspill[0];
    if ps_len == 0 { return; }
    var y, x1 := MarkSpilled(pspill, src, s);
    assert child == ListOf(src[..]);
    Squash(pspill, ps_len, y, s, child, x1);
    forall p: nat ensures HasPage(child, p) <==> Dirtied(child, |child|, 2 * p) { }
  }

  lemma SpillListIs(w: seq<nat>, r: seq<nat>)
    requires 0 < |w| && w[0] == |r| < |w| && forall k {:trigger w[k]} :: 1 <= k <= |r| ==> w[k] == r[k - 1]
    ensures SpillList(w) == r
  {
    forall k | 0 <= k < |r| ensures SpillList(w)[k] == r[k] { assert SpillList(w)[k] == w[k + 1]; }
  }

  /** Squashes the deleted entries after position `y`. */
  method Squash(pspill: array<nat>, ps_len: nat, y0: nat, ghost s: seq<nat>, ghost child: seq<Entry>, ghost x1: nat)
    requires |s| == ps_len && StrictlyFalling(s) && Marked(pspill[..], s, child, |child|, x1, y0)
    modifies pspill
    ensures pspill[0] < pspill.Length && Kept(SpillList(pspill[..]), s, child, |s|)
  {
    hide Kept, Marked, StrictlyFalling, Dirtied;
    MarkedRead(pspill[..], s, child, |child|, x1, y0);
    MarkedCells(pspill[..], s, child, x1, y0);
    KeptStart(pspill[..], s, child, x1, y0);
    var x, y := y0, y0;
    ghost var r := s[..y];
    while x < ps_len
      invariant y0 <= y <= x <= ps_len < pspill.Length && Kept(r, s, child, x) && |r| == y
      invariant forall k {:trigger pspill[k]} :: 1 <= k <= y ==> pspill[k] == r[k - 1]
      invariant forall k {:trigger pspill[k]} :: x < k <= ps_len ==>
                  pspill[k] == if Dirtied(child, |child|, s[k - 1]) then 1 else s[k - 1]
    {
      x := x + 1;
      KeptNext(r, s, child, x - 1, pspill[x]);
      if pspill[x] % 2 == 0 {
        r := r + [pspill[x]];
        y := y + 1;
        pspill[y] := pspill[x];
      }
    }
    pspill[0] := y;
    SpillListIs(pspill[..], r);
  }

  lemma MarkedCells(w: seq<nat>, s: seq<nat>, child: seq<Entry>, x: int, y: int)
    requires Marked(w, s, child, |child|, x, y)
    ensures forall k {:trigger w[k]} :: y < k <= |s| ==>
              w[k] == if Dirtied(child, |child|, s[k - 1]) then 1 else s[k - 1]
    ensures forall k {:trigger w[k]} :: 1 <= k <= y ==> w[k] == s[..y][k - 1]
  {
  }

  // --- Where the length of the single-ancestor case comes from ---------------------------

  function Pages(s: seq<Entry>): set<nat> { set i | 0 <= i < |s| :: s[i].mid }

  lemma PagesSnoc(s: seq<Entry>, e: Entry)
    ensures Pages(s + [e]) == Pages(s) + {e.mid}
  {
    var t := s + [e];
    forall p | p in Pages(s) + {e.mid} ensures p in Pages(t) {
      if p == e.mid { assert t[|s|].mid == p; } else { var i :| 0 <= i < |s| && s[i].mid == p; assert t[i].mid == p; }
    }
  }

  lemma {:induction false} PagesSize(s: seq<Entry>)
    requires Sorted(s)
    ensures |Pages(s)| == |s|
  {
    if s != [] {
      PagesSize(Init(s));
      assert Last(s).mid !in Pages(Init(s));
      PagesSnoc(Init(s), Last(s));
      assert s == Init(s) + [Last(s)];
    }
  }

  lemma UnionSize(parent: seq<Entry>, child: seq<Entry>, hi: nat)
    requires Sorted(parent) && Sorted(child) && Below(parent, hi) && Below(child, hi)
    ensures |Union(parent, child)| == |Pages(parent) + Pages(child)|
  {
    hide Union, Pages, Sorted, Below;
    var u := Union(parent, child);
    UnionSorted(parent, child, hi);
    PagesSize(u);
    forall p ensures p in Pages(u) <==> p in Pages(parent) + Pages(child) {
      UnionPage(parent, child, p);
    }
    assert Pages(u) == Pages(parent) + Pages(child);
  }

  lemma UnionPage(parent: seq<Entry>, child: seq<Entry>, p: nat)
    requires Sorted(parent) && Sorted(child)
    ensures p in Pages(Union(parent, child)) <==> p in Pages(parent) || p in Pages(child)
  {
    var u := Union(parent, child);
    if p in Pages(u) {
      var i :| 0 <= i < |u| && u[i].mid == p;
      assert Has(u, u[i]);
      UnionHas(parent, child, u[i]);
    }
    if p in Pages(child) {
      var i :| 0 <= i < |child| && child[i].mid == p;
      assert Has(child, child[i]);
      UnionHas(parent, child, child[i]);
    } else if p in Pages(parent) {
      var i :| 0 <= i < |parent| && parent[i].mid == p;
      assert Has(parent, parent[i]) && !HasPage(child, p);
      UnionHas(parent, child, parent[i]);
    }
  }

  /** What a child transaction does to its dirty list: it dirties a page of its own, or
      copies a page that is dirty in the parent. Only the first uses up room. */
  datatype ChildOp = DirtyNew(p: nat) | CopyParent(p: nat)

  datatype Book = Book(pages: set<nat>, room: int)

  ghost predicate CanDo(parent: set<nat>, b: Book, op: ChildOp) {
    op.p !in b.pages && if op.DirtyNew? then b.room > 0 && op.p !in parent else op.p in parent
  }

  function Do(b: Book, op: ChildOp): Book {
    Book(b.pages + {op.p}, if op.DirtyNew? then b.room - 1 else b.room)
  }

  ghost predicate ChildRun(parent: set<nat>, run: seq<Book>, ops: seq<ChildOp>, room: int) {
    && |run| == |ops| + 1 && run[0] == Book({}, room)
    && forall i :: 0 <= i < |ops| ==> CanDo(parent, run[i], ops[i]) && run[i + 1] == Do(run[i], ops[i])
  }

  /** Whatever the child did, the length UM_MAX - room that its commit uses exceeds the
      size of the union by exactly what the parent's room fell short at the start. */
  lemma {:induction false} LengthError(parent: set<nat>, run: seq<Book>, ops: seq<ChildOp>, room: int, n: nat)
    requires ChildRun(parent, run, ops, room) && n <= |ops|
    ensures UM_MAX - run[n].room == |parent + run[n].pages| + (UM_MAX - room - |parent|)
    decreases n
  {
    if n == 0 {
      assert parent + {} == parent;
    } else {
      LengthError(parent, run, ops, room, n - 1);
      var b, op := run[n - 1], ops[n - 1];
      assert run[n] == Do(b, op) && CanDo(parent, b, op);
      if op.DirtyNew? {
        assert parent + run[n].pages == (parent + b.pages) + {op.p};
      } else {
        assert parent + run[n].pages == parent + b.pages;
      }
    }
  }

  /** So the merge in a single-ancestor commit is right exactly when the parent's room
      and its dirty list added up to the list's capacity when the child began. */
  lemma SingleAncestorLength(parent: seq<Entry>, child: seq<Entry>, run: seq<Book>, ops: seq<ChildOp>, room: int,
          hi: nat)
    requires Sorted(parent) && Sorted(child) && Below(parent, hi) && Below(child, hi)
    requires ChildRun(Pages(parent), run, ops, room) && run[|ops|].pages == Pages(child)
    ensures UM_MAX - run[|ops|].room == |Union(parent, child)| <==> room + |parent| == UM_MAX
  {
    LengthError(Pages(parent), run, ops, room, |ops|);
    UnionSize(parent, child, hi);
    PagesSize(parent);
  }

  /** It is wrong after a dirty overflow page of the parent was freed: here the parent
      had dirtied pages 2 and 5 and freed page 2, and the child did nothing. */
  lemma LengthWrongAfterOverflowFree()
    ensures var parent, room := [Entry(5, 1)], UM_MAX - 2;
      && ChildRun(Pages(parent), [Book({}, room)], [], room)
      && UM_MAX - room != |Union(parent, [])|
  {
  }

  lemma Scanned(u: seq<Entry>, s: seq<Entry>, x: nat, mp: int)
    requires |u| > 0 && u[0].mid < |u| && s == ListOf(u) && forall k :: x < k <= u[0].mid ==> u[k].mptr != mp
    ensures forall k :: x <= k < |s| ==> s[k].mptr != mp
  {
  }

  lemma Removed(u: seq<Entry>, w: seq<Entry>, x: nat)
    requires |u| == |w| > 0 && 1 <= x <= u[0].mid < |u| && w[0].mid == u[0].mid - 1
    requires forall k {:trigger w[k]} :: 1 <= k < x ==> w[k] == u[k]
    requires forall k {:trigger w[k]} :: x <= k < u[0].mid ==> w[k] == u[k + 1]
    ensures |ListOf(u)| == u[0].mid && |ListOf(w)| == w[0].mid
    ensures ListOf(u)[x - 1] == u[x] && ListOf(w) == ListOf(u)[..x - 1] + ListOf(u)[x..]
  {
  }

  lemma Rotated(u: seq<Entry>, w: seq<Entry>)
    requires |w| == |u| > 0 && u[0].mid < |u| && w[0].mid == u[0].mid > 0 && w[u[0].mid] == u[1]
    requires forall k {:trigger w[k]} :: 1 <= k < u[0].mid ==> w[k] == u[k + 1]
    ensures ListOf(w) == ListOf(u)[1..] + [ListOf(u)[0]]
  {
  }

  /** A transaction's dirty list and its room. */
  class DirtyList {
    var ids: array<Entry>
    var room: int

    ghost function Contents(): seq<Entry>
      reads this, ids
      requires ids.Length > 0 && ids[0].mid < ids.Length
    {
      ListOf(ids[..])
    }

    /** The removal loop of `mdb_ovpage_free` for a dirty overflow page at `mp`: the
        entry leaves the list, or there is none and false is returned, with the first
        entry moved to the end. The room it used is not given back, so room and list
        then add up to one less. */
    method RemoveOverflow(mp: int) returns (found: bool, ghost at: nat)
      requires ids.Length > 0 && 0 < ids[0].mid < ids.Length
      modifies ids
      ensures ids[0].mid < ids.Length && room == old(room)
      ensures found <==> exists k :: 0 <= k < |old(Contents())| && old(Contents())[k].mptr == mp
      ensures found ==> at < |old(Contents())| && old(Contents())[at].mptr == mp
      ensures found ==> Contents() == old(Contents())[..at] + old(Contents())[at + 1..]
      ensures !found ==> Contents() == old(Contents())[1..] + [old(Contents())[0]]
      ensures found ==> room + |Contents()| == old(room + |Contents()|) - 1
    {
      hide ListOf;
      ghost var u, s := ids[..], Contents();
      var n := ids[0].mid;
      var x := n;
      ids[0] := ids[0].(mid := n - 1);
      var ix := ids[x];
      while ix.mptr != mp
        invariant 1 <= x <= n && ix == u[x] && ids[0] == u[0].(mid := n - 1)
        invariant forall k {:trigger ids[k]} :: 1 <= k < x || n <= k < ids.Length ==> ids[k] == u[k]
        invariant forall k {:trigger ids[k]} :: x <= k < n ==> ids[k] == u[k + 1]
        invariant forall k :: x < k <= n ==> u[k].mptr != mp
        decreases x
      {
        if x > 1 {
          x := x - 1;
          var iy := ids[x];
          ids[x] := ix;
          ix := iy;
        } else {
          ids[0] := ids[0].(mid := n);
          ids[n] := ix;
          Scanned(u, s, 0, mp);
          Rotated(u, ids[..]);
          return false, 0;
        }
      }
      at := x - 1;
      Removed(u, ids[..], x);
      found := true;
    }
  }
}
