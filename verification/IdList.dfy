/**
 ID lists of `midl.c` and the operations of the page allocator on the reclaimed
 list: slot 0 of the buffer holds the length, the IDs follow in descending order.
 */
module IdList {
  import opened IdSort

  /** The list stored in `a` after slot `b`. */
  function ListAt(a: seq<Id>, b: nat): seq<Id>
    requires b < |a| && b + a[b] < |a|
  {
    a[b + 1..b + 1 + a[b]]
  }

  ghost predicate Holds(a: array<Id>, b: nat)
    reads a
  {
    b < a.Length && b + a[b] < a.Length
  }

  ghost predicate Falling(s: seq<Id>) { forall i, j :: 0 <= i < j < |s| ==> s[i] >= s[j] }

  /** Descending, and no ID twice. */
  ghost predicate Strict(s: seq<Id>) { forall i, j :: 0 <= i < j < |s| ==> s[i] > s[j] }

  // --- Searching -----------------------------------------------------------------

  /** `mdb_midl_search`: the position of `id`, or of the first smaller ID. */
  method Search(a: array<Id>, b: nat, id: Id) returns (cursor: nat)
    requires Holds(a, b) && Strict(ListAt(a[..], b))
    ensures 1 <= cursor && cursor - 1 <= |ListAt(a[..], b)|
    ensures forall k :: 0 <= k < cursor - 1 ==> ListAt(a[..], b)[k] > id
    ensures forall k :: cursor - 1 <= k < |ListAt(a[..], b)| ==> ListAt(a[..], b)[k] <= id
    ensures id in ListAt(a[..], b) <==> cursor <= a[b] && a[b + cursor] == id
  {
    ghost var s := ListAt(a[..], b);
    var base, n: int := 0, a[b];
    cursor := 1;
    var val := 0;
    while 0 < n
      invariant 0 <= base && 0 <= n && base + n <= |s|
      invariant forall k :: 0 <= k < base ==> s[k] > id
      invariant forall k :: base + n <= k < |s| ==> s[k] < id
      invariant n == 0 ==> cursor + (if val > 0 then 1 else 0) == base + 1
      invariant 1 <= cursor
    {
      var pivot := n / 2;
      cursor := base + pivot + 1;
      ListIndex(a[..], b, cursor - 1);
      val := if a[b + cursor] < id then -1 else if a[b + cursor] > id then 1 else 0;
      if val < 0 {
        n := pivot;
      } else if val > 0 {
        base := cursor;
        n := n - (pivot + 1);
      } else {
        assert s[cursor - 1] == id;
        return;
      }
    }
    if val > 0 { cursor := cursor + 1; }
    assert forall k :: 0 <= k < |s| ==> s[k] != id;
    if cursor <= |s| { ListIndex(a[..], b, cursor - 1); }
  }

  lemma ListIndex(a: seq<Id>, b: nat, k: nat)
    requires b < |a| && b + a[b] < |a| && k < a[b]
    ensures |ListAt(a, b)| == a[b] && ListAt(a, b)[k] == a[b + 1 + k]
  {
  }

  // --- Merging -------------------------------------------------------------------

  /** `mdb_midl_xmerge`: merges the list stored after slot `off` of `m` into the one
      stored in `a`, from the tail, in place. The second list may lie in the same
      buffer, beyond the room for the result. */
  method XMerge(a: array<Id>, m: array<Id>, off: nat)
    requires Holds(a, 0) && Holds(m, off) && a[0] + m[off] < a.Length && a[0] + m[off] <= MAX_ID
    requires a == m ==> off > a[0] + m[off]
    requires Falling(ListAt(a[..], 0)) && Falling(ListAt(m[..], off))
    modifies a
    ensures a[0] == old(a[0] + m[off])
    ensures Falling(ListAt(a[..], 0))
    ensures multiset(ListAt(a[..], 0)) == multiset(old(ListAt(a[..], 0))) + multiset(old(ListAt(m[..], off)))
    ensures a[a[0] + 1..] == old(a[..])[a[0] + 1..]
  {
    hide Falling, Mid;
    ghost var u, s, t := a[..], ListAt(a[..], 0), ListAt(m[..], off);
    ghost var r: seq<Id> := [];
    var i: int, j: int := m[off], a[0];
    var total := i + j;
    var k := total;
    a[0] := MAX_ID;
    MidStart(u, a[..], s, t, total);
    while i > 0
      invariant 0 <= i <= |t| && 0 <= j && k == i + j <= total && Mid(u, a[..], s, t, r, i, j, total)
    {
      MidRead(u, a[..], s, t, r, i, j, total, off);
      var merge_id := m[off + i];
      assert merge_id == t[i - 1];
      j, k, r := MoveSmaller(a, merge_id, j, k, u, s, t, r, i, total);
      i := i - 1;
      a[k] := merge_id;
      r := [merge_id] + r;
      k := k - 1;
    }
    ghost var v := a[..];
    a[0] := total;
    MidEnd(u, v, a[..], s, t, r, j, total);
  }

  /** The inner loop: moves the IDs below `merge_id` up, and leaves slot `k` free for it. */
  method MoveSmaller(a: array<Id>, merge_id: Id, j0: nat, k0: nat,
                     ghost u: seq<Id>, ghost s: seq<Id>, ghost t: seq<Id>, ghost r0: seq<Id>, ghost i: nat,
                             ghost total: nat)
    returns (j: nat, k: nat, ghost r: seq<Id>)
    requires 0 < i <= |t| && merge_id == t[i - 1] && k0 == i + j0 && Mid(u, a[..], s, t, r0, i, j0, total)
    modifies a
    ensures k == i + j <= total && k < a.Length && Mid(u, a[..][k := merge_id], s, t, [merge_id] + r, i - 1, j, total)
    ensures a[..][total + 1..] == old(a[..])[total + 1..]
  {
    hide Falling, Mid;
    j, k, r := j0, k0, r0;
    MidOld(u, a[..], s, t, r, i, j, total);
    var old_id := a[j];
    while old_id < merge_id
      invariant k == i + j <= total < a.Length && old_id == a[j] && Mid(u, a[..], s, t, r, i, j, total)
      decreases j
    {
      MidOld(u, a[..], s, t, r, i, j, total);
      a[k] := old_id;
      r := [old_id] + r;
      k := k - 1;
      j := j - 1;
      old_id := a[j];
    }
    MidOld(u, a[..], s, t, r, i, j, total);
    MidTail(u, old(a[..]), a[..], s, t, r0, r, i, j0, j, total);
  }

  /** Merging under way: `i` and `j` IDs of the two lists are left. */
  ghost predicate Mid(u: seq<Id>, v: seq<Id>, s: seq<Id>, t: seq<Id>, r: seq<Id>, i: int, j: int, total: int) {
    Layout(u, v, s, r, j, i + j, total) && Merged(s, t, i, j, r)
  }

  lemma MidStart(u: seq<Id>, v: seq<Id>, s: seq<Id>, t: seq<Id>, total: int)
    requires total == |s| + |t| < |u| == |v| && u[1..|s| + 1] == s && v == u[0 := MAX_ID] && Falling(s) && Falling(t)
    ensures Mid(u, v, s, t, [], |t|, |s|, total)
  {
  }

  /** The list to merge is still there, even in the same buffer. */
  lemma MidRead(u: seq<Id>, v: seq<Id>, s: seq<Id>, t: seq<Id>, r: seq<Id>, i: int, j: int, total: int, off: int)
    requires Mid(u, v, s, t, r, i, j, total) && i > 0
    ensures total < |u| == |v|
    ensures off > total && off + |t| < |u| && u[off + 1..off + 1 + |t|] == t ==> v[off + i] == t[i - 1]
  {
  }

  /** Slot `j` holds the next ID of the first list, or the sentinel; either it or
      the next ID of the second list may be put at the front of the result. */
  lemma MidOld(u: seq<Id>, v: seq<Id>, s: seq<Id>, t: seq<Id>, r: seq<Id>, i: int, j: int, total: int)
    requires Mid(u, v, s, t, r, i, j, total) && 0 < i
    ensures 0 <= j <= |s| && j < i + j <= total < |u| == |v|
    ensures v[j] < t[i - 1] ==> j > 0 && Mid(u, v[i + j := v[j]], s, t, [v[j]] + r, i, j - 1, total)
    ensures v[j] >= t[i - 1] ==> Mid(u, v[i + j := t[i - 1]], s, t, [t[i - 1]] + r, i - 1, j, total)
  {
    hide Layout, Merged;
    assert 0 <= j < |v| by { LayoutBounds(u, v, s, t, r, i, j, total); }
    LayoutRead(u, v, s, r, j, i + j, total, j);
    assert i <= |t| by { LayoutBounds(u, v, s, t, r, i, j, total); }
    if v[j] < t[i - 1] {
      TakeOld(s, t, i, j, r);
      LayoutPut(u, v, s, r, j, i + j, total, j - 1, v[j]);
    } else {
      TakeNew(s, t, i, j, r);
      LayoutPut(u, v, s, r, j, i + j, total, j, t[i - 1]);
    }
  }

  lemma LayoutBounds(u: seq<Id>, v: seq<Id>, s: seq<Id>, t: seq<Id>, r: seq<Id>, i: int, j: int, total: int)
    requires Mid(u, v, s, t, r, i, j, total)
    ensures 0 <= j <= |s| && 0 <= i <= |t| && i + j <= total < |u| == |v|
  {
  }

  lemma MidTail(u: seq<Id>, v: seq<Id>, w: seq<Id>, s: seq<Id>, t: seq<Id>, r: seq<Id>, r': seq<Id>, i: int, j: int,
          j': int, total: int)
    requires Mid(u, v, s, t, r, i, j, total) && Mid(u, w, s, t, r', i, j', total)
    ensures v[total + 1..] == w[total + 1..]
  {
  }

  lemma MidEnd(u: seq<Id>, v: seq<Id>, w: seq<Id>, s: seq<Id>, t: seq<Id>, r: seq<Id>, j: int, total: int)
    requires Mid(u, v, s, t, r, 0, j, total) && total <= MAX_ID && |v| > 0 && w == v[0 := total]
    ensures w[0] < |w| && w[total + 1..] == u[total + 1..]
    ensures Falling(ListAt(w, 0)) && multiset(ListAt(w, 0)) == multiset(s) + multiset(t)
  {
    LayoutEnd(u, v, w, s, r, j, total);
    Finish(s, t, j, r);
  }

  /** The buffer while merging: slot 0 is a sentinel, `j` IDs of the list are
      still to be moved, and `r`, the merged tail, starts after slot `k`. */
  ghost predicate Layout(u: seq<Id>, v: seq<Id>, s: seq<Id>, r: seq<Id>, j: int, k: int, total: int) {
    && 0 <= j <= |s| && j <= k <= total < |u| == |v| && |r| == total - k
    && v[0] == MAX_ID
    && v[1..j + 1] == s[..j]
    && v[k + 1..total + 1] == r
    && v[total + 1..] == u[total + 1..]
  }

  lemma LayoutRead(u: seq<Id>, v: seq<Id>, s: seq<Id>, r: seq<Id>, j: int, k: int, total: int, x: int)
    requires Layout(u, v, s, r, j, k, total) && 0 <= x < |v|
    ensures 0 <= j <= |s| && j <= k <= total < |u| == |v|
    ensures x == 0 ==> v[x] == MAX_ID
    ensures 0 < x <= j ==> v[x] == s[x - 1]
    ensures x > total ==> v[x] == u[x]
  {
  }

  lemma LayoutPut(u: seq<Id>, v: seq<Id>, s: seq<Id>, r: seq<Id>, j: int, k: int, total: int, j': int, id: Id)
    requires Layout(u, v, s, r, j, k, total) && 0 <= j' <= j && j' < k
    ensures Layout(u, v[k := id], s, [id] + r, j', k - 1, total)
  {
    var w, q := v[k := id], [id] + r;
    assert w[1..j' + 1] == s[..j'] by { assert w[1..j' + 1] == v[1..j + 1][..j']; }
    assert w[k..total + 1] == q by { assert w[k..total + 1] == [id] + v[k + 1..total + 1]; }
    assert w[total + 1..] == v[total + 1..];
  }

  lemma LayoutEnd(u: seq<Id>, v: seq<Id>, w: seq<Id>, s: seq<Id>, r: seq<Id>, j: int, total: int)
    requires Layout(u, v, s, r, j, j, total) && total <= MAX_ID && w == v[0 := total]
    ensures ListAt(w, 0) == s[..j] + r && w[total + 1..] == u[total + 1..]
  {
    assert w[1..total + 1] == v[1..j + 1] + v[j + 1..total + 1];
    assert w[total + 1..] == v[total + 1..];
  }

  /** `r` is the merge of `s` from `j` on and `t` from `i` on. */
  ghost predicate Merged(s: seq<Id>, t: seq<Id>, i: int, j: int, r: seq<Id>) {
    && 0 <= i <= |t| && 0 <= j <= |s| && Falling(s) && Falling(t) && Falling(r)
    && multiset(r) == multiset(s[j..]) + multiset(t[i..])
    && (r != [] ==> (j > 0 ==> s[j - 1] >= r[0]) && (i > 0 ==> t[i - 1] >= r[0]))
  }

  lemma Push(id: Id, r: seq<Id>)
    requires Falling(r) && (r != [] ==> id >= r[0])
    ensures Falling([id] + r)
  {
  }

  lemma TakeOld(s: seq<Id>, t: seq<Id>, i: int, j: int, r: seq<Id>)
    requires Merged(s, t, i, j, r) && i > 0 && j > 0 && s[j - 1] < t[i - 1]
    ensures Merged(s, t, i, j - 1, [s[j - 1]] + r)
  {
    assert s[j - 1..] == [s[j - 1]] + s[j..];
    assert j > 1 ==> s[j - 2] >= s[j - 1];
    Push(s[j - 1], r);
    hide Falling;
  }

  lemma TakeNew(s: seq<Id>, t: seq<Id>, i: int, j: int, r: seq<Id>)
    requires Merged(s, t, i, j, r) && i > 0 && (j > 0 ==> s[j - 1] >= t[i - 1])
    ensures Merged(s, t, i - 1, j, [t[i - 1]] + r)
  {
    var id := t[i - 1];
    assert t[i - 1..] == [id] + t[i..];
    assert i > 1 ==> t[i - 2] >= id;
    Push(id, r);
    hide Falling;
    assert multiset([id] + r) == multiset{id} + multiset(r);
    assert multiset([id] + t[i..]) == multiset{id} + multiset(t[i..]);
  }

  lemma Finish(s: seq<Id>, t: seq<Id>, j: int, r: seq<Id>)
    requires Merged(s, t, 0, j, r)
    ensures Falling(s[..j] + r) && multiset(s[..j] + r) == multiset(s) + multiset(t)
  {
    Join(s, j, r);
    calc {
      multiset(s[..j] + r);
      multiset(s[..j]) + (multiset(s[j..]) + multiset(t[0..]));
      { assert t[0..] == t; assert multiset(s) == multiset(s[..j] + s[j..]) by { assert s == s[..j] + s[j..]; } }
      multiset(s) + multiset(t);
    }
  }

  lemma Join(s: seq<Id>, j: int, r: seq<Id>)
    requires Falling(s) && Falling(r) && 0 <= j <= |s| && (r != [] && j > 0 ==> s[j - 1] >= r[0])
    ensures Falling(s[..j] + r)
  {
  }
}
