/**
 `mdb_midl_sort`: quicksort with an explicit stack and an insertion sort for
 short segments, in place, into descending order. The list is the part of the
 buffer `a` after index `b`: slot `b` holds the length, as slot 0 of an ID list.
 */
module IdSort {
  import opened Basics

  /** Largest value of an ID: (MDB_ID)-1. */
  const MAX_ID := 0xFFFF_FFFF_FFFF_FFFF
  type Id = x: int | 0 <= x <= MAX_ID

  const SMALL := 8
  /** sizeof(int) * CHAR_BIT * 2 */
  const STACK := 64
  const MAX_INT := 0x7FFF_FFFF
  /** The longest list whose segments all have a midpoint an int can hold. */
  const MAX_SORTED := 1073741827

  /** The elements in [lo, hi) are in descending order. */
  ghost predicate Descending(s: seq<Id>, lo: int, hi: int) {
    0 <= lo && hi <= |s| && forall i, j :: lo <= i < j < hi ==> s[i] >= s[j]
  }

  /** `t` is `s` with the elements in [lo, hi) permuted. */
  ghost predicate Permuted(s: seq<Id>, t: seq<Id>, lo: int, hi: int) {
    && 0 <= lo <= hi <= |s| == |t|
    && s[..lo] == t[..lo] && s[hi..] == t[hi..]
    && multiset(s[lo..hi]) == multiset(t[lo..hi])
  }

  lemma PermutedSelf(s: seq<Id>, lo: int, hi: int)
    requires 0 <= lo <= hi <= |s|
    ensures Permuted(s, s, lo, hi)
  {
  }

  /** Elements outside the permuted part stay. */
  lemma PermutedOutside(s: seq<Id>, t: seq<Id>, lo: int, hi: int, i: int)
    requires Permuted(s, t, lo, hi) && 0 <= i < |s| && !(lo <= i < hi)
    ensures s[i] == t[i]
  {
  }

  lemma PermutedTrans(s: seq<Id>, t: seq<Id>, u: seq<Id>, lo: int, hi: int)
    requires Permuted(s, t, lo, hi) && Permuted(t, u, lo, hi)
    ensures Permuted(s, u, lo, hi)
  {
  }

  lemma PermutedWiden(s: seq<Id>, t: seq<Id>, lo: int, hi: int, lo': int, hi': int)
    requires Permuted(s, t, lo, hi) && 0 <= lo' <= lo && hi <= hi' <= |s|
    ensures Permuted(s, t, lo', hi')
  {
    assert s[lo'..hi'] == s[lo'..lo] + s[lo..hi] + s[hi..hi'];
    assert t[lo'..hi'] == t[lo'..lo] + t[lo..hi] + t[hi..hi'];
    assert s[lo'..lo] == s[..lo][lo'..] == t[..lo][lo'..] == t[lo'..lo];
    assert s[hi..hi'] == s[hi..][..hi' - hi] == t[hi..][..hi' - hi] == t[hi..hi'];
    assert s[..lo'] == s[..lo][..lo'] && t[..lo'] == t[..lo][..lo'];
    assert s[hi'..] == s[hi..][hi' - hi..] && t[hi'..] == t[hi..][hi' - hi..];
  }

  /** Every element of the permuted part was there before. */
  lemma PermutedFrom(s: seq<Id>, t: seq<Id>, lo: int, hi: int, i: int) returns (j: int)
    requires Permuted(s, t, lo, hi) && lo <= i < hi
    ensures lo <= j < hi && s[j] == t[i]
  {
    assert t[i] == t[lo..hi][i - lo];
    assert t[i] in multiset(t[lo..hi]);
    assert t[i] in multiset(s[lo..hi]);
    assert t[i] in s[lo..hi];
    var k :| 0 <= k < hi - lo && s[lo..hi][k] == t[i];
    j := lo + k;
  }

  lemma SwapMultiset(u: seq<Id>, x: int, y: int)
    requires 0 <= x < |u| && 0 <= y < |u|
    ensures multiset(u[x := u[y]][y := u[x]]) == multiset(u)
  {
  }

  lemma SwapPermutes(s: seq<Id>, i: int, j: int, lo: int, hi: int)
    requires 0 <= lo <= i < hi <= |s| && lo <= j < hi
    ensures Permuted(s, s[i := s[j]][j := s[i]], lo, hi)
  {
    var t := s[i := s[j]][j := s[i]];
    var u := s[lo..hi];
    assert t[lo..hi] == u[i - lo := u[j - lo]][j - lo := u[i - lo]];
    SwapMultiset(u, i - lo, j - lo);
    assert s[..lo] == t[..lo] && s[hi..] == t[hi..];
  }

  /** MIDL_SWAP, inside a part that is a permutation of what it was in `s`. */
  method Swap(a: array<Id>, i: nat, j: nat, ghost s: seq<Id>, ghost lo: nat, ghost hi: nat)
    requires lo <= i < hi <= a.Length && lo <= j < hi
    requires Permuted(s, a[..], lo, hi)
    modifies a
    ensures a[i] == old(a[j]) && a[j] == old(a[i])
    ensures forall k :: 0 <= k < a.Length && k != i && k != j ==> a[k] == old(a[k])
    ensures Permuted(s, a[..], lo, hi)
  {
    SwapPermutes(a[..], i, j, lo, hi);
    ghost var t := a[..];
    var itmp := a[i];
    a[i] := a[j];
    a[j] := itmp;
    assert a[..] == t[i := t[j]][j := t[i]];
    PermutedTrans(s, t, a[..], lo, hi);
  }

  /** Element `j` moved down to position `p`. */
  ghost function Moved(s: seq<Id>, p: int, j: int): seq<Id>
    requires 0 <= p <= j < |s|
  {
    s[..p] + [s[j]] + s[p..j] + s[j + 1..]
  }

  lemma MovedAt(s: seq<Id>, t: seq<Id>, p: int, j: int)
    requires 0 <= p <= j < |s| == |t| && t[p] == s[j]
    requires forall k {:trigger t[k]} :: 0 <= k < p || j < k < |s| ==> t[k] == s[k]
    requires forall k {:trigger t[k]} :: p < k <= j ==> t[k] == s[k - 1]
    ensures t == Moved(s, p, j)
  {
  }

  lemma MovedPermutes(s: seq<Id>, p: int, j: int, lo: int, hi: int)
    requires 0 <= lo <= p <= j < hi <= |s|
    ensures Permuted(s, Moved(s, p, j), lo, hi)
  {
    var t := Moved(s, p, j);
    var was, now := s[p..j] + [s[j]], [s[j]] + s[p..j];
    var x, y := s[lo..p] + was + s[j + 1..hi], s[lo..p] + now + s[j + 1..hi];
    assert s == s[..lo] + x + s[hi..];
    assert t == s[..lo] + y + s[hi..];
    Framed(s[..lo], x, s[hi..]);
    Framed(s[..lo], y, s[hi..]);
    assert multiset(was) == multiset(now);
  }

  lemma Framed(a: seq<Id>, m: seq<Id>, c: seq<Id>)
    ensures var s := a + m + c; s[..|a|] == a && s[|a|..|a| + |m|] == m && s[|a| + |m|..] == c
  {
  }

  /** One pass of the insertion sort: element `j` goes to its place in [l, j). */
  method Insert(a: array<Id>, first: nat, l: nat, j: nat)
    requires 0 < first <= l <= j < a.Length && Descending(a[..], l, j)
    requires first < l ==> a[l - 1] >= a[j]
    modifies a
    ensures Permuted(old(a[..]), a[..], l, j + 1) && Descending(a[..], l, j + 1)
  {
    hide Permuted;
    ghost var s := a[..];
    var x := a[j];
    var i := j - 1;
    while i >= first && a[i] < x
      invariant l - 1 <= i < j
      invariant forall k {:trigger a[k]} :: 0 <= k <= i + 1 || j < k < a.Length ==> a[k] == s[k]
      invariant forall k {:trigger a[k]} :: i + 1 < k <= j ==> a[k] == s[k - 1]
      invariant forall k :: i < k < j ==> s[k] < x
    {
      a[i + 1] := a[i];
      i := i - 1;
    }
    a[i + 1] := x;
    Inserted(s, a[..], i + 1, l, j);
  }

  lemma Inserted(s: seq<Id>, t: seq<Id>, p: int, l: int, j: int)
    requires 0 <= l <= p <= j < |s| == |t| && Descending(s, l, j)
    requires forall k {:trigger t[k]} :: 0 <= k < p || j < k < |s| ==> t[k] == s[k]
    requires t[p] == s[j] && forall k {:trigger t[k]} :: p < k <= j ==> t[k] == s[k - 1]
    requires forall k :: p <= k < j ==> s[k] < s[j]
    requires l < p ==> s[p - 1] >= s[j]
    ensures Permuted(s, t, l, j + 1) && Descending(t, l, j + 1)
  {
    MovedAt(s, t, p, j);
    MovedPermutes(s, p, j, l, j + 1);
    InsertSorted(s, t, p, l, j);
  }

  lemma InsertSorted(s: seq<Id>, t: seq<Id>, p: int, l: int, j: int)
    requires 0 <= l <= p <= j < |s| == |t| && Descending(s, l, j)
    requires forall k {:trigger t[k]} :: l <= k < p ==> t[k] == s[k]
    requires t[p] == s[j] && forall k {:trigger t[k]} :: p < k <= j ==> t[k] == s[k - 1]
    requires forall k :: p <= k < j ==> s[k] < s[j]
    requires l < p ==> s[p - 1] >= s[j]
    ensures Descending(t, l, j + 1)
  {
  }

  lemma DescendingShort(s: seq<Id>, lo: int, hi: int)
    requires 0 <= lo && hi <= |s| && hi <= lo + 1
    ensures Descending(s, lo, hi)
  {
  }

  lemma InsertKeeps(s: seq<Id>, t: seq<Id>, u: seq<Id>, lo: int, mid: int, hi: int)
    requires Permuted(s, t, lo, hi) && Permuted(t, u, lo, mid) && 0 < lo <= mid <= hi <= |s| == |t| == |u|
    ensures Permuted(s, u, lo, hi)
    ensures Tops(t, lo - 1, lo, hi) ==> Tops(u, lo - 1, lo, hi)
  {
    hide Permuted, Tops;
    PermutedWiden(t, u, lo, mid, lo, hi);
    PermutedTrans(s, t, u, lo, hi);
    PermutedBelow(t, u, lo, hi, lo - 1);
  }

  /** The short-segment case: sorts [l, ir] although its inner loop runs down to
      the start of the list, because nothing before `l` is smaller. */
  method InsertionSort(a: array<Id>, first: nat, l: nat, ir: int)
    requires 0 < first <= l <= ir + 1 <= a.Length
    requires first < l ==> Tops(a[..], l - 1, l, ir + 1)
    modifies a
    ensures Permuted(old(a[..]), a[..], l, ir + 1) && Descending(a[..], l, ir + 1)
  {
    hide Permuted, Descending, Tops;
    PermutedSelf(a[..], l, ir + 1);
    DescendingShort(a[..], l, if l <= ir then l + 1 else l);
    var j := l + 1;
    while j <= ir
      invariant l < j && (j <= ir + 1 || j == l + 1)
      invariant Permuted(old(a[..]), a[..], l, ir + 1)
      invariant Descending(a[..], l, if j <= ir + 1 then j else ir + 1)
      invariant first < l ==> Tops(a[..], l - 1, l, ir + 1)
    {
      ghost var s := a[..];
      TopsAt(s, l - 1, l, ir + 1, j);
      Insert(a, first, l, j);
      InsertKeeps(old(a[..]), s, a[..], l, j + 1, ir + 1);
      j := j + 1;
    }
  }

  /** The element at `i` is at least as large as all in [lo, hi). */
  ghost predicate Tops(s: seq<Id>, i: int, lo: int, hi: int)
    requires 0 <= i < |s| && 0 <= lo && hi <= |s|
  {
    forall k :: lo <= k < hi ==> s[i] >= s[k]
  }

  lemma TopsAt(s: seq<Id>, i: int, lo: int, hi: int, k: int)
    requires 0 <= i < |s| && 0 <= lo <= k < hi <= |s|
    ensures Tops(s, i, lo, hi) ==> s[i] >= s[k]
  {
  }

  /** A bound on a part survives permuting the part. */
  lemma PermutedBelow(s: seq<Id>, t: seq<Id>, lo: int, hi: int, i: int)
    requires Permuted(s, t, lo, hi) && 0 <= i < |s| && !(lo <= i < hi)
    ensures s[i] == t[i]
    ensures Tops(s, i, lo, hi) ==> Tops(t, i, lo, hi)
    ensures (forall k :: lo <= k < hi ==> s[i] <= s[k]) ==> forall k :: lo <= k < hi ==> t[i] <= t[k]
  {
    PermutedOutside(s, t, lo, hi, i);
    forall k | lo <= k < hi ensures exists m :: lo <= m < hi && s[m] == t[k] {
      var m := PermutedFrom(s, t, lo, hi, k);
    }
  }

  // --- Partitioning ------------------------------------------------------------

  /** Swaps two elements that are out of order. */
  method Order(a: array<Id>, i: nat, j: nat, ghost s: seq<Id>, ghost lo: nat, ghost hi: nat)
    requires lo <= i < hi <= a.Length && lo <= j < hi && i != j
    requires Permuted(s, a[..], lo, hi)
    modifies a
    ensures if old(a[i]) < old(a[j]) then a[i] == old(a[j]) && a[j] == old(a[i])
        else a[i] == old(a[i]) && a[j] == old(a[j])
    ensures forall k :: 0 <= k < a.Length && k != i && k != j ==> a[k] == old(a[k])
    ensures Permuted(s, a[..], lo, hi)
  {
    hide Permuted;
    if a[i] < a[j] { Swap(a, i, j, s, lo, hi); }
  }

  /** The sum of a segment's bounds, counted from the start of the list, fits an int. */
  predicate MidFits(l: int, ir: int) { l + ir <= MAX_INT }

  /** That is so for every segment of a list that is long enough to be partitioned exactly
      if the list has at most MAX_SORTED entries; `SortWorst` comes to one that is too far
      right whenever the list is longer. */
  lemma MidpointExact(n: nat)
    ensures (forall l, ir :: 1 <= l && l + SMALL <= ir <= n ==> MidFits(l, ir)) <==> n <= MAX_SORTED
  {
    if n > MAX_SORTED { assert !MidFits(n - SMALL, n); }
  }

  /** A segment whose first partition leaves nine elements on the right: 3, then 2s with a
      1 in the middle, then nine 0s. */
  ghost predicate Lopsided(s: seq<Id>, b: int, l: int, ir: int) {
    && 0 <= b < l && l + 20 <= ir < |s| && s[l] == 3
    && (forall k {:trigger s[k]} :: l < k < ir - SMALL ==> s[k] == if k == Middle(b, l, ir) then 1 else 2)
    && (forall k {:trigger s[k]} :: ir - SMALL <= k <= ir ==> s[k] == 0)
  }

  /** The midpoint of a segment of the list after slot `b`. */
  function Middle(b: int, l: int, ir: int): int { b + ((l - b) + (ir - b)) / 2 }

  /** Such a segment once the median is at l + 1. */
  ghost predicate Ready(s: seq<Id>, l: int, ir: int) {
    && 0 <= l && l + 20 <= ir < |s| && s[l + 1] == 1
    && (forall k {:trigger s[k]} :: l + 1 < k < ir - SMALL ==> s[k] == 2)
    && (forall k {:trigger s[k]} :: ir - SMALL <= k <= ir ==> s[k] == 0)
  }

  lemma LopsidedAt(s: seq<Id>, b: int, l: int, ir: int)
    requires Lopsided(s, b, l, ir)
    ensures l < Middle(b, l, ir) < ir - SMALL && s[l] == 3 && s[Middle(b, l, ir)] == 1 && s[ir] == 0
  {
  }

  /** The median only changes places with the element at l + 1. */
  lemma LopsidedReady(s: seq<Id>, t: seq<Id>, b: int, l: int, ir: int)
    requires Lopsided(s, b, l, ir) && |t| == |s| && t[l + 1] == 1
    requires var m := Middle(b, l, ir); l < m < |t| && (m != l + 1 ==> t[m] == s[l + 1])
    requires forall k {:trigger t[k]} :: l + 1 < k <= ir && k != Middle(b, l, ir) ==> t[k] == s[k]
    ensures Ready(t, l, ir)
  {
  }

  /** Puts the median of the first, middle and last elements at l + 1. */
  method MedianOfThree(a: array<Id>, b: nat, l: nat, ir: nat)
    requires b < l && l + SMALL <= ir < a.Length && MidFits(l - b, ir - b)
    modifies a
    ensures Permuted(old(a[..]), a[..], l, ir + 1)
    ensures a[l] >= a[l + 1] >= a[ir]
    ensures old(Lopsided(a[..], b, l, ir)) ==> Ready(a[..], l, ir)
  {
    hide Permuted, Lopsided, Ready;
    ghost var s := a[..];
    PermutedSelf(s, l, ir + 1);
    var sum := (l - b) + (ir - b);
    assert sum <= MAX_INT;
    if Lopsided(s, b, l, ir) { LopsidedAt(s, b, l, ir); }
    Swap(a, b + sum / 2, l + 1, s, l, ir + 1);
    Order(a, l, ir, s, l, ir + 1);
    Order(a, l + 1, ir, s, l, ir + 1);
    Order(a, l, l + 1, s, l, ir + 1);
    if Lopsided(s, b, l, ir) { LopsidedReady(s, a[..], b, l, ir); }
  }

  /** The first element from `i` on that is not above `x`; there is one at `stop`. */
  method ScanUp(a: array<Id>, x: Id, i: nat, ghost stop: nat) returns (r: nat)
    requires i <= stop < a.Length && a[stop] <= x
    ensures i <= r <= stop && a[r] <= x && forall k :: i <= k < r ==> a[k] > x
  {
    r := i;
    while a[r] > x
      invariant i <= r <= stop && forall k :: i <= k < r ==> a[k] > x
      decreases stop - r
    {
      r := r + 1;
    }
  }

  /** The last element up to `j` that is not below `x`; there is one at `stop`. */
  method ScanDown(a: array<Id>, x: Id, j: nat, ghost stop: nat) returns (r: nat)
    requires stop <= j < a.Length && a[stop] >= x
    ensures stop <= r <= j && a[r] >= x && forall k :: r < k <= j ==> a[k] < x
  {
    r := j;
    while a[r] < x
      invariant stop <= r <= j && forall k :: r < k <= j ==> a[k] < x
      decreases r
    {
      r := r - 1;
    }
  }

  lemma ReadyScans(s: seq<Id>, l: int, ir: int, i: int, j: int)
    requires Ready(s, l, ir) && l + 1 < i <= ir && l <= j < ir
    requires s[i] <= 1 && (forall k :: l + 1 < k < i ==> s[k] > 1)
    requires s[j] >= 1 && (forall k :: j < k < ir ==> s[k] < 1)
    ensures i == ir - SMALL && j == ir - SMALL - 1
  {
    assert s[ir - SMALL] == 0 && s[ir - SMALL - 1] == 2;
  }

  /** Both scans of one turn, towards each other. */
  method Approach(a: array<Id>, x: Id, l: nat, ir: nat, i0: nat, j0: nat) returns (i: nat, j: nat)
    requires l + 1 <= i0 <= j0 <= ir < a.Length && (i0 == j0 ==> l + 1 < i0 && j0 < ir)
    requires forall k :: l <= k <= i0 ==> a[k] >= x
    requires forall k :: j0 <= k <= ir ==> a[k] <= x
    ensures i0 < i <= ir && l + 1 <= j < j0 && i <= j0 + 1 && i0 - 1 <= j && (i0 < j0 ==> i <= j0 && i0 <= j)
    ensures a[i] <= x <= a[j]
    ensures forall k :: l <= k < i ==> a[k] >= x
    ensures forall k :: j < k <= ir ==> a[k] <= x
    ensures Ready(a[..], l, ir) && x == 1 && i0 == l + 1 && j0 == ir ==> i == ir - SMALL && j == ir - SMALL - 1
  {
    hide Ready;
    i := ScanUp(a, x, i0 + 1, if i0 < j0 then j0 else j0 + 1);
    j := ScanDown(a, x, j0 - 1, if i0 < j0 then i0 else i0 - 1);
    if Ready(a[..], l, ir) && x == 1 && i0 == l + 1 && j0 == ir { ReadyScans(a[..], l, ir, i, j); }
  }

  /** The partition loop. The scans use no bound: they stop at the sentinels. */
  method Partition(a: array<Id>, b: nat, l: nat, ir: nat) returns (i: nat, j: nat)
    requires b < l && l + SMALL <= ir < a.Length && MidFits(l - b, ir - b)
    modifies a
    ensures Permuted(old(a[..]), a[..], l, ir + 1)
    ensures l < j < i <= ir
    ensures forall k :: l <= k < i ==> a[k] >= a[j]
    ensures forall k :: j <= k <= ir ==> a[k] <= a[j]
    ensures old(Lopsided(a[..], b, l, ir)) ==> i == ir - SMALL && j == ir - SMALL - 1
  {
    hide Permuted, Lopsided, Ready;
    ghost var s, bad := a[..], Lopsided(a[..], b, l, ir);
    MedianOfThree(a, b, l, ir);
    i, j := l + 1, ir;
    var x := a[l + 1];
    ReadyMedian(a[..], l, ir);
    while true
      invariant l + 1 <= i <= j <= ir && (i == j ==> l + 1 < i && j < ir)
      invariant a[l + 1] == x
      invariant forall k :: l <= k <= i ==> a[k] >= x
      invariant forall k :: j <= k <= ir ==> a[k] <= x
      invariant Permuted(s, a[..], l, ir + 1)
      invariant bad ==> i == l + 1 && j == ir && x == 1 && Ready(a[..], l, ir)
      decreases j - i
    {
      i, j := Approach(a, x, l, ir, i, j);
      if j < i { break; }
      Swap(a, i, j, s, l, ir + 1);
    }
    Swap(a, l + 1, j, s, l, ir + 1);
  }

  lemma ReadyMedian(s: seq<Id>, l: int, ir: int)
    ensures Ready(s, l, ir) ==> s[l + 1] == 1
  {
  }

  // --- The explicit stack ------------------------------------------------------

  /** A segment still to be sorted: its first and last index. */
  datatype Segment = Segment(l: int, ir: int)

  function Size(g: Segment): int { g.ir - g.l + 1 }

  ghost predicate Inside(g: Segment, i: int) { g.l <= i <= g.ir }

  /** Both indices lie in one segment still to be sorted. */
  ghost predicate Together(pending: seq<Segment>, p: int, q: int) {
    exists k :: 0 <= k < |pending| && Inside(pending[k], p) && Inside(pending[k], q)
  }

  ghost predicate Disjoint(pending: seq<Segment>) {
    forall i, j, k :: 0 <= i < j < |pending| && Inside(pending[i], k) ==> !Inside(pending[j], k)
  }

  /** Everything is in order except within the segments still to be sorted. */
  ghost predicate Ordered(s: seq<Id>, lo: int, hi: int, pending: seq<Segment>) {
    && 0 <= lo && hi <= |s|
    && (forall k :: 0 <= k < |pending| ==> lo <= pending[k].l && pending[k].ir < hi)
    && forall p, q :: lo <= p < q < hi ==> s[p] >= s[q] || Together(pending, p, q)
  }

  /** Pairs across the border of the last segment are in order. */
  lemma LastApart(s: seq<Id>, lo: int, hi: int, rest: seq<Segment>, g: Segment, p: int, q: int)
    requires Ordered(s, lo, hi, rest + [g]) && Disjoint(rest + [g])
    requires lo <= p < q < hi && Inside(g, p) != Inside(g, q)
    ensures s[p] >= s[q]
  {
    var all := rest + [g];
    assert all[|rest|] == g;
    assert forall k :: 0 <= k < |rest| ==> all[k] == rest[k];
  }

  lemma TogetherWithout(rest: seq<Segment>, g: Segment, p: int, q: int)
    requires Together(rest + [g], p, q) && !(Inside(g, p) && Inside(g, q))
    ensures Together(rest, p, q)
  {
  }

  lemma TogetherMore(rest: seq<Segment>, more: seq<Segment>, p: int, q: int)
    requires Together(rest, p, q)
    ensures Together(rest + more, p, q)
  {
    var k :| 0 <= k < |rest| && Inside(rest[k], p) && Inside(rest[k], q);
    assert (rest + more)[k] == rest[k];
  }

  /** Pairs not both in the permuted last segment keep their order. */
  lemma PermutedPair(s: seq<Id>, t: seq<Id>, lo: int, hi: int, rest: seq<Segment>, g: Segment, p: int, q: int)
    requires Ordered(s, lo, hi, rest + [g]) && Disjoint(rest + [g]) && lo <= g.l <= g.ir + 1 <= hi
    requires Permuted(s, t, g.l, g.ir + 1)
    requires lo <= p < q < hi && !(Inside(g, p) && Inside(g, q))
    ensures t[p] >= t[q] || Together(rest, p, q)
  {
    hide Permuted, Disjoint;
    if Inside(g, p) {
      var p0 := PermutedFrom(s, t, g.l, g.ir + 1, p);
      PermutedOutside(s, t, g.l, g.ir + 1, q);
      LastApart(s, lo, hi, rest, g, p0, q);
    } else if Inside(g, q) {
      var q0 := PermutedFrom(s, t, g.l, g.ir + 1, q);
      PermutedOutside(s, t, g.l, g.ir + 1, p);
      LastApart(s, lo, hi, rest, g, p, q0);
    } else {
      PermutedOutside(s, t, g.l, g.ir + 1, p);
      PermutedOutside(s, t, g.l, g.ir + 1, q);
      if s[p] < s[q] { TogetherWithout(rest, g, p, q); }
    }
  }

  /** A sorted segment need not be pending any more. */
  lemma SegmentSorted(s: seq<Id>, t: seq<Id>, lo: int, hi: int, rest: seq<Segment>, g: Segment)
    requires Ordered(s, lo, hi, rest + [g]) && Disjoint(rest + [g]) && lo <= g.l <= g.ir + 1 <= hi
    requires Permuted(s, t, g.l, g.ir + 1) && Descending(t, g.l, g.ir + 1)
    ensures Ordered(t, lo, hi, rest) && Disjoint(rest)
  {
    var all := rest + [g];
    forall k | 0 <= k < |rest| ensures rest[k] == all[k] { }
    forall p, q | lo <= p < q < hi ensures t[p] >= t[q] || Together(rest, p, q) {
      if !(Inside(g, p) && Inside(g, q)) { PermutedPair(s, t, lo, hi, rest, g, p, q); }
    }
  }

  /** `x` and `y` are the two parts of `g` on either side of j .. i. */
  ghost predicate Parts(g: Segment, i: int, j: int, x: Segment, y: Segment) {
    var left, right := Segment(g.l, j - 1), Segment(i, g.ir);
    (x == left && y == right) || (x == right && y == left)
  }

  /** A partitioned segment may be replaced by its two parts. */
  lemma SegmentSplit(s: seq<Id>, t: seq<Id>, lo: int, hi: int, rest: seq<Segment>, g: Segment, x: Segment, y: Segment,
          i: int, j: int)
    requires Ordered(s, lo, hi, rest + [g]) && Disjoint(rest + [g]) && lo <= g.l <= g.ir + 1 <= hi
    requires Permuted(s, t, g.l, g.ir + 1) && g.l <= j <= g.ir
    requires j < i <= g.ir && Parts(g, i, j, x, y)
    requires forall k :: g.l <= k < i ==> t[k] >= t[j]
    requires forall k :: j <= k <= g.ir ==> t[k] <= t[j]
    ensures Ordered(t, lo, hi, rest + [x] + [y]) && Disjoint(rest + [x] + [y])
  {
    var all, parts := rest + [g], rest + [x] + [y];
    assert all[|rest|] == g && parts[|rest|] == x && parts[|rest| + 1] == y;
    forall k | 0 <= k < |rest| ensures all[k] == rest[k] == parts[k] { }
    forall p, q | lo <= p < q < hi ensures t[p] >= t[q] || Together(parts, p, q) {
      if Inside(g, p) && Inside(g, q) {
        assert (Inside(x, p) && Inside(x, q)) || (Inside(y, p) && Inside(y, q)) || t[p] >= t[j] >= t[q];
      } else {
        PermutedPair(s, t, lo, hi, rest, g, p, q);
        if Together(rest, p, q) { TogetherMore(rest, [x], p, q); TogetherMore(rest + [x], [y], p, q); }
      }
    }
  }

  // --- How deep the stack gets ---------------------------------------------------

  lemma {:induction false} Pow2Monotone(m: nat, n: nat)
    requires m <= n
    ensures Pow2(m) <= Pow2(n)
    decreases n
  {
    if m < n { Pow2Monotone(m, n - 1); }
  }

  /** A segment `d` pushes deep has at most n / 2^d elements. */
  ghost predicate Small(g: Segment, d: nat, n: int) { Size(g) * Pow2(d) <= n }

  ghost predicate Shallow(pending: seq<Segment>, n: int) {
    forall k :: 0 <= k < |pending| ==> 0 < Size(pending[k]) && Small(pending[k], k, n)
  }

  /** A list whose length fits an int never needs more than 28 levels. */
  lemma DepthBound(d: nat, g: Segment, n: int)
    requires Size(g) > SMALL && Small(g, d, n) && n <= MAX_INT
    ensures d < 28
  {
    if d >= 28 {
      Pow2Monotone(28, d);
      Pow2Of28();
      MulMonotone(9, Size(g), Pow2(d));
    }
  }

  lemma Pow2Of28()
    ensures Pow2(28) == 0x1000_0000
  {
    assert Pow2(10) == 1024;
    assert Pow2(20) == 0x10_0000;
  }

  lemma MulMonotone(x: int, y: int, z: nat)
    requires x <= y
    ensures x * z <= y * z
  {
  }

  /** The part that is sorted first has at most half the elements. */
  lemma Halved(d: nat, g: Segment, big: Segment, small: Segment, n: int)
    requires Small(g, d, n) && 0 < Size(small) <= Size(big) && Size(big) + Size(small) < Size(g)
    ensures Small(big, d, n) && Small(small, d + 1, n)
  {
    var p := Pow2(d);
    assert Pow2(d + 1) == 2 * p;
    hide Pow2;
    MulMonotone(Size(big), Size(g), p);
    MulMonotone(2 * Size(small), Size(g), p);
    Doubled(Size(small), p);
  }

  lemma Doubled(x: int, p: nat)
    ensures x * (2 * p) == 2 * x * p
  {
  }

  function Total(pending: seq<Segment>): int {
    if pending == [] then 0 else Size(pending[|pending| - 1]) + Total(pending[..|pending| - 1])
  }

  lemma {:induction false} TotalNonNegative(pending: seq<Segment>, n: int)
    requires Shallow(pending, n)
    ensures Total(pending) >= 0
  {
    if pending != [] { TotalNonNegative(pending[..|pending| - 1], n); }
  }

  /** The stack array holds the pending segments, two slots each from slot 1. */
  ghost predicate StackHolds(istack: seq<int>, pending: seq<Segment>) {
    && |istack| == STACK && 2 * |pending| < STACK
    && forall k :: 0 <= k < |pending| ==> istack[2 * k + 1] == pending[k].l && istack[2 * k + 2] == pending[k].ir
  }

  lemma OnePending(s: seq<Id>, lo: int, hi: int)
    requires 0 <= lo <= hi <= |s|
    ensures Ordered(s, lo, hi, [Segment(lo, hi - 1)]) && Disjoint([Segment(lo, hi - 1)]) && Shallow([], hi - lo)
  {
    var one := [Segment(lo, hi - 1)];
    forall p, q | lo <= p < q < hi ensures s[p] >= s[q] || Together(one, p, q) {
      assert Inside(one[0], p) && Inside(one[0], q);
    }
  }

  lemma NonePending(s: seq<Id>, lo: int, hi: int)
    requires Ordered(s, lo, hi, [])
    ensures Descending(s, lo, hi)
  {
  }

  lemma NothingSmallerBefore(s: seq<Id>, lo: int, hi: int, rest: seq<Segment>, g: Segment)
    requires Ordered(s, lo, hi, rest + [g]) && Disjoint(rest + [g]) && lo < g.l
    ensures forall k :: g.l <= k <= g.ir ==> k < hi <= |s| && s[g.l - 1] >= s[k]
  {
    assert (rest + [g])[|rest|] == g;
    forall k | g.l <= k <= g.ir ensures k < hi && s[g.l - 1] >= s[k] {
      LastApart(s, lo, hi, rest, g, g.l - 1, k);
    }
  }

  /** What `Sort` keeps: `g` is the segment at hand, `pending` the stacked ones. */
  ghost predicate Good(s: seq<Id>, t: seq<Id>, lo: int, hi: int, pending: seq<Segment>, g: Segment) {
    && lo <= g.l <= g.ir + 1 <= hi && (pending != [] ==> g.l <= g.ir)
    && Permuted(s, t, lo, hi)
    && Ordered(t, lo, hi, pending + [g]) && Disjoint(pending + [g])
    && Shallow(pending, hi - lo) && Small(g, |pending|, hi - lo)
  }

  lemma GoodRange(s: seq<Id>, t: seq<Id>, lo: int, hi: int, pending: seq<Segment>, g: Segment)
    requires Good(s, t, lo, hi, pending, g)
    ensures 0 <= lo <= g.l <= g.ir + 1 <= hi <= |t| == |s|
  {
  }

  lemma GoodPermuted(s: seq<Id>, t: seq<Id>, lo: int, hi: int, pending: seq<Segment>, g: Segment)
    requires Good(s, t, lo, hi, pending, g)
    ensures Permuted(s, t, lo, hi)
  {
  }

  lemma GoodBounds(s: seq<Id>, t: seq<Id>, lo: int, hi: int, pending: seq<Segment>, g: Segment)
    requires Good(s, t, lo, hi, pending, g)
    ensures 0 <= lo <= g.l <= g.ir + 1 <= hi <= |t| == |s|
    ensures Total(pending) >= 0
    ensures forall k :: 0 <= k < |pending| ==> lo <= pending[k].l <= pending[k].ir < hi
    ensures lo < g.l ==> Tops(t, g.l - 1, g.l, g.ir + 1)
  {
    forall k | 0 <= k < |pending| ensures lo <= pending[k].l <= pending[k].ir < hi {
      assert (pending + [g])[k] == pending[k];
    }
    TotalNonNegative(pending, hi - lo);
    if lo < g.l { NothingSmallerBefore(t, lo, hi, pending, g); }
  }

  lemma Start(s: seq<Id>, lo: int, hi: int)
    requires 0 <= lo <= hi <= |s|
    ensures Good(s, s, lo, hi, [], Segment(lo, hi - 1))
  {
    OnePending(s, lo, hi);
    assert [] + [Segment(lo, hi - 1)] == [Segment(lo, hi - 1)];
  }

  lemma ShallowPop(pending: seq<Segment>, n: int)
    requires Shallow(pending, n) && pending != []
    ensures var rest, top := pending[..|pending| - 1], pending[|pending| - 1];
      Shallow(rest, n) && Small(top, |rest|, n) && rest + [top] == pending && 0 < Size(top)
      && Total(pending) == Total(rest) + Size(top)
  {
    hide Small, Pow2;
    var n' := |pending| - 1;
    forall k | 0 <= k < n' ensures pending[..n'][k] == pending[k] { }
    assert pending[..n'] + [pending[n']] == pending;
  }

  lemma ShallowPush(pending: seq<Segment>, g: Segment, n: int)
    requires Shallow(pending, n) && 0 < Size(g) && Small(g, |pending|, n)
    ensures Shallow(pending + [g], n) && Total(pending + [g]) == Total(pending) + Size(g)
  {
    hide Small, Pow2;
    var more := pending + [g];
    assert more[..|pending|] == pending && more[|pending|] == g;
    forall k | 0 <= k < |more| ensures 0 < Size(more[k]) && Small(more[k], k, n) {
      if k < |pending| { assert more[k] == pending[k]; }
    }
  }

  lemma GoodPop(s: seq<Id>, t: seq<Id>, u: seq<Id>, lo: int, hi: int, pending: seq<Segment>, g: Segment)
    requires Good(s, t, lo, hi, pending, g) && Permuted(t, u, g.l, g.ir + 1) && Descending(u, g.l, g.ir + 1)
    ensures Permuted(s, u, lo, hi)
    ensures pending == [] ==> Descending(u, lo, hi)
    ensures pending != [] ==> var rest, top := pending[..|pending| - 1], pending[|pending| - 1];
      && Good(s, u, lo, hi, rest, top)
      && Total(rest) + Size(top) < Total(pending) + Size(g)
  {
    GoodBounds(s, t, lo, hi, pending, g);
    hide Permuted, Ordered, Disjoint, Descending, Shallow, Small, Total;
    PermutedWiden(t, u, g.l, g.ir + 1, lo, hi);
    PermutedTrans(s, t, u, lo, hi);
    SegmentSorted(t, u, lo, hi, pending, g);
    if pending == [] { NonePending(u, lo, hi); } else { ShallowPop(pending, hi - lo); }
  }

  lemma PartBounds(g: Segment, i: int, j: int, x: Segment, y: Segment)
    requires g.l < j < i <= g.ir && Parts(g, i, j, x, y)
    ensures g.l <= x.l <= x.ir <= g.ir && g.l <= y.l <= y.ir <= g.ir
    ensures 0 < Size(x) && 0 < Size(y) && Size(x) + Size(y) < Size(g)
  {
  }

  lemma SplitDepth(pending: seq<Segment>, g: Segment, big: Segment, small: Segment, n: int)
    requires Shallow(pending, n) && Small(g, |pending|, n) && Size(g) > SMALL && n <= MAX_INT
    requires 0 < Size(small) <= Size(big) && Size(big) + Size(small) < Size(g)
    ensures |pending| < 28
    ensures Shallow(pending + [big], n) && Small(small, |pending + [big]|, n)
    ensures Total(pending + [big]) + Size(small) < Total(pending) + Size(g)
  {
    DepthBound(|pending|, g, n);
    Halved(|pending|, g, big, small, n);
    ShallowPush(pending, big, n);
  }

  lemma GoodSplit(s: seq<Id>, t: seq<Id>, u: seq<Id>, lo: int, hi: int, pending: seq<Segment>, g: Segment,
                  i: int, j: int, big: Segment, small: Segment)
    requires Good(s, t, lo, hi, pending, g) && Permuted(t, u, g.l, g.ir + 1)
    requires g.l < j < i <= g.ir && Size(g) > SMALL && hi - lo <= MAX_INT
    requires forall k :: g.l <= k < i ==> u[k] >= u[j]
    requires forall k :: j <= k <= g.ir ==> u[k] <= u[j]
    requires Parts(g, i, j, big, small) && Size(big) >= Size(small)
    ensures |pending| < 28
    ensures Good(s, u, lo, hi, pending + [big], small)
    ensures Total(pending + [big]) + Size(small) < Total(pending) + Size(g)
  {
    hide Permuted, Ordered, Disjoint, Shallow, Small, Total, Parts, Size, Pow2;
    GoodRange(s, t, lo, hi, pending, g);
    PartBounds(g, i, j, big, small);
    SplitDepth(pending, g, big, small, hi - lo);
    SegmentSplit(t, u, lo, hi, pending, g, big, small, i, j);
    PermutedWiden(t, u, g.l, g.ir + 1, lo, hi);
    PermutedTrans(s, t, u, lo, hi);
  }

  lemma StackPush(istack: seq<int>, pending: seq<Segment>, g: Segment)
    requires StackHolds(istack, pending) && |pending| < 28
    ensures |istack| == STACK
    ensures StackHolds(istack[2 * |pending| + 2 := g.ir][2 * |pending| + 1 := g.l], pending + [g])
  {
  }

  lemma StackPop(istack: seq<int>, pending: seq<Segment>)
    requires StackHolds(istack, pending) && pending != []
    ensures var n, top := 2 * |pending|, pending[|pending| - 1];
      n < STACK == |istack| && istack[n - 1] == top.l && istack[n] == top.ir
    ensures StackHolds(istack, pending[..|pending| - 1])
  {
  }

  lemma StackEmpty(istack: seq<int>)
    requires |istack| == STACK
    ensures StackHolds(istack, [])
  {
  }

  /** `mdb_midl_sort` on the list stored after slot `b`: a descending permutation,
      with every use of the fixed-size stack inside its bounds. The sum for a midpoint
      may overflow on longer lists than MAX_SORTED; the model stops there, not `ok`. */
  method Sort(a: array<Id>, b: nat) returns (ok: bool)
    requires b < a.Length && a[b] <= MAX_INT && b + a[b] < a.Length
    modifies a
    ensures a[b] == old(a[b])
    ensures Permuted(old(a[..]), a[..], b + 1, b + 1 + a[b])
    ensures ok ==> Descending(a[..], b + 1, b + 1 + a[b])
    ensures a[b] <= MAX_SORTED ==> ok
    ensures a[b] > MAX_SORTED && old(Lopsided(a[..], b, b + 1, b + a[b])) ==> !ok
    ensures a[b] == MAX_INT ==> !ok
  {
    hide Permuted, Descending, Good, Total, StackHolds, Lopsided;
    ghost var s := a[..];
    ghost var bad := a[b] > MAX_SORTED && Lopsided(s, b, b + 1, b + a[b]);
    var n := a[b];
    ghost var lo, hi := b + 1, b + 1 + n;
    var istack := new int[STACK](_ => 0);
    var l, ir, jstack := b + 1, b + n, 0;
    ghost var pending: seq<Segment> := [];
    Start(s, lo, hi);
    StackEmpty(istack[..]);
    while true
      invariant jstack == 2 * |pending| && StackHolds(istack[..], pending)
      invariant Good(s, a[..], lo, hi, pending, Segment(l, ir))
      invariant n == MAX_INT ==> l == b + 1 && ir == b + n
      invariant bad ==> ir == b + n && (l == ir - SMALL || (l == b + 1 && Lopsided(a[..], b, l, ir)))
      decreases Total(pending) + ir - l + 1
    {
      ghost var t, g := a[..], Segment(l, ir);
      GoodBounds(s, t, lo, hi, pending, g);
      if ir - l < SMALL {
        assert ir - b < MAX_INT;
        InsertionSort(a, b + 1, l, ir);
        GoodPop(s, t, a[..], lo, hi, pending, g);
        if jstack == 0 { break; }
        ghost var top := pending[|pending| - 1];
        StackPop(istack[..], pending);
        assert istack[..][jstack] == top.ir && istack[..][jstack - 1] == top.l;
        ir, l := istack[jstack], istack[jstack - 1];
        jstack := jstack - 2;
        pending := pending[..|pending| - 1];
      } else {
        if !MidFits(l - b, ir - b) {
          GoodPermuted(s, t, lo, hi, pending, g);
          PermutedOutside(s, t, lo, hi, b);
          return false;
        }
        var i, j := Partition(a, b, l, ir);
        var l', ir' := l, ir;
        if ir - i + 1 >= j - l {
          l', ir' := i, ir;
          ir := j - 1;
        } else {
          l', ir' := l, j - 1;
          l := i;
        }
        GoodSplit(s, t, a[..], lo, hi, pending, g, i, j, Segment(l', ir'), Segment(l, ir));
        StackPush(istack[..], pending, Segment(l', ir'));
        jstack := jstack + 2;
        istack[jstack] := ir';
        istack[jstack - 1] := l';
        pending := pending + [Segment(l', ir')];
      }
    }
    PermutedOutside(s, a[..], lo, hi, b);
    ok := true;
  }

  // --- How long a list may be ------------------------------------------------------

  /** A list of `n` entries, in its buffer, that is cut nine from its end. */
  function Worst(n: nat): (s: seq<Id>)
    requires n <= MAX_INT
    ensures |s| == n + 1 && s[0] == n
  {
    seq(n + 1, k requires 0 <= k <= n => WorstAt(n, k))
  }

  function WorstAt(n: nat, k: nat): Id
    requires n <= MAX_INT
  {
    if k == 0 then n else if k == 1 then 3 else if k >= n - SMALL then 0 else if k == Middle(0, 1, n) then 1 else 2
  }

  lemma WorstLopsided(n: nat)
    requires 21 <= n <= MAX_INT
    ensures Lopsided(Worst(n), 0, 1, n)
  {
  }

  /** Sorting the worst list of every length: together with what `Sort` promises for all
      lists, lists of `n` entries are all sorted exactly if n <= MAX_SORTED. */
  method SortWorst(n: nat) returns (ok: bool, a: array<Id>)
    requires n <= MAX_INT
    ensures ok <==> n <= MAX_SORTED
    ensures fresh(a) && a.Length == n + 1 && Permuted(Worst(n), a[..], 1, n + 1)
    ensures ok ==> Descending(a[..], 1, n + 1)
  {
    hide Permuted, Descending, Lopsided;
    a := new Id[n + 1](k requires 0 <= k <= n => WorstAt(n, k));
    assert a[..] == Worst(n);
    if n > MAX_SORTED { WorstLopsided(n); }
    ok := Sort(a, 0);
  }
}
