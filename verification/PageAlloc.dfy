/**
 What `mdb_page_alloc`, `mdb_ovpage_free` and `mdb_freelist_save` do to the list
 of reclaimed pages, me_pghead: a strictly descending ID list kept in place.
 */
module PageAlloc {
  import opened IdSort
  import opened IdList

  /** The `num` pages from `p` on are all in the list. */
  ghost predicate HasRun(s: seq<Id>, p: int, num: nat) {
    forall q :: p <= q < p + num ==> OneOf(s, q)
  }

  ghost predicate OneOf(s: seq<Id>, p: int) { exists i :: 0 <= i < |s| && s[i] == p }

  /** IDs of a strictly descending list are at least as far apart as their positions. */
  lemma {:induction false} Apart(s: seq<Id>, i: int, j: int)
    requires Strict(s) && 0 <= i <= j < |s|
    ensures s[i] >= s[j] + (j - i)
    decreases j - i
  {
    if i < j { Apart(s, i + 1, j); }
  }

  /** The two-endpoint test of the allocator: positions i - n2 and i hold the ends
      of a run iff everything between them is contiguous. */
  lemma EndpointTest(s: seq<Id>, i: int, n2: nat)
    requires Strict(s) && n2 <= i < |s|
    ensures s[i - n2] == s[i] + n2 <==> forall j :: i - n2 <= j <= i ==> s[j] == s[i] + (i - j)
    ensures s[i - n2] == s[i] + n2 <==> HasRun(s, s[i], n2 + 1)
  {
    if s[i - n2] == s[i] + n2 {
      forall j | i - n2 <= j <= i ensures s[j] == s[i] + (i - j) {
        Apart(s, j, i);
        Apart(s, i - n2, j);
      }
      forall q | s[i] <= q < s[i] + n2 + 1 ensures OneOf(s, q) { assert s[i - (q - s[i])] == q; }
    }
    if HasRun(s, s[i], n2 + 1) { RunDescends(s, s[i], n2, i); }
  }

  /** A run that starts at position `i` fills the positions before it. */
  lemma {:induction false} RunDescends(s: seq<Id>, p: int, n2: nat, i: int)
    requires Strict(s) && 0 <= i < |s| && s[i] == p && HasRun(s, p, n2 + 1)
    ensures n2 <= i && s[i - n2] == p + n2
  {
    if n2 > 0 {
      assert HasRun(s, p, n2);
      RunDescends(s, p, n2 - 1, i);
      assert OneOf(s, p + n2);
      var j :| 0 <= j < |s| && s[j] == p + n2;
      assert s[i - (n2 - 1)] == p + n2 - 1;
      if j <= i - (n2 - 1) { Apart(s, j, i - (n2 - 1)); }
    }
  }

  /** The search loop of `mdb_page_alloc`: the position of the lowest-numbered run of
      `num` pages, or 0 if there is none. */
  method FindRun(mop: array<Id>, num: nat) returns (i: nat)
    requires Holds(mop, 0) && Strict(ListAt(mop[..], 0)) && num > 0
    ensures i == 0 ==> forall p: int :: !HasRun(ListAt(mop[..], 0), p, num)
    ensures i > 0 ==> num <= i <= |ListAt(mop[..], 0)| && HasRun(ListAt(mop[..], 0), mop[i], num)
    ensures i > 0 ==> forall j :: i - num <= j < i ==> ListAt(mop[..], 0)[j] == mop[i] + (i - 1 - j)
    ensures i > 0 ==> forall p: int :: HasRun(ListAt(mop[..], 0), p, num) ==> mop[i] <= p
  {
    hide HasRun, Strict;
    ghost var s := ListAt(mop[..], 0);
    var n2 := num - 1;
    if mop[0] > n2 {
      i := mop[0];
      while true
        invariant n2 < i <= |s|
        invariant NoRunFrom(s, i, num)
        decreases i
      {
        var pgno := mop[i];
        assert mop[i] == s[i - 1] && mop[i - n2] == s[i - 1 - n2];
        EndpointTest(s, i - 1, n2);
        if mop[i - n2] as int == pgno as int + n2 {
          forall p: int | HasRun(s, p, num) ensures mop[i] <= p { RunStart(s, p, n2, i); }
          return;
        }
        i := i - 1;
        if i <= n2 { break; }
      }
    }
    forall p: int ensures !HasRun(s, p, num) {
      if HasRun(s, p, num) { RunStart(s, p, n2, if mop[0] > n2 then n2 else |s|); }
    }
    i := 0;
  }

  ghost predicate NoRunFrom(s: seq<Id>, i: int, num: nat) {
    forall k :: 0 <= i <= k < |s| ==> !HasRun(s, s[k], num)
  }

  /** Where a run may start, when none starts at a position from `i` on. */
  lemma RunStart(s: seq<Id>, p: int, n2: nat, i: nat)
    requires Strict(s) && HasRun(s, p, n2 + 1) && i <= |s|
    requires NoRunFrom(s, i, n2 + 1)
    ensures n2 < i && s[i - 1] <= p
  {
    assert OneOf(s, p);
    var k :| 0 <= k < |s| && s[k] == p;
    RunDescends(s, p, n2, k);
  }

  // --- Taking a run out of the list ------------------------------------------------

  /** The list without the `num` IDs that end at position `i`. */
  ghost function Without(s: seq<Id>, i: nat, num: nat): seq<Id>
    requires num <= i <= |s|
  {
    s[..i - num] + s[i..]
  }

  /** Compaction after a run was found: moves the stragglers down. */
  method TakeRun(mop: array<Id>, i0: nat, num: nat)
    requires Holds(mop, 0) && 0 < num <= i0 <= |ListAt(mop[..], 0)|
    modifies mop
    ensures Holds(mop, 0) && ListAt(mop[..], 0) == Without(old(ListAt(mop[..], 0)), i0, num)
  {
    ghost var u, s := mop[..], ListAt(mop[..], 0);
    var mop_len := mop[0] as int - num;
    mop[0] := mop_len;
    var i, j := i0, i0 - num;
    while j < mop_len
      invariant i == j + num && i0 <= i <= |s| && mop[0] == mop_len
      invariant forall k {:trigger mop[k]} :: 0 < k <= i0 - num || i < k < mop.Length ==> mop[k] == u[k]
      invariant forall k {:trigger mop[k]} :: i0 - num < k <= j ==> mop[k] == u[k + num]
    {
      j := j + 1;
      i := i + 1;
      mop[j] := mop[i];
    }
    Compacted(u, mop[..], i0, num);
  }

  lemma Compacted(u: seq<Id>, v: seq<Id>, i: int, num: nat)
    requires 0 < num <= i && |u| == |v| > 0 && 0 < u[0] < |u| && i <= u[0] && v[0] == u[0] - num
    requires forall k {:trigger v[k]} :: 0 < k <= i - num ==> v[k] == u[k]
    requires forall k {:trigger v[k]} :: i - num < k <= u[0] - num ==> v[k] == u[k + num]
    ensures ListAt(v, 0) == Without(ListAt(u, 0), i, num)
  {
  }

  /** Exactly the run is gone, and the list is still strictly descending. */
  lemma WithoutRun(s: seq<Id>, i: nat, num: nat)
    requires Strict(s) && 0 < num <= i <= |s| && s[i - num] == s[i - 1] + num - 1
    ensures Strict(Without(s, i, num))
    ensures forall x :: OneOf(Without(s, i, num), x) <==> OneOf(s, x) && !(s[i - 1] <= x < s[i - 1] + num)
  {
    var w := Without(s, i, num);
    assert forall k {:trigger w[k]} :: 0 <= k < |w| ==> w[k] == if k < i - num then s[k] else s[k + num];
    forall x ensures OneOf(w, x) <==> OneOf(s, x) && !(s[i - 1] <= x < s[i - 1] + num) {
      if OneOf(w, x) { StaysOut(s, w, i, num, x); }
      if OneOf(s, x) && !(s[i - 1] <= x < s[i - 1] + num) { StaysIn(s, w, i, num, x); }
    }
  }

  lemma StaysOut(s: seq<Id>, w: seq<Id>, i: nat, num: nat, x: int)
    requires Strict(s) && 0 < num <= i <= |s| && s[i - num] == s[i - 1] + num - 1 && |w| == |s| - num
    requires forall k {:trigger w[k]} :: 0 <= k < |w| ==> w[k] == if k < i - num then s[k] else s[k + num]
    requires OneOf(w, x)
    ensures OneOf(s, x) && !(s[i - 1] <= x < s[i - 1] + num)
  {
  }

  lemma StaysIn(s: seq<Id>, w: seq<Id>, i: nat, num: nat, x: int)
    requires Strict(s) && 0 < num <= i <= |s| && s[i - num] == s[i - 1] + num - 1 && |w| == |s| - num
    requires forall k {:trigger w[k]} :: 0 <= k < |w| ==> w[k] == if k < i - num then s[k] else s[k + num]
    requires OneOf(s, x) && !(s[i - 1] <= x < s[i - 1] + num)
    ensures OneOf(w, x)
  {
    EndpointTest(s, i - 1, num - 1);
    var k :| 0 <= k < |s| && s[k] == x;
    assert w[if k < i - num then k else k - num] == x;
  }

  /** Allocation from me_pghead: the lowest-numbered run of `num` pages leaves the
      list, and nothing else does; the list is untouched if it has no such run. */
  method AllocRun(mop: array<Id>, num: nat) returns (found: bool, pgno: int)
    requires Holds(mop, 0) && Strict(ListAt(mop[..], 0)) && num > 0
    modifies mop
    ensures Holds(mop, 0) && Strict(ListAt(mop[..], 0))
    ensures !found ==> mop[..] == old(mop[..]) && forall p: int :: !HasRun(ListAt(mop[..], 0), p, num)
    ensures found ==> HasRun(old(ListAt(mop[..], 0)), pgno, num)
    ensures found ==> forall p: int :: HasRun(old(ListAt(mop[..], 0)), p, num) ==> pgno <= p
    ensures found ==>
        forall x :: OneOf(ListAt(mop[..], 0), x) <==> OneOf(old(ListAt(mop[..], 0)), x) && !(pgno <= x < pgno + num)
  {
    hide HasRun, Strict, OneOf;
    ghost var s := ListAt(mop[..], 0);
    var i := FindRun(mop, num);
    assert ListAt(mop[..], 0) == s;
    found, pgno := i > 0, 0;
    if found {
      assert mop[i] == s[i - 1];
      pgno := mop[i];
      assert forall p: int :: HasRun(s, p, num) ==> pgno <= p;
      WithoutRun(s, i, num);
      TakeRun(mop, i, num);
    }
  }

  // --- Giving a range back -----------------------------------------------------------

  /** The IDs lo .. lo + n in descending order. */
  ghost function Down(lo: Id, n: nat): (r: seq<Id>)
    requires lo + n <= MAX_ID
    ensures |r| == n && forall k :: 0 <= k < n ==> r[k] == lo + (n - 1 - k)
  {
    seq(n, k requires 0 <= k < n => lo + (n - 1 - k))
  }

  /** The insertion of a freed overflow range in `mdb_ovpage_free`. The caller has
      made room with `mdb_midl_need`. */
  method InsertRange(mop: array<Id>, pg0: Id, ovpages: nat) returns (ghost at: nat)
    requires Holds(mop, 0) && mop[0] + ovpages < mop.Length <= MAX_ID && pg0 + ovpages <= MAX_ID
    requires Strict(ListAt(mop[..], 0))
    requires forall k :: 0 <= k < |ListAt(mop[..], 0)| ==> !(pg0 <= ListAt(mop[..], 0)[k] < pg0 + ovpages)
    modifies mop
    ensures Holds(mop, 0) && at <= |old(ListAt(mop[..], 0))|
    ensures ListAt(mop[..], 0) == old(ListAt(mop[..], 0))[..at] + Down(pg0, ovpages) + old(ListAt(mop[..], 0))[at..]
    ensures Strict(ListAt(mop[..], 0))
  {
    ghost var u, s := mop[..], ListAt(mop[..], 0);
    assert |s| == u[0];
    hide Strict, Down, ListAt;
    var len: int := mop[0];
    var i := ShiftSmaller(mop, pg0, ovpages);
    at := i;
    FillRange(mop, i, pg0, ovpages);
    mop[0] := len + ovpages;
    RangeInserted(u, mop[..], i, pg0, ovpages);
    StillStrict(u, s, at, pg0, ovpages);
  }

  /** The second loop of the insertion: the range, downwards, after slot `i`. */
  method FillRange(mop: array<Id>, i: nat, pg0: Id, n: nat)
    requires i + n < mop.Length && pg0 + n <= MAX_ID
    modifies mop
    ensures forall k {:trigger mop[k]} :: 0 <= k <= i || i + n < k < mop.Length ==> mop[k] == old(mop[k])
    ensures forall k {:trigger mop[k]} :: i < k <= i + n ==> mop[k] == pg0 + (i + n - k)
  {
    var pg: int, j := pg0, i + n;
    while j > i
      invariant i <= j <= i + n && pg == pg0 + (i + n - j)
      invariant forall k {:trigger mop[k]} :: 0 <= k <= i || i + n < k < mop.Length ==> mop[k] == old(mop[k])
      invariant forall k {:trigger mop[k]} :: j < k <= i + n ==> mop[k] == pg0 + (i + n - k)
    {
      mop[j] := pg;
      j := j - 1;
      pg := pg + 1;
    }
  }

  /** The first loop of the insertion: moves the IDs below `pg0` up by `n`. */
  method ShiftSmaller(mop: array<Id>, pg0: Id, n: nat) returns (i: nat)
    requires Holds(mop, 0) && mop[0] + n < mop.Length
    modifies mop
    ensures i <= old(mop[0]) && mop[0] == old(mop[0])
    ensures forall k {:trigger mop[k]} :: 0 < k <= i ==> mop[k] == old(mop[..])[k]
    ensures forall k {:trigger mop[k]} :: i + n < k <= mop[0] + n ==> mop[k] == old(mop[..])[k - n]
    ensures i > 0 ==> old(mop[..])[i] >= pg0
    ensures forall k :: i < k <= mop[0] ==> old(mop[..])[k] < pg0
  {
    ghost var u := mop[..];
    i := mop[0];
    var j := mop[0] as int + n;
    while i > 0 && mop[i] < pg0
      invariant 0 <= i <= u[0] && j == i + n
      invariant forall k {:trigger mop[k]} :: 0 <= k <= i ==> mop[k] == u[k]
      invariant forall k {:trigger mop[k]} :: j < k <= u[0] + n ==> mop[k] == u[k - n]
      invariant forall k :: i < k <= u[0] ==> u[k] < pg0
    {
      mop[j] := mop[i];
      j := j - 1;
      i := i - 1;
    }
  }

  lemma RangeInserted(u: seq<Id>, v: seq<Id>, at: int, pg: Id, n: nat)
    requires |u| == |v| > 0 && u[0] + n < |u| <= MAX_ID && 0 <= at <= u[0] && pg + n <= MAX_ID && v[0] == u[0] + n
    requires forall k {:trigger v[k]} :: 0 < k <= at ==> v[k] == u[k]
    requires forall k {:trigger v[k]} :: at + n < k <= u[0] + n ==> v[k] == u[k - n]
    requires forall k {:trigger v[k]} :: at < k <= at + n ==> v[k] == pg + (at + n - k)
    ensures ListAt(v, 0) == ListAt(u, 0)[..at] + Down(pg, n) + ListAt(u, 0)[at..]
  {
  }

  lemma StillStrict(u: seq<Id>, s: seq<Id>, at: int, pg: Id, n: nat)
    requires |u| > 0 && u[0] < |u| && s == ListAt(u, 0) && Strict(s) && 0 <= at <= |s| && pg + n <= MAX_ID
    requires at > 0 ==> u[at] >= pg
    requires forall k :: 0 <= k < |s| ==> !(pg <= s[k] < pg + n)
    requires forall k :: at < k <= u[0] ==> u[k] < pg
    ensures Strict(s[..at] + Down(pg, n) + s[at..])
  {
    var d := Down(pg, n);
    forall k | 0 <= k < |s| ensures s[k] == u[k + 1] { }
    forall k | 0 <= k < at ensures s[k] >= pg + n { assert s[k] >= s[at - 1]; }
    forall k | at <= k < |s| ensures s[k] < pg { }
  }

  // --- Returning loose pages -----------------------------------------------------------

  /** Sums of unsigned ints wrap. */
  const TWO32 := 0x1_0000_0000

  /** The slots `mdb_midl_need` allocates for a list of `num` IDs. */
  function NeedSlots(num: nat): nat { (num + num / 4 + (256 + 2)) % TWO32 / 256 * 256 }

  lemma Wrapped(sum: nat)
    requires sum < 2 * TWO32
    ensures sum % TWO32 == if sum < TWO32 then sum else sum - TWO32
  {
  }

  lemma Blocks(n: nat)
    ensures n / 256 * 256 % 256 == 0 && n - 256 < n / 256 * 256 <= n
  {
  }

  /** They are whole blocks of 256, with a quarter to spare, and enough exactly if their number
      does not wrap. */
  lemma NeedIsEnough(num: nat)
    requires num < TWO32
    ensures num < NeedSlots(num) - 1 <==> num + num / 4 + (256 + 2) < TWO32
    ensures NeedSlots(num) % 256 == 0
    ensures num + num / 4 + (256 + 2) < TWO32 ==> num + num / 4 + 2 < NeedSlots(num) <= num + num / 4 + (256 + 2)
  {
    var sum := num + num / 4 + (256 + 2);
    Wrapped(sum);
    Blocks(sum % TWO32);
  }

  /** The list is in `r` with room for `num` more IDs. */
  ghost predicate Roomy(r: array<Id>, list: seq<Id>, num: nat)
    reads r
  {
    Holds(r, 0) && ListAt(r[..], 0) == list && |list| + num < r.Length
  }

  /** A list of `total` IDs fits the buffer, or the number of slots for it does not wrap. */
  predicate CanGrow(total: nat, length: nat) { total < length || total + total / 4 + (256 + 2) < TWO32 }

  lemma NeedGrows(have: nat, num: nat, length: nat)
    requires have < length && num < TWO32
    ensures var want := (num + have) % TWO32;
      CanGrow(have + num, length) <==> have + num < (if want < length then length else NeedSlots(want) - 1)
    ensures NeedSlots((num + have) % TWO32) < TWO32
  {
    var total, want := num + have, (num + have) % TWO32;
    assert total >= TWO32 || total == want;
    NeedIsEnough(want);
  }

  /** `mdb_midl_need`: room for `num` more IDs, the list unchanged; too large a number
      wraps and leaves too small a buffer. The capacity ids[-1] of a buffer is its number
      of slots less one. */
  method Need(ids: array<Id>, num: nat) returns (r: array<Id>)
    requires Holds(ids, 0) && num < TWO32
    ensures Roomy(r, ListAt(ids[..], 0), num) <==> CanGrow(ids[0] as int + num, ids.Length)
    ensures Roomy(r, ListAt(ids[..], 0), num) <==> ids[0] as int + num < r.Length
    ensures r == ids || (fresh(r) && r.Length < TWO32)
  {
    hide NeedSlots, CanGrow;
    var want: int := (num + ids[0]) % TWO32;
    NeedGrows(ids[0], num, ids.Length);
    if want <= ids.Length - 1 { return ids; }
    var slots := NeedSlots(want);
    r := new Id[if slots == 0 then 0 else slots - 1](_ => 0);
    Copy(ids, r);
  }

  /** Copies as much of the list as there is room for. */
  method Copy(ids: array<Id>, r: array<Id>)
    requires Holds(ids, 0) && ids != r
    modifies r
    ensures r.Length > 0 ==> r[0] == ids[0]
    ensures ids[0] < r.Length ==> Holds(r, 0) && ListAt(r[..], 0) == ListAt(ids[..], 0)
  {
    var n: int := if ids[0] as int + 1 < r.Length then ids[0] as int + 1 else r.Length;
    for k := 0 to n
      invariant forall x :: 0 <= x < k ==> r[x] == ids[x]
    {
      r[k] := ids[k];
    }
  }

  /** `mdb_midl_alloc`: an empty list with room for `num` IDs. The argument is an int, so
      from 2^31 - 2 on the number of words overflows or is negative: no list. */
  method Alloc(num: nat) returns (r: array?<Id>)
    requires num < TWO32
    ensures r != null <==> num <= MAX_INT - 2
    ensures r != null ==> fresh(r) && r.Length == num + 1 && r[0] == 0
  {
    var arg := if num <= MAX_INT then num else num - TWO32;
    if arg < 0 || arg + 2 > MAX_INT { return null; }
    r := new Id[num + 1](_ => 0);
  }

  /** The record part of `mdb_page_alloc`: a freeDB record is merged into the reclaimed
      list, or starts it. Not `ok` if there is no buffer the merge fits in. */
  method FetchRecord(mop: array?<Id>, idl: array<Id>) returns (ok: bool, r: array?<Id>)
    requires Holds(idl, 0) && idl[0] < TWO32 && Strict(ListAt(idl[..], 0)) && idl != mop
    requires mop != null ==> Holds(mop, 0) && Strict(ListAt(mop[..], 0))
    requires mop != null ==> mop[0] as int + idl[0] <= MAX_ID && Separate(ListAt(mop[..], 0), ListAt(idl[..], 0))
    modifies mop
    ensures ok <==> if mop == null then idl[0] <= MAX_INT - 2 else CanGrow(old(mop[0]) as int + idl[0], mop.Length)
    ensures ok ==> r != null && Holds(r, 0) && (r == mop || fresh(r)) && Strict(ListAt(r[..], 0))
    ensures ListAt(idl[..], 0) == old(ListAt(idl[..], 0))
    ensures ok ==> var head := if mop == null then [] else old(ListAt(mop[..], 0));
      forall x :: x in ListAt(r[..], 0) <==> x in head || x in ListAt(idl[..], 0)
  {
    hide Strict, Falling, CanGrow;
    ghost var s, t := if mop == null then [] else ListAt(mop[..], 0), ListAt(idl[..], 0);
    if mop == null {
      r := Alloc(idl[0]);
      if r == null { return false, null; }
      EmptyList(r[..]);
    } else {
      r := Need(mop, idl[0]);
      if mop[0] as int + idl[0] >= r.Length { return false, r; }
    }
    ok := true;
    StrictFalls(s);
    StrictFalls(t);
    XMerge(r, idl, 0);
    MergeIsUnion(s, t, ListAt(r[..], 0));
  }

  lemma EmptyList(a: seq<Id>)
    requires a != [] && a[0] == 0
    ensures ListAt(a, 0) == [] && Strict([])
  {
  }

  /** The tail of `mdb_freelist_save`: the loose pages are listed at the end of the
      buffer's own free room, sorted there and merged into the list before it. The
      two never overlap once there is room for 2 * count + 1 more IDs. */
  method ReturnLoose(mop: array<Id>, pages: seq<Id>)
    requires Holds(mop, 0) && mop[0] + 2 * |pages| + 1 < mop.Length <= MAX_ID && |pages| <= MAX_SORTED
    requires Falling(ListAt(mop[..], 0))
    modifies mop
    ensures Holds(mop, 0) && Falling(ListAt(mop[..], 0))
    ensures multiset(ListAt(mop[..], 0)) == multiset(old(ListAt(mop[..], 0))) + multiset(pages)
    ensures old(Strict(ListAt(mop[..], 0))) && Distinct(pages) && Separate(old(ListAt(mop[..], 0)), pages) ==>
      && Strict(ListAt(mop[..], 0))
      && forall x :: x in ListAt(mop[..], 0) <==> x in old(ListAt(mop[..], 0)) || x in pages
  {
    hide Falling, Permuted, Descending, Strict, Distinct;
    ghost var s := ListAt(mop[..], 0);
    var loose := ListLoose(mop, pages);
    ghost var v := mop[..];
    var sorted := Sort(mop, loose);
    assert sorted;
    SortedList(v, mop[..], loose);
    SortedBefore(v, mop[..], loose);
    XMerge(mop, mop, loose);
    if Strict(s) && Distinct(pages) && Separate(s, pages) {
      StrictFalls(s);
      MergeIsUnion(s, pages, ListAt(mop[..], 0));
    }
  }

  /** All of it: room first, then the loose pages, if there are any. */
  method GatherLoose(mop: array<Id>, pages: seq<Id>) returns (ok: bool, r: array<Id>)
    requires Holds(mop, 0) && mop.Length <= MAX_ID && Strict(ListAt(mop[..], 0)) && |pages| <= MAX_SORTED
    requires Distinct(pages) && Separate(ListAt(mop[..], 0), pages)
    modifies mop
    ensures ok <==> pages == [] || CanGrow(old(mop[0]) as int + 2 * |pages| + 1, mop.Length)
    ensures ok ==> Holds(r, 0) && (r == mop || fresh(r)) && Strict(ListAt(r[..], 0))
    ensures ok ==> r[0] == old(mop[0]) as int + |pages|
    ensures ok ==> forall x :: x in ListAt(r[..], 0) <==> x in old(ListAt(mop[..], 0)) || x in pages
  {
    hide Strict, Distinct, CanGrow, Falling;
    if pages == [] { return true, mop; }
    ghost var s := ListAt(mop[..], 0);
    r := Need(mop, 2 * |pages| + 1);
    ok := mop[0] as int + 2 * |pages| + 1 < r.Length;
    if ok {
      StrictFalls(s);
      ReturnLoose(r, pages);
      assert |multiset(ListAt(r[..], 0))| == |multiset(s)| + |multiset(pages)|;
    }
  }

  method ListLoose(mop: array<Id>, pages: seq<Id>) returns (loose: nat)
    requires Holds(mop, 0) && mop[0] + 2 * |pages| + 1 < mop.Length <= MAX_ID && |pages| <= MAX_SORTED
    modifies mop
    ensures loose + |pages| < mop.Length && mop[loose] == |pages| && loose > mop[0] + |pages|
    ensures mop[0] == old(mop[0]) && ListAt(mop[..], 0) == old(ListAt(mop[..], 0)) && ListAt(mop[..], loose) == pages
  {
    loose := mop.Length - 1 - |pages|;
    var count := 0;
    while count < |pages|
      invariant 0 <= count <= |pages|
      invariant forall k :: 0 <= k < loose ==> mop[k] == old(mop[k])
      invariant forall k {:trigger mop[k]} :: loose < k <= loose + count ==> mop[k] == pages[k - loose - 1]
    {
      count := count + 1;
      mop[loose + count] := pages[count - 1];
    }
    mop[loose] := count;
  }

  lemma SortedList(v: seq<Id>, w: seq<Id>, b: nat)
    requires b < |v| && b + v[b] < |v| && |w| == |v| && w[b] == v[b]
    requires Permuted(v, w, b + 1, b + 1 + v[b]) && Descending(w, b + 1, b + 1 + v[b])
    ensures Falling(ListAt(w, b)) && multiset(ListAt(w, b)) == multiset(ListAt(v, b))
  {
  }

  lemma SortedBefore(v: seq<Id>, w: seq<Id>, b: nat)
    requires b < |v| && b + v[b] < |v| && v[0] < b && Permuted(v, w, b + 1, b + 1 + v[b])
    ensures w[0] == v[0] && ListAt(w, 0) == ListAt(v, 0)
  {
  }

  ghost predicate Distinct(s: seq<Id>) { forall i, j :: 0 <= i < j < |s| ==> s[i] != s[j] }

  ghost predicate Separate(s: seq<Id>, t: seq<Id>) { forall x :: x in s ==> x !in t }

  lemma StrictFalls(s: seq<Id>)
    requires Strict(s)
    ensures Falling(s) && Distinct(s)
  {
  }

  /** Merging two disjoint lists without repetition gives their strictly descending union. */
  lemma MergeIsUnion(s: seq<Id>, t: seq<Id>, r: seq<Id>)
    requires Distinct(s) && Distinct(t) && Falling(r) && multiset(r) == multiset(s) + multiset(t) && Separate(s, t)
    ensures Strict(r)
    ensures forall x :: x in r <==> x in s || x in t
  {
    forall x ensures x in r <==> x in s || x in t {
      assert x in r <==> x in multiset(r);
    }
    forall i, j | 0 <= i < j < |r| ensures r[i] > r[j] {
      AtMostOnce(s, r[i]);
      AtMostOnce(t, r[i]);
      if r[i] == r[j] { Twice(r, i, j); }
    }
  }

  lemma Twice(r: seq<Id>, i: int, j: int)
    requires 0 <= i < j < |r| && r[i] == r[j]
    ensures multiset(r)[r[i]] >= 2
  {
    assert r == r[..i] + [r[i]] + r[i + 1..j] + [r[j]] + r[j + 1..];
  }

  lemma {:induction false} AtMostOnce(s: seq<Id>, x: Id)
    requires Distinct(s)
    ensures multiset(s)[x] <= 1
    ensures x !in s ==> multiset(s)[x] == 0
  {
    if s != [] {
      AtMostOnce(s[1..], x);
      assert s == [s[0]] + s[1..];
    }
  }
}
