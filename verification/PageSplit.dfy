/**
 Space on a B+tree page: node footprints, the choice of the split point in
 `mdb_page_split`, and the fill tests of `mdb_rebalance`.
 */
module PageSplit {

  const PAGEHDRSZ := 16
  const NODESIZE := 8
  const SIZEOF_PGNO := 8
  const SIZEOF_INDX := 2
  const MAXKEYSIZE := 511

  /** Page size and the common length of all keys. */
  datatype Env = Env(psize: nat, ksize: nat) {
    predicate Valid() { psize >= 4096 && psize % 2 == 0 && 0 < ksize <= MAXKEYSIZE }
    /** Room for nodes and their index entries on an empty page. */
    function PMax(): nat
      requires Valid()
    {
      psize - PAGEHDRSZ
    }
    /** me_nodemax */
    function NodeMax(): nat
      requires Valid()
    {
      (psize - PAGEHDRSZ) / 2 / 2 * 2 - SIZEOF_INDX
    }
  }

  function Even(n: nat): nat { (n + 1) / 2 * 2 }

  /** `mdb_leaf_size`: a data item too large for a node goes to overflow pages. */
  function LeafSize(env: Env, dsize: nat): nat
    requires env.Valid()
  {
    var sz := NODESIZE + env.ksize + dsize;
    Even((if sz > env.NodeMax() then NODESIZE + env.ksize + SIZEOF_PGNO else sz) + SIZEOF_INDX)
  }

  /** Footprint of a branch node: slot 0 has an empty key. */
  function BranchSize(env: Env, first: bool): nat {
    Even(NODESIZE + (if first then 0 else env.ksize)) + SIZEOF_INDX
  }

  /** The limit for a node with its offset entry is the largest even half of a page. */
  lemma NodeMaxExact(env: Env, n: nat)
    requires env.Valid() && n % 2 == 0
    ensures n <= env.NodeMax() <==> 2 * (n + SIZEOF_INDX) <= env.PMax()
  {
  }

  /** No node takes more than half of a page. */
  lemma NodesAreHalf(env: Env, dsize: nat)
    requires env.Valid()
    ensures 2 * LeafSize(env, dsize) <= env.PMax() && 2 * BranchSize(env, false) <= env.PMax()
    ensures LeafSize(env, dsize) > 0 && 10 == BranchSize(env, true) < BranchSize(env, false)
  {
  }

  function Sum(s: seq<nat>): nat { if s == [] then 0 else Sum(s[..|s| - 1]) + s[|s| - 1] }

  lemma {:induction false} SumConcat(a: seq<nat>, b: seq<nat>)
    ensures Sum(a + b) == Sum(a) + Sum(b)
  {
    if b == [] {
      assert a + b == a;
    } else {
      SumConcat(a, b[..|b| - 1]);
      assert (a + b)[..|a + b| - 1] == a + b[..|b| - 1];
    }
  }

  lemma SumCut(s: seq<nat>, i: nat)
    requires i <= |s|
    ensures Sum(s) == Sum(s[..i]) + Sum(s[i..])
  {
    SumConcat(s[..i], s[i..]);
    assert s == s[..i] + s[i..];
  }

  lemma SumStep(s: seq<nat>, i: nat)
    requires i < |s|
    ensures Sum(s[..i + 1]) == Sum(s[..i]) + s[i] && Sum(s[i..]) == s[i] + Sum(s[i + 1..])
  {
    assert s[..i + 1][..i] == s[..i];
    SumConcat([s[i]], s[i + 1..]);
    assert s[i..] == [s[i]] + s[i + 1..] && [s[i]][..0] == [];
  }

  // --- The split point ---------------------------------------------------------------

  /** A page with `|s| - 1` nodes needs a split to take the node of size s[newindx]:
      `s` has all footprints in order, the new one among them. */
  ghost predicate MustSplit(s: seq<nat>, newindx: nat, pmax: nat) {
    && newindx < |s| && Sum(s) > pmax && Sum(s) - s[newindx] <= pmax
    && forall i :: 0 <= i < |s| ==> 0 < s[i] && 2 * s[i] <= pmax
  }

  function Half(nkeys: nat): nat { (nkeys + 1) / 2 }

  /** The test that makes `mdb_page_split` look for the split point. */
  predicate Scans(s: seq<nat>, newindx: nat, pmax: nat)
    requires newindx < |s|
  {
    var nkeys := |s| - 1;
    nkeys < 20 || s[newindx] > pmax / 16 || newindx >= nkeys
  }

  /** The test in numbers. */
  lemma ScansMeans(s: seq<nat>, newindx: nat, pmax: nat)
    requires newindx < |s|
    ensures Scans(s, newindx, pmax) <==> |s| <= 20 || 16 * s[newindx] > pmax || newindx == |s| - 1
  {
  }

  /** The scan from the left: stops at the node that would not fit on the left page,
      or just before `k`. */
  function ScanUp(s: seq<nat>, pmax: nat, i: nat, k: nat): (r: nat)
    requires i < k && i <= |s| && Sum(s[..i]) <= pmax < Sum(s)
    ensures i <= r < |s| && r < k && Sum(s[..r]) <= pmax && (Sum(s[..r + 1]) > pmax || r == k - 1)
    decreases k - i
  {
    assert s[..|s|] == s;
    if Sum(s[..i + 1]) > pmax || i == k - 1 then i else ScanUp(s, pmax, i + 1, k)
  }

  /** The scan from the right: the first index such that the right page fits, or
      `k` + 2 if the scan gets that far. */
  function ScanDown(s: seq<nat>, pmax: nat, i: nat, k: int): (r: nat)
    requires -1 <= k < i < |s| && Sum(s[i + 1..]) <= pmax < Sum(s)
    ensures 0 < r <= i + 1 && k + 1 < r && Sum(s[r..]) <= pmax && (Sum(s[r - 1..]) > pmax || r == k + 2)
    decreases i
  {
    if Sum(s[i..]) > pmax || i == k + 1 then i + 1 else ScanDown(s, pmax, i - 1, k)
  }

  function SplitIndex(s: seq<nat>, newindx: nat, pmax: nat): (split: nat)
    requires newindx < |s| && pmax < Sum(s)
  {
    var nkeys, half := |s| - 1, Half(|s| - 1);
    if !Scans(s, newindx, pmax) then half
    else if newindx <= half || newindx >= nkeys then
      if nkeys == 0 then 0 else
      assert s[..0] == [];
      ScanUp(s, pmax, 0, if newindx >= nkeys then nkeys else half + 2)
    else
      assert s[nkeys + 1..] == [];
      ScanDown(s, pmax, nkeys, half - 1)
  }

  /** Where the page is cut: in the middle, or as far right of the front as the left page
      allows, up to just behind the middle unless the new node is the last, or for a new
      node behind the middle as far left as the right page allows. */
  lemma SplitPoint(s: seq<nat>, newindx: nat, pmax: nat)
    requires MustSplit(s, newindx, pmax)
    ensures var last, half, m := |s| - 1, |s| / 2, SplitIndex(s, newindx, pmax);
      if |s| > 20 && 16 * s[newindx] <= pmax && newindx < last then m == half
      else if newindx == last || newindx <= half then
        var max := if newindx == last then last - 1 else half + 1;
        m <= max && Sum(s[..m]) <= pmax && (m == max || Sum(s[..m + 1]) > pmax)
      else half < m && Sum(s[m..]) <= pmax && (m == half + 1 || Sum(s[m - 1..]) > pmax)
  {
    hide Sum, ScanUp, ScanDown;
    AtLeastThree(s, newindx, pmax);
    ScansMeans(s, newindx, pmax);
  }

  /** The old nodes on one side of the new one fit on a page. */
  lemma SidesFit(s: seq<nat>, newindx: nat, pmax: nat, i: nat)
    requires MustSplit(s, newindx, pmax) && i <= |s|
    ensures i <= newindx ==> Sum(s[..i]) <= pmax
    ensures i > newindx ==> Sum(s[i..]) <= pmax
    ensures Sum(s[..newindx]) + Sum(s[newindx + 1..]) <= pmax
  {
    SumCut(s, newindx);
    SumStep(s, newindx);
    if i <= newindx {
      SumCut(s[..newindx], i);
      assert s[..newindx][..i] == s[..i];
    } else {
      SumCut(s[newindx + 1..], i - newindx - 1);
      assert s[newindx + 1..][i - newindx - 1..] == s[i..];
    }
  }

  ghost predicate BothFit(s: seq<nat>, split: nat, pmax: nat) {
    0 < split < |s| && Sum(s[..split]) <= pmax && Sum(s[split..]) <= pmax
  }

  /** Cutting right before or right after a new node that does not fit beside all its
      neighbours on one side: it fits beside those on the other. */
  lemma CutAtNew(s: seq<nat>, newindx: nat, pmax: nat)
    requires MustSplit(s, newindx, pmax)
    ensures Sum(s[..newindx + 1]) > pmax ==> Sum(s[newindx..]) <= pmax
    ensures Sum(s[newindx..]) > pmax ==> Sum(s[..newindx + 1]) <= pmax
  {
    hide Sum;
    SidesFit(s, newindx, pmax, newindx);
    SumStep(s, newindx);
  }

  lemma UpFits(s: seq<nat>, newindx: nat, pmax: nat, r: nat, k: nat)
    requires MustSplit(s, newindx, pmax) && r < k && r < |s| && 2 <= k && newindx < k - 1
    requires Sum(s[..r]) <= pmax && (Sum(s[..r + 1]) > pmax || r == k - 1)
    ensures BothFit(s, r, pmax)
  {
    assert Sum(s[..1]) == s[0] by { SumStep(s, 0); }
    hide Sum;
    SidesFit(s, newindx, pmax, r);
    SidesFit(s, newindx, pmax, r + 1);
    CutAtNew(s, newindx, pmax);
  }

  lemma DownFits(s: seq<nat>, newindx: nat, pmax: nat, r: nat, k: int)
    requires MustSplit(s, newindx, pmax) && 0 < r <= |s| && 0 <= k && k + 1 < newindx < |s| - 1
    requires Sum(s[r..]) <= pmax && (Sum(s[r - 1..]) > pmax || r == k + 2)
    ensures BothFit(s, r, pmax)
  {
    hide Sum;
    SidesFit(s, newindx, pmax, r - 1);
    SidesFit(s, newindx, pmax, r);
    CutAtNew(s, newindx, pmax);
  }

  /** When the split point is looked for, both pages get at least one node and
      neither overflows. */
  lemma ScanFits(s: seq<nat>, newindx: nat, pmax: nat)
    requires MustSplit(s, newindx, pmax) && Scans(s, newindx, pmax)
    ensures BothFit(s, SplitIndex(s, newindx, pmax), pmax)
  {
    hide Sum, ScanUp, ScanDown;
    var nkeys, half, split := |s| - 1, Half(|s| - 1), SplitIndex(s, newindx, pmax);
    AtLeastThree(s, newindx, pmax);
    if newindx >= nkeys {
      SidesFit(s, newindx, pmax, split + 1);
      LastTwo(s, pmax);
    } else if newindx <= half {
      UpFits(s, newindx, pmax, split, half + 2);
    } else {
      DownFits(s, newindx, pmax, split, half - 1);
    }
  }

  /** Two nodes always fit on a page, so a page to be split has at least two. */
  lemma AtLeastThree(s: seq<nat>, newindx: nat, pmax: nat)
    requires MustSplit(s, newindx, pmax)
    ensures |s| >= 3
  {
    if |s| <= 2 { TwoFit(s, pmax); }
  }

  lemma TwoFit(s: seq<nat>, pmax: nat)
    requires |s| <= 2 && forall i :: 0 <= i < |s| ==> 2 * s[i] <= pmax
    ensures Sum(s) <= pmax
  {
  }

  lemma LastTwo(s: seq<nat>, pmax: nat)
    requires |s| >= 2 && forall i :: 0 <= i < |s| ==> 2 * s[i] <= pmax
    ensures Sum(s[|s| - 2..]) <= pmax
  {
    SumStep(s, |s| - 2);
    SumStep(s, |s| - 1);
  }

  /** Otherwise the page is cut in the middle, and the split fails (MDB_PAGE_FULL)
      exactly when the half that gets the new node has no room for it: the half
      without it always fits. */
  lemma HalfSplit(s: seq<nat>, newindx: nat, pmax: nat)
    requires MustSplit(s, newindx, pmax) && !Scans(s, newindx, pmax)
    ensures var half := Half(|s| - 1);
      && SplitIndex(s, newindx, pmax) == half
      && (newindx < half ==> (BothFit(s, half, pmax) <==>
            s[newindx] <= pmax - Sum(s[..newindx]) - Sum(s[newindx + 1..half])))
      && (newindx >= half ==> (BothFit(s, half, pmax) <==>
            s[newindx] <= pmax - Sum(s[half..newindx]) - Sum(s[newindx + 1..])))
  {
    hide Sum;
    var half := Half(|s| - 1);
    AtLeastThree(s, newindx, pmax);
    SidesFit(s, newindx, pmax, half);
    if newindx < half {
      SliceSum(s, 0, half, newindx);
      assert s[0..half] == s[..half] && s[0..newindx] == s[..newindx];
    } else {
      SliceSum(s, half, |s|, newindx);
      assert s[half..|s|] == s[half..] && s[newindx + 1..|s|] == s[newindx + 1..];
    }
  }

  lemma SliceSum(s: seq<nat>, a: nat, b: nat, i: nat)
    requires a <= i < b <= |s|
    ensures Sum(s[a..b]) == Sum(s[a..i]) + s[i] + Sum(s[i + 1..b])
  {
    hide Sum;
    var t, j := s[a..b], i - a;
    SumCut(t, j);
    SumStep(t, j);
    assert t[..j] == s[a..i] && t[j + 1..] == s[i + 1..b] && t[j] == s[i];
  }

  /** From five nodes on, both pages get at least two. */
  lemma SplitTwo(s: seq<nat>, newindx: nat, pmax: nat)
    requires MustSplit(s, newindx, pmax) && |s| >= 5
    ensures 2 <= SplitIndex(s, newindx, pmax) <= |s| - 2
  {
    hide Sum, ScanUp, ScanDown;
    var split := SplitIndex(s, newindx, pmax);
    if split < 2 { TwoFit(s[..split + 1], pmax); }
    if 0 < split && |s| - split < 2 { TwoFit(s[split - 1..], pmax); }
  }

  function Repeat(n: nat, v: nat): (s: seq<nat>)
    ensures |s| == n && forall i :: 0 <= i < n ==> s[i] == v
  {
    if n == 0 then [] else Repeat(n - 1, v) + [v]
  }

  lemma {:induction false} SumRepeat(n: nat, v: nat)
    ensures Sum(Repeat(n, v)) == n * v
  {
    if n > 0 {
      SumRepeat(n - 1, v);
      assert Repeat(n, v)[..n - 1] == Repeat(n - 1, v);
      assert n * v == (n - 1) * v + v;
    }
  }

  /** It does fail: a 4096-byte page with nine nodes of 438 bytes followed by eleven of
      12 bytes has no room on its left half for a node of 240 bytes at the front. */
  lemma HalfSplitCanFail()
    ensures var s := [240] + Repeat(9, 438) + Repeat(11, 12);
      MustSplit(s, 0, 4080) && !Scans(s, 0, 4080) && !BothFit(s, SplitIndex(s, 0, 4080), 4080)
  {
    var s := [240] + Repeat(9, 438) + Repeat(11, 12);
    SumRepeat(9, 438);
    SumRepeat(11, 12);
    SumConcat([240], Repeat(9, 438));
    SumConcat([240] + Repeat(9, 438), Repeat(11, 12));
    assert Sum([240]) == 240 by { assert [240][..0] == []; }
    assert s[..10] == [240] + Repeat(9, 438);
  }

  /** The scan is at index `i`, going by `j`, and will end at `want`. */
  ghost predicate Scanning(s: seq<nat>, pmax: nat, psize: nat, i: int, j: int, k: int, want: int) {
    if j == 1 then 0 <= i < k && i < |s| && psize == Sum(s[..i]) <= pmax < Sum(s) && ScanUp(s, pmax, i, k) == want
    else j == -1 && -1 <= k < i < |s| && psize == Sum(s[i + 1..]) <= pmax < Sum(s) && ScanDown(s, pmax, i, k) == want
  }

  lemma ScanningStep(s: seq<nat>, pmax: nat, psize: nat, i: int, j: int, k: int, want: int)
    requires Scanning(s, pmax, psize, i, j, k, want)
    ensures 0 <= i < |s| && (j == 1 || j == -1) && (j == 1 ==> i < k) && (j == -1 ==> k < i)
    ensures psize + s[i] > pmax || i == k - j ==> want == if j < 0 then i + 1 else i
    ensures psize + s[i] <= pmax && i != k - j ==> Scanning(s, pmax, psize + s[i], i + j, j, k, want)
  {
    hide Sum;
    SumStep(s, i);
    assert s[..|s|] == s && s[0..] == s;
  }

  lemma ScanningStart(s: seq<nat>, newindx: nat, pmax: nat)
    requires MustSplit(s, newindx, pmax) && Scans(s, newindx, pmax)
    ensures var nkeys, half := |s| - 1, Half(|s| - 1);
      if newindx <= half || newindx >= nkeys
      then Scanning(s, pmax, 0, 0, 1, if newindx >= nkeys then nkeys else half + 2, SplitIndex(s, newindx, pmax))
      else Scanning(s, pmax, 0, nkeys, -1, half - 1, SplitIndex(s, newindx, pmax))
  {
  }

  /** The split-point loop of `mdb_page_split`. */
  method FindSplit(s: seq<nat>, newindx: nat, pmax: nat) returns (split: nat)
    requires MustSplit(s, newindx, pmax)
    ensures split == SplitIndex(s, newindx, pmax)
  {
    hide Scanning, Sum;
    var nkeys := |s| - 1;
    split := (nkeys + 1) / 2;
    if nkeys < 20 || s[newindx] > pmax / 16 || newindx >= nkeys {
      var psize, i, j, k := 0, 0, 1, 0;
      if newindx <= split || newindx >= nkeys {
        k := if newindx >= nkeys then nkeys else split + 2;
      } else {
        i, j, k := nkeys, -1, split - 1;
      }
      ScanningStart(s, newindx, pmax);
      ghost var want := SplitIndex(s, newindx, pmax);
      while i != k
        invariant 0 <= psize && Scanning(s, pmax, psize, i, j, k, want)
        decreases if j == 1 then k - i else i - k
      {
        ScanningStep(s, pmax, psize, i, j, k, want);
        psize := psize + s[i];
        if psize > pmax || i == k - j {
          split := if j < 0 then i + 1 else i;
          return;
        }
        i := i + j;
      }
      ScanningStep(s, pmax, psize, i, j, k, want);
    }
  }

  // --- Rebalancing ---------------------------------------------------------------------

  const FILL_THRESHOLD := 250

  /** PAGEFILL: used space in tenths of a percent. */
  function PageFill(used: nat, pmax: nat): nat
    requires pmax > 0
  {
    1000 * used / pmax
  }

  /** The test that makes `mdb_rebalance` act on a page. */
  predicate Underfull(used: nat, nkeys: nat, minkeys: nat, pmax: nat)
    requires pmax > 0
  {
    !(PageFill(used, pmax) >= FILL_THRESHOLD && nkeys >= minkeys)
  }

  /** The test for moving one node from the neighbour rather than merging. */
  predicate CanLend(used: nat, nkeys: nat, minkeys: nat, pmax: nat)
    requires pmax > 0
  {
    PageFill(used, pmax) >= FILL_THRESHOLD && nkeys > minkeys
  }

  lemma BelowThreshold(used: nat, pmax: nat)
    requires pmax > 0
    ensures PageFill(used, pmax) < FILL_THRESHOLD <==> 4 * used < pmax
  {
    var q := 1000 * used / pmax;
    Quotient(1000 * used, pmax);
    if q < 250 { Times(q + 1, 250, pmax); } else { Times(250, q, pmax); }
  }

  lemma Quotient(x: nat, m: nat)
    requires m > 0
    ensures x / m * m <= x < (x / m + 1) * m
  {
  }

  lemma Times(x: nat, y: nat, m: nat)
    requires x <= y
    ensures x * m <= y * m
  {
  }

  /** A merge chosen by `mdb_rebalance` between an underfull leaf and a neighbour that
      cannot lend never overflows the page. */
  lemma LeafMergeFits(a: seq<nat>, b: seq<nat>, pmax: nat)
    requires pmax > 0 && Underfull(Sum(a), |a|, 1, pmax) && !CanLend(Sum(b), |b|, 1, pmax)
    requires forall i :: 0 <= i < |b| ==> 2 * b[i] <= pmax
    ensures Sum(a) + Sum(b) <= pmax
  {
    BelowThreshold(Sum(a), pmax);
    BelowThreshold(Sum(b), pmax);
    if |b| == 1 { assert b[..0] == []; }
  }

  /** Used space of a branch page with `n` children. */
  function BranchUsed(env: Env, n: nat): nat {
    if n == 0 then 0 else BranchSize(env, true) + (n - 1) * BranchSize(env, false)
  }

  /** The same for branches, although slot 0 of the right page gets its lowest key. */
  lemma BranchMergeFits(env: Env, m: nat, n: nat)
    requires env.Valid() && 0 < m && 0 < n
    requires Underfull(BranchUsed(env, m), m, 2, env.PMax()) && !CanLend(BranchUsed(env, n), n, 2, env.PMax())
    ensures BranchUsed(env, m + n) <= env.PMax()
  {
    var b, pmax := BranchSize(env, false), env.PMax();
    BelowThreshold(BranchUsed(env, m), pmax);
    BelowThreshold(BranchUsed(env, n), pmax);
    assert BranchUsed(env, m + n) == BranchUsed(env, m) + BranchUsed(env, n) + (b - 10) by {
      assert (m + n - 1) * b == (m - 1) * b + (n - 1) * b + b;
    }
    assert n <= 2 ==> BranchUsed(env, n) <= 10 + b by { if n <= 2 { assert (n - 1) * b <= b; } }
    assert m == 1 ==> BranchUsed(env, m) == 10;
  }

  /** A node moved from a neighbour fits too. */
  lemma BorrowFits(env: Env, a: seq<nat>, dsize: nat)
    requires env.Valid() && Underfull(Sum(a), |a|, 1, env.PMax())
    ensures Sum(a) + LeafSize(env, dsize) <= env.PMax()
  {
    BelowThreshold(Sum(a), env.PMax());
    NodesAreHalf(env, dsize);
  }
}
