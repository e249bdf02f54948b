/**
 The bytes of a page: nodes are packed against its end, an array of offsets at its
 front puts them in order. What `mdb_node_add`, `mdb_node_del` and `mdb_update_key`
 do to the bytes is inserting, removing and changing one node of a sequence.
 */
module SlottedPage {
  import opened PageSplit

  type Byte = x: int | 0 <= x < 256
  const WORD := 65536
  const F_BIGDATA := 1

  /** A node: the three 16-bit fields of its header beside the key size, the key, and
      what is stored after it. */
  datatype Node = Node(lo: nat, hi: nat, flags: nat, key: seq<Byte>, data: seq<Byte>)

  predicate IsBig(flags: nat) { flags % 2 == F_BIGDATA }

  predicate NodeOk(n: Node, leaf: bool) {
    && n.lo < WORD && n.hi < WORD && n.flags < WORD && |n.key| < WORD
    && |n.data| == if !leaf then 0 else if IsBig(n.flags) then SIZEOF_PGNO else n.lo + WORD * n.hi
  }

  function U16(x: nat): (s: seq<Byte>)
    requires x < WORD
    ensures |s| == 2
  {
    [x % 256, x / 256]
  }

  function U16At(b: seq<Byte>, p: nat): nat
    requires p + 2 <= |b|
  {
    b[p] as int + 256 * (b[p + 1] as int)
  }

  /** Footprint without the offset entry, and the bytes of a node. */
  function Pad(n: Node): nat { Even(NODESIZE + |n.key| + |n.data|) }

  function Header(n: Node): (s: seq<Byte>)
    requires n.lo < WORD && n.hi < WORD && n.flags < WORD && |n.key| < WORD
    ensures |s| == NODESIZE
  {
    U16(n.lo) + U16(n.hi) + U16(n.flags) + U16(|n.key|)
  }

  function Encode(n: Node): (s: seq<Byte>)
    requires n.lo < WORD && n.hi < WORD && n.flags < WORD && |n.key| < WORD
    ensures |s| == NODESIZE + |n.key| + |n.data| <= Pad(n)
  {
    Header(n) + n.key + n.data
  }

  // --- Header fields ---------------------------------------------------------------------------

  /** SETPGNO and NODEPGNO: the page number of a branch node in 48 bits. */
  function BranchNode(key: seq<Byte>, pgno: nat): Node {
    Node(pgno % WORD, pgno / WORD % WORD, pgno / 0x1_0000_0000 % WORD, key, [])
  }

  function NodePgno(n: Node): nat { n.lo + WORD * n.hi + 0x1_0000_0000 * n.flags }

  /** A page number survives exactly if it fits in 48 bits. */
  lemma PgnoRoundTrip(key: seq<Byte>, pgno: nat)
    ensures NodePgno(BranchNode(key, pgno)) == pgno <==> pgno < 0x1_0000_0000_0000
  {
  }

  /** What a leaf node stores: the data, or the page number of the overflow page it is
      on (already, or because the node would be too large), but always the data size. */
  function LeafNode(key: seq<Byte>, data: seq<Byte>, dsize: nat, flags: nat, ovpage: seq<Byte>, nodemax: nat): Node {
    var lo, hi := dsize % WORD, dsize / WORD % WORD;
    if IsBig(flags) then Node(lo, hi, flags, key, data)
    else if NODESIZE + |key| + |data| > nodemax then Node(lo, hi, flags + F_BIGDATA, key, ovpage)
    else Node(lo, hi, flags, key, data)
  }

  function NodeDsz(n: Node): nat { n.lo + WORD * n.hi }

  lemma DszRoundTrip(key: seq<Byte>, data: seq<Byte>, dsize: nat, flags: nat, ovpage: seq<Byte>, nodemax: nat)
    ensures NodeDsz(LeafNode(key, data, dsize, flags, ovpage, nodemax)) == dsize <==> dsize < 0x1_0000_0000
  {
  }

  /** Reading the header back. */
  lemma HeaderAt(b: seq<Byte>, p: nat, n: Node)
    requires n.lo < WORD && n.hi < WORD && n.flags < WORD && |n.key| < WORD && p + NODESIZE <= |b|
    requires b[p..p + NODESIZE] == Header(n)
    ensures U16At(b, p) == n.lo && U16At(b, p + 2) == n.hi && U16At(b, p + 4) == n.flags && U16At(b, p + 6) == |n.key|
  {
  }

  // --- The page as a sequence of nodes ------------------------------------------------------------

  /** Node `n` is stored at offset `p`. */
  ghost predicate At(b: seq<Byte>, p: nat, n: Node) {
    && n.lo < WORD && n.hi < WORD && n.flags < WORD && |n.key| < WORD
    && p + |Encode(n)| <= |b| && b[p..p + |Encode(n)|] == Encode(n)
  }

  predicate Apart(p: nat, n: Node, q: nat, m: Node) { p + Pad(n) <= q || q + Pad(m) <= p }

  function Pads(nodes: seq<Node>): (s: seq<nat>)
    ensures |s| == |nodes| && forall i :: 0 <= i < |s| ==> s[i] == Pad(nodes[i])
  {
    if nodes == [] then [] else Pads(nodes[..|nodes| - 1]) + [Pad(nodes[|nodes| - 1])]
  }

  /** Node `n` is at `p`, aligned, with its padding inside [upper, end). */
  ghost predicate Placed(b: seq<Byte>, upper: nat, p: nat, n: Node) {
    upper <= p && p + Pad(n) <= |b| && p % 2 == 0 && At(b, p, n)
  }

  ghost predicate AllApart(ptrs: seq<nat>, nodes: seq<Node>) {
    |ptrs| == |nodes| && forall i, j :: 0 <= i < j < |nodes| ==> Apart(ptrs[i], nodes[i], ptrs[j], nodes[j])
  }

  /** The nodes are all there, beyond `upper`, apart from each other, and take all the
      space from `upper` to the end of the page. */
  ghost predicate Packed(b: seq<Byte>, ptrs: seq<nat>, upper: nat, nodes: seq<Node>) {
    && |ptrs| == |nodes| && upper <= |b| && upper % 2 == 0
    && (forall i :: 0 <= i < |nodes| ==> Placed(b, upper, ptrs[i], nodes[i]))
    && AllApart(ptrs, nodes)
    && Sum(Pads(nodes)) == |b| - upper
  }

  lemma PadsConcat(a: seq<Node>, b: seq<Node>)
    ensures Sum(Pads(a + b)) == Sum(Pads(a)) + Sum(Pads(b))
  {
    hide Pad, Pads, Sum;
    var x, y := Pads(a + b), Pads(a) + Pads(b);
    forall k | 0 <= k < |x| ensures x[k] == y[k] {
      if k < |a| { assert (a + b)[k] == a[k]; } else { assert (a + b)[k] == b[k - |a|]; }
    }
    assert x == y;
    SumConcat(Pads(a), Pads(b));
  }

  lemma PadsOne(n: Node)
    ensures Sum(Pads([n])) == Pad(n)
  {
    hide Pad, Pads;
    var s := Pads([n]);
    assert s == [Pad(n)] && s[..0] == [];
    assert Sum(s) == Sum(s[..0]) + s[0];
  }

  ghost predicate AllOk(nodes: seq<Node>, leaf: bool) { forall i :: 0 <= i < |nodes| ==> NodeOk(nodes[i], leaf) }

  lemma AllOkChanged(nodes: seq<Node>, leaf: bool, i: nat, n: Node)
    requires AllOk(nodes, leaf) && i <= |nodes|
    ensures NodeOk(n, leaf) ==> AllOk(Inserted(nodes, i, n), leaf)
    ensures i < |nodes| ==> AllOk(Without(nodes, i), leaf)
  {
  }

  function Inserted<T>(s: seq<T>, i: nat, x: T): (r: seq<T>)
    requires i <= |s|
    ensures |r| == |s| + 1
  {
    s[..i] + [x] + s[i..]
  }

  lemma InsertedParts<T>(s: seq<T>, i: nat, x: T)
    requires i <= |s|
    ensures var r := Inserted(s, i, x); r[..i] == s[..i] && r[i] == x && r[i + 1..] == s[i..]
  {
  }

  function Without<T>(s: seq<T>, i: nat): (r: seq<T>)
    requires i < |s|
    ensures |r| == |s| - 1
  {
    s[..i] + s[i + 1..]
  }

  lemma WithoutParts<T>(s: seq<T>, i: nat)
    requires i < |s|
    ensures Without(s, i) == s[..i] + s[i + 1..]
  {
  }

  /** A node is where its bytes are. */
  lemma AtFrame(b: seq<Byte>, c: seq<Byte>, p: nat, q: nat, n: Node)
    requires At(b, p, n) && p + Pad(n) <= |b| && q + Pad(n) <= |c| && b[p..p + Pad(n)] == c[q..q + Pad(n)]
    ensures At(c, q, n)
  {
    var e := |Encode(n)|;
    assert b[p..p + e] == b[p..p + Pad(n)][..e] && c[q..q + e] == c[q..q + Pad(n)][..e];
  }

  /** A new node right below the others. */
  lemma InsertPacked(b: seq<Byte>, c: seq<Byte>, ptrs: seq<nat>, upper: nat, nodes: seq<Node>, i: nat, n: Node)
    requires Packed(b, ptrs, upper, nodes) && i <= |nodes| && Pad(n) <= upper && |c| == |b|
    requires At(c, upper - Pad(n), n) && c[upper..] == b[upper..]
    ensures Packed(c, Inserted(ptrs, i, upper - Pad(n)), upper - Pad(n), Inserted(nodes, i, n))
  {
    hide Pad, At, Apart, Pads, Sum, Placed;
    var p := upper - Pad(n);
    var ptrs', nodes' := Inserted(ptrs, i, p), Inserted(nodes, i, n);
    InsertSum(nodes, i, n);
    PadEven(n);
    EvenDifference(upper, Pad(n));
    PlacedNew(c, p, n);
    forall j | 0 <= j < |nodes'| ensures Placed(c, p, ptrs'[j], nodes'[j]) {
      if j != i {
        var k := if j < i then j else j - 1;
        assert ptrs'[j] == ptrs[k] && nodes'[j] == nodes[k] && Placed(b, upper, ptrs[k], nodes[k]);
        PlacedStays(b, c, upper, p, ptrs[k], nodes[k]);
      }
    }
    forall j, l | 0 <= j < l < |nodes'| ensures Apart(ptrs'[j], nodes'[j], ptrs'[l], nodes'[l]) {
      InsertApart(b, ptrs, upper, nodes, i, n, j, l);
    }
  }

  lemma PlacedNew(c: seq<Byte>, p: nat, n: Node)
    requires p % 2 == 0 && p + Pad(n) <= |c| && At(c, p, n)
    ensures Placed(c, p, p, n)
  {
  }

  lemma PlacedStays(b: seq<Byte>, c: seq<Byte>, upper: nat, upper': nat, p: nat, n: Node)
    requires Placed(b, upper, p, n) && upper' <= upper <= |b| == |c| && b[upper..] == c[upper..]
    ensures Placed(c, upper', p, n)
  {
    hide At, Pad;
    SliceOfTail(b, c, upper, p, p + Pad(n));
    AtFrame(b, c, p, p, n);
  }

  lemma SubSlice(b: seq<Byte>, t: nat, u: nat, p: nat, q: nat)
    requires t <= p <= q <= u <= |b|
    ensures b[t..u][p - t..q - t] == b[p..q]
  {
    var x, y := b[t..u][p - t..q - t], b[p..q];
    forall k | 0 <= k < |x| ensures x[k] == y[k] { assert x[k] == b[t..u][p - t + k] == b[p + k]; }
    assert |x| == |y|;
  }

  lemma SliceOfTail(b: seq<Byte>, c: seq<Byte>, t: nat, p: nat, q: nat)
    requires |b| == |c| && t <= p <= q <= |b| && b[t..] == c[t..]
    ensures b[p..q] == c[p..q]
  {
    var x, y := b[p..q], c[p..q];
    forall k | 0 <= k < |x| ensures x[k] == y[k] { assert b[t..][p - t + k] == c[t..][p - t + k]; }
    assert |x| == |y|;
  }

  lemma InsertSum(nodes: seq<Node>, i: nat, n: Node)
    requires i <= |nodes|
    ensures Sum(Pads(Inserted(nodes, i, n))) == Sum(Pads(nodes)) + Pad(n)
  {
    hide Sum, Pads, Pad;
    PadsConcat(nodes[..i] + [n], nodes[i..]);
    PadsConcat(nodes[..i], [n]);
    PadsConcat(nodes[..i], nodes[i..]);
    PadsOne(n);
    assert nodes == nodes[..i] + nodes[i..];
  }

  lemma InsertApart(b: seq<Byte>, ptrs: seq<nat>, upper: nat, nodes: seq<Node>, i: nat, n: Node, j: nat, l: nat)
    requires Packed(b, ptrs, upper, nodes) && i <= |nodes| && Pad(n) <= upper && j < l <= |nodes|
    ensures var ptrs', nodes' := Inserted(ptrs, i, upper - Pad(n)), Inserted(nodes, i, n);
      Apart(ptrs'[j], nodes'[j], ptrs'[l], nodes'[l])
  {
    hide Pads, Sum, At, Pad;
    var ptrs', nodes' := Inserted(ptrs, i, upper - Pad(n)), Inserted(nodes, i, n);
    var k, m := if j < i then j else j - 1, if l < i then l else l - 1;
    assert j != i ==> ptrs'[j] == ptrs[k] && nodes'[j] == nodes[k];
    assert l != i ==> ptrs'[l] == ptrs[m] && nodes'[l] == nodes[m];
    if j == i {
      assert Placed(b, upper, ptrs[m], nodes[m]);
    } else if l == i {
      assert Placed(b, upper, ptrs[k], nodes[k]);
    } else {
      assert Apart(ptrs[k], nodes[k], ptrs[m], nodes[m]);
    }
  }

  /** Removing node `i`: the nodes below it move up by its size. */
  function DelPtrs(ptrs: seq<nat>, i: nat, sz: nat): (r: seq<nat>)
    requires i < |ptrs|
    ensures |r| == |ptrs| - 1
  {
    Shifted(Without(ptrs, i), ptrs[i], sz)
  }

  function Shifted(ptrs: seq<nat>, ptr: nat, sz: nat): (r: seq<nat>)
    ensures |r| == |ptrs| && forall j :: 0 <= j < |r| ==> r[j] == DelPtr(ptrs[j], ptr, sz)
  {
    if ptrs == [] then [] else Shifted(ptrs[..|ptrs| - 1], ptr, sz) + [DelPtr(ptrs[|ptrs| - 1], ptr, sz)]
  }

  function DelPtr(p: nat, ptr: nat, sz: nat): nat { if p < ptr then p + sz else p }

  lemma PutBack<T>(s: seq<T>, i: nat)
    requires i < |s|
    ensures Inserted(Without(s, i), i, s[i]) == s
  {
  }

  lemma WithoutSum(nodes: seq<Node>, i: nat)
    requires i < |nodes|
    ensures Sum(Pads(Without(nodes, i))) == Sum(Pads(nodes)) - Pad(nodes[i])
  {
    hide Sum, Pads, Pad;
    PutBack(nodes, i);
    InsertSum(Without(nodes, i), i, nodes[i]);
  }

  lemma DeletePacked(b: seq<Byte>, c: seq<Byte>, ptrs: seq<nat>, upper: nat, nodes: seq<Node>, i: nat)
    requires Packed(b, ptrs, upper, nodes) && i < |nodes| && |c| == |b|
    requires var sz, p := Pad(nodes[i]), ptrs[i];
      upper <= p && p + sz <= |b| && c[upper + sz..p + sz] == b[upper..p] && c[p + sz..] == b[p + sz..]
    ensures Packed(c, DelPtrs(ptrs, i, Pad(nodes[i])), upper + Pad(nodes[i]), Without(nodes, i))
  {
    hide Pad, At, Apart, Pads, Sum, Placed;
    PlacedIn(b, ptrs, upper, nodes);
    var sz, p := Pad(nodes[i]), ptrs[i];
    var ptrs', nodes' := DelPtrs(ptrs, i, sz), Without(nodes, i);
    assert Placed(b, upper, p, nodes[i]);
    WithoutSum(nodes, i);
    PadEven(nodes[i]);
    PadPositive(nodes[i]);
    forall j | 0 <= j < |nodes'| ensures Placed(c, upper + sz, ptrs'[j], nodes'[j]) {
      var k := if j < i then j else j + 1;
      assert nodes'[j] == nodes[k] && ptrs'[j] == DelPtr(ptrs[k], p, sz);
      ApartSame(p, nodes[i], ptrs[k], nodes[k]);
      DeletePlaced(b, c, upper, p, nodes[i], ptrs[k], nodes[k]);
    }
    forall j, l | 0 <= j < l < |nodes'| ensures Apart(ptrs'[j], nodes'[j], ptrs'[l], nodes'[l]) {
      var k, m := if j < i then j else j + 1, if l < i then l else l + 1;
      assert nodes'[j] == nodes[k] && nodes'[l] == nodes[m];
      DeleteApart(ptrs, nodes, i, k, m);
    }
  }

  /** Node `m` at `q`, seen from the removed node `o` at `p`. */
  lemma DeletePlaced(b: seq<Byte>, c: seq<Byte>, upper: nat, p: nat, o: Node, q: nat, m: Node)
    requires Placed(b, upper, p, o) && Placed(b, upper, q, m) && Apart(p, o, q, m) && |c| == |b|
    requires c[upper + Pad(o)..p + Pad(o)] == b[upper..p] && c[p + Pad(o)..] == b[p + Pad(o)..]
    ensures Placed(c, upper + Pad(o), DelPtr(q, p, Pad(o)), m)
  {
    assert upper <= p && p + Pad(o) <= |b|;
    hide Pad, At, Placed;
    PadEven(o);
    PadPositive(o);
    PadPositive(m);
    NotSame(p, o, q, m);
    UpdatePlaced(b, c, upper, p, o, 0 - Pad(o) as int, q, m);
  }

  lemma PadPositive(n: Node)
    ensures Pad(n) > 0
  {
  }

  lemma DeleteApart(ptrs: seq<nat>, nodes: seq<Node>, i: nat, k: nat, m: nat)
    requires AllApart(ptrs, nodes) && i < |nodes| && k < m < |nodes| && k != i && m != i
    ensures var sz, p := Pad(nodes[i]), ptrs[i];
        Apart(DelPtr(ptrs[k], p, sz), nodes[k], DelPtr(ptrs[m], p, sz), nodes[m])
  {
  }

  lemma PadEven(n: Node)
    ensures Pad(n) % 2 == 0
  {
  }

  // --- Another key for a branch node ----------------------------------------------------------------

  function MovePtr(p: nat, ptr: nat, delta: int): int { if p <= ptr then p - delta else p }

  /** Node `i` changed in size by `delta` with its end in place; the nodes below move. */
  ghost predicate MovedPtrs(ptrs: seq<nat>, ptrs': seq<nat>, i: nat, delta: int) {
    i < |ptrs| == |ptrs'| && forall k :: 0 <= k < |ptrs| ==> ptrs'[k] == MovePtr(ptrs[k], ptrs[i], delta)
  }

  ghost predicate MovedBytes(b: seq<Byte>, c: seq<Byte>, upper: nat, p: nat, end: nat, delta: int) {
    && |c| == |b| && upper <= p <= end <= |b| && delta <= upper && p - delta <= end
    && c[upper - delta..p - delta] == b[upper..p] && c[end..] == b[end..]
  }

  lemma UpdatePacked(b: seq<Byte>, c: seq<Byte>, ptrs: seq<nat>, ptrs': seq<nat>, upper: nat, nodes: seq<Node>,
          i: nat, n: Node)
    requires Packed(b, ptrs, upper, nodes) && i < |nodes|
    requires var delta := Pad(n) - Pad(nodes[i]);
      && delta <= upper && MovedPtrs(ptrs, ptrs', i, delta)
      && MovedBytes(b, c, upper, ptrs[i], ptrs[i] + Pad(nodes[i]), delta) && At(c, ptrs'[i], n)
    ensures Packed(c, ptrs', upper - (Pad(n) - Pad(nodes[i])), nodes[i := n])
  {
    hide Pad, At, Apart, Pads, Sum, Placed;
    PlacedIn(b, ptrs, upper, nodes);
    var delta := Pad(n) - Pad(nodes[i]);
    WithoutSum(nodes, i);
    PutBack(nodes, i);
    PutOther(nodes, i, n);
    InsertSum(Without(nodes, i), i, n);
    PadEven(nodes[i]);
    PadEven(n);
    forall k | 0 <= k < |nodes| ensures Placed(c, upper - delta, ptrs'[k], nodes[i := n][k]) {
      if k != i {
        ApartSame(ptrs[i], nodes[i], ptrs[k], nodes[k]);
        UpdatePlaced(b, c, upper, ptrs[i], nodes[i], delta, ptrs[k], nodes[k]);
      } else {
        PlacedSelf(b, c, upper, ptrs[i], nodes[i], n);
      }
    }
    forall k, m | 0 <= k < m < |nodes| ensures Apart(ptrs'[k], nodes[i := n][k], ptrs'[m], nodes[i := n][m]) {
      UpdateApart(ptrs, ptrs', nodes, i, n, k, m);
    }
  }

  lemma PlacedIn(b: seq<Byte>, ptrs: seq<nat>, upper: nat, nodes: seq<Node>)
    requires Packed(b, ptrs, upper, nodes)
    ensures |ptrs| == |nodes| && forall i :: 0 <= i < |nodes| ==> Placed(b, upper, ptrs[i], nodes[i])
  {
  }

  lemma PlacedSelf(b: seq<Byte>, c: seq<Byte>, upper: nat, p: nat, o: Node, n: Node)
    requires Placed(b, upper, p, o) && Pad(n) - Pad(o) <= upper && At(c, p - (Pad(n) - Pad(o)), n) && |c| == |b|
    ensures Placed(c, upper - (Pad(n) - Pad(o)), p - (Pad(n) - Pad(o)), n)
  {
  }

  lemma PutOther<T>(s: seq<T>, i: nat, x: T)
    requires i < |s|
    ensures Inserted(Without(s, i), i, x) == s[i := x]
  {
  }

  /** Node `m` at `q`, seen from the changed node `o` at `p`. */
  lemma UpdatePlaced(b: seq<Byte>, c: seq<Byte>, upper: nat, p: nat, o: Node, delta: int, q: nat, m: Node)
    requires Placed(b, upper, p, o) && Placed(b, upper, q, m) && Apart(p, o, q, m) && delta % 2 == 0
    requires MovedBytes(b, c, upper, p, p + Pad(o), delta)
    ensures MovePtr(q, p, delta) >= 0 && Placed(c, upper - delta, MovePtr(q, p, delta), m)
  {
    assert upper <= p <= p + Pad(o) <= |b| == |c| && delta <= upper && p - delta <= p + Pad(o);
    assert b[p + Pad(o)..] == c[p + Pad(o)..];
    hide At, Pad, MovedBytes;
    PadPositive(m);
    PadPositive(o);
    if q <= p {
      MovedSlice(b, c, upper, p, p + Pad(o), delta, q, Pad(m));
      AtFrame(b, c, q, q - delta, m);
      EvenDifference(q, delta);
    } else {
      SliceOfTail(b, c, p + Pad(o), q, q + Pad(m));
      AtFrame(b, c, q, q, m);
    }
  }

  lemma EvenDifference(x: int, y: int)
    requires x % 2 == 0 && y % 2 == 0
    ensures (x - y) % 2 == 0
  {
  }

  lemma MovedSlice(b: seq<Byte>, c: seq<Byte>, upper: nat, p: nat, end: nat, delta: int, q: nat, w: nat)
    requires MovedBytes(b, c, upper, p, end, delta) && upper <= q && q + w <= p
    ensures 0 <= q - delta && q - delta + w <= |c| && b[q..q + w] == c[q - delta..q - delta + w]
  {
    SubSlice(c, upper - delta, p - delta, q - delta, q - delta + w);
    SubSlice(b, upper, p, q, q + w);
  }

  lemma NotSame(p: nat, n: Node, q: nat, m: Node)
    requires Apart(p, n, q, m)
    ensures p != q
  {
  }

  lemma ApartSame(p: nat, n: Node, q: nat, m: Node)
    ensures Apart(p, n, q, m) <==> Apart(q, m, p, n)
  {
  }

  lemma UpdateApart(ptrs: seq<nat>, ptrs': seq<nat>, nodes: seq<Node>, i: nat, n: Node, k: nat, m: nat)
    requires AllApart(ptrs, nodes) && i < |nodes| && k < m < |nodes|
    requires MovedPtrs(ptrs, ptrs', i, Pad(n) - Pad(nodes[i]))
    ensures Apart(ptrs'[k], nodes[i := n][k], ptrs'[m], nodes[i := n][m])
  {
  }

  // --- Copying ----------------------------------------------------------------------------------------

  /** The bytes with `s` at offset `p`. */
  function Overwrite(b: seq<Byte>, p: nat, s: seq<Byte>): (c: seq<Byte>)
    requires p + |s| <= |b|
    ensures |c| == |b|
  {
    b[..p] + s + b[p + |s|..]
  }

  lemma OverwriteTwice(b: seq<Byte>, p: nat, s: seq<Byte>, t: seq<Byte>)
    requires p + |s| + |t| <= |b|
    ensures Overwrite(Overwrite(b, p, s), p + |s|, t) == Overwrite(b, p, s + t)
  {
  }

  /** memcpy */
  method Write(a: array<Byte>, p: nat, s: seq<Byte>)
    requires p + |s| <= a.Length
    modifies a
    ensures a[..] == Overwrite(old(a[..]), p, s)
  {
    var i := 0;
    while i < |s|
      invariant 0 <= i <= |s|
      invariant forall k {:trigger a[k]} :: 0 <= k < p || p + i <= k < a.Length ==> a[k] == old(a[k])
      invariant forall k {:trigger a[k]} :: p <= k < p + i ==> a[k] == s[k - p]
    {
      a[p + i] := s[i];
      i := i + 1;
    }
  }

  /** memmove: the copy is right although the two stretches may overlap. */
  method Move(a: array<Byte>, dst: nat, src: nat, len: nat)
    requires dst + len <= a.Length && src + len <= a.Length
    modifies a
    ensures a[..] == Overwrite(old(a[..]), dst, old(a[..])[src..src + len])
  {
    hide Overwrite;
    ghost var b := a[..];
    if dst <= src { MoveDown(a, dst, src, len); } else { MoveUp(a, dst, src, len); }
    CopiedIs(b, a[..], dst, src, len);
  }

  ghost predicate Copied(b: seq<Byte>, c: seq<Byte>, dst: nat, src: nat, len: nat) {
    && |b| == |c| && dst + len <= |b| && src + len <= |b|
    && (forall k {:trigger c[k]} :: 0 <= k < dst || dst + len <= k < |c| ==> c[k] == b[k])
    && (forall k {:trigger c[k]} :: dst <= k < dst + len ==> c[k] == b[k - dst + src])
  }

  lemma CopiedIs(b: seq<Byte>, c: seq<Byte>, dst: nat, src: nat, len: nat)
    requires Copied(b, c, dst, src, len)
    ensures c == Overwrite(b, dst, b[src..src + len])
  {
  }

  method MoveDown(a: array<Byte>, dst: nat, src: nat, len: nat)
    requires dst + len <= a.Length && src + len <= a.Length && dst <= src
    modifies a
    ensures Copied(old(a[..]), a[..], dst, src, len)
  {
    ghost var b := a[..];
    var i := 0;
    while i < len
      invariant 0 <= i <= len
      invariant forall k {:trigger a[k]} :: 0 <= k < dst || dst + i <= k < a.Length ==> a[k] == b[k]
      invariant forall k {:trigger a[k]} :: dst <= k < dst + i ==> a[k] == b[k - dst + src]
    {
      a[dst + i] := a[src + i];
      i := i + 1;
    }
  }

  method MoveUp(a: array<Byte>, dst: nat, src: nat, len: nat)
    requires dst + len <= a.Length && src + len <= a.Length && src <= dst
    modifies a
    ensures Copied(old(a[..]), a[..], dst, src, len)
  {
    ghost var b := a[..];
    var i := len;
    while i > 0
      invariant 0 <= i <= len
      invariant forall k {:trigger a[k]} :: 0 <= k < dst + i || dst + len <= k < a.Length ==> a[k] == b[k]
      invariant forall k {:trigger a[k]} :: dst + i <= k < dst + len ==> a[k] == b[k - dst + src]
    {
      i := i - 1;
      a[dst + i] := a[src + i];
    }
  }

  // --- The page ----------------------------------------------------------------------------------------

  class Page {
    const leaf: bool
    const bytes: array<Byte>
    const ptrs: array<nat>
    var lower: nat
    var upper: nat
    ghost var nodes: seq<Node>

    ghost predicate Valid()
      reads this, bytes, ptrs
    {
      && bytes.Length % 2 == 0 && bytes.Length <= PAGEHDRSZ + 2 * ptrs.Length
      && PAGEHDRSZ + 2 * |nodes| == lower <= upper <= bytes.Length && |nodes| <= ptrs.Length
      && Packed(bytes[..], ptrs[..|nodes|], upper, nodes)
      && AllOk(nodes, leaf)
    }

    function NumKeys(): int
      reads this
    {
      (lower - PAGEHDRSZ) / 2
    }

    function SizeLeft(): int
      reads this
    {
      upper - lower
    }

    constructor (psize: nat, leaf: bool)
      requires psize % 2 == 0 && psize >= PAGEHDRSZ
      ensures Valid() && nodes == [] && fresh(bytes) && fresh(ptrs) && bytes.Length == psize && this.leaf == leaf
      ensures SizeLeft() == psize - PAGEHDRSZ
    {
      this.leaf := leaf;
      bytes := new Byte[psize](i => 0);
      ptrs := new nat[psize / 2](i => 0);
      lower, upper, nodes := PAGEHDRSZ, psize, [];
    }

    /** The part of `mdb_node_add` that stores a node of known size at index `indx`. */
    method Insert(indx: nat, n: Node) returns (ok: bool)
      requires Valid() && indx <= |nodes| && NodeOk(n, leaf)
      modifies this, bytes, ptrs
      ensures Valid()
      ensures ok <==> Pad(n) + SIZEOF_INDX <= old(SizeLeft())
      ensures ok ==> nodes == Inserted(old(nodes), indx, n) && SizeLeft() == old(SizeLeft()) - (Pad(n) + SIZEOF_INDX)
      ensures !ok ==> nodes == old(nodes) && lower == old(lower) && upper == old(upper) && bytes[..] == old(bytes[..])
    {
      hide Packed, Pad, Encode, At, AllOk;
      var room := SizeLeft() - SIZEOF_INDX;
      if Pad(n) > room { return false; }
      ghost var b, ps := bytes[..], ptrs[..|nodes|];
      PadEven(n);
      InsertPtr(ptrs, indx, NumKeys(), upper - Pad(n));
      upper, lower := upper - Pad(n), lower + SIZEOF_INDX;
      WriteNode(bytes, upper, n);
      ghost var c := bytes[..];
      InsertPacked(b, c, ps, old(upper), nodes, indx, n);
      AllOkChanged(nodes, leaf, indx, n);
      nodes := Inserted(nodes, indx, n);
      assert bytes[..] == c && ptrs[..|nodes|] == Inserted(ps, indx, upper);
      ok := true;
    }

    /** `mdb_node_del` */
    method Delete(indx: nat)
      requires Valid() && indx < |nodes|
      modifies this, bytes, ptrs
      ensures Valid() && nodes == old(nodes)[..indx] + old(nodes)[indx + 1..]
      ensures SizeLeft() == old(SizeLeft()) + Pad(old(nodes)[indx]) + SIZEOF_INDX
    {
      hide Packed, Pad, Encode, DelPtrs, Overwrite, Without, At, SizeAt, AllOk, NodeOk;
      assert NodeOk(nodes[indx], leaf) by { OneOk(nodes, leaf, indx); }
      ghost var b, ps := bytes[..], ptrs[..|nodes|];
      PackedAt(b, ps, upper, nodes, indx);
      SizeIsPad(b, ps[indx], nodes[indx], leaf);
      var ptr := ptrs[indx];
      var sz := SizeAt(bytes[..], ptr, leaf);
      DeletePtr(ptrs, indx, NumKeys(), sz);
      Move(bytes, upper + sz, upper, ptr - upper);
      DeletedAt(b, ps, upper, nodes, indx);
      AllOkChanged(nodes, leaf, indx, nodes[indx]);
      lower, upper := lower - SIZEOF_INDX, upper + sz;
      WithoutParts(nodes, indx);
      nodes := Without(nodes, indx);
    }

    /** `mdb_update_key`; it fails, to be followed by a split, if the longer key has no room. */
    method UpdateKey(indx: nat, key: seq<Byte>) returns (ok: bool)
      requires Valid() && !leaf && indx < |nodes| && |key| < WORD
      modifies this, bytes, ptrs
      ensures Valid()
      ensures var delta := Even(|key|) - Even(|old(nodes)[indx].key|);
        && (ok <==> delta <= 0 || delta <= old(SizeLeft()))
        && (ok ==> nodes == old(nodes)[indx := old(nodes)[indx].(key := key)] && SizeLeft() == old(SizeLeft()) - delta)
      ensures !ok ==> nodes == old(nodes) && lower == old(lower) && upper == old(upper) && bytes[..] == old(bytes[..])
    {
      hide Packed, Pad, Encode, Rekeyed, At, AllOk, MovedBytes, MovedPtrs, U16At, NodeOk;
      ghost var b, ps, o := bytes[..], ptrs[..|nodes|], nodes[indx];
      ghost var n := o.(key := key);
      PackedAt(b, ps, upper, nodes, indx);
      OneOk(nodes, leaf, indx);
      KeySizeAt(b, ps[indx], o, key);
      var ptr := ptrs[indx];
      var delta := Even(|key|) - Even(U16At(bytes[..], ptr + 6));
      if delta > 0 && SizeLeft() < delta { return false; }
      RekeyedOutside(b, upper, ptr, delta, key, ptr + Pad(o));
      RekeyedOk(o, key);
      RekeyedAt(b, upper, ptr, delta, o, n);
      PtrsBeyond(b, ps, upper, nodes);
      MovePtrs(ptrs, indx, NumKeys(), delta);
      Rekey(bytes, upper, ptr, delta, key);
      upper := upper - delta;
      ghost var c := bytes[..];
      MovedPtrAt(ps, ptrs[..|nodes|], indx, delta);
      UpdatePacked(b, c, ps, ptrs[..|nodes|], old(upper), nodes, indx, n);
      AllOkReplaced(nodes, leaf, indx, n);
      nodes := nodes[indx := n];
      assert bytes[..] == c;
      ok := true;
    }

    /** `mdb_node_add` on a leaf: data too large for a node goes to the overflow page
        whose number is `ovpage`. */
    method AddLeaf(env: Env, indx: nat, key: seq<Byte>, data: seq<Byte>, ovpage: seq<Byte>) returns (ok: bool)
      requires Valid() && leaf && indx <= |nodes| && env.Valid() && env.psize == bytes.Length && |key| == env.ksize
      requires |data| < 0x1_0000_0000 && |ovpage| == SIZEOF_PGNO
      modifies this, bytes, ptrs
      ensures Valid() && (ok <==> LeafSize(env, |data|) <= old(SizeLeft()))
      ensures ok ==> |nodes| == |old(nodes)| + 1 && nodes[..indx] == old(nodes)[..indx]
      ensures ok ==> nodes[indx + 1..] == old(nodes)[indx..]
      ensures ok ==> nodes[indx].key == key && NodeDsz(nodes[indx]) == |data|
      ensures ok ==> var big := NODESIZE + |key| + |data| > env.NodeMax();
        nodes[indx].data == (if big then ovpage else data) && nodes[indx].flags == (if big then F_BIGDATA else 0)
      ensures ok ==> SizeLeft() == old(SizeLeft()) - LeafSize(env, |data|)
      ensures !ok ==> nodes == old(nodes) && lower == old(lower) && upper == old(upper) && bytes[..] == old(bytes[..])
    {
      hide Packed, Pad, LeafSize, Inserted, NodeDsz, NodeOk;
      var n := LeafNode(key, data, |data|, 0, ovpage, env.NodeMax());
      LeafFootprint(env, key, data, ovpage);
      DszRoundTrip(key, data, |data|, 0, ovpage, env.NodeMax());
      InsertedParts(nodes, indx, n);
      ok := Insert(indx, n);
    }

    /** `mdb_node_add` on a branch page, with any key or, as in slot 0, none. */
    method AddBranch(indx: nat, key: seq<Byte>, pgno: nat) returns (ok: bool)
      requires Valid() && !leaf && indx <= |nodes| && |key| < WORD && pgno < 0x1_0000_0000_0000
      modifies this, bytes, ptrs
      ensures Valid() && (ok <==> Even(NODESIZE + |key|) + SIZEOF_INDX <= old(SizeLeft()))
      ensures ok ==> |nodes| == |old(nodes)| + 1 && nodes[..indx] == old(nodes)[..indx]
      ensures ok ==> nodes[indx + 1..] == old(nodes)[indx..]
      ensures ok ==> nodes[indx].key == key && nodes[indx].data == [] && NodePgno(nodes[indx]) == pgno
      ensures ok ==> SizeLeft() == old(SizeLeft()) - (Even(NODESIZE + |key|) + SIZEOF_INDX)
      ensures !ok ==> nodes == old(nodes) && lower == old(lower) && upper == old(upper) && bytes[..] == old(bytes[..])
    {
      hide Packed, NodePgno, Inserted;
      PgnoRoundTrip(key, pgno);
      InsertedParts(nodes, indx, BranchNode(key, pgno));
      ok := Insert(indx, BranchNode(key, pgno));
    }
  }

  /** What is read at the offset of a node: its header fields, its key and its data. */
  lemma NodeBytes(b: seq<Byte>, ptrs: seq<nat>, upper: nat, nodes: seq<Node>, i: nat)
    requires Packed(b, ptrs, upper, nodes) && i < |nodes| == |ptrs|
    ensures var p, n := ptrs[i], nodes[i];
      var key, end := p + NODESIZE, p + NODESIZE + |n.key| + |n.data|;
      && end <= |b| && b[key..key + |n.key|] == n.key && b[key + |n.key|..end] == n.data
      && U16At(b, p) == n.lo && U16At(b, p + 2) == n.hi && U16At(b, p + 4) == n.flags && U16At(b, p + 6) == |n.key|
  {
    hide Packed, U16At, Header;
    PackedAt(b, ptrs, upper, nodes, i);
    var p, n := ptrs[i], nodes[i];
    HeaderThere(b, p, n);
    HeaderAt(b, p, n);
    var e, s := |Encode(n)|, b[p..p + |Encode(n)|];
    assert s == Header(n) + n.key + n.data;
    assert s[NODESIZE..NODESIZE + |n.key|] == n.key && s[NODESIZE + |n.key|..] == n.data;
    SubSlice(b, p, p + e, p + NODESIZE, p + NODESIZE + |n.key|);
    SubSlice(b, p, p + e, p + NODESIZE + |n.key|, p + e);
  }

  /** The space a new leaf node takes is what `mdb_leaf_size` says. */
  lemma LeafFootprint(env: Env, key: seq<Byte>, data: seq<Byte>, ovpage: seq<Byte>)
    requires env.Valid() && |key| == env.ksize && |data| < 0x1_0000_0000 && |ovpage| == SIZEOF_PGNO
    ensures var n := LeafNode(key, data, |data|, 0, ovpage, env.NodeMax());
      Pad(n) + SIZEOF_INDX == LeafSize(env, |data|) && NodeOk(n, true)
  {
    DszRoundTrip(key, data, |data|, 0, ovpage, env.NodeMax());
  }

  // --- No gaps ------------------------------------------------------------------------------------

  ghost function Span(a: int, b: int): (s: set<int>)
    ensures forall x :: x in s <==> a <= x < b
    ensures a <= b ==> |s| == b - a
    decreases b - a
  {
    if a >= b then {} else Span(a, b - 1) + {b - 1}
  }

  /** The bytes under the first `n` nodes. */
  ghost function Covered(ptrs: seq<nat>, nodes: seq<Node>, n: nat): set<int>
    requires n <= |ptrs| == |nodes|
  {
    if n == 0 then {} else Covered(ptrs, nodes, n - 1) + Span(ptrs[n - 1], ptrs[n - 1] + Pad(nodes[n - 1]))
  }

  lemma {:induction false} CoveredHas(ptrs: seq<nat>, nodes: seq<Node>, n: nat, x: int)
    requires n <= |ptrs| == |nodes|
    ensures x in Covered(ptrs, nodes, n) <==> exists i :: 0 <= i < n && Over(ptrs[i], nodes[i], x)
  {
    hide Pad, Span;
    if n > 0 {
      CoveredHas(ptrs, nodes, n - 1, x);
      assert x in Covered(ptrs, nodes, n) <==> x in Covered(ptrs, nodes, n - 1) || Over(ptrs[n - 1], nodes[n - 1], x);
    }
  }

  lemma {:induction false} CoveredSize(ptrs: seq<nat>, nodes: seq<Node>, n: nat)
    requires n <= |ptrs| && AllApart(ptrs, nodes)
    ensures |Covered(ptrs, nodes, n)| == Sum(Pads(nodes)[..n])
  {
    hide Pad, Pads, Sum, Span;
    if n > 0 {
      CoveredSize(ptrs, nodes, n - 1);
      SumStep(Pads(nodes), n - 1);
      CoveredApart(ptrs, nodes, n);
    } else {
      assert Pads(nodes)[..0] == [];
      assert Sum([]) == 0 by { SumCut([], 0); }
    }
  }

  lemma CoveredApart(ptrs: seq<nat>, nodes: seq<Node>, n: nat)
    requires 0 < n <= |ptrs| && AllApart(ptrs, nodes)
    ensures |Covered(ptrs, nodes, n)| == |Covered(ptrs, nodes, n - 1)| + Pad(nodes[n - 1])
  {
    hide Pad, Span;
    var rest, last := Covered(ptrs, nodes, n - 1), Span(ptrs[n - 1], ptrs[n - 1] + Pad(nodes[n - 1]));
    assert Covered(ptrs, nodes, n) == rest + last;
    forall x | x in last ensures x !in rest { NotCovered(ptrs, nodes, n, x); }
    assert rest !! last;
  }

  lemma NotCovered(ptrs: seq<nat>, nodes: seq<Node>, n: nat, x: int)
    requires 0 < n <= |ptrs| && AllApart(ptrs, nodes) && Over(ptrs[n - 1], nodes[n - 1], x)
    ensures x !in Covered(ptrs, nodes, n - 1)
  {
    hide Pad, Covered;
    CoveredHas(ptrs, nodes, n - 1, x);
    assert forall i :: 0 <= i < n - 1 ==> Apart(ptrs[i], nodes[i], ptrs[n - 1], nodes[n - 1]);
  }

  lemma SameSize(a: set<int>, b: set<int>)
    requires a <= b && |a| == |b|
    ensures a == b
  {
    assert b == a + (b - a);
    assert b - a == {};
  }

  predicate Over(p: nat, n: Node, x: int) { p <= x < p + Pad(n) }

  /** Every byte from `upper` to the end of the page belongs to exactly one node. */
  lemma Tiled(b: seq<Byte>, ptrs: seq<nat>, upper: nat, nodes: seq<Node>, x: int)
    requires Packed(b, ptrs, upper, nodes) && upper <= x < |b|
    ensures exists i :: 0 <= i < |nodes| && Over(ptrs[i], nodes[i], x)
    ensures forall i, j :: 0 <= i < j < |nodes| && Over(ptrs[i], nodes[i], x) ==> !Over(ptrs[j], nodes[j], x)
  {
    hide Pad, Pads, Sum, Covered, At;
    var n := |nodes|;
    var c := Covered(ptrs, nodes, n);
    CoveredSize(ptrs, nodes, n);
    assert Pads(nodes)[..n] == Pads(nodes);
    forall y | y in c ensures y in Span(upper, |b|) {
      CoveredHas(ptrs, nodes, n, y);
      var i :| 0 <= i < n && Over(ptrs[i], nodes[i], y);
      assert Placed(b, upper, ptrs[i], nodes[i]);
    }
    SameSize(c, Span(upper, |b|));
    CoveredHas(ptrs, nodes, n, x);
    forall i, j | 0 <= i < j < n && Over(ptrs[i], nodes[i], x) ensures !Over(ptrs[j], nodes[j], x) {
      assert Apart(ptrs[i], nodes[i], ptrs[j], nodes[j]);
    }
  }

  lemma RekeyedOk(o: Node, key: seq<Byte>)
    requires NodeOk(o, false) && |key| < WORD
    ensures NodeOk(o.(key := key), false)
  {
  }

  lemma AllOkReplaced(nodes: seq<Node>, leaf: bool, i: nat, n: Node)
    requires AllOk(nodes, leaf) && i < |nodes| && NodeOk(n, leaf)
    ensures AllOk(nodes[i := n], leaf)
  {
  }

  lemma KeySizeAt(b: seq<Byte>, p: nat, o: Node, key: seq<Byte>)
    requires At(b, p, o) && NodeOk(o, false) && |key| < WORD
    ensures p + NODESIZE <= |b| && U16At(b, p + 6) == |o.key|
    ensures Pad(o.(key := key)) - Pad(o) == Even(|key|) - Even(|o.key|) && Pad(o) >= NODESIZE
    ensures Pad(o.(key := key)) >= NODESIZE + |key|
  {
    hide U16At, At, Header, Encode;
    HeaderThere(b, p, o);
    HeaderAt(b, p, o);
  }

  lemma PtrsBeyond(b: seq<Byte>, ptrs: seq<nat>, upper: nat, nodes: seq<Node>)
    requires Packed(b, ptrs, upper, nodes)
    ensures forall k :: 0 <= k < |ptrs| ==> ptrs[k] >= upper
  {
  }

  lemma MovedPtrAt(ptrs: seq<nat>, ptrs': seq<nat>, i: nat, delta: int)
    requires MovedPtrs(ptrs, ptrs', i, delta)
    ensures i < |ptrs| == |ptrs'| && ptrs'[i] == ptrs[i] - delta
  {
  }

  /** Moves the offsets up to that of node `indx`. */
  method MovePtrs(ptrs: array<nat>, indx: nat, n: nat, delta: int)
    requires indx < n <= ptrs.Length && forall k :: 0 <= k < n ==> ptrs[..n][k] >= delta
    modifies ptrs
    ensures MovedPtrs(old(ptrs[..n]), ptrs[..n], indx, delta)
  {
    if delta == 0 { return; }
    var ptr := ptrs[indx];
    var i := 0;
    while i < n
      invariant 0 <= i <= n
      invariant forall k {:trigger ptrs[k]} :: 0 <= k < i ==> ptrs[k] == MovePtr(old(ptrs[k]), ptr, delta)
      invariant forall k {:trigger ptrs[k]} :: i <= k < n ==> ptrs[k] == old(ptrs[k])
    {
      if ptrs[i] <= ptr { ptrs[i] := ptrs[i] - delta; }
      i := i + 1;
    }
  }

  lemma OverwriteSlice(b: seq<Byte>, p: nat, s: seq<Byte>, x: nat, y: nat)
    requires p + |s| <= |b| && x <= y <= |b|
    ensures y <= p || x >= p + |s| ==> Overwrite(b, p, s)[x..y] == b[x..y]
    ensures p <= x && y <= p + |s| ==> Overwrite(b, p, s)[x..y] == s[x - p..y - p]
  {
    var c := Overwrite(b, p, s);
    assert c[..p] == b[..p] && c[p..p + |s|] == s && c[p + |s|..] == b[p + |s|..];
    hide Overwrite;
    if y <= p {
      SubSlice(c, 0, p, x, y);
      SubSlice(b, 0, p, x, y);
      assert c[0..p] == c[..p] && b[0..p] == b[..p];
    } else if x >= p + |s| {
      SliceOfTail(c, b, p + |s|, x, y);
    } else if p <= x && y <= p + |s| {
      SubSlice(c, p, p + |s|, x, y);
    }
  }

  /** The bytes after the key of the node at `p` changed. */
  function Rekeyed(b: seq<Byte>, upper: nat, p: nat, delta: int, key: seq<Byte>): (c: seq<Byte>)
    requires upper <= p && p + NODESIZE <= |b| && delta <= upper && |key| < WORD && p - delta + NODESIZE + |key| <= |b|
    ensures |c| == |b|
  {
    Overwrite(Overwrite(b, upper - delta, b[upper..p + NODESIZE]), p - delta + 6, U16(|key|) + key)
  }

  method Rekey(a: array<Byte>, upper: nat, p: nat, delta: int, key: seq<Byte>)
    requires upper <= p && p + NODESIZE <= a.Length && delta <= upper && |key| < WORD
    requires p - delta + NODESIZE + |key| <= a.Length
    modifies a
    ensures a[..] == Rekeyed(old(a[..]), upper, p, delta, key)
  {
    hide Overwrite, U16;
    ghost var b := a[..];
    if delta != 0 { Move(a, upper - delta, upper, p - upper + NODESIZE); }
    OverwriteSame(b, upper, p + NODESIZE);
    ghost var m := a[..];
    Write(a, p - delta + 6, U16(|key|));
    Write(a, p - delta + NODESIZE, key);
    OverwriteTwice(m, p - delta + 6, U16(|key|), key);
  }

  lemma OverwriteSame(b: seq<Byte>, x: nat, y: nat)
    requires x <= y <= |b|
    ensures Overwrite(b, x, b[x..y]) == b
  {
  }

  lemma RekeyedOutside(b: seq<Byte>, upper: nat, p: nat, delta: int, key: seq<Byte>, end: nat)
    requires upper <= p && p + NODESIZE <= end <= |b| && delta <= upper && |key| < WORD
    requires p - delta + NODESIZE + |key| <= end
    ensures MovedBytes(b, Rekeyed(b, upper, p, delta, key), upper, p, end, delta)
  {
    hide Overwrite, U16;
    var q, s, t := p - delta, b[upper..p + NODESIZE], U16(|key|) + key;
    var c := Overwrite(b, upper - delta, s);
    OverwriteSlice(b, upper - delta, s, upper - delta, q);
    OverwriteSlice(c, q + 6, t, upper - delta, q);
    SubSlice(b, upper, p + NODESIZE, upper, p);
    OverwriteSlice(b, upper - delta, s, end, |b|);
    OverwriteSlice(c, q + 6, t, end, |b|);
    var r := Rekeyed(b, upper, p, delta, key);
    assert r[end..] == r[end..|b|] && b[end..] == b[end..|b|];
  }

  lemma RekeyedAt(b: seq<Byte>, upper: nat, p: nat, delta: int, o: Node, n: Node)
    requires NodeOk(o, false) && NodeOk(n, false) && n == o.(key := n.key) && At(b, p, o)
    requires upper <= p && p + NODESIZE <= |b| && delta <= upper && p - delta + NODESIZE + |n.key| <= |b|
    ensures At(Rekeyed(b, upper, p, delta, n.key), p - delta, n)
  {
    hide Overwrite, U16, At;
    var q, s, t := p - delta, b[upper..p + NODESIZE], U16(|n.key|) + n.key;
    var c := Overwrite(b, upper - delta, s);
    OverwriteSlice(b, upper - delta, s, q, q + 6);
    OverwriteSlice(c, q + 6, t, q, q + 6);
    SubSlice(b, upper, p + NODESIZE, p, p + 6);
    OverwriteSlice(c, q + 6, t, q + 6, q + NODESIZE + |n.key|);
    HeaderOf(b, p, o);
    Pieces(b, p, o, Rekeyed(b, upper, p, delta, n.key), q, n);
  }

  lemma Pieces(b: seq<Byte>, p: nat, o: Node, c: seq<Byte>, q: nat, n: Node)
    requires NodeOk(o, false) && NodeOk(n, false) && n == o.(key := n.key)
    requires p + NODESIZE <= |b| && q + NODESIZE + |n.key| <= |c| && b[p..p + NODESIZE] == Header(o)
    requires c[q..q + 6] == b[p..p + 6] && c[q + 6..q + NODESIZE + |n.key|] == U16(|n.key|) + n.key
    ensures At(c, q, n)
  {
    var e := Encode(n);
    assert b[p..p + 6] == b[p..p + NODESIZE][..6] == Header(o)[..6] == U16(o.lo) + U16(o.hi) + U16(o.flags);
    assert e == U16(o.lo) + U16(o.hi) + U16(o.flags) + (U16(|n.key|) + n.key);
    assert c[q..q + |e|] == c[q..q + 6] + c[q + 6..q + NODESIZE + |n.key|];
  }

  /** The bytes that moving up the lower nodes leaves. */
  lemma DeletedAt(b: seq<Byte>, ptrs: seq<nat>, upper: nat, nodes: seq<Node>, i: nat)
    requires Packed(b, ptrs, upper, nodes) && i < |nodes| == |ptrs| && upper <= ptrs[i]
    requires ptrs[i] + Pad(nodes[i]) <= |b|
    ensures var sz := Pad(nodes[i]);
      Packed(Overwrite(b, upper + sz, b[upper..ptrs[i]]), DelPtrs(ptrs, i, sz), upper + sz, Without(nodes, i))
  {
    hide Overwrite, Packed, DelPtrs, Pad;
    MovedUp(b, upper, ptrs[i], Pad(nodes[i]));
    DeletePacked(b, Overwrite(b, upper + Pad(nodes[i]), b[upper..ptrs[i]]), ptrs, upper, nodes, i);
  }

  /** The size of a node, from its header. */
  function SizeAt(b: seq<Byte>, p: nat, leaf: bool): nat
    requires p + NODESIZE <= |b|
  {
    var sz := NODESIZE + U16At(b, p + 6);
    Even(if !leaf then sz
         else if IsBig(U16At(b, p + 4)) then sz + SIZEOF_PGNO
         else sz + (U16At(b, p) + WORD * U16At(b, p + 2)))
  }

  lemma SizeIsPad(b: seq<Byte>, p: nat, n: Node, leaf: bool)
    requires At(b, p, n) && NodeOk(n, leaf)
    ensures p + NODESIZE <= |b| && SizeAt(b, p, leaf) == Pad(n)
  {
    hide U16At, At, Header, Encode;
    HeaderThere(b, p, n);
    HeaderAt(b, p, n);
  }

  lemma HeaderThere(b: seq<Byte>, p: nat, n: Node)
    requires At(b, p, n)
    ensures p + NODESIZE <= |b| && b[p..p + NODESIZE] == Header(n)
  {
    hide Header;
    var e := |Encode(n)|;
    assert b[p..p + NODESIZE] == b[p..p + e][..NODESIZE];
    assert Encode(n)[..NODESIZE] == Header(n);
  }

  lemma OneOk(nodes: seq<Node>, leaf: bool, i: nat)
    requires AllOk(nodes, leaf) && i < |nodes|
    ensures NodeOk(nodes[i], leaf)
  {
  }

  lemma PackedAt(b: seq<Byte>, ptrs: seq<nat>, upper: nat, nodes: seq<Node>, i: nat)
    requires Packed(b, ptrs, upper, nodes) && i < |nodes|
    ensures |ptrs| == |nodes| && upper <= ptrs[i] && ptrs[i] + Pad(nodes[i]) <= |b| && At(b, ptrs[i], nodes[i])
  {
  }

  lemma HeaderOf(b: seq<Byte>, p: nat, n: Node)
    requires At(b, p, n)
    ensures b[p..p + NODESIZE] == Header(n)
  {
    assert b[p..p + NODESIZE] == b[p..p + |Encode(n)|][..NODESIZE];
  }

  lemma MovedUp(b: seq<Byte>, upper: nat, ptr: nat, sz: nat)
    requires upper <= ptr && ptr + sz <= |b|
    ensures var c := Overwrite(b, upper + sz, b[upper..ptr]);
        c[upper + sz..ptr + sz] == b[upper..ptr] && c[ptr + sz..] == b[ptr + sz..]
  {
  }

  /** Takes index `indx` out of the first `n` offsets, moving the offsets below. */
  method DeletePtr(ptrs: array<nat>, indx: nat, n: nat, sz: nat)
    requires indx < n <= ptrs.Length
    modifies ptrs
    ensures ptrs[..n - 1] == DelPtrs(old(ptrs[..n]), indx, sz)
  {
    var ptr := ptrs[indx];
    ghost var ps := ptrs[..n];
    ghost var w := Without(ps, indx);
    var i, j := 0, 0;
    while i < n
      invariant 0 <= i <= n && j == if i <= indx then i else i - 1
      invariant forall k {:trigger ptrs[k]} :: 0 <= k < j ==> ptrs[k] == DelPtr(w[k], ptr, sz)
      invariant forall k {:trigger ptrs[k]} :: i <= k < n ==> ptrs[k] == ps[k]
    {
      if i != indx {
        ghost var p := ps[i];
        assert w[j] == p;
        ptrs[j] := ptrs[i];
        if ptrs[j] < ptr { ptrs[j] := ptrs[j] + sz; }
        j := j + 1;
      }
      i := i + 1;
    }
  }

  /** Puts `v` at index `indx` of the first `n` offsets. */
  method InsertPtr(ptrs: array<nat>, indx: nat, n: nat, v: nat)
    requires indx <= n < ptrs.Length
    modifies ptrs
    ensures ptrs[..n + 1] == Inserted(old(ptrs[..n]), indx, v)
  {
    var i := n;
    while i > indx
      invariant indx <= i <= n
      invariant forall k :: 0 <= k < i ==> ptrs[k] == old(ptrs[k])
      invariant forall k {:trigger ptrs[k]} :: i < k <= n ==> ptrs[k] == old(ptrs[k - 1])
    {
      ptrs[i] := ptrs[i - 1];
      i := i - 1;
    }
    ptrs[indx] := v;
  }

  method WriteNode(a: array<Byte>, p: nat, n: Node)
    requires n.lo < WORD && n.hi < WORD && n.flags < WORD && |n.key| < WORD && p + Pad(n) <= a.Length
    modifies a
    ensures At(a[..], p, n) && a[..][p + Pad(n)..] == old(a[..])[p + Pad(n)..]
  {
    hide Overwrite, Pad, At;
    EncodeLength(n);
    ghost var b := a[..];
    Write(a, p, Header(n));
    Write(a, p + NODESIZE, n.key);
    OverwriteTwice(b, p, Header(n), n.key);
    Write(a, p + NODESIZE + |n.key|, n.data);
    OverwriteTwice(b, p, Header(n) + n.key, n.data);
    OverwriteAt(b, p, n);
  }

  lemma EncodeLength(n: Node)
    requires n.lo < WORD && n.hi < WORD && n.flags < WORD && |n.key| < WORD
    ensures Encode(n) == Header(n) + n.key + n.data && |Header(n)| == NODESIZE
    ensures NODESIZE + |n.key| + |n.data| <= Pad(n)
  {
  }

  lemma OverwriteAt(b: seq<Byte>, p: nat, n: Node)
    requires n.lo < WORD && n.hi < WORD && n.flags < WORD && |n.key| < WORD && p + Pad(n) <= |b|
    ensures At(Overwrite(b, p, Encode(n)), p, n)
    ensures Overwrite(b, p, Encode(n))[p + Pad(n)..] == b[p + Pad(n)..]
  {
  }
}
