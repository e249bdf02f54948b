/**
 A database: the root page, the depth and the number of entries (`MDB_db`), and the
 operations `mdb_put`, `mdb_del` and `mdb_get` on it.
 */
module BTreeDb {
  import opened Basics
  import opened PageSplit
  import opened BTree
  import opened BTreePut
  import opened BTreeDelete

  datatype Db = Db(root: Option<Tree>, depth: nat, entries: nat)

  const EMPTY := Db(None, 0, 0)

  function Power256(n: nat): nat { if n == 0 then 1 else 256 * Power256(n - 1) }

  /** Keys are the numbers that `ksize` bytes can spell. */
  predicate IsKey(env: Env, k: int) { 0 <= k < Power256(env.ksize) }

  function Contents(db: Db): seq<Item> { match db.root case None => [] case Some(t) => Items(t) }

  /** The depth is that of every leaf, and the entries are counted. */
  ghost predicate DbOk(env: Env, db: Db)
    requires env.Valid()
  {
    match db.root
    case None => db.depth == 0 && db.entries == 0
    case Some(t) => Wf(env, t, 0, Power256(env.ksize), db.depth) && db.entries == |Items(t)|
  }

  /** The `dirty` of a put says whether overflow pages under the key are dirty in the
      transaction; it is the run's to choose. */
  datatype Op = PutOp(k: int, data: Data, dirty: bool) | DelOp(k: int) | GetOp(k: int)
  datatype Answer = Success | NotFound | Found(data: Data) | Full
  datatype Outcome = Outcome(db: Db, answer: Answer)

  function DbGet(db: Db, k: int): Option<Data> {
    match db.root
    case None => None
    case Some(t) => (match Lookup(t, k) case None => None case Some(v) => Some(v.data))
  }

  /** `mdb_put`: the first item makes a root leaf; a split of the root makes a new root
      one level up. */
  function DbPut(env: Env, db: Db, it: Item, dirty: bool): Outcome
    requires env.Valid()
  {
    match db.root
    case None => Outcome(Db(Some(Leaf([Place(env, it)])), 1, 1), Success)
    case Some(t) =>
      var n := if Lookup(t, it.key).Some? then db.entries else db.entries + 1;
      match PutTree(env, t, it, dirty)
      case Done(u) => Outcome(Db(Some(u), db.depth, n), Success)
      case Split(left, sep, right) =>
        Outcome(Db(Some(Branch([NoKey, Key(sep)], [left, right])), db.depth + 1, n), Success)
      case PageFull => Outcome(db, Full)
  }

  /** `mdb_rebalance` at the root: an empty leaf goes, and so does a branch with one child. */
  function Collapse(env: Env, r: DelResult, depth: nat, entries: nat): Db
    requires env.Valid()
  {
    if !r.check || !IsUnderfull(env, r.tree) then Db(Some(r.tree), depth, entries)
    else if NumKeys(r.tree) == 0 then Db(None, 0, entries)
    else if r.tree.Branch? && NumKeys(r.tree) == 1 then
      Db(Some(r.tree.kids[0]), if depth == 0 then 0 else depth - 1, entries)
    else Db(Some(r.tree), depth, entries)
  }

  /** `mdb_del` */
  function DbDel(env: Env, db: Db, k: int): Outcome
    requires env.Valid()
  {
    match db.root
    case None => Outcome(db, NotFound)
    case Some(t) =>
      if Lookup(t, k).None? then Outcome(db, NotFound)
      else Outcome(Collapse(env, DelTree(env, t, k), db.depth, if db.entries == 0 then 0 else db.entries - 1), Success)
  }

  function Apply(env: Env, db: Db, op: Op): Outcome
    requires env.Valid()
  {
    match op
    case PutOp(k, data, dirty) => DbPut(env, db, Item(k, Val(data, 0)), dirty)
    case DelOp(k) => DbDel(env, db, k)
    case GetOp(k) => Outcome(db, match DbGet(db, k) case Some(d) => Found(d) case None => NotFound)
  }

  // --- Each operation ---------------------------------------------------------------------------

  predicate OpOk(env: Env, op: Op) {
    match op case PutOp(k, _, _) => IsKey(env, k) case DelOp(k) => IsKey(env, k) case GetOp(k) => IsKey(env, k)
  }

  lemma PutLength(s: seq<Item>, it: Item)
    ensures |Put(s, it)| == if Present(s, it.key) then |s| else |s| + 1
  {
  }

  /** A put stores the item, and keeps the tree in order, its depth right and its
      entries counted; it fails exactly when the leaf it belongs to has no room. */
  lemma DbPutOk(env: Env, db: Db, it: Item, dirty: bool)
    requires env.Valid() && DbOk(env, db) && IsKey(env, it.key)
    ensures var r := DbPut(env, db, it, dirty);
      && (r.answer == Full <==> db.root.Some? && NoRoom(env, LeafFor(db.root.value, it.key), it, dirty))
      && (r.answer != Full ==>
            && r.answer == Success && DbOk(env, r.db)
            && Contents(r.db) == Put(Contents(db), Stored(env, Contents(db), it, dirty)))
  {
    hide Put, NoRoom, Page, PutTree, LeafFor, Lookup, Stored, Place;
    var hi := Power256(env.ksize);
    match db.root
    case None =>
      PutEmpty(env, it, dirty);
      OneLeaf(env, Place(env, it), 0, hi);
    case Some(t) =>
      PutTreeOk(env, t, it, dirty, 0, hi, db.depth);
      LookupIsPresent(env, t, it.key, 0, hi, db.depth);
      PutLength(Items(t), Stored(env, Items(t), it, dirty));
      match PutTree(env, t, it, dirty)
      case Done(u) =>
      case Split(left, sep, right) => NewRoot(env, left, sep, right, 0, hi, db.depth);
      case PageFull =>
  }

  lemma PutEmpty(env: Env, it: Item, dirty: bool)
    requires env.Valid()
    ensures Stored(env, [], it, dirty) == Place(env, it) && Put([], Place(env, it)) == [Place(env, it)]
    ensures Place(env, it).key == it.key
  {
  }

  lemma OneLeaf(env: Env, it: Item, lo: int, hi: int)
    requires env.Valid() && lo <= it.key < hi
    ensures Wf(env, Leaf([it]), lo, hi, 1)
  {
    LeafUsedOne(env, it);
    NodesAreHalf(env, InNode(env, it.val));
  }

  lemma NewRoot(env: Env, left: Tree, sep: int, right: Tree, lo: int, hi: int, d: nat)
    requires env.Valid() && lo <= sep <= hi && Wf(env, left, lo, sep, d) && Wf(env, right, sep, hi, d)
    ensures var t := Branch([NoKey, Key(sep)], [left, right]);
      Wf(env, t, lo, hi, d + 1) && Items(t) == Items(left) + Items(right)
  {
    var seps, kids := [NoKey, Key(sep)], [left, right];
    assert d > 0;
    FlatConcat([left], [right]);
    FlatOne(left);
    FlatOne(right);
    assert kids == [left] + [right];
    NodesAreHalf(env, 0);
    assert BranchUsed(env, 2) <= env.PMax();
    BranchIs(env, seps, kids, lo, hi, d + 1);
  }

  lemma RemoveLength(s: seq<Item>, k: int)
    ensures |Remove(s, k)| == if Present(s, k) then |s| - 1 else |s|
  {
  }

  lemma CollapseOk(env: Env, r: DelResult, all: seq<Item>, depth: nat)
    requires env.Valid() && Leaves(env, r, all, 0, Power256(env.ksize), depth)
    ensures DbOk(env, Collapse(env, r, depth, |all|)) && Contents(Collapse(env, r, depth, |all|)) == all
  {
    hide Power256, Used;
    var hi := Power256(env.ksize);
    if r.tree.Branch? && |r.tree.kids| == 1 {
      var seps, kids := r.tree.seps, r.tree.kids;
      PageIs(env, r.tree, 0, hi, depth);
      assert KidsWf(env, seps, kids, 0, hi, depth - 1);
      assert Wf(env, kids[0], Bound(seps, 0, 0, hi), Bound(seps, 1, 0, hi), depth - 1);
      FlatOne(kids[0]);
      assert kids == [kids[0]];
    }
  }

  /** A deletion removes exactly the key, or reports that it is not there. */
  lemma DbDelOk(env: Env, db: Db, k: int)
    requires env.Valid() && DbOk(env, db) && IsKey(env, k)
    ensures var r := DbDel(env, db, k);
      && DbOk(env, r.db) && Contents(r.db) == Remove(Contents(db), k)
      && r.answer == if Present(Contents(db), k) then Success else NotFound
  {
    hide Page, DelTree, Lookup, Collapse, Rank;
    match db.root
    case None =>
    case Some(t) =>
      var hi := Power256(env.ksize);
      LookupIsPresent(env, t, k, 0, hi, db.depth);
      DelTreeOk(env, t, k, 0, hi, db.depth);
      RemoveLength(Items(t), k);
      if Present(Items(t), k) { CollapseOk(env, DelTree(env, t, k), Remove(Items(t), k), db.depth); }
  }

  /** The root after a deletion: none when nothing is left, the only child of a branch. */
  lemma DbDelRoot(env: Env, db: Db, k: int)
    requires env.Valid() && DbOk(env, db) && IsKey(env, k) && Present(Contents(db), k)
    ensures db.root.Some?
    ensures var r := DelTree(env, db.root.value, k).tree;
      DbDel(env, db, k).db.root ==
        if NumKeys(r) == 0 then None else if r.Branch? && NumKeys(r) == 1 then Some(r.kids[0]) else Some(r)
  {
    hide Page, DelTree, Rank, Power256, Items, Used;
    var t, hi := db.root.value, Power256(env.ksize);
    LookupIsPresent(env, t, k, 0, hi, db.depth);
    DelTreeOk(env, t, k, 0, hi, db.depth);
    DelCheck(env, t, k, 0, hi, db.depth);
    PageIs(env, t, 0, hi, db.depth);
    PageIs(env, DelTree(env, t, k).tree, 0, hi, db.depth);
    TestsMean(env, DelTree(env, t, k).tree);
    hide IsUnderfull;
  }

  /** A put finds room whenever its leaf has fewer than twenty nodes besides the new one,
      or the new node takes more than a sixteenth of a page, or it is the last. */
  lemma PutHasRoom(env: Env, db: Db, it: Item, dirty: bool)
    requires env.Valid() && DbOk(env, db) && IsKey(env, it.key) && db.root.Some?
    ensures var items := LeafFor(db.root.value, it.key);
      var fit := Stored(env, items, it, dirty);
      var n := |Put(items, fit)|;
      n <= 20 || 16 * NodeSize(env, fit.val) > env.PMax() || Rank(items, it.key) == n - 1 ==>
        DbPut(env, db, it, dirty).answer == Success
  {
    hide DbPut, DbOk, Put, Rank, Stored, NodeSize, LeafUsed, Overwrites;
    DbPutOk(env, db, it, dirty);
    var items := LeafFor(db.root.value, it.key);
    PutAt(items, Stored(env, items, it, dirty));
  }

  /** A put can fail: nine items of 427 bytes and eleven of one byte under one-byte
      keys 1 to 20, and an item of 229 bytes for key 0. */
  function Crowded(): seq<Item> {
    seq(20, i => Item(i + 1, Val(Data(if i < 9 then 427 else 1, 0), 0)))
  }

  lemma CrowdedSizes()
    ensures var env, items, it := Env(4096, 1), Crowded(), Item(0, Val(Data(229, 0), 0));
      && LeafUsed(env, items) == 4074 && Sorted(items) && InRange(items, 0, 256)
      && Put(items, it) == [it] + items && Rank(items, 0) == 0 && !Present(items, 0)
      && LeafSizes(env, [it] + items) == [240] + Repeat(9, 438) + Repeat(11, 12)
  {
    hide Sum;
    var env, items, it := Env(4096, 1), Crowded(), Item(0, Val(Data(229, 0), 0));
    assert LeafSizes(env, items) == Repeat(9, 438) + Repeat(11, 12);
    SumRepeat(9, 438);
    SumRepeat(11, 12);
    SumConcat(Repeat(9, 438), Repeat(11, 12));
    RankIs(items, 0, 0);
    assert Put(items, it) == [it] + items;
    assert LeafSizes(env, [it] + items) == [240] + (Repeat(9, 438) + Repeat(11, 12));
  }

  lemma PutCanFail(dirty: bool)
    ensures var env, db := Env(4096, 1), Db(Some(Leaf(Crowded())), 1, 20);
      DbOk(env, db) && DbPut(env, db, Item(0, Val(Data(229, 0), 0)), dirty).answer == Full
  {
    hide SplitIndex, Scans, Sum, LeafSizes, LeafUsed, Rank, Put, Present, Sorted, InRange, MustSplit, BothFit,
      LeafSize, Repeat;
    var env, items, it := Env(4096, 1), Crowded(), Item(0, Val(Data(229, 0), 0));
    CrowdedSizes();
    HalfSplitCanFail();
    SplitFitsIff(env, [it] + items, 0);
    assert LeafSizes(env, [it] + items)[0] == LeafSize(env, 229) == 240;
    assert Power256(1) == 256 * Power256(0);
    assert PutLeaf(env, items, it, dirty) == PageFull;
  }

  // --- Runs: the database is a sorted finite map -----------------------------------------------

  ghost function ToMap(s: seq<Item>): map<int, Data>
    requires Sorted(s)
  {
    map i | 0 <= i < |s| :: s[i].key := s[i].val.data
  }

  /** What each operation means for a map. */
  function OnMap(m: map<int, Data>, op: Op): map<int, Data> {
    match op
    case PutOp(k, data, _) => m[k := data]
    case DelOp(k) => m - {k}
    case GetOp(_) => m
  }

  function AnswerOnMap(m: map<int, Data>, op: Op): Answer {
    match op
    case PutOp(_, _, _) => Success
    case DelOp(k) => if k in m then Success else NotFound
    case GetOp(k) => if k in m then Found(m[k]) else NotFound
  }

  lemma PresentInMap(s: seq<Item>, k: int)
    requires Sorted(s)
    ensures Present(s, k) <==> k in ToMap(s)
    ensures Present(s, k) ==> ToMap(s)[k] == s[Rank(s, k)].val.data
  {
    hide Rank;
    if k in ToMap(s) {
      var i :| 0 <= i < |s| && s[i].key == k;
      assert Rank(s, k) == i;
    }
  }

  /** The sequence has data `d` under key `k`. */
  ghost predicate Holds(s: seq<Item>, k: int, d: Data) { exists x :: x in s && x.key == k && x.val.data == d }

  predicate Sends(m: map<int, Data>, k: int, d: Data) { k in m && m[k] == d }

  /** The map has exactly the pairs of the sequence. */
  lemma MapHas(s: seq<Item>, k: int, d: Data)
    requires Sorted(s)
    ensures Holds(s, k, d) <==> Sends(ToMap(s), k, d)
  {
    if k in ToMap(s) && ToMap(s)[k] == d {
      var i :| 0 <= i < |s| && s[i].key == k;
      assert s[i] in s;
    }
  }

  lemma SamePairs(m: map<int, Data>, n: map<int, Data>)
    requires forall k, d :: Sends(m, k, d) <==> Sends(n, k, d)
    ensures m == n
  {
    forall k | k in m ensures k in n && n[k] == m[k] { assert Sends(m, k, m[k]); }
    forall k | k in n ensures k in m { assert Sends(n, k, n[k]); }
  }

  /** A sorted sequence around the place of a key. */
  lemma AroundKey(s: seq<Item>, k: int, x: Item)
    requires Sorted(s)
    ensures var r := Rank(s, k);
      var rest := s[if Present(s, k) then r + 1 else r..];
      && (x in s[..r] ==> x.key < k) && (x in rest ==> x.key > k)
      && (x in s && x.key != k <==> x in s[..r] || x in rest)
  {
  }

  lemma PutHas(s: seq<Item>, it: Item, x: Item)
    requires Sorted(s)
    ensures x in Put(s, it) <==> x == it || (x in s && x.key != it.key)
  {
    hide Rank, Put, Sorted;
    PutParts(s, it);
    AroundKey(s, it.key, x);
  }

  lemma RemoveHas(s: seq<Item>, k: int, x: Item)
    requires Sorted(s)
    ensures x in Remove(s, k) <==> x in s && x.key != k
  {
  }

  lemma PutHolds(s: seq<Item>, it: Item, k: int, d: Data)
    requires Sorted(s)
    ensures Holds(Put(s, it), k, d) <==> if k == it.key then d == it.val.data else Holds(s, k, d)
  {
    hide Put, Sorted;
    forall x: Item ensures x in Put(s, it) <==> x == it || (x in s && x.key != it.key) { PutHas(s, it, x); }
    assert it in Put(s, it);
  }

  lemma RemoveHolds(s: seq<Item>, k: int, k': int, d: Data)
    requires Sorted(s)
    ensures Holds(Remove(s, k), k', d) <==> k' != k && Holds(s, k', d)
  {
    hide Remove, Sorted;
    forall x: Item ensures x in Remove(s, k) <==> x in s && x.key != k { RemoveHas(s, k, x); }
  }

  lemma PutInMap(s: seq<Item>, it: Item)
    requires Sorted(s) && Sorted(Put(s, it))
    ensures ToMap(Put(s, it)) == ToMap(s)[it.key := it.val.data]
  {
    hide Put, ToMap, Sorted, Holds;
    var m, n := ToMap(Put(s, it)), ToMap(s)[it.key := it.val.data];
    forall k, d ensures Sends(m, k, d) <==> Sends(n, k, d) {
      MapHas(s, k, d);
      MapHas(Put(s, it), k, d);
      PutHolds(s, it, k, d);
    }
    SamePairs(m, n);
  }

  lemma RemoveInMap(s: seq<Item>, k: int)
    requires Sorted(s) && Sorted(Remove(s, k))
    ensures ToMap(Remove(s, k)) == ToMap(s) - {k}
  {
    hide Remove, ToMap, Sorted, Holds;
    var m, n := ToMap(Remove(s, k)), ToMap(s) - {k};
    forall k', d ensures Sends(m, k', d) <==> Sends(n, k', d) {
      MapHas(s, k', d);
      MapHas(Remove(s, k), k', d);
      RemoveHolds(s, k, k', d);
    }
    SamePairs(m, n);
  }

  lemma ContentsSorted(env: Env, db: Db)
    requires env.Valid() && DbOk(env, db)
    ensures Sorted(Contents(db))
  {
    if db.root.Some? { PageItems(env, db.root.value, 0, Power256(env.ksize), db.depth); }
  }

  /** One operation that does not run out of room does to the map what it should. */
  lemma StepRefines(env: Env, db: Db, op: Op)
    requires env.Valid() && DbOk(env, db) && OpOk(env, op) && Apply(env, db, op).answer != Full
    ensures Sorted(Contents(db)) && DbOk(env, Apply(env, db, op).db) && Sorted(Contents(Apply(env, db, op).db))
    ensures ToMap(Contents(Apply(env, db, op).db)) == OnMap(ToMap(Contents(db)), op)
    ensures Apply(env, db, op).answer == AnswerOnMap(ToMap(Contents(db)), op)
  {
    hide DbPut, DbDel, Put, Remove, DbOk, ToMap, Sorted, Stored;
    ContentsSorted(env, db);
    match op
    case PutOp(k, data, dirty) =>
      var it := Item(k, Val(data, 0));
      DbPutOk(env, db, it, dirty);
      ContentsSorted(env, DbPut(env, db, it, dirty).db);
      PutInMap(Contents(db), Stored(env, Contents(db), it, dirty));
    case DelOp(k) =>
      DbDelOk(env, db, k);
      ContentsSorted(env, DbDel(env, db, k).db);
      RemoveInMap(Contents(db), k);
      PresentInMap(Contents(db), k);
    case GetOp(k) =>
      GetOk(env, db, k);
      PresentInMap(Contents(db), k);
  }

  /** A lookup finds a key iff it is there. */
  lemma GetOk(env: Env, db: Db, k: int)
    requires env.Valid() && DbOk(env, db) && IsKey(env, k)
    ensures var s := Contents(db); DbGet(db, k) == if Present(s, k) then Some(s[Rank(s, k)].val.data) else None
  {
    if db.root.Some? { LookupIsPresent(env, db.root.value, k, 0, Power256(env.ksize), db.depth); }
  }

  /** The answers of a run, operation by operation, and the state after it. */
  function Answers(env: Env, db: Db, ops: seq<Op>): seq<Answer>
    requires env.Valid()
    decreases ops
  {
    if ops == [] then [] else [Apply(env, db, ops[0]).answer] + Answers(env, Apply(env, db, ops[0]).db, ops[1..])
  }

  function After(env: Env, db: Db, ops: seq<Op>): Db
    requires env.Valid()
    decreases ops
  {
    if ops == [] then db else After(env, Apply(env, db, ops[0]).db, ops[1..])
  }

  function MapAnswers(m: map<int, Data>, ops: seq<Op>): seq<Answer>
    decreases ops
  {
    if ops == [] then [] else [AnswerOnMap(m, ops[0])] + MapAnswers(OnMap(m, ops[0]), ops[1..])
  }

  function MapAfter(m: map<int, Data>, ops: seq<Op>): map<int, Data>
    decreases ops
  {
    if ops == [] then m else MapAfter(OnMap(m, ops[0]), ops[1..])
  }

  lemma {:induction false} RunRefines(env: Env, db: Db, ops: seq<Op>)
    requires env.Valid() && DbOk(env, db) && Sorted(Contents(db)) && (forall i :: 0 <= i < |ops| ==> OpOk(env, ops[i]))
    requires Full !in Answers(env, db, ops)
    ensures Answers(env, db, ops) == MapAnswers(ToMap(Contents(db)), ops)
    ensures var end := After(env, db, ops);
      DbOk(env, end) && Sorted(Contents(end)) && ToMap(Contents(end)) == MapAfter(ToMap(Contents(db)), ops)
    decreases ops
  {
    hide Apply, DbOk, Sorted, ToMap, OnMap, AnswerOnMap;
    if ops != [] {
      assert Answers(env, db, ops)[0] == Apply(env, db, ops[0]).answer;
      assert forall i :: 0 <= i < |ops[1..]| ==> ops[1..][i] == ops[i + 1];
      StepRefines(env, db, ops[0]);
      RunRefines(env, Apply(env, db, ops[0]).db, ops[1..]);
    }
  }

  /** Any run of puts, deletions and lookups on a new database in which no page insert
      fails answers as a finite map would. */
  lemma DatabaseIsMap(env: Env, ops: seq<Op>)
    requires env.Valid() && (forall i :: 0 <= i < |ops| ==> OpOk(env, ops[i])) && Full !in Answers(env, EMPTY, ops)
    ensures Answers(env, EMPTY, ops) == MapAnswers(map[], ops)
    ensures var end := After(env, EMPTY, ops);
        DbOk(env, end) && Sorted(Contents(end)) && ToMap(Contents(end)) == MapAfter(map[], ops)
  {
    hide Answers, MapAnswers, After, MapAfter;
    assert ToMap(Contents(EMPTY)) == map[];
    RunRefines(env, EMPTY, ops);
  }
}
