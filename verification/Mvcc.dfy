/**
 The multi-version protocol of the storage engine as a state machine: one
 writer at a time, lock-free readers that register by store-and-recheck, pages
 copied on write, freed pages recorded in the freeDB under the freeing
 transaction's id, and two meta pages written alternately.

 A `State` is everything that outlives one operation: the page cache and which
 of its pages may be lost in a crash, the two meta pages, the shared lock file,
 each process' cached oldest-reader id, and the running write transaction.
 Every `Action` is one step of one thread; a run is any sequence of enabled
 actions, so all interleavings are covered.
 */
module Mvcc {
  import opened Basics

  type Pgno = nat
  type Txnid = nat
  /** Ids of write transactions count from 1. */
  type WriteId = t: Txnid | t > 0 witness 1
  /** The bytes of one page, read as one number. */
  type Content = int

  const NUM_METAS := 2

  /** The records of a freeDB: transaction id -> pages it lists. */
  type FreeDb = map<Txnid, set<Pgno>>

  /** What a meta page's roots stand for: every page its trees reach, with
      contents, the freeDB records stored in those pages, and the first page
      number beyond the file. */
  datatype Snapshot = Snapshot(pages: map<Pgno, Content>, freedb: FreeDb, next: Pgno)

  datatype Meta = Meta(txnid: Txnid, snap: Snapshot)

  /** Where a reading thread is in `mdb_txn_renew0`. */
  datatype Progress =
    | Outside                 // no transaction, or about to load mti_txnid
    | Loaded(seen: Txnid)     // loaded mti_txnid, not stored yet
    | Stored                  // stored to its slot, not rechecked yet
    | Reading(meta: Meta)     // recheck succeeded, roots copied

  /** One slot of the reader table; `txnid` is None for (txnid_t)-1. */
  datatype Slot = Slot(pid: bool, txnid: Option<Txnid>, progress: Progress)

  /** The loop of `mdb_find_oldest`: slots below `upTo` are still to be read. */
  datatype Scan = NoScan | Scanning(upTo: nat, oldest: Txnid)

  datatype Phase = Running | Saved | Synced | MetaWritten

  datatype Txn = Txn(
    env: nat,                   // the writing process
    id: WriteId,
    tree: map<Pgno, Content>,   // pages reachable from the transaction's roots
    freedb: FreeDb,
    next: Pgno,                 // mt_next_pgno
    dirty: set<Pgno>,           // dirty list
    spilled: set<Pgno>,         // spill list
    freed: set<Pgno>,           // mt_free_pgs
    loose: set<Pgno>,           // mt_loose_pgs
    hasHead: bool,              // me_pghead != NULL
    pghead: set<Pgno>,
    pglast: Txnid,
    scan: Scan,
    phase: Phase)

  datatype Writer = NoWriter | Writing(txn: Txn) | OwnerDead

  datatype State = State(
    cache: map<Pgno, Content>,  // what the memory map shows
    unsynced: set<Pgno>,        // pages whose contents a crash may replace
    meta0: Meta,
    meta1: Meta,
    mti: Txnid,                 // mti_txnid
    slots: seq<Slot>,
    pgoldest: map<nat, Txnid>,  // me_pgoldest of each process
    writer: Writer)

  /** `mdb_env_pick_meta`. */
  function PickMeta(m0: Meta, m1: Meta): Meta {
    if m0.txnid < m1.txnid then m1 else m0
  }

  /** The meta page that transaction `t` writes. */
  function MetaOf(m0: Meta, m1: Meta, t: Txnid): Meta {
    if t % 2 == 0 then m0 else m1
  }

  function Current(s: State): Meta { MetaOf(s.meta0, s.meta1, s.mti) }

  function Oldest(pgoldest: map<nat, Txnid>, env: nat): Txnid {
    if env in pgoldest then pgoldest[env] else 0
  }

  /** `p` is listed by a record with a key above `lo`. */
  ghost predicate InRecord(f: FreeDb, lo: Txnid, p: Pgno) {
    exists k :: k in f && k > lo && p in f[k]
  }

  /** The pages `lo .. lo + n`. */
  function Range(lo: Pgno, n: nat): (r: set<Pgno>)
    ensures forall p :: p in r <==> lo <= p < lo + n
  {
    if n == 0 then {} else Range(lo, n - 1) + {lo + n - 1}
  }

  // --- Actions ---------------------------------------------------------------

  datatype Source = FromLoose(p: Pgno) | FromHead(lo: Pgno, n: nat) | FromMap(n: nat)

  /** Steps of a reading thread on its slot. */
  datatype ReaderAct = ClaimSlot | LoadTxnid | StoreTxnid | Recheck | EndRead | ReleaseSlot | ReaderDies

  /** Steps of the write transaction before its pages are synced. */
  datatype WorkAct =
    | ScanStart | ScanSlot | ScanDone | Fetch(key: Txnid)
    | Alloc(src: Source, image: map<Pgno, Content>)
    | ToFreed(p: Pgno) | ToLoose(p: Pgno) | ToHead(lo: Pgno, n: nat)
    | Modify(p: Pgno, c: Content) | Spill(p: Pgno, c: Content) | Unspill(p: Pgno)
    | Save(kept: FreeDb) | Flush(p: Pgno, c: Content)

  datatype Action =
    | Reader(i: nat, r: ReaderAct)
    | Begin(env: nat)
    | Work(w: WorkAct)
    | Sync | WriteMeta | Publish | Abort | WriterDies | Recover
    // the machine stops and the file is opened again
    | Crash(disk: map<Pgno, Content>, metaLanded: bool)

  function TakenFrom(t: Txn, src: Source): set<Pgno> {
    match src
    case FromLoose(p) => {p}
    case FromHead(lo, n) => Range(lo, n)
    case FromMap(n) => Range(t.next, n)
  }

  /** The key `mdb_page_alloc` reads next: the smallest one above me_pglast. */
  ghost predicate NextKey(t: Txn, key: Txnid) {
    key in t.freedb && key > t.pglast && forall k :: k in t.freedb && k > t.pglast ==> key <= k
  }

  /** `kept` is a way to store the leftover pages `rest` in records with keys in
      [1, me_pglast], each page in one record. */
  ghost predicate Distributes(kept: FreeDb, pglast: Txnid, rest: set<Pgno>) {
    && (forall k :: k in kept ==> 1 <= k <= pglast && kept[k] <= rest)
    && (forall j, k :: j in kept && k in kept && j != k ==> kept[j] !! kept[k])
    && (forall p :: p in rest ==> InRecord(kept, 0, p))
  }

  function LeftOver(t: Txn): set<Pgno> { if t.hasHead then t.pghead + t.loose else {} }

  /** Pages of the record stored under the transaction's own id. */
  function OwnRecord(t: Txn): set<Pgno> { if t.hasHead then t.freed else t.freed + t.loose }

  function SavedDb(t: Txn, kept: FreeDb): FreeDb {
    (map k | k in t.freedb && k > t.pglast :: t.freedb[k]) + kept +
    (if OwnRecord(t) == {} then map[] else map[t.id := OwnRecord(t)])
  }

  predicate InPhase(s: State, ph: Phase) { s.writer.Writing? && s.writer.txn.phase == ph }

  // --- Reader steps ----------------------------------------------------------

  predicate ReaderEnabled(slots: seq<Slot>, i: nat, r: ReaderAct) {
    match r
    case ClaimSlot => i <= |slots| && (i < |slots| ==> !slots[i].pid)
    case LoadTxnid => i < |slots| && slots[i].pid && slots[i].progress.Outside?
    case StoreTxnid => i < |slots| && slots[i].progress.Loaded?
    case Recheck => i < |slots| && slots[i].progress.Stored?
    case EndRead => i < |slots| && slots[i].progress.Reading?
    case ReleaseSlot => i < |slots| && slots[i].progress.Outside?
    case ReaderDies => i < |slots|
  }

  /** The slot after step `r`, when the lock file and the metas show `mti`, `current`. */
  function ReaderStep(slot: Slot, r: ReaderAct, mti: Txnid, current: Meta): Slot
    requires r.StoreTxnid? ==> slot.progress.Loaded?
  {
    match r
    case ClaimSlot => Slot(true, None, Outside)
    case LoadTxnid => slot.(progress := Loaded(mti))
    case StoreTxnid => slot.(txnid := Some(slot.progress.seen), progress := Stored)
    case Recheck => slot.(progress := if slot.txnid == Some(mti) then Reading(current) else Outside)
    case EndRead => slot.(txnid := None, progress := Outside)
    case ReleaseSlot => slot.(pid := false)
    case ReaderDies => slot.(progress := Outside)
  }

  function ReaderApply(s: State, i: nat, r: ReaderAct): State
    requires ReaderEnabled(s.slots, i, r)
  {
    if i == |s.slots| then s.(slots := s.slots + [ReaderStep(Slot(false, None, Outside), r, s.mti, Current(s))])
    else s.(slots := s.slots[i := ReaderStep(s.slots[i], r, s.mti, Current(s))])
  }

  // --- Steps of the write transaction ----------------------------------------

  function BeginTxn(s: State, env: nat): Txn {
    var m := Current(s);
    Txn(env, s.mti + 1, m.snap.pages, m.snap.freedb, m.snap.next, {}, {}, {}, {}, false, {}, 0, NoScan, Running)
  }

  function SnapshotOf(t: Txn): Snapshot { Snapshot(t.tree, t.freedb, t.next) }

  predicate CanTake(t: Txn, src: Source) {
    match src
    case FromLoose(p) => p in t.loose
    case FromHead(lo, n) => n > 0 && Range(lo, n) <= t.pghead
    case FromMap(n) => n > 0
  }

  ghost predicate WorkEnabled(s: State, t: Txn, w: WorkAct) {
    && (if w.Flush? then t.phase.Saved? else t.phase.Running?)
    && match w
       case ScanStart => t.scan.NoScan?
       case ScanSlot => t.scan.Scanning? && t.scan.upTo > 0
       case ScanDone => t.scan.Scanning? && t.scan.upTo == 0
       case Fetch(key) => NextKey(t, key) && key < Oldest(s.pgoldest, t.env)
       case Alloc(src, image) => CanTake(t, src) && image.Keys == TakenFrom(t, src)
       case ToFreed(p) => p in t.tree
       case ToLoose(p) => p in t.tree && p in t.dirty
       case ToHead(lo, n) =>
         t.hasHead && Range(lo, n) <= t.tree.Keys && (Range(lo, n) <= t.dirty || Range(lo, n) <= t.spilled)
       case Modify(p, c) => p in t.tree && p in t.dirty
       case Spill(p, c) => p in t.dirty && p !in t.loose && (p in t.tree ==> c == t.tree[p])
       case Unspill(p) => p in t.spilled && p in t.tree && p in s.cache
       case Save(kept) => Distributes(kept, t.pglast, LeftOver(t))
       case Flush(p, c) => p in t.dirty && (p in t.tree ==> c == t.tree[p])
  }

  function ScanOne(slot: Slot, oldest: Txnid): Txnid {
    if slot.pid && slot.txnid.Some? && slot.txnid.value < oldest then slot.txnid.value else oldest
  }

  function AllocTxn(t: Txn, src: Source, image: map<Pgno, Content>): Txn {
    var pages := TakenFrom(t, src);
    t.(tree := t.tree + image, dirty := t.dirty + pages, spilled := t.spilled - pages,
       loose := if src.FromLoose? then t.loose - pages else t.loose,
       pghead := if src.FromHead? then t.pghead - pages else t.pghead,
       next := if src.FromMap? then t.next + src.n else t.next)
  }

  function SaveTxn(t: Txn, kept: FreeDb): Txn {
    t.(freedb := SavedDb(t, kept), freed := {}, loose := {}, pghead := {}, hasHead := false,
       pglast := 0, scan := NoScan, dirty := t.dirty - t.loose, phase := Saved)
  }

  ghost function WorkTxn(s: State, t: Txn, w: WorkAct): Txn
    requires WorkEnabled(s, t, w)
  {
    match w
    case ScanStart => t.(scan := Scanning(|s.slots|, t.id - 1))
    case ScanSlot =>
      var j := t.scan.upTo - 1;
      t.(scan := Scanning(j, if j < |s.slots| then ScanOne(s.slots[j], t.scan.oldest) else t.scan.oldest))
    case ScanDone => t.(scan := NoScan)
    case Fetch(key) => t.(hasHead := true, pghead := t.pghead + t.freedb[key], pglast := key)
    case Alloc(src, image) => AllocTxn(t, src, image)
    case ToFreed(p) => t.(tree := t.tree - {p}, freed := t.freed + {p})
    case ToLoose(p) => t.(tree := t.tree - {p}, loose := t.loose + {p})
    case ToHead(lo, n) => t.(tree := t.tree - Range(lo, n), pghead := t.pghead + Range(lo, n),
                             dirty := t.dirty - Range(lo, n), spilled := t.spilled - Range(lo, n))
    case Modify(p, c) => t.(tree := t.tree[p := c])
    case Spill(p, c) => t.(dirty := t.dirty - {p}, spilled := t.spilled + {p})
    case Unspill(p) => t.(tree := t.tree[p := s.cache[p]], spilled := t.spilled - {p}, dirty := t.dirty + {p})
    case Save(kept) => SaveTxn(t, kept)
    case Flush(p, c) => t.(dirty := t.dirty - {p})
  }

  ghost function WorkApply(s: State, t: Txn, w: WorkAct): State
    requires WorkEnabled(s, t, w)
  {
    var s1 := s.(writer := Writing(WorkTxn(s, t, w)));
    if w.ScanDone? then s1.(pgoldest := s.pgoldest[t.env := t.scan.oldest])
    else if w.Spill? || w.Flush? then s1.(cache := s.cache[w.p := w.c], unsynced := s.unsynced + {w.p})
    else s1
  }

  // --- All steps -------------------------------------------------------------

  ghost predicate Enabled(s: State, a: Action) {
    match a
    case Reader(i, r) => ReaderEnabled(s.slots, i, r)
    case Begin(env) => s.writer.NoWriter?
    case Work(w) => s.writer.Writing? && WorkEnabled(s, s.writer.txn, w)
    case Sync => InPhase(s, Saved) && s.writer.txn.dirty == {}
    case WriteMeta => InPhase(s, Synced)
    case Publish => InPhase(s, MetaWritten)
    case Abort => s.writer.Writing? && !s.writer.txn.phase.MetaWritten?
    case WriterDies => s.writer.Writing?
    case Recover => s.writer.OwnerDead?
    case Crash(disk, metaLanded) =>
      && (metaLanded ==> InPhase(s, Synced))
      && (forall p :: p in s.cache && p !in s.unsynced ==> p in disk && disk[p] == s.cache[p])
  }

  /** `mdb_env_write_meta`: transaction N writes meta page N % 2. */
  function PutMeta(s: State, t: Txn): State {
    var s1 := s.(writer := Writing(t.(phase := MetaWritten)));
    if t.id % 2 == 0 then s1.(meta0 := Meta(t.id, SnapshotOf(t)))
    else s1.(meta1 := Meta(t.id, SnapshotOf(t)))
  }

  /** The file is opened with nobody else using it. */
  function Reopen(disk: map<Pgno, Content>, m0: Meta, m1: Meta): State {
    State(disk, {}, m0, m1, PickMeta(m0, m1).txnid, [], map[], NoWriter)
  }

  ghost function Apply(s: State, a: Action): State
    requires Enabled(s, a)
  {
    match a
    case Reader(i, r) => ReaderApply(s, i, r)
    case Begin(env) => s.(writer := Writing(BeginTxn(s, env)))
    case Work(w) => WorkApply(s, s.writer.txn, w)
    case Sync => s.(unsynced := {}, writer := Writing(s.writer.txn.(phase := Synced)))
    case WriteMeta => PutMeta(s, s.writer.txn)
    case Publish => s.(mti := s.writer.txn.id, writer := NoWriter)
    case Abort => s.(writer := NoWriter)
    case WriterDies => s.(writer := OwnerDead)
    case Recover => s.(mti := PickMeta(s.meta0, s.meta1).txnid, writer := NoWriter)
    case Crash(disk, metaLanded) =>
      var d := if metaLanded then PutMeta(s, s.writer.txn) else s;
      Reopen(disk, d.meta0, d.meta1)
  }

  /** A freshly created environment. */
  const EMPTY := Snapshot(map[], map[], NUM_METAS)
  const INITIAL := State(map[], {}, Meta(0, EMPTY), Meta(0, EMPTY), 0, [], map[], NoWriter)

  /** `run` is a run of the protocol: it starts in the initial state and every
      state follows from the one before by an enabled action. */
  ghost predicate IsRun(run: seq<State>, acts: seq<Action>) {
    && |run| == |acts| + 1
    && run[0] == INITIAL
    && forall i :: 0 <= i < |acts| ==> Enabled(run[i], acts[i]) && run[i + 1] == Apply(run[i], acts[i])
  }
}
