/**
 The invariant of the protocol in `Mvcc`, and that every action keeps it. Each
 part of the invariant is a predicate of just the fields it speaks about, so a
 step that leaves those fields alone keeps it.
 */
module MvccInvariant {
  import opened Basics
  import opened Mvcc

  /** The snapshots something may still read: both meta pages and every
      registered reader's. */
  ghost function Live(m0: Meta, m1: Meta, slots: seq<Slot>): set<Meta> {
    {m0, m1} + set i | 0 <= i < |slots| && slots[i].progress.Reading? :: slots[i].progress.meta
  }

  /** The cache shows the snapshot as it was committed. */
  ghost predicate Intact(cache: map<Pgno, Content>, m: Meta) {
    forall p :: p in m.snap.pages ==> p in cache && cache[p] == m.snap.pages[p]
  }

  /** A record may list pages of older snapshots only. */
  ghost predicate FreeFor(f: FreeDb, m: Meta) {
    forall k, p {:trigger p in f[k]} :: k in f && p in f[k] && k <= m.txnid ==> p !in m.snap.pages
  }

  /** Every page of the file is in `used` or listed by exactly one record. */
  ghost predicate Conserved(used: set<Pgno>, f: FreeDb, lo: Txnid, next: Pgno) {
    && (forall p :: p in used ==> NUM_METAS <= p < next)
    && (forall k, p {:trigger p in f[k]} :: k in f && k > lo && p in f[k] ==> NUM_METAS <= p < next && p !in used)
    && (forall j, k :: j in f && k in f && lo < j < k ==> f[j] !! f[k])
    && (forall p :: NUM_METAS <= p < next ==> p in used || InRecord(f, lo, p))
  }

  ghost predicate KeysUpTo(f: FreeDb, hi: Txnid) { forall k :: k in f ==> 0 < k <= hi }

  // --- The parts of the invariant ---------------------------------------------

  /** `pending`: a meta page newer than mti_txnid may have been written. */
  ghost predicate MetasOk(m0: Meta, m1: Meta, mti: Txnid, pending: bool) {
    var other := MetaOf(m0, m1, mti + 1);
    && MetaOf(m0, m1, mti).txnid == mti
    && (other.txnid + 1 == mti || (other.txnid == mti + 1 && pending) || (mti == 0 && other.txnid == 0))
    && NUM_METAS <= m0.snap.next && NUM_METAS <= m1.snap.next
  }

  ghost predicate SlotOk(slot: Slot, mti: Txnid) {
    && (slot.txnid.Some? ==> slot.txnid.value <= mti)
    && (slot.progress.Loaded? ==> slot.progress.seen <= mti)
    && (!slot.progress.Outside? ==> slot.pid)
    && (slot.progress.Reading? ==> slot.txnid == Some(slot.progress.meta.txnid))
  }

  ghost predicate SlotsOk(slots: seq<Slot>, mti: Txnid) { forall i :: 0 <= i < |slots| ==> SlotOk(slots[i], mti) }

  /** No reader in a slot at or above `from` is older than `oldest`. */
  ghost predicate NotBelow(slots: seq<Slot>, from: nat, mti: Txnid, oldest: Txnid) {
    && oldest <= mti
    && forall i :: from <= i < |slots| && slots[i].progress.Reading? ==> oldest <= slots[i].progress.meta.txnid
  }

  ghost predicate OldestOk(slots: seq<Slot>, mti: Txnid, pgoldest: map<nat, Txnid>) {
    forall e :: NotBelow(slots, 0, mti, Oldest(pgoldest, e))
  }

  ghost predicate AllIntact(cache: map<Pgno, Content>, live: set<Meta>) {
    forall m :: m in live ==> Intact(cache, m)
  }

  ghost predicate SyncedOk(unsynced: set<Pgno>, m0: Meta, m1: Meta) {
    forall p :: p in unsynced ==> p !in m0.snap.pages && p !in m1.snap.pages
  }

  /** `m` may be taken as the base of the next write transaction. */
  ghost predicate BaseOk(m: Meta, live: set<Meta>) {
    && Conserved(m.snap.pages.Keys, m.snap.freedb, 0, m.snap.next)
    && KeysUpTo(m.snap.freedb, m.txnid)
    && (forall l :: l in live && l.txnid <= m.txnid ==>
          FreeFor(m.snap.freedb, l) && forall p :: p in l.snap.pages ==> p < m.snap.next)
  }

  function Owned(t: Txn): set<Pgno> { t.dirty + t.spilled + t.loose + t.pghead }

  /** Pages the transaction may write belong to no older snapshot. */
  ghost predicate OwnedOk(live: set<Meta>, t: Txn) {
    forall m :: m in live && m.txnid < t.id ==> forall p :: p in m.snap.pages ==> p !in Owned(t) && p < t.next
  }

  /** The rest of what it reaches is in the cache. */
  ghost predicate TreeOk(cache: map<Pgno, Content>, t: Txn) {
    forall p :: p in t.tree && p !in t.dirty ==> p in cache && cache[p] == t.tree[p]
  }

  function UsedBy(t: Txn): set<Pgno> { t.tree.Keys + t.freed + t.loose + t.pghead }

  ghost predicate ConservedTxn(t: Txn) {
    && t.next >= NUM_METAS
    && t.tree.Keys !! t.freed !! t.loose !! t.pghead
    && Conserved(UsedBy(t), t.freedb, t.pglast, t.next)
    && KeysUpTo(t.freedb, t.id)
  }

  ghost predicate RunningOk(t: Txn, base: Meta, slots: seq<Slot>) {
    && t.freedb == base.snap.freedb
    && (!t.hasHead ==> t.pghead == {} && t.pglast == 0)
    && t.pglast < t.id
    && (t.scan.Scanning? ==> NotBelow(slots, t.scan.upTo, t.id - 1, t.scan.oldest))
  }

  ghost predicate SavedOk(t: Txn, live: set<Meta>) {
    && t.freed == t.loose == t.pghead == {}
    && t.pglast == 0
    && (forall l :: l in live && l.txnid < t.id ==> FreeFor(t.freedb, l))
  }

  ghost predicate PhaseOk(t: Txn, unsynced: set<Pgno>, m0: Meta, m1: Meta) {
    && (t.phase.Synced? || t.phase.MetaWritten? ==> t.dirty == {} && unsynced == {})
    && (t.phase.MetaWritten? ==> MetaOf(m0, m1, t.id) == Meta(t.id, SnapshotOf(t)))
  }

  ghost predicate TxnOk(s: State, t: Txn, live: set<Meta>) {
    && t.id == s.mti + 1
    && OwnedOk(live, t)
    && TreeOk(s.cache, t)
    && ConservedTxn(t)
    && (if t.phase.Running? then RunningOk(t, Current(s), s.slots) else SavedOk(t, live))
    && PhaseOk(t, s.unsynced, s.meta0, s.meta1)
  }

  function Pending(w: Writer): bool { w.OwnerDead? || (w.Writing? && w.txn.phase.MetaWritten?) }

  ghost predicate SharedOk(s: State, live: set<Meta>) {
    && SlotsOk(s.slots, s.mti)
    && OldestOk(s.slots, s.mti, s.pgoldest)
    && AllIntact(s.cache, live)
    && SyncedOk(s.unsynced, s.meta0, s.meta1)
    && BaseOk(PickMeta(s.meta0, s.meta1), live)
    && BaseOk(Current(s), live)
  }

  ghost predicate Inv(s: State) {
    var live := Live(s.meta0, s.meta1, s.slots);
    && MetasOk(s.meta0, s.meta1, s.mti, Pending(s.writer))
    && SharedOk(s, live)
    && (s.writer.Writing? ==> TxnOk(s, s.writer.txn, live))
  }

  lemma InitialInv()
    ensures Inv(INITIAL)
  {
  }

  // --- Reader steps -----------------------------------------------------------

  /** Fewer live snapshots ask for less. */
  lemma FewerLive(s: State, live: set<Meta>, live': set<Meta>)
    requires live' <= live
    ensures AllIntact(s.cache, live) ==> AllIntact(s.cache, live')
    ensures forall m :: BaseOk(m, live) ==> BaseOk(m, live')
    ensures forall t :: OwnedOk(live, t) ==> OwnedOk(live', t)
    ensures forall t :: SavedOk(t, live) ==> SavedOk(t, live')
  {
  }

  /** A step that changes only the reader table, adding no snapshot and not
      bringing an old reader back, keeps the invariant. */
  lemma TableStep(s: State, slots': seq<Slot>)
    requires Inv(s) && |s.slots| <= |slots'|
    requires SlotsOk(slots', s.mti)
    requires forall i :: 0 <= i < |slots'| && slots'[i].progress.Reading? ==>
               (i < |s.slots| && slots'[i].progress == s.slots[i].progress) || slots'[i].progress.meta == Current(s)
    ensures Inv(s.(slots := slots'))
  {
    var s' := s.(slots := slots');
    var live, live' := Live(s.meta0, s.meta1, s.slots), Live(s.meta0, s.meta1, slots');
    assert live' <= live;
    hide BaseOk, Intact, FreeFor, OwnedOk, TreeOk, ConservedTxn, SyncedOk;
    FewerLive(s, live, live');
    forall e ensures NotBelow(slots', 0, s.mti, Oldest(s.pgoldest, e)) {
      assert NotBelow(s.slots, 0, s.mti, Oldest(s.pgoldest, e));
    }
  }

  lemma ReaderActions(s: State, i: nat, r: ReaderAct)
    requires Inv(s) && ReaderEnabled(s.slots, i, r)
    ensures Inv(ReaderApply(s, i, r))
  {
    var slots' := ReaderApply(s, i, r).slots;
    forall j | 0 <= j < |slots'| ensures SlotOk(slots'[j], s.mti) {
      if j < |s.slots| { assert SlotOk(s.slots[j], s.mti); }
    }
    hide AllIntact, BaseOk, TxnOk, OldestOk, SyncedOk;
    TableStep(s, slots');
  }

  // --- Steps of the running write transaction ---------------------------------

  /** A step that changes only the transaction record keeps the invariant if
      the new record is consistent. */
  lemma TxnOnly(s: State, t': Txn)
    requires Inv(s) && s.writer.Writing? && !t'.phase.MetaWritten? && !s.writer.txn.phase.MetaWritten?
    requires TxnOk(s, t', Live(s.meta0, s.meta1, s.slots))
    ensures Inv(s.(writer := Writing(t')))
  {
    hide SlotsOk, OldestOk, AllIntact, SyncedOk, BaseOk, OwnedOk, TreeOk, ConservedTxn, RunningOk, SavedOk, PhaseOk,
      Live;
  }

  /** A running transaction stays consistent if its page lists do. */
  lemma StillRunning(s: State, t: Txn, t': Txn, live: set<Meta>)
    requires TxnOk(s, t, live) && t.phase.Running? && OwnedOk(live, t') && TreeOk(s.cache, t') && ConservedTxn(t')
    requires t'.id == t.id && t'.freedb == t.freedb && t'.scan == t.scan && t'.phase.Running? && t'.pglast < t'.id
    requires !t'.hasHead ==> t'.pghead == {} && t'.pglast == 0
    ensures TxnOk(s, t', live)
  {
    hide OwnedOk, TreeOk, ConservedTxn, Current, NotBelow;
  }

  /** What a running transaction has to start from. */
  lemma WhileRunning(s: State, t: Txn)
    requires Inv(s) && s.writer == Writing(t) && t.phase.Running?
    ensures var live := Live(s.meta0, s.meta1, s.slots);
      TxnOk(s, t, live) && OwnedOk(live, t) && TreeOk(s.cache, t) && ConservedTxn(t)
    ensures t.pglast < t.id == s.mti + 1 && (!t.hasHead ==> t.pghead == {} && t.pglast == 0)
    ensures t.freedb == Current(s).snap.freedb
  {
    hide MetasOk, SharedOk, OwnedOk, TreeOk, ConservedTxn, Live, Current, NotBelow;
  }

  lemma BeginStep(s: State, env: nat)
    requires Inv(s) && s.writer.NoWriter?
    ensures Inv(s.(writer := Writing(BeginTxn(s, env))))
  {
    hide SlotsOk, OldestOk, SyncedOk;
    var t := BeginTxn(s, env);
    var live := Live(s.meta0, s.meta1, s.slots);
    assert Current(s) in live;
    assert UsedBy(t) == t.tree.Keys;
    assert OwnedOk(live, t);
  }

  /** Looking at reader slots changes only where the scan is. */
  lemma SameScan(s: State, t: Txn, t': Txn, live: set<Meta>)
    requires TxnOk(s, t, live) && t.phase.Running? && t' == t.(scan := t'.scan) && RunningOk(t', Current(s), s.slots)
    ensures TxnOk(s, t', live)
  {
    hide RunningOk, Conserved, KeysUpTo, Current;
  }

  lemma ScanSteps(s: State, t: Txn, w: WorkAct)
    requires Inv(s) && s.writer == Writing(t) && WorkEnabled(s, t, w) && (w.ScanStart? || w.ScanSlot?)
    ensures Inv(WorkApply(s, t, w))
  {
    hide MetasOk, OldestOk, SyncedOk, AllIntact, BaseOk, OwnedOk, TreeOk, ConservedTxn, SavedOk, PhaseOk, Live, Current;
    var t' := WorkTxn(s, t, w);
    if w.ScanSlot? && t'.scan.upTo < |s.slots| { assert SlotOk(s.slots[t'.scan.upTo], s.mti); }
    assert RunningOk(t', Current(s), s.slots);
    hide RunningOk;
    SameScan(s, t, t', Live(s.meta0, s.meta1, s.slots));
    TxnOnly(s, t');
  }

  lemma ScanDoneStep(s: State, t: Txn)
    requires Inv(s) && s.writer == Writing(t) && WorkEnabled(s, t, ScanDone)
    ensures Inv(WorkApply(s, t, ScanDone))
  {
    hide SlotsOk, SyncedOk, AllIntact, BaseOk, Live;
    var s' := WorkApply(s, t, ScanDone);
    forall e ensures NotBelow(s.slots, 0, s.mti, Oldest(s'.pgoldest, e)) {
      assert NotBelow(s.slots, 0, s.mti, Oldest(s.pgoldest, e));
    }
  }

  /** No snapshot anyone may read is older than a record that may be fetched. */
  lemma LiveNotOlder(s: State, env: nat, m: Meta)
    requires Inv(s) && s.writer.Writing? && !s.writer.txn.phase.MetaWritten? && m in Live(s.meta0, s.meta1, s.slots)
    ensures Oldest(s.pgoldest, env) <= m.txnid + 1 && Oldest(s.pgoldest, env) <= s.mti
    ensures m.txnid <= s.mti
  {
    hide SyncedOk, AllIntact, BaseOk, TxnOk;
    assert NotBelow(s.slots, 0, s.mti, Oldest(s.pgoldest, env));
    if m != s.meta0 && m != s.meta1 {
      var i :| 0 <= i < |s.slots| && s.slots[i].progress.Reading? && s.slots[i].progress.meta == m;
      assert SlotOk(s.slots[i], s.mti);
    }
  }

  lemma MetasLive(s: State)
    ensures s.meta0 in Live(s.meta0, s.meta1, s.slots) && s.meta1 in Live(s.meta0, s.meta1, s.slots)
  {
  }

  lemma FetchConserves(t: Txn, t': Txn, key: Txnid)
    requires ConservedTxn(t) && NextKey(t, key)
    requires t' == t.(hasHead := true, pghead := t.pghead + t.freedb[key], pglast := key)
    ensures ConservedTxn(t')
  {
  }

  /** A record that may be fetched lists no page of a snapshot someone may read. */
  lemma FetchedNotLive(s: State, t: Txn, key: Txnid, m: Meta)
    requires Inv(s) && s.writer == Writing(t) && t.phase.Running? && key in t.freedb && key < Oldest(s.pgoldest, t.env)
    requires m in Live(s.meta0, s.meta1, s.slots) && m.txnid < t.id
    ensures t.freedb[key] !! m.snap.pages.Keys
  {
    hide SlotsOk, OldestOk, AllIntact, SyncedOk, OwnedOk, TreeOk, ConservedTxn, Conserved, Live;
    WhileRunning(s, t);
    LiveNotOlder(s, t.env, m);
    assert FreeFor(t.freedb, m);
  }

  lemma FetchStep(s: State, t: Txn, w: WorkAct)
    requires Inv(s) && s.writer == Writing(t) && WorkEnabled(s, t, w) && w.Fetch?
    ensures Inv(WorkApply(s, t, w))
  {
    hide Inv, TxnOk, ConservedTxn, Live;
    WhileRunning(s, t);
    var t', live := WorkTxn(s, t, w), Live(s.meta0, s.meta1, s.slots);
    FetchConserves(t, t', w.key);
    MetasLive(s);
    LiveNotOlder(s, t.env, s.meta0);
    forall m, p | m in live && m.txnid < t.id && p in m.snap.pages ensures p !in Owned(t') && p < t'.next {
      FetchedNotLive(s, t, w.key, m);
    }
    assert TreeOk(s.cache, t');
    StillRunning(s, t, t', live);
    TxnOnly(s, t');
  }

  lemma GrowConserves(used: set<Pgno>, f: FreeDb, lo: Txnid, next: Pgno, n: nat)
    requires Conserved(used, f, lo, next) && NUM_METAS <= next
    ensures Conserved(used + Range(next, n), f, lo, next + n) && used !! Range(next, n)
  {
  }

  lemma AllocConserves(t: Txn, src: Source, image: map<Pgno, Content>)
    requires ConservedTxn(t) && image.Keys == TakenFrom(t, src) && CanTake(t, src)
    ensures ConservedTxn(AllocTxn(t, src, image))
  {
    var t' := AllocTxn(t, src, image);
    var pages := TakenFrom(t, src);
    assert t'.tree.Keys == t.tree.Keys + pages;
    if src.FromMap? {
      GrowConserves(UsedBy(t), t.freedb, t.pglast, t.next, src.n);
      assert UsedBy(t') == UsedBy(t) + pages;
    } else {
      assert UsedBy(t') == UsedBy(t);
    }
  }

  /** Allocation in `mdb_page_alloc` from each of its three sources. */
  lemma AllocStep(s: State, t: Txn, w: WorkAct)
    requires Inv(s) && s.writer == Writing(t) && WorkEnabled(s, t, w) && w.Alloc?
    ensures Inv(WorkApply(s, t, w))
  {
    hide Inv, TxnOk, ConservedTxn, Live;
    WhileRunning(s, t);
    var t', live := WorkTxn(s, t, w), Live(s.meta0, s.meta1, s.slots);
    AllocConserves(t, w.src, w.image);
    assert OwnedOk(live, t');
    assert TreeOk(s.cache, t');
    StillRunning(s, t, t', live);
    TxnOnly(s, t');
  }

  lemma FreeConserves(s: State, t: Txn, w: WorkAct)
    requires ConservedTxn(t) && WorkEnabled(s, t, w) && (w.ToFreed? || w.ToLoose? || w.ToHead?)
    ensures ConservedTxn(WorkTxn(s, t, w))
  {
    assert UsedBy(WorkTxn(s, t, w)) == UsedBy(t);
  }

  lemma FreeSteps(s: State, t: Txn, w: WorkAct)
    requires Inv(s) && s.writer == Writing(t) && WorkEnabled(s, t, w) && (w.ToFreed? || w.ToLoose? || w.ToHead?)
    ensures Inv(WorkApply(s, t, w))
  {
    hide Inv, TxnOk, ConservedTxn, Live;
    WhileRunning(s, t);
    FreeConserves(s, t, w);
    var t', live := WorkTxn(s, t, w), Live(s.meta0, s.meta1, s.slots);
    assert Owned(t') <= Owned(t);
    assert OwnedOk(live, t');
    assert TreeOk(s.cache, t');
    StillRunning(s, t, t', live);
    TxnOnly(s, t');
  }

  lemma EditSteps(s: State, t: Txn, w: WorkAct)
    requires Inv(s) && s.writer == Writing(t) && WorkEnabled(s, t, w) && (w.Modify? || w.Unspill?)
    ensures Inv(WorkApply(s, t, w))
  {
    hide Inv, TxnOk, Conserved, Live;
    WhileRunning(s, t);
    var t', live := WorkTxn(s, t, w), Live(s.meta0, s.meta1, s.slots);
    assert t'.tree.Keys == t.tree.Keys && Owned(t') == Owned(t);
    assert UsedBy(t') == UsedBy(t);
    assert OwnedOk(live, t') && TreeOk(s.cache, t');
    StillRunning(s, t, t', live);
    TxnOnly(s, t');
  }

  /** Writing a page the transaction owns to the file disturbs no snapshot. */
  lemma WriteOwned(s: State, t: Txn, p: Pgno, c: Content)
    requires Inv(s) && s.writer == Writing(t) && !t.phase.MetaWritten? && p in t.dirty
    ensures AllIntact(s.cache[p := c], Live(s.meta0, s.meta1, s.slots))
    ensures SyncedOk(s.unsynced + {p}, s.meta0, s.meta1)
  {
    hide SlotsOk, OldestOk, BaseOk, ConservedTxn, TreeOk;
    var live := Live(s.meta0, s.meta1, s.slots);
    forall m | m in live ensures Intact(s.cache[p := c], m) && p !in m.snap.pages {
      LiveNotOlder(s, t.env, m);
      assert Intact(s.cache, m);
    }
    assert s.meta0 in live && s.meta1 in live;
  }

  lemma WrittenOk(s: State, t: Txn, t': Txn, cache': map<Pgno, Content>, unsynced': set<Pgno>, live: set<Meta>)
    requires TxnOk(s, t, live) && (t.phase.Running? || t.phase.Saved?)
    requires t' == t.(dirty := t'.dirty, spilled := t'.spilled) && Owned(t') <= Owned(t) && TreeOk(cache', t')
    ensures TxnOk(s.(cache := cache', unsynced := unsynced', writer := Writing(t')), t', live)
  {
    hide TreeOk, Conserved, KeysUpTo, NotBelow, FreeFor;
    assert OwnedOk(live, t');
    assert UsedBy(t') == UsedBy(t);
  }

  lemma WritePage(s: State, t: Txn, w: WorkAct)
    requires Inv(s) && s.writer == Writing(t) && WorkEnabled(s, t, w) && (w.Spill? || w.Flush?)
    ensures Inv(WorkApply(s, t, w))
  {
    hide MetasOk, SlotsOk, OldestOk, BaseOk, Conserved, AllIntact, SyncedOk, RunningOk, SavedOk, PhaseOk, Live;
    var t', live := WorkTxn(s, t, w), Live(s.meta0, s.meta1, s.slots);
    WriteOwned(s, t, w.p, w.c);
    assert Owned(t') <= Owned(t);
    assert TreeOk(s.cache[w.p := w.c], t');
    hide TreeOk;
    WrittenOk(s, t, t', s.cache[w.p := w.c], s.unsynced + {w.p}, live);
  }

  // --- Commit -----------------------------------------------------------------

  lemma SavedDbKeys(t: Txn, kept: FreeDb, k: Txnid)
    requires k in SavedDb(t, kept)
    requires Distributes(kept, t.pglast, LeftOver(t)) && KeysUpTo(t.freedb, t.id - 1) && t.pglast < t.id
    ensures 0 < k <= t.id
    ensures k == t.id ==> SavedDb(t, kept)[k] == OwnRecord(t)
    ensures t.pglast < k < t.id ==> k in t.freedb && SavedDb(t, kept)[k] == t.freedb[k]
    ensures k <= t.pglast ==> k in kept && SavedDb(t, kept)[k] == kept[k]
  {
  }

  /** What a record of the saved freeDB may list. */
  lemma SaveLists(t: Txn, kept: FreeDb, k: Txnid, p: Pgno)
    requires ConservedTxn(t)
    requires Distributes(kept, t.pglast, LeftOver(t)) && KeysUpTo(t.freedb, t.id - 1) && t.pglast < t.id
    requires k in SavedDb(t, kept) && p in SavedDb(t, kept)[k]
    ensures NUM_METAS <= p < t.next && p !in t.tree.Keys
    ensures if k <= t.pglast then k in kept && p in kept[k] && p in LeftOver(t)
            else if k == t.id then p in OwnRecord(t)
            else k in t.freedb && p in t.freedb[k] && p !in UsedBy(t)
  {
  }

  lemma SaveListsOnce(t: Txn, kept: FreeDb, j: Txnid, k: Txnid, p: Pgno)
    requires ConservedTxn(t)
    requires Distributes(kept, t.pglast, LeftOver(t)) && KeysUpTo(t.freedb, t.id - 1) && t.pglast < t.id
    requires j in SavedDb(t, kept) && k in SavedDb(t, kept) && p in SavedDb(t, kept)[j] && p in SavedDb(t, kept)[k]
    ensures j == k
  {
    SaveLists(t, kept, j, p);
    SaveLists(t, kept, k, p);
    SavedDbKeys(t, kept, j);
    SavedDbKeys(t, kept, k);
    assert LeftOver(t) !! OwnRecord(t) && LeftOver(t) <= UsedBy(t) && OwnRecord(t) <= UsedBy(t);
  }

  /** The records that are not read stay, and those written back are there. */
  lemma SavedDbHas(t: Txn, kept: FreeDb, k: Txnid)
    requires Distributes(kept, t.pglast, LeftOver(t)) && KeysUpTo(t.freedb, t.id - 1) && t.pglast < t.id
    ensures k in kept ==> k in SavedDb(t, kept) && SavedDb(t, kept)[k] == kept[k]
    ensures k in t.freedb && k > t.pglast ==> k in SavedDb(t, kept) && SavedDb(t, kept)[k] == t.freedb[k]
  {
  }

  lemma SaveCovers(t: Txn, kept: FreeDb, p: Pgno)
    requires ConservedTxn(t) && (!t.hasHead ==> t.pghead == {} && t.pglast == 0)
    requires Distributes(kept, t.pglast, LeftOver(t)) && KeysUpTo(t.freedb, t.id - 1) && t.pglast < t.id
    requires NUM_METAS <= p < t.next
    ensures p in t.tree.Keys || InRecord(SavedDb(t, kept), 0, p)
  {
    var f := SavedDb(t, kept);
    if p in LeftOver(t) {
      hide SavedDb;
      assert InRecord(kept, 0, p);
      var k :| k in kept && k > 0 && p in kept[k];
      SavedDbHas(t, kept, k);
    } else if p in OwnRecord(t) {
      hide Conserved, Distributes;
      assert t.id in f && p in f[t.id];
    } else if p !in t.tree.Keys {
      hide SavedDb;
      assert InRecord(t.freedb, t.pglast, p);
      var k :| k in t.freedb && k > t.pglast && p in t.freedb[k];
      SavedDbHas(t, kept, k);
    }
  }

  /** After `mdb_freelist_save` the records list exactly the pages that the
      transaction's lists and its unread records listed before. */
  lemma SaveConserves(t: Txn, kept: FreeDb)
    requires ConservedTxn(t) && (!t.hasHead ==> t.pghead == {} && t.pglast == 0)
    requires Distributes(kept, t.pglast, LeftOver(t)) && KeysUpTo(t.freedb, t.id - 1) && t.pglast < t.id
    ensures Conserved(t.tree.Keys, SavedDb(t, kept), 0, t.next)
    ensures KeysUpTo(SavedDb(t, kept), t.id)
  {
    var f := SavedDb(t, kept);
    forall k | k in f ensures 0 < k <= t.id { SavedDbKeys(t, kept, k); }
    forall k, p | k in f && k > 0 && p in f[k] ensures NUM_METAS <= p < t.next && p !in t.tree.Keys {
      SaveLists(t, kept, k, p);
    }
    forall j, k | j in f && k in f && 0 < j < k ensures f[j] !! f[k] {
      forall p | p in f[j] ensures p !in f[k] { if p in f[k] { SaveListsOnce(t, kept, j, k, p); } }
    }
    forall p | NUM_METAS <= p < t.next ensures p in t.tree.Keys || InRecord(f, 0, p) {
      SaveCovers(t, kept, p);
    }
  }

  lemma NowSaved(s: State, t: Txn, live: set<Meta>)
    requires t.phase.Saved? && t.id == s.mti + 1
    requires OwnedOk(live, t) && TreeOk(s.cache, t) && ConservedTxn(t) && SavedOk(t, live)
    ensures TxnOk(s, t, live)
  {
    hide OwnedOk, TreeOk, ConservedTxn, SavedOk;
  }

  /** The records of the last committed snapshot. */
  lemma BaseKeys(s: State)
    requires Inv(s)
    ensures KeysUpTo(Current(s).snap.freedb, s.mti)
    ensures forall l :: l in Live(s.meta0, s.meta1, s.slots) && l.txnid <= s.mti ==> FreeFor(Current(s).snap.freedb, l)
  {
    hide SlotsOk, OldestOk, AllIntact, SyncedOk, Conserved, TxnOk, Live;
  }

  lemma SaveStep(s: State, t: Txn, w: WorkAct)
    requires Inv(s) && s.writer == Writing(t) && WorkEnabled(s, t, w) && w.Save?
    ensures Inv(WorkApply(s, t, w))
  {
    hide Inv, TxnOk, Live, Conserved;
    var t', live := SaveTxn(t, w.kept), Live(s.meta0, s.meta1, s.slots);
    WhileRunning(s, t);
    BaseKeys(s);
    SaveConserves(t, w.kept);
    assert UsedBy(t') == t.tree.Keys;
    forall l, k, p | l in live && l.txnid < t.id && k in t'.freedb && p in t'.freedb[k] && k <= l.txnid
      ensures p !in l.snap.pages
    {
      SaveLists(t, w.kept, k, p);
      if k > t.pglast { assert FreeFor(t.freedb, l); } else { assert p in Owned(t); }
    }
    assert SavedOk(t', live);
    assert OwnedOk(live, t') && TreeOk(s.cache, t') && ConservedTxn(t');
    hide OwnedOk, TreeOk, ConservedTxn, SavedOk, SavedDb, Distributes;
    NowSaved(s, t', live);
    TxnOnly(s, t');
  }

  lemma WorkStep(s: State, t: Txn, w: WorkAct)
    requires Inv(s) && s.writer == Writing(t) && WorkEnabled(s, t, w)
    ensures Inv(WorkApply(s, t, w))
  {
    hide *;
    match w
    case ScanStart => ScanSteps(s, t, w);
    case ScanSlot => ScanSteps(s, t, w);
    case ScanDone => ScanDoneStep(s, t);
    case Fetch(_) => FetchStep(s, t, w);
    case Alloc(_, _) => AllocStep(s, t, w);
    case ToFreed(_) => FreeSteps(s, t, w);
    case ToLoose(_) => FreeSteps(s, t, w);
    case ToHead(_, _) => FreeSteps(s, t, w);
    case Modify(_, _) => EditSteps(s, t, w);
    case Unspill(_) => EditSteps(s, t, w);
    case Spill(_, _) => WritePage(s, t, w);
    case Flush(_, _) => WritePage(s, t, w);
    case Save(_) => SaveStep(s, t, w);
  }

  lemma SyncStep(s: State, t: Txn)
    requires Inv(s) && s.writer == Writing(t) && t.phase.Saved? && t.dirty == {}
    ensures Inv(s.(unsynced := {}, writer := Writing(t.(phase := Synced))))
  {
    hide SlotsOk, OldestOk, AllIntact, BaseOk, Conserved, Live;
    var t' := t.(phase := Synced);
    assert OwnedOk(Live(s.meta0, s.meta1, s.slots), t') && UsedBy(t') == UsedBy(t);
  }

  lemma NewMetaFree(t: Txn)
    requires ConservedTxn(t) && t.pglast == 0
    ensures FreeFor(t.freedb, Meta(t.id, SnapshotOf(t))) && forall p :: p in t.tree ==> p < t.next
  {
    assert forall p :: p in t.tree ==> p in UsedBy(t);
  }

  /** The meta page of a synced transaction is a sound base for the next one. */
  lemma NewMetaOk(s: State, t: Txn, live': set<Meta>)
    requires Inv(s) && s.writer == Writing(t) && t.phase.Synced?
    requires live' <= Live(s.meta0, s.meta1, s.slots) + {Meta(t.id, SnapshotOf(t))}
    ensures AllIntact(s.cache, live')
    ensures BaseOk(Meta(t.id, SnapshotOf(t)), live') && BaseOk(Current(s), live')
  {
    hide SlotsOk, OldestOk, SyncedOk, Conserved, FreeFor, Live;
    var n := Meta(t.id, SnapshotOf(t));
    var live := Live(s.meta0, s.meta1, s.slots);
    assert UsedBy(t) == t.tree.Keys;
    NewMetaFree(t);
    forall m | m in live' ensures Intact(s.cache, m) { if m in live { assert Intact(s.cache, m); } }
    forall l | l in live'
      ensures FreeFor(n.snap.freedb, l) && forall p :: p in l.snap.pages ==> p < n.snap.next
    {
      if l in live { LiveNotOlder(s, t.env, l); }
    }
    assert BaseOk(n, live');
    assert forall l :: l in live' && l.txnid <= s.mti ==> l in live;
    assert BaseOk(Current(s), live');
  }

  lemma PutMetaMetas(s: State, t: Txn)
    requires MetasOk(s.meta0, s.meta1, s.mti, false) && t.id == s.mti + 1 && t.next >= NUM_METAS
    ensures var s' := PutMeta(s, t);
      && MetasOk(s'.meta0, s'.meta1, s.mti, true)
      && PickMeta(s'.meta0, s'.meta1) == MetaOf(s'.meta0, s'.meta1, t.id) == Meta(t.id, SnapshotOf(t))
      && Current(s') == Current(s)
      && Live(s'.meta0, s'.meta1, s'.slots) <= Live(s.meta0, s.meta1, s.slots) + {Meta(t.id, SnapshotOf(t))}
  {
  }

  lemma PutMetaTxn(s: State, t: Txn, live: set<Meta>, live': set<Meta>)
    requires TxnOk(s, t, live) && t.phase.Synced? && MetasOk(s.meta0, s.meta1, s.mti, false)
    requires live' <= live + {Meta(t.id, SnapshotOf(t))}
    ensures TxnOk(PutMeta(s, t), t.(phase := MetaWritten), live')
  {
    hide ConservedTxn, TreeOk, FreeFor;
    var t' := t.(phase := MetaWritten);
    SamePages(s.cache, t, t');
    PutMetaMetas(s, t);
    assert forall m :: m in live' && m.txnid < t.id ==> m in live;
    assert OwnedOk(live', t') && SavedOk(t', live');
  }

  lemma WriteMetaStep(s: State, t: Txn)
    requires Inv(s) && s.writer == Writing(t) && t.phase.Synced?
    ensures Inv(PutMeta(s, t))
  {
    var s' := PutMeta(s, t);
    var live, live' := Live(s.meta0, s.meta1, s.slots), Live(s'.meta0, s'.meta1, s'.slots);
    assert t.next >= NUM_METAS;
    assert SyncedOk({}, s'.meta0, s'.meta1);
    hide SlotsOk, OldestOk, AllIntact, BaseOk, SyncedOk, MetasOk, OwnedOk, TreeOk, ConservedTxn, SavedOk, Live,
      PickMeta, MetaOf;
    PutMetaMetas(s, t);
    NewMetaOk(s, t, live');
    PutMetaTxn(s, t, live, live');
  }

  lemma SamePages(cache: map<Pgno, Content>, t: Txn, t': Txn)
    requires ConservedTxn(t) && TreeOk(cache, t) && t' == t.(phase := t'.phase)
    ensures ConservedTxn(t') && TreeOk(cache, t') && t.next >= NUM_METAS
  {
  }

  /** Ending the transaction: the next base is the newest meta page. */
  lemma EndTxn(s: State, mti': Txnid, w': Writer)
    requires Inv(s) && !s.writer.NoWriter? && !w'.Writing?
    requires mti' == s.mti || mti' == PickMeta(s.meta0, s.meta1).txnid
    requires w'.NoWriter? ==> mti' == PickMeta(s.meta0, s.meta1).txnid
    ensures Inv(s.(mti := mti', writer := w'))
  {
    hide AllIntact, BaseOk, TxnOk, SyncedOk, Live;
    forall e ensures NotBelow(s.slots, 0, mti', Oldest(s.pgoldest, e)) {
      assert NotBelow(s.slots, 0, s.mti, Oldest(s.pgoldest, e));
    }
    forall i | 0 <= i < |s.slots| ensures SlotOk(s.slots[i], mti') { assert SlotOk(s.slots[i], s.mti); }
  }

  /** Opening the file after a crash. */
  lemma ReopenInv(s: State, disk: map<Pgno, Content>)
    requires Inv(s)
    requires forall p :: p in s.cache && p !in s.unsynced ==> p in disk && disk[p] == s.cache[p]
    ensures Inv(Reopen(disk, s.meta0, s.meta1))
  {
    hide TxnOk, BaseOk;
    var s' := Reopen(disk, s.meta0, s.meta1);
    var live, live' := Live(s.meta0, s.meta1, s.slots), Live(s.meta0, s.meta1, []);
    assert live' == {s.meta0, s.meta1} <= live;
    FewerLive(s, live, live');
    assert AllIntact(disk, live') by { assert Intact(s.cache, s.meta0) && Intact(s.cache, s.meta1); }
    hide AllIntact, Intact, Live;
  }

  /** Every step keeps the invariant. */
  lemma StepInv(s: State, a: Action)
    requires Inv(s) && Enabled(s, a)
    ensures Inv(Apply(s, a))
  {
    hide MetasOk, SharedOk, TxnOk, ReaderEnabled, WorkEnabled, ReaderApply, WorkApply, Live;
    match a
    case Reader(i, r) => ReaderActions(s, i, r);
    case Begin(env) => BeginStep(s, env);
    case Work(w) => WorkStep(s, s.writer.txn, w);
    case Sync => SyncStep(s, s.writer.txn);
    case WriteMeta => WriteMetaStep(s, s.writer.txn);
    case Publish => PublishPicks(s); EndTxn(s, s.writer.txn.id, NoWriter);
    case Abort => PublishPicks(s); EndTxn(s, s.mti, NoWriter);
    case WriterDies => EndTxn(s, s.mti, OwnerDead);
    case Recover => EndTxn(s, PickMeta(s.meta0, s.meta1).txnid, NoWriter);
    case Crash(disk, metaLanded) =>
      if metaLanded {
        WriteMetaStep(s, s.writer.txn);
        ReopenInv(PutMeta(s, s.writer.txn), disk);
      } else {
        ReopenInv(s, disk);
      }
  }

  /** Which meta page is newest, in each phase. */
  lemma PublishPicks(s: State)
    requires Inv(s) && s.writer.Writing?
    ensures PickMeta(s.meta0, s.meta1).txnid == if s.writer.txn.phase.MetaWritten? then s.writer.txn.id else s.mti
  {
    hide SharedOk, OwnedOk, TreeOk, ConservedTxn, Live;
  }

  lemma {:induction false} RunInv(run: seq<State>, acts: seq<Action>, n: nat)
    requires IsRun(run, acts) && n < |run|
    ensures Inv(run[n])
    decreases n
  {
    hide Inv, Apply, Enabled;
    if n == 0 {
      InitialInv();
    } else {
      RunInv(run, acts, n - 1);
      StepInv(run[n - 1], acts[n - 1]);
    }
  }
}
