/**
 That the protocol of `Mvcc` does what it is there for, stated on whole runs: readers get
 in, the scan of the reader table finds the oldest one, and what a transaction commits is
 what it wrote last.
 */
module MvccProgress {
  import opened Basics
  import opened Mvcc
  import opened MvccInvariant
  import opened MvccTheorems

  // --- Readers get in -------------------------------------------------------------------------

  /** The recheck of a reader succeeds exactly if the id in its slot is still the published
      one; then it reads the current meta page. */
  lemma RecheckReads(run: seq<State>, acts: seq<Action>, i: nat, r: nat)
    requires IsRun(run, acts) && i < |acts| && acts[i] == Reader(r, Recheck)
    ensures r < |run[i].slots| == |run[i + 1].slots|
    ensures var s, slot := run[i], run[i + 1].slots[r];
      slot.progress == if s.slots[r].txnid == Some(s.mti) then Reading(Current(s)) else Outside
  {
    hide Current;
    assert Enabled(run[i], acts[i]) && run[i + 1] == Apply(run[i], acts[i]);
  }

  /** Steps of others leave a reader's slot alone, unless the machine stops. */
  predicate LeavesSlot(a: Action, r: nat) { !a.Crash? && (a.Reader? ==> a.i != r) }

  lemma SlotStays(s: State, a: Action, r: nat)
    requires Enabled(s, a) && LeavesSlot(a, r) && r < |s.slots|
    ensures r < |Apply(s, a).slots| && Apply(s, a).slots[r] == s.slots[r]
  {
    hide WorkEnabled, WorkTxn, Current;
  }

  lemma {:induction false} SlotStaysOn(run: seq<State>, acts: seq<Action>, i: nat, j: nat, r: nat)
    requires IsRun(run, acts) && i <= j < |run| && r < |run[i].slots|
    requires forall k :: i <= k < j ==> LeavesSlot(acts[k], r)
    ensures r < |run[j].slots| && run[j].slots[r] == run[i].slots[r]
    decreases j - i
  {
    hide Enabled, Apply;
    if i < j {
      SlotStaysOn(run, acts, i, j - 1, r);
      SlotStays(run[j - 1], acts[j - 1], r);
    }
  }

  lemma LoadStores(run: seq<State>, acts: seq<Action>, i: nat, r: nat)
    requires IsRun(run, acts) && i < |acts| && acts[i].Reader? && acts[i].i == r
    ensures acts[i].r == LoadTxnid ==> r < |run[i + 1].slots| && run[i + 1].slots[r].progress == Loaded(run[i].mti)
    ensures acts[i].r == StoreTxnid ==>
      && r < |run[i].slots| && run[i].slots[r].progress.Loaded? && r < |run[i + 1].slots|
      && run[i + 1].slots[r].txnid == Some(run[i].slots[r].progress.seen)
  {
    hide Current;
    assert Enabled(run[i], acts[i]) && run[i + 1] == Apply(run[i], acts[i]);
  }

  /** A reader that loads the published id, stores it and rechecks, whatever the others do
      meanwhile, gets in exactly if no other transaction was published in between; and then
      it reads the snapshot that was current all that time. */
  lemma ReaderGetsIn(run: seq<State>, acts: seq<Action>, load: nat, store: nat, check: nat, r: nat)
    requires IsRun(run, acts) && load < store < check < |acts|
    requires acts[load] == Reader(r, LoadTxnid) && acts[store] == Reader(r, StoreTxnid)
    requires acts[check] == Reader(r, Recheck)
    requires forall k :: load < k < check && k != store ==> LeavesSlot(acts[k], r)
    ensures r < |run[check + 1].slots|
    ensures var slot := run[check + 1].slots[r];
      if run[load].mti == run[check].mti then
        slot.progress == Reading(Current(run[load])) && slot.txnid == Some(run[load].mti)
      else slot.progress == Outside
  {
    hide Enabled, Apply, Current;
    LoadStores(run, acts, load, r);
    SlotStaysOn(run, acts, load + 1, store, r);
    LoadStores(run, acts, store, r);
    SlotStaysOn(run, acts, store + 1, check, r);
    RecheckReads(run, acts, check, r);
    RecheckKeepsId(run, acts, check, r);
    if run[load].mti == run[check].mti { PublishedStays(run, acts, load, check); }
  }

  lemma RecheckKeepsId(run: seq<State>, acts: seq<Action>, i: nat, r: nat)
    requires IsRun(run, acts) && i < |acts| && acts[i] == Reader(r, Recheck)
    ensures r < |run[i].slots| == |run[i + 1].slots| && run[i + 1].slots[r].txnid == run[i].slots[r].txnid
  {
    hide Current;
    assert Enabled(run[i], acts[i]) && run[i + 1] == Apply(run[i], acts[i]);
  }

  /** A claimed slot is free for reading, a reader that ends holds back no transaction, and
      a released slot is free for others. */
  lemma SlotLife(run: seq<State>, acts: seq<Action>, i: nat, r: nat)
    requires IsRun(run, acts) && i < |acts| && acts[i].Reader? && acts[i].i == r
    ensures r < |run[i + 1].slots|
    ensures acts[i].r == ClaimSlot ==> run[i + 1].slots[r] == Slot(true, None, Outside)
    ensures acts[i].r == EndRead ==> run[i + 1].slots[r] == Slot(run[i + 1].slots[r].pid, None, Outside)
    ensures acts[i].r == ReleaseSlot ==> !run[i + 1].slots[r].pid
  {
    hide Current;
    assert Enabled(run[i], acts[i]) && run[i + 1] == Apply(run[i], acts[i]);
  }

  /** And it can always do so: the three steps are open to a reader with an idle slot. */
  lemma IdleCanRead(s: State, r: nat)
    requires r < |s.slots| && s.slots[r].pid && s.slots[r].progress.Outside?
    ensures Enabled(s, Reader(r, LoadTxnid))
    ensures var s1 := Apply(s, Reader(r, LoadTxnid)); Enabled(s1, Reader(r, StoreTxnid))
    ensures var s2 := Apply(Apply(s, Reader(r, LoadTxnid)), Reader(r, StoreTxnid));
      && Enabled(s2, Reader(r, Recheck))
      && var s3 := Apply(s2, Reader(r, Recheck));
         r < |s3.slots| && s3.slots[r].progress == Reading(Current(s))
  {
    hide MetaOf;
  }

  // --- The scan finds the oldest reader ---------------------------------------------------------

  predicate Shows(s: State, j: nat, v: Txnid) { j < |s.slots| && s.slots[j].pid && s.slots[j].txnid == Some(v) }

  /** Slot `j` shows `v` in all states from `a` to `i`. */
  ghost predicate ShowsAll(run: seq<State>, a: nat, i: nat, j: nat, v: Txnid)
    requires i < |run|
  {
    forall k :: a <= k <= i ==> Shows(run[k], j, v)
  }

  /** Between the start of a scan and state `i` the slots from `u` on have been read, and the
      least id seen, or `id` - 1, is `o`. */
  ghost predicate Scanned(run: seq<State>, a: nat, i: nat, u: nat, o: Txnid, id: nat)
    requires a < i < |run|
  {
    && o < id
    && (o == id - 1 || exists k, j :: a <= k < i && Shows(run[k], j, o))
    && forall j, v :: j >= u && ShowsAll(run, a, i, j, v) ==> o <= v
  }

  /** Only the scan and readers move between steps `a` and `b`. */
  predicate ScanRuns(acts: seq<Action>, a: nat, b: nat) {
    && a < b < |acts| && acts[a] == Work(ScanStart) && acts[b] == Work(ScanDone)
    && forall k :: a < k < b ==> acts[k] == Work(ScanSlot) || acts[k].Reader?
  }

  lemma ScanMoves(s: State, a: Action)
    requires Enabled(s, a) && s.writer.Writing? && (a == Work(ScanStart) || a == Work(ScanSlot) || a.Reader?)
    ensures var t, w := s.writer.txn, Apply(s, a).writer;
      && w.Writing? && w.txn == t.(scan := w.txn.scan)
      && (a.Reader? ==> w.txn == t)
      && (a == Work(ScanStart) ==> w.txn.scan == Scanning(|s.slots|, t.id - 1))
      && (a == Work(ScanSlot) ==>
            && t.scan.Scanning? && t.scan.upTo > 0
            && var j, o := t.scan.upTo - 1, t.scan.oldest;
               w.txn.scan == Scanning(j, if j < |s.slots| then ScanOne(s.slots[j], o) else o))
  {
    hide ScanOne, Current, NextKey, Distributes, SaveTxn, AllocTxn, CanTake, TakenFrom;
    if a.Reader? { hide WorkEnabled, WorkTxn, ReaderStep; } else { hide ReaderEnabled, ReaderApply; }
  }

  /** Reading one slot gives its id if that is the smaller one. */
  lemma ScanOneMin(s: State, j: nat, o: Txnid)
    ensures var o' := if j < |s.slots| then ScanOne(s.slots[j], o) else o;
      (o' == o || (o' < o && Shows(s, j, o'))) && forall v :: Shows(s, j, v) ==> o' <= v
  {
  }

  lemma ScannedMore(run: seq<State>, a: nat, i: nat, u: nat, o: Txnid, u': nat, o': Txnid, id: nat)
    requires a < i && i + 1 < |run| && Scanned(run, a, i, u, o, id)
    requires o' == o || (o' < o && exists j :: Shows(run[i], j, o'))
    requires u' == u || (u' + 1 == u && forall v :: Shows(run[i], u', v) ==> o' <= v)
    ensures Scanned(run, a, i + 1, u', o', id)
  {
    hide Shows;
    var next := i + 1;
    forall j: nat, v | j >= u' && ShowsAll(run, a, next, j, v) ensures o' <= v {
      assert Shows(run[i], j, v);
      assert ShowsAll(run, a, i, j, v);
    }
  }

  lemma {:induction false} ScanGoesOn(run: seq<State>, acts: seq<Action>, a: nat, b: nat, i: nat)
    requires IsRun(run, acts) && ScanRuns(acts, a, b) && a < i <= b && run[a].writer.Writing?
    ensures var t, w := run[a].writer.txn, run[i].writer;
      && w.Writing? && w.txn == t.(scan := w.txn.scan) && w.txn.scan.Scanning?
      && Scanned(run, a, i, w.txn.scan.upTo, w.txn.scan.oldest, t.id)
    decreases i
  {
    hide Enabled, Apply, Shows, ScanOne;
    assert Enabled(run[i - 1], acts[i - 1]) && run[i] == Apply(run[i - 1], acts[i - 1]);
    if i == a + 1 {
      ScanMoves(run[a], acts[a]);
      assert forall j, v :: ShowsAll(run, a, i, j, v) ==> Shows(run[a], j, v);
      NoneBeyond(run[a]);
    } else {
      ScanGoesOn(run, acts, a, b, i - 1);
      ScanMoves(run[i - 1], acts[i - 1]);
      var t, t' := run[i - 1].writer.txn, run[i].writer.txn;
      if t.scan.upTo > 0 { ScanOneMin(run[i - 1], t.scan.upTo - 1, t.scan.oldest); }
      ScannedMore(run, a, i - 1, t.scan.upTo, t.scan.oldest, t'.scan.upTo, t'.scan.oldest, t.id);
    }
  }

  lemma NoneBeyond(s: State)
    ensures forall j: nat, v :: j >= |s.slots| ==> !Shows(s, j, v)
  {
  }

  /** The id a scan of the reader table ends with, whatever readers do meanwhile: it is the
      id before the writer's or was in some slot, and no reader that was registered all the
      time has a smaller one. */
  lemma ScanFinds(run: seq<State>, acts: seq<Action>, a: nat, b: nat)
    requires IsRun(run, acts) && ScanRuns(acts, a, b) && run[a].writer.Writing?
    ensures var t, o := run[a].writer.txn, Oldest(run[b + 1].pgoldest, run[a].writer.txn.env);
      && run[b + 1].writer == Writing(t.(scan := NoScan))
      && o < t.id && (o == t.id - 1 || exists k, j :: a <= k < b && Shows(run[k], j, o))
      && forall j, v :: ShowsAll(run, a, b, j, v) ==> o <= v
  {
    ScanGoesOn(run, acts, a, b, b);
    ScanEnds(run[b]);
    hide Enabled, Apply, Shows;
    assert acts[b] == Work(ScanDone) && Enabled(run[b], acts[b]) && run[b + 1] == Apply(run[b], acts[b]);
  }

  lemma ScanEnds(s: State)
    requires Enabled(s, Work(ScanDone))
    ensures var t, s' := s.writer.txn, Apply(s, Work(ScanDone));
      && t.scan.Scanning? && t.scan.upTo == 0
      && Oldest(s'.pgoldest, t.env) == t.scan.oldest && s'.writer == Writing(t.(scan := NoScan))
  {
  }

  /** So a record that no reader can need is there to be taken over after a scan: it is the
      next one, older than the last commit, and every id seen in the table is newer. */
  lemma RecordReclaimed(run: seq<State>, acts: seq<Action>, a: nat, b: nat, key: Txnid)
    requires IsRun(run, acts) && ScanRuns(acts, a, b) && run[a].writer.Writing? && run[a].writer.txn.phase.Running?
    requires var t := run[a].writer.txn;
      key in t.freedb && t.pglast < key < t.id - 1 && forall k :: k in t.freedb && k < key ==> k <= t.pglast
    requires forall k, j, v :: a <= k < b && Shows(run[k], j, v) ==> key < v
    ensures Enabled(run[b + 1], Work(Fetch(key)))
  {
    hide Shows, IsRun;
    ScanFinds(run, acts, a, b);
  }

  // --- What is committed was written ---------------------------------------------------------------

  function Get(m: map<Pgno, Content>, p: Pgno): Option<Content> { if p in m then Some(m[p]) else None }

  /** What a step of the write transaction itself says about page `p`: its new contents, that
      it is given up, or nothing. */
  function Says(a: Action, p: Pgno): Option<Option<Content>> {
    if !a.Work? then None else
    match a.w
    case Alloc(_, image) => if p in image then Some(Some(image[p])) else None
    case Modify(q, c) => if p == q then Some(Some(c)) else None
    case ToFreed(q) => if p == q then Some(None) else None
    case ToLoose(q) => if p == q then Some(None) else None
    case ToHead(lo, n) => if lo <= p < lo + n then Some(None) else None
    case _ => None
  }

  /** What the running transaction last said about page `p`, or what its base has there. */
  ghost function LastSaid(run: seq<State>, acts: seq<Action>, n: nat, p: Pgno): Option<Content>
    requires IsRun(run, acts) && n < |run|
  {
    if n == 0 then None
    else if acts[n - 1].Begin? then Get(Current(run[n - 1]).snap.pages, p)
    else if Says(acts[n - 1], p).Some? then Says(acts[n - 1], p).value
    else LastSaid(run, acts, n - 1, p)
  }

  /** No page is both dirty and spilled, and a reclaimed list comes from a record. */
  ghost predicate Apart(w: Writer) {
    w.Writing? ==> w.txn.dirty !! w.txn.spilled && (w.txn.hasHead ==> w.txn.pglast > 0)
  }

  lemma ApartStep(s: State, a: Action)
    requires Enabled(s, a) && Apart(s.writer)
    ensures Apart(Apply(s, a).writer)
  {
    hide Current, ReaderStep, SavedDb, Distributes;
  }

  lemma {:induction false} ApartAlways(run: seq<State>, acts: seq<Action>, n: nat)
    requires IsRun(run, acts) && n < |run|
    ensures Apart(run[n].writer)
    decreases n
  {
    hide Enabled, Apply, Apart;
    if n == 0 {
      NoneApart();
    } else {
      ApartAlways(run, acts, n - 1);
      ApartStep(run[n - 1], acts[n - 1]);
    }
  }

  lemma NoneApart()
    ensures Apart(NoWriter)
  {
  }

  lemma WorkTree(s: State, t: Txn, w: WorkAct, p: Pgno)
    requires WorkEnabled(s, t, w) && t.dirty !! t.spilled && TreeOk(s.cache, t)
    ensures Get(WorkTxn(s, t, w).tree, p) == if Says(Work(w), p).Some? then Says(Work(w), p).value else Get(t.tree, p)
  {
    hide NextKey, Distributes, SavedDb, CanTake;
  }

  lemma TreeIntact(s: State)
    requires Inv(s) && s.writer.Writing?
    ensures TreeOk(s.cache, s.writer.txn)
  {
    hide MetasOk, SharedOk, OwnedOk, TreeOk, ConservedTxn, RunningOk, SavedOk, PhaseOk, Live;
  }

  /** One step: the tree changes only where the step says so. A page taken back from the
      spill list is as it was. */
  lemma TreeStep(s: State, a: Action, p: Pgno)
    requires Inv(s) && Enabled(s, a) && Apart(s.writer) && Apply(s, a).writer.Writing?
    ensures a.Begin? ==> Get(Apply(s, a).writer.txn.tree, p) == Get(Current(s).snap.pages, p)
    ensures !a.Begin? ==> s.writer.Writing?
    ensures !a.Begin? ==> var was, now := s.writer.txn.tree, Apply(s, a).writer.txn.tree;
      Get(now, p) == if Says(a, p).Some? then Says(a, p).value else Get(was, p)
  {
    if a.Work? {
      hide Inv, WorkEnabled, WorkTxn, Says;
      TreeIntact(s);
      WorkTree(s, s.writer.txn, a.w, p);
    } else {
      hide Inv, WorkEnabled, ReaderStep, Current, SnapshotOf;
    }
  }

  /** At every state of every run the trees of the write transaction hold exactly what it
      last put there, and elsewhere what its base had. */
  lemma {:induction false} TreeIsLastSaid(run: seq<State>, acts: seq<Action>, n: nat, p: Pgno)
    requires IsRun(run, acts) && n < |run| && run[n].writer.Writing?
    ensures Get(run[n].writer.txn.tree, p) == LastSaid(run, acts, n, p)
    decreases n
  {
    hide Enabled, Apply, Apart, Inv, Says, Current, Get;
    RunInv(run, acts, n - 1);
    ApartAlways(run, acts, n - 1);
    TreeStep(run[n - 1], acts[n - 1], p);
    if !acts[n - 1].Begin? { TreeIsLastSaid(run, acts, n - 1, p); }
  }

  /** So a committed snapshot is what its transaction wrote last. */
  lemma CommitsLastSaid(run: seq<State>, acts: seq<Action>, i: nat, m: Meta, p: Pgno)
    requires IsRun(run, acts) && i < |acts| && Commits(run[i], acts[i], m)
    ensures Get(m.snap.pages, p) == LastSaid(run, acts, i, p)
  {
    hide Enabled, Apply, Get, LastSaid;
    TreeIsLastSaid(run, acts, i, p);
  }
}
