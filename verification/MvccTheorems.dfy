/**
 What the protocol promises, stated on whole runs of `Mvcc`: pages in use are
 never handed out, readers see one committed snapshot, a crash lands on a
 committed snapshot and loses none that was published, and no page number is
 lost or listed twice.
 */
module MvccTheorems {
  import opened Mvcc
  import opened MvccInvariant

  // --- No page in use is handed out --------------------------------------------

  /** A page handed out by the allocator is in neither meta page's trees, in no
      registered reader's snapshot, and not yet in the transaction's own trees. */
  lemma NoReuse(run: seq<State>, acts: seq<Action>, i: nat, p: Pgno)
    requires IsRun(run, acts) && i < |acts| && acts[i].Work? && acts[i].w.Alloc?
    requires p in TakenFrom(run[i].writer.txn, acts[i].w.src)
    ensures p !in run[i].meta0.snap.pages && p !in run[i].meta1.snap.pages
    ensures forall r :: 0 <= r < |run[i].slots| && run[i].slots[r].progress.Reading? ==>
              p !in run[i].slots[r].progress.meta.snap.pages
    ensures p !in run[i].writer.txn.tree && NUM_METAS <= p
  {
    var s, t, src := run[i], run[i].writer.txn, acts[i].w.src;
    RunInv(run, acts, i);
    var live := Live(s.meta0, s.meta1, s.slots);
    forall m | m in live ensures p !in m.snap.pages {
      LiveNotOlder(s, t.env, m);
      assert src.FromMap? || p in Owned(t);
    }
    assert s.meta0 in live && s.meta1 in live;
    assert src.FromMap? || p in t.loose + t.pghead;
  }

  // --- Snapshot isolation ------------------------------------------------------

  /** Whatever writers do meanwhile, a registered reader finds every page of the
      snapshot it copied, unchanged. */
  lemma ReaderSeesSnapshot(run: seq<State>, acts: seq<Action>, n: nat, r: nat)
    requires IsRun(run, acts) && n < |run| && r < |run[n].slots| && run[n].slots[r].progress.Reading?
    ensures Intact(run[n].cache, run[n].slots[r].progress.meta)
  {
    RunInv(run, acts, n);
    var s := run[n];
    assert s.slots[r].progress.meta in Live(s.meta0, s.meta1, s.slots);
  }

  /** Step `a` from `s` writes meta page `m`. */
  ghost predicate Commits(s: State, a: Action, m: Meta) {
    && s.writer.Writing?
    && (a.WriteMeta? || (a.Crash? && a.metaLanded))
    && m == Meta(s.writer.txn.id, SnapshotOf(s.writer.txn))
  }

  ghost predicate CommittedBefore(run: seq<State>, acts: seq<Action>, n: nat, m: Meta)
    requires IsRun(run, acts) && n < |run|
  {
    m == Meta(0, EMPTY) || exists i :: 0 <= i < n && Commits(run[i], acts[i], m)
  }

  lemma StepMetas(s: State, a: Action)
    requires Enabled(s, a)
    ensures var s' := Apply(s, a);
      && (s'.meta0 == s.meta0 || Commits(s, a, s'.meta0)) && (s'.meta1 == s.meta1 || Commits(s, a, s'.meta1))
  {
    hide WorkEnabled, WorkTxn, ReaderEnabled, ReaderStep;
  }

  /** A snapshot that is read was read before, or is the current one. */
  lemma StepReads(s: State, a: Action, i: nat)
    requires Enabled(s, a) && i < |Apply(s, a).slots| && Apply(s, a).slots[i].progress.Reading?
    ensures var m := Apply(s, a).slots[i].progress.meta;
      m == s.meta0 || m == s.meta1 || (i < |s.slots| && s.slots[i].progress == Reading(m))
  {
    hide WorkEnabled, WorkTxn;
  }

  lemma StepLive(s: State, a: Action, m: Meta)
    requires Enabled(s, a)
    requires m in Live(Apply(s, a).meta0, Apply(s, a).meta1, Apply(s, a).slots)
    ensures m in Live(s.meta0, s.meta1, s.slots) || Commits(s, a, m)
  {
    var s' := Apply(s, a);
    hide Apply, Enabled, Commits;
    StepMetas(s, a);
    if m != s'.meta0 && m != s'.meta1 {
      var i :| 0 <= i < |s'.slots| && s'.slots[i].progress.Reading? && s'.slots[i].progress.meta == m;
      StepReads(s, a, i);
    }
  }

  /** The snapshot a reader sees, and each meta page, is the empty one or was
      written as a whole by one committing transaction. */
  lemma {:induction false} LiveWasCommitted(run: seq<State>, acts: seq<Action>, n: nat, m: Meta)
    requires IsRun(run, acts) && n < |run| && m in Live(run[n].meta0, run[n].meta1, run[n].slots)
    ensures CommittedBefore(run, acts, n, m)
    decreases n
  {
    hide Enabled, Apply;
    if n > 0 {
      StepLive(run[n - 1], acts[n - 1], m);
      if !Commits(run[n - 1], acts[n - 1], m) { LiveWasCommitted(run, acts, n - 1, m); }
    }
  }

  // --- Crashes -----------------------------------------------------------------

  /** If the machine stops at any point, with any subset of the unsynced pages
      lost or garbled, the meta page chosen on reopening is the published one or
      the one whose write had begun, and all its pages have their committed
      contents. */
  lemma CrashRecovers(run: seq<State>, acts: seq<Action>, n: nat, disk: map<Pgno, Content>, landed: bool)
    requires IsRun(run, acts) && n < |run| && Enabled(run[n], Crash(disk, landed))
    ensures var s, s' := run[n], Apply(run[n], Crash(disk, landed));
      && Intact(disk, Current(s'))
      && (Current(s') == Current(s)
          || (s.writer.Writing? && (s.writer.txn.phase.Synced? || s.writer.txn.phase.MetaWritten?)
              && Current(s') == Meta(s.writer.txn.id, SnapshotOf(s.writer.txn)))
          || (s.writer.OwnerDead? && Current(s') == PickMeta(s.meta0, s.meta1)))
  {
    hide IsRun, Inv, Apply, Enabled, Intact, Current, PickMeta;
    var s, a := run[n], Crash(disk, landed);
    RunInv(run, acts, n);
    StepInv(s, a);
    CurrentIntact(Apply(s, a));
    CrashPicks(s, disk, landed);
  }

  lemma CurrentIntact(s: State)
    requires Inv(s)
    ensures Intact(s.cache, Current(s))
  {
    hide TxnOk, BaseOk, Intact, MetasOk;
    assert Current(s) in Live(s.meta0, s.meta1, s.slots);
  }

  lemma CrashPicks(s: State, disk: map<Pgno, Content>, landed: bool)
    requires Inv(s) && Enabled(s, Crash(disk, landed))
    ensures Apply(s, Crash(disk, landed)).cache == disk
    ensures var s' := Apply(s, Crash(disk, landed));
      || Current(s') == Current(s)
      || (s.writer.Writing? && (s.writer.txn.phase.Synced? || s.writer.txn.phase.MetaWritten?)
          && Current(s') == Meta(s.writer.txn.id, SnapshotOf(s.writer.txn)))
      || (s.writer.OwnerDead? && Current(s') == PickMeta(s.meta0, s.meta1))
  {
    hide SharedOk, OwnedOk, TreeOk, Conserved, SavedOk, RunningOk, Live;
    if landed { PutMetaMetas(s, s.writer.txn); }
  }

  lemma StepMonotone(s: State, a: Action)
    requires Inv(s) && Enabled(s, a)
    ensures s.mti <= Apply(s, a).mti
  {
    hide SharedOk, WorkEnabled, WorkTxn, OwnedOk, TreeOk, ConservedTxn, Live;
    LandedRises(s, a);
  }

  lemma CurrentId(s: State)
    requires Inv(s)
    ensures Current(s).txnid == s.mti
  {
  }

  /** The published transaction id never goes back, crashes included. */
  lemma {:induction false} IdsRise(run: seq<State>, acts: seq<Action>, i: nat, j: nat)
    requires IsRun(run, acts) && i <= j < |run|
    ensures run[i].mti <= run[j].mti && Current(run[j]).txnid == run[j].mti
    decreases j - i
  {
    hide Enabled, Apply, Inv;
    RunInv(run, acts, j);
    CurrentId(run[j]);
    if i < j {
      RunInv(run, acts, j - 1);
      StepMonotone(run[j - 1], acts[j - 1]);
      IdsRise(run, acts, i, j - 1);
    }
  }

  /** A meta page that survives a crash is one id further. */
  lemma LandedRises(s: State, a: Action)
    requires Inv(s) && Enabled(s, a)
    ensures a.Crash? && a.metaLanded ==> Apply(s, a).mti == s.mti + 1
  {
    hide SharedOk, WorkEnabled, WorkTxn, OwnedOk, TreeOk, ConservedTxn, Live;
  }

  lemma StepKeepsCurrent(s: State, a: Action)
    requires Inv(s) && Enabled(s, a) && Apply(s, a).mti == s.mti
    ensures Current(Apply(s, a)) == Current(s)
  {
    hide SharedOk, WorkEnabled, WorkTxn, OwnedOk, TreeOk, ConservedTxn, Live;
    LandedRises(s, a);
  }

  lemma {:induction false} PublishedStays(run: seq<State>, acts: seq<Action>, i: nat, j: nat)
    requires IsRun(run, acts) && i <= j < |run| && run[i].mti == run[j].mti
    ensures Current(run[i]) == Current(run[j])
    decreases j - i
  {
    hide Enabled, Apply, Inv;
    if i < j {
      RunInv(run, acts, j - 1);
      IdsRise(run, acts, i, j - 1);
      IdsRise(run, acts, j - 1, j);
      StepKeepsCurrent(run[j - 1], acts[j - 1]);
      PublishedStays(run, acts, i, j - 1);
    }
  }

  /** A published transaction is never lost again, crashes included: the published id does
      not go back, and the snapshot under it stays the same, contents and all, until a
      later transaction is published. */
  lemma Durable(run: seq<State>, acts: seq<Action>, i: nat, j: nat)
    requires IsRun(run, acts) && i <= j < |run|
    ensures run[i].mti <= run[j].mti && Current(run[j]).txnid == run[j].mti
    ensures run[i].mti == run[j].mti ==> Current(run[i]) == Current(run[j])
  {
    hide Enabled, Apply, Current;
    IdsRise(run, acts, i, j);
    if run[i].mti == run[j].mti { PublishedStays(run, acts, i, j); }
  }

  // --- Page accounting ---------------------------------------------------------

  function Count(b: bool): nat { if b then 1 else 0 }

  /** The unread records that list page `p`. */
  ghost function Listing(t: Txn, p: Pgno): set<Txnid> { set k | k in t.freedb && k > t.pglast && p in t.freedb[k] }

  /** At every step of a write transaction each page of the file is in exactly
      one place: its trees, its free list, its loose list, the reclaimed list,
      or one freeDB record not read yet. */
  lemma EachPageOnce(run: seq<State>, acts: seq<Action>, n: nat, p: Pgno)
    requires IsRun(run, acts) && n < |run| && run[n].writer.Writing?
    ensures var t := run[n].writer.txn;
      Count(p in t.tree) + Count(p in t.freed) + Count(p in t.loose) + Count(p in t.pghead) + |Listing(t, p)|
      == Count(NUM_METAS <= p < t.next)
  {
    RunInv(run, acts, n);
    var t := run[n].writer.txn;
    var l := Listing(t, p);
    if NUM_METAS <= p < t.next && p !in UsedBy(t) {
      assert InRecord(t.freedb, t.pglast, p);
      var k :| k in t.freedb && k > t.pglast && p in t.freedb[k];
      forall j | j in l ensures j == k { assert j < k || k < j || j == k; }
      assert l == {k};
    } else {
      assert l == {};
    }
  }

  /** Total length of all records. */
  ghost function Listed(f: FreeDb): nat {
    if f == map[] then 0 else var k :| k in f; |f[k]| + Listed(f - {k})
  }

  /** `used` and the records of `f` split the pages `all` among them. */
  ghost predicate Splits(all: set<Pgno>, used: set<Pgno>, f: FreeDb) {
    && used <= all
    && (forall k :: k in f ==> f[k] <= all && f[k] !! used)
    && (forall j, k :: j in f && k in f && j != k ==> f[j] !! f[k])
    && (forall p :: p in all && p !in used ==> exists k :: k in f && p in f[k])
  }

  lemma SplitStep(all: set<Pgno>, used: set<Pgno>, f: FreeDb, k: Txnid)
    requires Splits(all, used, f) && k in f
    ensures Splits(all, used + f[k], f - {k}) && f[k] !! used
  {
    forall p | p in all && p !in used + f[k] ensures exists j :: j in f - {k} && p in (f - {k})[j] {
      var j :| j in f && p in f[j];
      assert j in f - {k};
    }
  }

  lemma {:induction false} SplitSizes(all: set<Pgno>, used: set<Pgno>, f: FreeDb)
    requires Splits(all, used, f)
    ensures Listed(f) + |used| == |all|
    decreases |f|
  {
    if f == map[] {
      assert all == used;
    } else {
      var k :| k in f && Listed(f) == |f[k]| + Listed(f - {k});
      SplitStep(all, used, f, k);
      hide Splits;
      SplitSizes(all, used + f[k], f - {k});
      assert |used + f[k]| == |used| + |f[k]|;
    }
  }

  lemma {:induction false} RangeSize(lo: Pgno, n: nat)
    ensures |Range(lo, n)| == n
  {
    if n > 0 {
      RangeSize(lo, n - 1);
      var r, p := Range(lo, n - 1), lo + n - 1;
      assert p !in r && Range(lo, n) == r + {p};
      hide Range;
      assert |r + {p}| == |r| + 1;
    }
  }

  lemma Audited(used: set<Pgno>, f: FreeDb, next: Pgno)
    requires Conserved(used, f, 0, next) && next >= NUM_METAS && 0 !in f
    ensures Listed(f) + |used| + NUM_METAS == next
  {
    hide Splits, Listed, Range;
    ConservedSplits(used, f, next);
    SplitSizes(Range(NUM_METAS, next - NUM_METAS), used, f);
    RangeSize(NUM_METAS, next - NUM_METAS);
  }

  lemma ConservedSplits(used: set<Pgno>, f: FreeDb, next: Pgno)
    requires Conserved(used, f, 0, next) && next >= NUM_METAS && 0 !in f
    ensures Splits(Range(NUM_METAS, next - NUM_METAS), used, f)
  {
  }

  /** The equation `mdb_audit` checks, for every transaction about to be written
      out and for the base of every new one. */
  lemma AuditHolds(run: seq<State>, acts: seq<Action>, n: nat)
    requires IsRun(run, acts) && n < |run|
    ensures run[n].writer.Writing? && !run[n].writer.txn.phase.Running? ==>
      var t := run[n].writer.txn; Listed(t.freedb) + |t.tree| + NUM_METAS == t.next
    ensures var m := Current(run[n]).snap; Listed(m.freedb) + |m.pages| + NUM_METAS == m.next
  {
    RunInv(run, acts, n);
    var s := run[n];
    hide Live, AllIntact, SlotsOk, OldestOk;
    if s.writer.Writing? && !s.writer.txn.phase.Running? {
      var t := s.writer.txn;
      assert UsedBy(t) == t.tree.Keys;
      Audited(t.tree.Keys, t.freedb, t.next);
    }
    var m := Current(s).snap;
    Audited(m.pages.Keys, m.freedb, m.next);
  }
}
