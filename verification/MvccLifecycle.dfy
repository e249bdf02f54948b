/**
 That the steps of `Mvcc` are open when the engine needs them, and what they add up to:
 the life of a reader's slot, of a page, and of a write transaction from its start to its
 commit, its abort or its death.
 */
module MvccLifecycle {
  import opened Basics
  import opened Mvcc
  import opened MvccInvariant
  import opened MvccTheorems
  import opened MvccProgress

  /** The actions lead from one state to the other, each enabled in its turn. */
  ghost predicate Leads(s: State, acts: seq<Action>, end: State)
    decreases |acts|
  {
    if acts == [] then s == end else Enabled(s, acts[0]) && Leads(Apply(s, acts[0]), acts[1..], end)
  }

  lemma LeadsFirst(s: State, a: Action, rest: seq<Action>, end: State)
    requires Enabled(s, a) && Leads(Apply(s, a), rest, end)
    ensures Leads(s, [a] + rest, end)
  {
    hide Enabled, Apply;
    assert ([a] + rest)[1..] == rest;
  }

  lemma LeadsTwo(s: State, a: Action, b: Action)
    requires Enabled(s, a) && Enabled(Apply(s, a), b)
    ensures Leads(s, [a, b], Apply(Apply(s, a), b))
  {
    hide Enabled, Apply;
    var end := Apply(Apply(s, a), b);
    assert Leads(end, [], end);
    LeadsFirst(Apply(s, a), b, [], end);
    LeadsFirst(s, a, [b] + [], end);
    assert [a] + ([b] + []) == [a, b];
  }

  // --- A reader's slot -------------------------------------------------------------------------------

  /** The state with slot `r`, an old or the first new one, set. */
  function With(s: State, r: nat, slot: Slot): State
    requires r <= |s.slots|
  {
    s.(slots := if r == |s.slots| then s.slots + [slot] else s.slots[r := slot])
  }

  lemma ReaderGoesOn(s: State, r: nat, slot: Slot, a: ReaderAct, slot': Slot)
    requires r <= |s.slots| && ReaderEnabled(With(s, r, slot).slots, r, a) && !a.ClaimSlot?
    requires slot' == ReaderStep(slot, a, s.mti, Current(s))
    ensures Enabled(With(s, r, slot), Reader(r, a))
    ensures Apply(With(s, r, slot), Reader(r, a)) == With(s, r, slot')
  {
    hide ReaderStep, MetaOf;
  }

  /** A reader can always claim a free slot, or a new one, read the current snapshot, and
      leave; then the slot is free again and nothing else has changed. */
  lemma ReaderCycle(s: State, r: nat)
    requires r <= |s.slots| && (r < |s.slots| ==> !s.slots[r].pid)
    ensures Enabled(s, Reader(r, ClaimSlot))
    ensures Leads(Apply(s, Reader(r, ClaimSlot)),
                  [Reader(r, LoadTxnid), Reader(r, StoreTxnid), Reader(r, Recheck)],
                  With(s, r, Slot(true, Some(s.mti), Reading(Current(s)))))
    ensures Leads(With(s, r, Slot(true, Some(s.mti), Reading(Current(s)))),
                  [Reader(r, EndRead), Reader(r, ReleaseSlot)],
                  With(s, r, Slot(false, None, Outside)))
  {
    var idle, loaded := Slot(true, None, Outside), Slot(true, None, Loaded(s.mti));
    var stored, inside := Slot(true, Some(s.mti), Stored), Slot(true, Some(s.mti), Reading(Current(s)));
    assert Enabled(s, Reader(r, ClaimSlot)) && Apply(s, Reader(r, ClaimSlot)) == With(s, r, idle);
    ReaderGoesOn(s, r, idle, LoadTxnid, loaded);
    ReaderGoesOn(s, r, loaded, StoreTxnid, stored);
    ReaderGoesOn(s, r, stored, Recheck, inside);
    ReaderGoesOn(s, r, inside, EndRead, idle);
    ReaderGoesOn(s, r, idle, ReleaseSlot, Slot(false, None, Outside));
    hide Enabled, Apply, Current;
    LeadsTwo(With(s, r, loaded), Reader(r, StoreTxnid), Reader(r, Recheck));
    LeadsFirst(With(s, r, idle), Reader(r, LoadTxnid), [Reader(r, StoreTxnid), Reader(r, Recheck)], With(s, r, inside));
    assert [Reader(r, LoadTxnid)] + [Reader(r, StoreTxnid), Reader(r, Recheck)] ==
           [Reader(r, LoadTxnid), Reader(r, StoreTxnid), Reader(r, Recheck)];
    LeadsTwo(With(s, r, inside), Reader(r, EndRead), Reader(r, ReleaseSlot));
  }

  /** A reader can die at any time. */
  lemma ReaderCanDie(s: State, r: nat)
    requires r < |s.slots|
    ensures Enabled(s, Reader(r, ReaderDies))
    ensures Apply(s, Reader(r, ReaderDies)) == With(s, r, Slot(s.slots[r].pid, s.slots[r].txnid, Outside))
  {
  }

  /** And then its id stays in the table, and so in the way of every scan, as long as nobody
      takes over its slot. */
  lemma DeadReaderStays(run: seq<State>, acts: seq<Action>, i: nat, n: nat, r: nat, v: Txnid)
    requires IsRun(run, acts) && i < n < |run| && acts[i] == Reader(r, ReaderDies) && Shows(run[i], r, v)
    requires forall k :: i < k < n ==> LeavesSlot(acts[k], r)
    ensures Shows(run[n], r, v) && run[n].slots[r].progress.Outside?
  {
    hide Enabled, Apply;
    ReaderCanDie(run[i], r);
    SlotStaysOn(run, acts, i + 1, n, r);
  }

  // --- The pages of a transaction --------------------------------------------------------------------

  /** The running write transaction `t` is consistent. */
  ghost predicate RunsTxn(s: State, t: Txn) { s.writer == Writing(t) && t.phase.Running? && Inv(s) && Apart(s.writer) }

  lemma RunsTxnParts(s: State, t: Txn)
    requires RunsTxn(s, t)
    ensures t.dirty !! t.spilled && t.tree.Keys !! t.loose && t.tree.Keys !! t.pghead
    ensures forall p :: p in t.tree ==> p < t.next
  {
    hide MetasOk, SharedOk, OwnedOk, TreeOk, RunningOk, PhaseOk, Live;
  }

  /** The step is about the transaction only. */
  predicate InTxn(w: WorkAct) { !w.ScanDone? && !w.Spill? && !w.Flush? }

  lemma OneWork(s: State, t: Txn, w: WorkAct)
    requires s.writer == Writing(t) && WorkEnabled(s, t, w) && InTxn(w)
    ensures Enabled(s, Work(w)) && Apply(s, Work(w)) == s.(writer := Writing(WorkTxn(s, t, w)))
  {
    hide WorkEnabled, WorkTxn;
  }

  lemma TwoWorks(s: State, t: Txn, w: WorkAct, t1: Txn, w1: WorkAct, t2: Txn)
    requires s.writer == Writing(t) && WorkEnabled(s, t, w) && InTxn(w) && t1 == WorkTxn(s, t, w)
    requires var s1 := s.(writer := Writing(t1)); WorkEnabled(s1, t1, w1) && InTxn(w1) && t2 == WorkTxn(s1, t1, w1)
    ensures Leads(s, [Work(w), Work(w1)], s.(writer := Writing(t2)))
  {
    hide WorkEnabled, WorkTxn, Enabled, Apply;
    OneWork(s, t, w);
    OneWork(s.(writer := Writing(t1)), t1, w1);
    LeadsTwo(s, Work(w), Work(w1));
  }

  /** A dirty page can be written out early and taken back, and is then as before. */
  lemma SpillAndBack(s: State, t: Txn, p: Pgno)
    requires RunsTxn(s, t) && p in t.dirty && p in t.tree
    ensures var out, back := Work(Spill(p, t.tree[p])), Work(Unspill(p));
      && Enabled(s, out) && Apply(s, out).writer == Writing(t.(dirty := t.dirty - {p}, spilled := t.spilled + {p}))
      && Leads(s, [out, back], s.(cache := s.cache[p := t.tree[p]], unsynced := s.unsynced + {p}))
  {
    hide Inv, Leads, NextKey, Distributes, SaveTxn, AllocTxn, CanTake, TakenFrom, Range;
    RunsTxnParts(s, t);
    var out, back := Work(Spill(p, t.tree[p])), Work(Unspill(p));
    assert t.dirty - {p} + {p} == t.dirty && t.spilled + {p} - {p} == t.spilled && t.tree[p := t.tree[p]] == t.tree;
    LeadsTwo(s, out, back);
  }

  /** A page the transaction wrote itself can be given up and used again at once. */
  lemma LooseAndBack(s: State, t: Txn, p: Pgno, c: Content)
    requires RunsTxn(s, t) && p in t.dirty && p in t.tree
    ensures Leads(s, [Work(ToLoose(p)), Work(Alloc(FromLoose(p), map[p := c]))],
                  s.(writer := Writing(t.(tree := t.tree[p := c]))))
  {
    hide Inv, Enabled, Apply, Leads, NextKey, Distributes, SaveTxn;
    RunsTxnParts(s, t);
    assert t.tree - {p} + map[p := c] == t.tree[p := c] && t.dirty + {p} == t.dirty && t.spilled - {p} == t.spilled;
    assert t.loose + {p} - {p} == t.loose;
    var t1 := t.(tree := t.tree - {p}, loose := t.loose + {p});
    assert t1 == WorkTxn(s, t, ToLoose(p));
    TwoWorks(s, t, ToLoose(p), t1, Alloc(FromLoose(p), map[p := c]), t.(tree := t.tree[p := c]));
  }

  /** So can a run of overflow pages that goes back to the reclaimed list. */
  lemma HeadAndBack(s: State, t: Txn, lo: Pgno, n: nat, image: map<Pgno, Content>)
    requires RunsTxn(s, t) && t.hasHead && n > 0 && forall p :: lo <= p < lo + n ==> p in t.tree
    requires (forall p :: lo <= p < lo + n ==> p in t.dirty) || (forall p :: lo <= p < lo + n ==> p in t.spilled)
    requires forall p :: p in image <==> lo <= p < lo + n
    ensures Leads(s, [Work(ToHead(lo, n)), Work(Alloc(FromHead(lo, n), image))],
                  s.(writer := Writing(t.(tree := t.tree + image, dirty := t.dirty + image.Keys,
                                          spilled := t.spilled - image.Keys))))
  {
    hide Inv, Enabled, Apply, Leads, NextKey, Distributes, SaveTxn;
    RunsTxnParts(s, t);
    var pages := Range(lo, n);
    hide Range;
    assert image.Keys == pages;
    assert t.tree - pages + image == t.tree + image && t.pghead + pages - pages == t.pghead;
    assert t.dirty - pages + pages == t.dirty + pages && t.spilled - pages - pages == t.spilled - pages;
    var t1 := t.(tree := t.tree - pages, pghead := t.pghead + pages, dirty := t.dirty - pages,
                 spilled := t.spilled - pages);
    TwoWorks(s, t, ToHead(lo, n), t1, Alloc(FromHead(lo, n), image),
             t.(tree := t.tree + image, dirty := t.dirty + image.Keys, spilled := t.spilled - image.Keys));
  }

  lemma CanModify(s: State, t: Txn, p: Pgno, c: Content)
    requires s.writer == Writing(t) && t.phase.Running? && p in t.tree && p in t.dirty
    ensures Enabled(s, Work(Modify(p, c)))
  {
  }

  /** `mdb_page_touch`: any page of the tree can be copied to a new one and freed. The copy can
      be changed. */
  lemma CopyOnWrite(s: State, t: Txn, p: Pgno, c: Content)
    requires RunsTxn(s, t) && p in t.tree
    ensures var copy, free := Work(Alloc(FromMap(1), map[t.next := t.tree[p]])), Work(ToFreed(p));
      var t' := t.(tree := t.tree[t.next := t.tree[p]] - {p}, dirty := t.dirty + {t.next},
                   spilled := t.spilled - {t.next}, freed := t.freed + {p}, next := t.next + 1);
      && Leads(s, [copy, free], s.(writer := Writing(t')))
      && Enabled(s.(writer := Writing(t')), Work(Modify(t.next, c)))
  {
    hide Inv, Enabled, Apply, Leads, NextKey, Distributes, SaveTxn;
    RunsTxnParts(s, t);
    var image := map[t.next := t.tree[p]];
    assert Range(t.next, 1) == {t.next} == image.Keys && t.tree + image == t.tree[t.next := t.tree[p]];
    var t1 := t.(tree := t.tree + image, dirty := t.dirty + {t.next}, spilled := t.spilled - {t.next},
                 next := t.next + 1);
    var t2 := t1.(tree := t1.tree - {p}, freed := t.freed + {p});
    TwoWorks(s, t, Alloc(FromMap(1), image), t1, ToFreed(p), t2);
    CanModify(s.(writer := Writing(t2)), t2, t.next, c);
  }

  ghost predicate NotWritten(w: Writer, p: Pgno) { w.Writing? && !w.txn.phase.Running? && p !in w.txn.dirty }

  lemma NotWrittenStep(s: State, a: Action, p: Pgno)
    requires Enabled(s, a) && NotWritten(s.writer, p) && Apply(s, a).writer.Writing?
    ensures NotWritten(Apply(s, a).writer, p) && Get(Apply(s, a).cache, p) == Get(s.cache, p)
  {
    hide ReaderStep, Current, SnapshotOf;
  }

  /** Pages the transaction gave up again are not written when it commits. */
  lemma {:induction false} LooseNotWritten(run: seq<State>, acts: seq<Action>, i: nat, n: nat, kept: FreeDb, p: Pgno)
    requires IsRun(run, acts) && i < n < |run| && acts[i] == Work(Save(kept))
    requires run[i].writer.Writing? && p in run[i].writer.txn.loose
    requires forall k :: i < k <= n ==> run[k].writer.Writing?
    ensures NotWritten(run[n].writer, p) && Get(run[n].cache, p) == Get(run[i].cache, p)
    decreases n
  {
    hide NotWritten, Get, SavedDb, Distributes;
    assert Enabled(run[n - 1], acts[n - 1]) && run[n] == Apply(run[n - 1], acts[n - 1]);
    if n == i + 1 {
      SaveDrops(run[i], run[i].writer.txn, kept, p);
    } else {
      hide Enabled, Apply;
      LooseNotWritten(run, acts, i, n - 1, kept, p);
      NotWrittenStep(run[n - 1], acts[n - 1], p);
    }
  }

  lemma SaveDrops(s: State, t: Txn, kept: FreeDb, p: Pgno)
    requires s.writer == Writing(t) && Enabled(s, Work(Save(kept))) && p in t.loose
    ensures NotWritten(Apply(s, Work(Save(kept))).writer, p) && Apply(s, Work(Save(kept))).cache == s.cache
  {
    hide SavedDb, Distributes;
  }

  // --- Commit ----------------------------------------------------------------------

  /** A running transaction can save its free list. */
  lemma CanSave(s: State, t: Txn) returns (kept: FreeDb)
    requires s.writer == Writing(t) && t.phase.Running? && Apart(s.writer)
    ensures Enabled(s, Work(Save(kept)))
    ensures Apply(s, Work(Save(kept))) == s.(writer := Writing(SaveTxn(t, kept)))
  {
    kept := if LeftOver(t) == {} then map[] else map[t.pglast := LeftOver(t)];
    assert Distributes(kept, t.pglast, LeftOver(t)) by {
      forall p | p in LeftOver(t) ensures InRecord(kept, 0, p) { assert t.pglast in kept && p in kept[t.pglast]; }
    }
  }

  /** A page that is written shows its contents at once, and is safe in a crash only later. */
  lemma FlushIs(s: State, t: Txn, p: Pgno, c: Content)
    requires s.writer == Writing(t) && t.phase.Saved? && p in t.dirty && (p in t.tree ==> c == t.tree[p])
    ensures Enabled(s, Work(Flush(p, c)))
    ensures Apply(s, Work(Flush(p, c))) == s.(cache := s.cache[p := c], unsynced := s.unsynced + {p},
                                             writer := Writing(t.(dirty := t.dirty - {p})))
  {
  }

  /** Then it can write all its pages, sync and publish. */
  lemma {:induction false} CanFinish(s: State, t: Txn) returns (acts: seq<Action>, end: State)
    requires s.writer == Writing(t) && t.phase.Saved?
    ensures Leads(s, acts, end)
    ensures end.writer.NoWriter? && end.mti == t.id && Current(end) == Meta(t.id, SnapshotOf(t))
    decreases t.dirty
  {
    if t.dirty == {} {
      acts, end := PublishPath(s, t);
    } else {
      var p :| p in t.dirty;
      var c := if p in t.tree then t.tree[p] else 0;
      FlushIs(s, t, p, c);
      hide Enabled, Apply, Current, SnapshotOf;
      var s1 := Apply(s, Work(Flush(p, c)));
      acts, end := CanFinish(s1, t.(dirty := t.dirty - {p}));
      LeadsFirst(s, Work(Flush(p, c)), acts, end);
      acts := [Work(Flush(p, c))] + acts;
      SameSnapshot(t, t.(dirty := t.dirty - {p}));
    }
  }

  lemma SameSnapshot(t: Txn, t': Txn)
    requires t' == t.(dirty := t'.dirty)
    ensures SnapshotOf(t) == SnapshotOf(t')
  {
  }

  lemma PublishPath(s: State, t: Txn) returns (acts: seq<Action>, end: State)
    requires s.writer == Writing(t) && t.phase.Saved? && t.dirty == {}
    ensures Leads(s, acts, end)
    ensures end.writer.NoWriter? && end.mti == t.id && Current(end) == Meta(t.id, SnapshotOf(t))
  {
    var s1 := Apply(s, Sync);
    var s2 := Apply(s1, WriteMeta);
    end := Apply(s2, Publish);
    assert Enabled(s, Sync) && Enabled(s1, WriteMeta) && Enabled(s2, Publish);
    assert Current(end) == Meta(t.id, SnapshotOf(t));
    hide Enabled, Apply, Current;
    assert Leads(end, [], end);
    LeadsFirst(s2, Publish, [], end);
    LeadsFirst(s1, WriteMeta, [Publish] + [], end);
    LeadsFirst(s, Sync, [WriteMeta] + ([Publish] + []), end);
    acts := [Sync] + ([WriteMeta] + ([Publish] + []));
  }

  /** In every run, whatever readers do, a running write transaction can go on to commit: its
      trees become the published snapshot, and the pages it freed are listed under its id. */
  lemma CanCommit(run: seq<State>, acts: seq<Action>, n: nat) returns (more: seq<Action>, end: State)
    requires IsRun(run, acts) && n < |run| && run[n].writer.Writing? && run[n].writer.txn.phase.Running?
    ensures Leads(run[n], more, end)
    ensures end.writer.NoWriter? && end.mti == run[n].writer.txn.id
    ensures Current(end).snap.pages == run[n].writer.txn.tree && Current(end).txnid == end.mti
    ensures forall p :: p in run[n].writer.txn.freed ==>
      end.mti in Current(end).snap.freedb && p in Current(end).snap.freedb[end.mti]
  {
    hide IsRun, Enabled, Apply, Current, Leads;
    ApartAlways(run, acts, n);
    var s, t := run[n], run[n].writer.txn;
    var kept := CanSave(s, t);
    var s1 := Apply(s, Work(Save(kept)));
    more, end := CanFinish(s1, SaveTxn(t, kept));
    LeadsFirst(s, Work(Save(kept)), more, end);
    more := [Work(Save(kept))] + more;
  }

  /** A transaction can always get pages from the end of the file, and any run of pages that
      its reclaimed list has. */
  lemma CanAlloc(s: State, src: Source, image: map<Pgno, Content>)
    requires s.writer.Writing? && s.writer.txn.phase.Running? && image.Keys == TakenFrom(s.writer.txn, src)
    requires match src
      case FromLoose(p) => p in s.writer.txn.loose
      case FromHead(lo, n) => n > 0 && forall p :: lo <= p < lo + n ==> p in s.writer.txn.pghead
      case FromMap(n) => n > 0
    ensures Enabled(s, Work(Alloc(src, image)))
    ensures forall p :: p in TakenFrom(s.writer.txn, src) <==>
      match src
      case FromLoose(q) => p == q
      case FromHead(lo, n) => lo <= p < lo + n
      case FromMap(n) => s.writer.txn.next <= p < s.writer.txn.next + n
  {
  }

  /** The machine can stop at any time; the meta page may have got to the disk exactly if its
      write could have begun, and then it is the current one afterwards. */
  lemma CrashAnytime(s: State, disk: map<Pgno, Content>)
    requires Inv(s)
    requires forall p :: p in s.cache && p !in s.unsynced ==> p in disk && disk[p] == s.cache[p]
    ensures Enabled(s, Crash(disk, false)) && (Enabled(s, Crash(disk, true)) <==> InPhase(s, Synced))
    ensures !Pending(s.writer) ==> Current(Apply(s, Crash(disk, false))) == Current(s)
    ensures InPhase(s, Synced) ==> var t := s.writer.txn;
      Current(Apply(s, Crash(disk, true))) == Meta(t.id, SnapshotOf(t))
  {
    hide SharedOk, OwnedOk, TreeOk, Conserved, SavedOk, RunningOk, Live;
    if InPhase(s, Synced) { PutMetaMetas(s, s.writer.txn); }
  }

  /** Transaction N writes meta page N % 2 and leaves the other one alone. */
  lemma MetaPageWritten(s: State)
    requires Enabled(s, WriteMeta)
    ensures var t, s' := s.writer.txn, Apply(s, WriteMeta);
      var m := Meta(t.id, SnapshotOf(t));
      if t.id % 2 == 0 then s'.meta0 == m && s'.meta1 == s.meta1 else s'.meta1 == m && s'.meta0 == s.meta0
  {
  }

  // --- Abort and death -------------------------------------------------------------------------------

  /** Until the meta page is written, a running transaction changes neither meta page. */
  ghost predicate SameMetas(s: State, w: State) {
    && w.writer.Writing? && w.mti == s.mti
    && (w.writer.txn.phase.MetaWritten? || (w.meta0 == s.meta0 && w.meta1 == s.meta1))
  }

  lemma BeginSame(s: State, a: Action)
    requires Enabled(s, a) && a.Begin?
    ensures SameMetas(s, Apply(s, a))
  {
    hide Current;
  }

  lemma SameMetasStep(s: State, w: State, a: Action)
    requires SameMetas(s, w) && Enabled(w, a) && Apply(w, a).writer.Writing?
    ensures SameMetas(s, Apply(w, a))
  {
    hide ReaderStep, Current, SnapshotOf, SavedDb;
  }

  lemma {:induction false} SameMetasOn(run: seq<State>, acts: seq<Action>, i: nat, n: nat)
    requires IsRun(run, acts) && i < n < |run| && acts[i].Begin?
    requires forall k :: i < k <= n ==> run[k].writer.Writing?
    ensures SameMetas(run[i], run[n])
    decreases n
  {
    hide Enabled, Apply, SameMetas;
    assert Enabled(run[n - 1], acts[n - 1]) && run[n] == Apply(run[n - 1], acts[n - 1]);
    if n == i + 1 {
      BeginSame(run[i], acts[i]);
    } else {
      SameMetasOn(run, acts, i, n - 1);
      SameMetasStep(run[i], run[n - 1], acts[n - 1]);
    }
  }

  /** An aborted transaction leaves no trace: whatever it did, afterwards both meta pages and
      the published id are those it began with, and the cache shows that snapshot. */
  lemma AbortUndoes(run: seq<State>, acts: seq<Action>, i: nat, n: nat)
    requires IsRun(run, acts) && i < n < |acts| && acts[i].Begin? && acts[n] == Abort
    requires forall k :: i < k <= n ==> run[k].writer.Writing?
    ensures var was, now := run[i], run[n + 1];
      && now.writer.NoWriter? && now.mti == was.mti && now.meta0 == was.meta0 && now.meta1 == was.meta1
      && Intact(now.cache, Current(was))
  {
    SameMetasOn(run, acts, i, n);
    RunInv(run, acts, n + 1);
    CurrentIntact(run[n + 1]);
    hide Inv, Intact;
    assert Enabled(run[n], acts[n]) && run[n + 1] == Apply(run[n], acts[n]);
  }

  /** A transaction can begin whenever there is none, and be aborted until its meta page is
      written. */
  lemma BeginAndAbort(s: State, env: nat)
    ensures s.writer.NoWriter? ==> Leads(s, [Begin(env), Abort], s)
    ensures s.writer.Writing? && !s.writer.txn.phase.MetaWritten? ==> Enabled(s, Abort)
  {
    if s.writer.NoWriter? { LeadsTwo(s, Begin(env), Abort); }
  }

  /** A writer can die at any time, and the next one recovers: the transaction has happened
      exactly if its meta page was written. */
  lemma DeathAndRecovery(s: State, t: Txn)
    requires Inv(s) && s.writer == Writing(t)
    ensures Leads(s, [WriterDies, Recover],
                  s.(mti := if t.phase.MetaWritten? then t.id else s.mti, writer := NoWriter))
    ensures t.id == s.mti + 1
  {
    hide SharedOk, OwnedOk, TreeOk, ConservedTxn, RunningOk, SavedOk, Live, SnapshotOf;
    LeadsTwo(s, WriterDies, Recover);
  }
}
