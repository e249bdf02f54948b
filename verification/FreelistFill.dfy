/**
 `mdb_freelist_save`: records of the free-page database are reserved for the page
 numbers in me_pghead, and then filled with slices of that list.
 */
module FreelistFill {
  import opened IdSort
  import opened IdList
  import PageAlloc
  import Mvcc

  /** Loose pages are dirty, so there are at most MDB_IDL_UM_MAX of them. */
  const MAX_LOOSE := 0x1FFFF

  /** A record: its key, the number of page numbers there is room for, and those in it. */
  datatype Record = Record(id: nat, room: nat, pages: seq<Id>)

  function Room(recs: seq<Record>): nat { if recs == [] then 0 else recs[0].room + Room(recs[1..]) }

  /** The page numbers in the records, those with the largest keys first. */
  function Pages(recs: seq<Record>): seq<Id> { if recs == [] then [] else Pages(recs[1..]) + recs[0].pages }

  ghost predicate Ascending(recs: seq<Record>) {
    && (forall i :: 0 <= i < |recs| ==> recs[i].id > 0)
    && forall i, j :: 0 <= i < j < |recs| ==> recs[i].id < recs[j].id
  }

  ghost predicate Has(recs: seq<Record>, id: nat) { exists i :: 0 <= i < |recs| && recs[i].id == id }

  /** The first `n` records are reserved and empty, the others have keys above `last`. */
  ghost predicate Reserved(recs: seq<Record>, n: nat, last: nat) {
    && n <= |recs|
    && (forall i :: 0 <= i < n ==> recs[i].pages == [] && recs[i].id <= last)
    && forall i :: n <= i < |recs| ==> recs[i].id > last
  }

  ghost predicate AllUpTo(recs: seq<Record>, last: nat) { forall i :: 0 <= i < |recs| ==> recs[i].id <= last }

  /** `rest` are the records of `was` with keys above `last`. */
  ghost predicate Unread(rest: seq<Record>, was: seq<Record>, last: nat) {
    && (exists k :: 0 <= k <= |was| && rest == was[k..] && AllUpTo(was[..k], last))
    && forall i :: 0 <= i < |rest| ==> rest[i].id > last
  }

  /** The head record, if there is one already, is the first. */
  ghost predicate Head(recs: seq<Record>, n: nat, id: nat, room: nat) {
    n <= |recs| && if n > 0 && recs[0].id == id then recs[0].room == room else room == 0 && (n > 0 ==> id < recs[0].id)
  }

  class Saver {
    const maxfree: nat
    var recs: seq<Record>
    var mePglast: nat
    var pglast: nat
    var headId: nat
    var headRoom: nat
    var totalRoom: nat
    var more: int
    ghost var n: nat

    ghost predicate Valid()
      reads this
    {
      && Ascending(recs) && Reserved(recs, n, pglast) && Head(recs, n, headId, headRoom)
      && totalRoom == Room(recs[..n])
      && headId <= pglast <= mePglast && (headId == 0 ==> pglast == 0)
      && (pglast < mePglast ==> Has(recs, mePglast))
    }

    constructor (recs: seq<Record>, mePglast: nat, maxfree: nat)
      requires Ascending(recs) && (mePglast > 0 ==> Has(recs, mePglast))
      ensures Valid() && this.recs == recs && this.mePglast == mePglast && pglast == 0
    {
      this.maxfree := maxfree;
      this.recs, this.mePglast := recs, mePglast;
      pglast, headId, headRoom, totalRoom, more, n := 0, 0, 0, 0, 1, 0;
    }

    /** A put during the save made `mdb_page_alloc` read the next record, number `i`: its
        pages, in `idl`, join the reclaimed ones in `mop`. */
    method ReadNext(i: nat, mop: array?<Id>, idl: array<Id>) returns (ok: bool, r: array?<Id>)
      requires Valid() && i < |recs| && mePglast < recs[i].id && (i > 0 ==> recs[i - 1].id <= mePglast)
      requires Holds(idl, 0) && ListAt(idl[..], 0) == recs[i].pages && Strict(recs[i].pages)
      requires idl[0] < PageAlloc.TWO32 && idl != mop
      requires mop != null ==>
          Holds(mop, 0) && Strict(ListAt(mop[..], 0)) && PageAlloc.Separate(ListAt(mop[..], 0), recs[i].pages)
      requires mop != null ==> mop[0] as int + idl[0] <= MAX_ID
      modifies this`mePglast, mop
      ensures Valid() && mePglast == recs[i].id
      ensures ok <==> if mop == null then idl[0] <= MAX_INT - 2
                      else PageAlloc.CanGrow(old(mop[0]) as int + idl[0], mop.Length)
      ensures ok ==> r != null && Holds(r, 0) && Strict(ListAt(r[..], 0))
      ensures ok ==> var head := if mop == null then [] else old(ListAt(mop[..], 0));
        forall x :: x in ListAt(r[..], 0) <==> x in head || x in recs[i].pages
    {
      hide Strict;
      mePglast := recs[i].id;
      assert Has(recs, mePglast);
      ok, r := PageAlloc.FetchRecord(mop, idl);
    }

    /** Deletes the records that were read, and with them any that were reserved. */
    method DeleteUsed()
      requires Valid()
      modifies this
      ensures Valid() && pglast == mePglast == old(mePglast) && more == old(more)
      ensures old(pglast) == mePglast ==> recs == old(recs) && totalRoom == old(totalRoom)
      ensures old(pglast) < mePglast ==>
          totalRoom == 0 && n == 0 && forall i :: 0 <= i < |recs| ==> recs[i].id > mePglast
      ensures exists k :: 0 <= k <= |old(recs)| && recs == old(recs)[k..] && AllUpTo(old(recs)[..k], mePglast)
      ensures n <= |recs| && Unread(recs[n..], old(recs), mePglast)
    {
      hide Ascending, Reserved, Head, Has, Room, AllUpTo, Unread;
      ghost var k := 0;
      NoneUsed(recs, mePglast);
      assert old(recs)[0..] == old(recs);
      while pglast < mePglast
        invariant Valid() && mePglast == old(mePglast) && more == old(more)
        invariant 0 <= k <= |old(recs)| && recs == old(recs)[k..]
        invariant AllUpTo(old(recs)[..k], mePglast)
        invariant k == 0 ==> totalRoom == old(totalRoom) && pglast == old(pglast)
        invariant k > 0 ==> totalRoom == 0 && n == 0 && old(pglast) < mePglast
        decreases |recs|
      {
        FirstUsed(recs, mePglast);
        pglast, headId := recs[0].id, recs[0].id;
        totalRoom, headRoom := 0, 0;
        OneMore(old(recs), k, mePglast);
        recs := recs[1..];
        n, k := 0, k + 1;
      }
      NoneReserved(recs, n, pglast);
      StillUnread(recs, old(recs), n, mePglast, k);
    }

    /** One turn of the loop that reserves records: it is done when there is room for all
        `mopLen` page numbers, or once more after that. */
    method ReserveStep(mopLen: nat) returns (done: bool)
      requires Valid() && pglast == mePglast && (mopLen > 0 ==> headId > 0)
      modifies this
      ensures Valid() && pglast == mePglast == old(mePglast)
      ensures done <==> old(totalRoom) == mopLen || (old(totalRoom) > mopLen && old(more) <= 0)
      ensures done ==> totalRoom >= mopLen && recs == old(recs) && n == old(n)
      ensures !done ==> n > 0 && recs[0] == Record(headId, headRoom, [])
      ensures !done ==>
          headId == if old(totalRoom) < mopLen && old(headRoom) >= maxfree && old(headId) > 1
                    then old(headId) - 1 else old(headId)
      ensures !done ==> RoomFor(mopLen - (totalRoom - headRoom), maxfree, headId, headRoom)
      ensures !done ==>
          recs[1..] == old(recs) || (old(n) > 0 && old(recs)[0].id == headId && recs[1..] == old(recs)[1..])
      ensures recs[n..] == old(recs[n..])
      ensures n <= |recs| && (!done ==> headRoom <= totalRoom && headId > 0)
      ensures !done ==> more == if old(totalRoom) > mopLen then old(more) - 1 else old(more)
    {
      hide Ascending, Reserved, Head, Has, Room, RoomFor;
      HeadRoom(recs, n, headId, headRoom, pglast);
      if totalRoom >= mopLen {
        if totalRoom == mopLen { return true; }
        more := more - 1;
        if more < 0 { return true; }
      } else if headRoom >= maxfree && headId > 1 {
        HeadBelow(recs, n, headId, headRoom);
        headId := headId - 1;
        headRoom := 0;
      }
      totalRoom := totalRoom - headRoom;
      var room := ChooseRoom(mopLen - totalRoom, maxfree, headId);
      PutHead(recs, n, headId, headRoom, room, pglast, mePglast);
      if recs != [] && recs[0].id == headId {
        recs := [Record(headId, room, [])] + recs[1..];
      } else {
        recs := [Record(headId, room, [])] + recs;
        n := n + 1;
      }
      headRoom := room;
      totalRoom := totalRoom + room;
      done := false;
    }

    /** The loop that reserves records, when the list does not change meanwhile: it ends. */
    method Reserve(mopLen: nat)
      requires Valid() && pglast == mePglast && (mopLen > 0 ==> headId > 0)
      modifies this
      ensures Valid() && pglast == mePglast == old(mePglast)
      ensures totalRoom >= mopLen && n <= |recs| && old(n) <= |old(recs)| && recs[n..] == old(recs[n..])
    {
      hide Ascending, Head, Has, Room, RoomFor;
      var done := false;
      while !done
        invariant Valid() && pglast == mePglast == old(mePglast) && (mopLen > 0 ==> headId > 0)
        invariant (done ==> totalRoom >= mopLen) && n <= |recs| && recs[n..] == old(recs[n..])
        decreases !done, if more < 0 then 0 else more + 1, headId, Short(totalRoom, mopLen, headRoom, maxfree, headId)
      {
        done := ReserveStep(mopLen);
        if !done { RoomGrows(mopLen, totalRoom, headRoom, maxfree, headId); }
      }
    }

    /** `mdb_freelist_save` as a whole, for the reclaimed list in `mop` and the loose pages:
        the pages of both end up in records as the protocol demands of a save, and the
        records that were not read stay. Not `ok` if the list's buffer cannot grow. */
    method Save(mop: array?<Id>, loose: seq<Id>) returns (ok: bool)
      requires Valid() && (mop == null <==> mePglast == 0)
      requires mop != null ==> Holds(mop, 0) && Strict(ListAt(mop[..], 0)) && mop.Length <= MAX_ID
      requires PageAlloc.Distinct(loose) && |loose| <= MAX_LOOSE
      requires mop != null ==> PageAlloc.Separate(ListAt(mop[..], 0), loose)
      modifies this, mop
      ensures ok <==> mop == null || loose == []
                      || PageAlloc.CanGrow(old(mop[0]) as int + 2 * |loose| + 1, mop.Length)
      ensures ok ==> mePglast == old(mePglast) && n <= |recs| && Ascending(recs[..n])
      ensures ok ==> Mvcc.Distributes(Kept(recs[..n]), mePglast,
        if mop == null then {} else PageSet(old(ListAt(mop[..], 0))) + PageSet(loose))
      ensures ok ==> Unread(recs[n..], old(recs), mePglast)
    {
      hide Ascending, Reserved, Head, Has, Room, Strict, Kept, PageSet, AllUpTo, Unread, PageAlloc.CanGrow,
        PageAlloc.Distinct, PageAlloc.Separate, Mvcc.Distributes;
      ghost var s: seq<Id> := if mop == null then [] else ListAt(mop[..], 0);
      DeleteUsed();
      if mop == null {
        Reserve(0);
        NoneKept(recs, n);
        return true;
      }
      Reserve(mop[0] as int + |loose|);
      var list: array<Id>;
      ok, list := PageAlloc.GatherLoose(mop, loose);
      if ok {
        PageSetUnion(s, loose, ListAt(list[..], 0));
        FillKept(list);
      }
    }

    /** Filling, as the protocol sees it. */
    method FillKept(mop: array<Id>)
      requires Valid() && pglast == mePglast && Holds(mop, 0) && totalRoom >= mop[0] && Strict(ListAt(mop[..], 0))
      modifies this`recs, mop
      ensures n <= |recs| && Ascending(recs[..n]) && n <= |old(recs)| && recs[n..] == old(recs)[n..]
      ensures Mvcc.Distributes(Kept(recs[..n]), mePglast, PageSet(old(ListAt(mop[..], 0))))
    {
      hide Ascending, Reserved, Head, Has, Room, Filled, Strict, Kept, PageSet, ListAt, Mvcc.Distributes;
      ghost var list := ListAt(mop[..], 0);
      Fill(mop);
      FilledDistributes(recs, old(recs), n, mePglast, list);
      FilledRest(recs, old(recs), n, list);
    }

    /** Fills the reserved records with the list in `mop`, smallest page numbers first;
        slot 0 of each slice is its length only while the slice is written. */
    method Fill(mop: array<Id>)
      requires Valid() && pglast == mePglast && Holds(mop, 0) && totalRoom >= mop[0]
      modifies this`recs, mop
      ensures mop[..] == old(mop[..])
      ensures Filled(recs, old(recs), n, ListAt(old(mop[..]), 0))
    {
      hide Ascending, Head, Has, Room, Filling, Filled, Pages, ListAt;
      ghost var was, list, all := recs, ListAt(mop[..], 0), mop[..];
      var p := mop[0];
      SliceOf(all, 0, 0);
      FillStart(was, n, pglast, list);
      var i := 0;
      while i < |recs| && p > 0
        invariant 0 <= i <= n && 0 <= p <= |list| && mop[..] == all
        invariant Filling(recs, was, n, i, list, p)
        decreases |recs| - i
      {
        FillingRoom(recs, was, n, i, list, p);
        assert recs[i].id <= mePglast;
        var len := recs[i].room;
        if len > p { len := p; }
        var base := p - len;
        var pages := Slice(mop, base, len);
        SliceOf(all, base, len);
        FillStep(recs, was, n, i, list, p, Record(recs[i].id, len, pages));
        recs := recs[i := Record(recs[i].id, len, pages)];
        p := base;
        i := i + 1;
      }
      if p > 0 { FillingRoom(recs, was, n, i, list, p); }
      FillEnd(recs, was, n, i, list);
    }
  }

  /** The IDs after slot `base`, written with their number in that slot for a moment. */
  method Slice(mop: array<Id>, base: nat, len: Id) returns (pages: seq<Id>)
    requires base + len < mop.Length
    modifies mop
    ensures mop[..] == old(mop[..]) && pages == old(mop[..])[base + 1..base + 1 + len]
  {
    var save := mop[base];
    mop[base] := len;
    pages := ListAt(mop[..], base);
    mop[base] := save;
  }

  lemma SliceOf(a: seq<Id>, base: nat, len: nat)
    requires 0 < |a| && a[0] < |a| && base + len <= a[0]
    ensures |ListAt(a, 0)| == a[0] && a[base + 1..base + 1 + len] == ListAt(a, 0)[base..base + len]
  {
    var x, y := a[base + 1..base + 1 + len], ListAt(a, 0)[base..base + len];
    forall k | 0 <= k < |x| ensures x[k] == y[k] {
      assert x[k] == a[base + 1 + k] && y[k] == ListAt(a, 0)[base + k];
    }
    assert |x| == |y|;
  }

  /** Records before `i` hold the list from `p` on, the others are as they were. */
  ghost predicate Filling(recs: seq<Record>, was: seq<Record>, n: nat, i: nat, list: seq<Id>, p: nat) {
    && i <= n <= |recs| == |was| && p <= |list|
    && (forall j :: i <= j < |recs| ==> recs[j] == was[j])
    && (forall j :: i <= j < n ==> was[j].pages == [])
    && (forall j :: 0 <= j < i ==> recs[j].id == was[j].id && |recs[j].pages| == recs[j].room <= was[j].room)
    && Pages(recs[..i]) == list[p..]
    && Room(was[i..n]) >= p
  }

  /** Every page number is in exactly one of the first `n` records, in slices of the
      list; the records have the keys they had, and the others are unchanged. */
  ghost predicate Filled(recs: seq<Record>, was: seq<Record>, n: nat, list: seq<Id>) {
    && n <= |recs| == |was| && Pages(recs[..n]) == list && recs[n..] == was[n..]
    && (forall j :: 0 <= j < |recs| ==> recs[j].id == was[j].id)
    && forall j :: 0 <= j < n ==> |recs[j].pages| <= recs[j].room <= was[j].room
  }

  lemma FillStart(was: seq<Record>, n: nat, last: nat, list: seq<Id>)
    requires Reserved(was, n, last) && Room(was[..n]) >= |list|
    ensures Filling(was, was, n, 0, list, |list|)
  {
  }

  lemma FillingRoom(recs: seq<Record>, was: seq<Record>, n: nat, i: nat, list: seq<Id>, p: nat)
    requires Filling(recs, was, n, i, list, p) && p > 0
    ensures i < n <= |recs| == |was| && recs[i] == was[i]
  {
  }

  lemma FillStep(recs: seq<Record>, was: seq<Record>, n: nat, i: nat, list: seq<Id>, p: nat, r: Record)
    requires Filling(recs, was, n, i, list, p) && i < n && p > 0
    requires var len := if was[i].room < p then was[i].room else p; r == Record(was[i].id, len, list[p - len..p])
    ensures Filling(recs[i := r], was, n, i + 1, list, p - r.room)
  {
    hide Pages;
    var recs' := recs[i := r];
    assert recs'[..i + 1] == recs[..i] + [r];
    PagesConcat(recs[..i], [r]);
    PagesOne(r);
    assert list[p - r.room..] == list[p - r.room..p] + list[p..];
    assert was[i..n][1..] == was[i + 1..n] && was[i..n][0] == was[i];
  }

  lemma FillEnd(recs: seq<Record>, was: seq<Record>, n: nat, i: nat, list: seq<Id>)
    requires Filling(recs, was, n, i, list, 0)
    ensures Filled(recs, was, n, list)
  {
    hide Pages;
    assert recs[..n] == recs[..i] + recs[i..n];
    PagesConcat(recs[..i], recs[i..n]);
    assert forall j :: 0 <= j < n - i ==> recs[i..n][j] == was[i + j];
    PagesEmpty(recs[i..n]);
    assert list[0..] == list;
    assert recs[n..] == was[n..];
  }

  /** The room of a record when `need` page numbers are left: all of them if they fit on a
      page or no key is left below, otherwise an equal share. */
  ghost predicate RoomFor(need: int, maxfree: nat, id: nat, room: nat) {
    if need > maxfree && id > 1 then Spread(need, maxfree, id, room) else room == if need < 0 then 0 else need
  }

  /** An equal share for each key, rounded up so that with the length word it fills whole pages. */
  ghost predicate Spread(need: int, maxfree: nat, id: nat, room: int)
    requires id > 0
  {
    && room + 1 == (maxfree + 1) * (need / id / (maxfree + 1) + 1)
    && need / id <= room <= need / id + maxfree
  }

  /** There is not room enough and the head record is small: 1, otherwise 0. */
  function Short(total: nat, mopLen: nat, room: nat, maxfree: nat, id: nat): nat {
    if total < mopLen && !(room >= maxfree && id > 1) then 1 else 0
  }

  /** After each turn there is room for all, or the head record has at least a page. */
  lemma RoomGrows(mopLen: nat, total: nat, room: nat, maxfree: nat, id: nat)
    requires room <= total && RoomFor(mopLen - (total - room), maxfree, id, room)
    ensures Short(total, mopLen, room, maxfree, id) == 0
  {
    var need := mopLen - (total - room);
    if need > maxfree && id > 1 { ShareGrows(maxfree, need / id); }
  }

  lemma ShareGrows(maxfree: nat, share: nat)
    ensures (maxfree + 1) * (share / (maxfree + 1) + 1) >= maxfree + 1
  {
    var q := share / (maxfree + 1);
    assert (maxfree + 1) * (q + 1) == (maxfree + 1) * q + (maxfree + 1);
  }

  method ChooseRoom(need: int, maxfree: nat, id: nat) returns (room: nat)
    ensures RoomFor(need, maxfree, id, room)
  {
    if need > maxfree && id > 1 {
      var share := need / id;
      assert share == (maxfree + 1) * (share / (maxfree + 1)) + share % (maxfree + 1);
      assert (maxfree + 1) * (share / (maxfree + 1) + 1) == (maxfree + 1) * (share / (maxfree + 1)) + (maxfree + 1);
      room := share + (maxfree - share % (maxfree + 1));
    } else if need < 0 {
      room := 0;
    } else {
      room := need;
    }
  }

  /** The room of the head record is part of the total. */
  lemma HeadRoom(recs: seq<Record>, n: nat, id: nat, room: nat, last: nat)
    requires Ascending(recs) && Reserved(recs, n, last) && Head(recs, n, id, room) && id <= last
    requires (id == 0 ==> last == 0)
    ensures n <= |recs| && (n > 0 <==> recs != [] && recs[0].id <= last)
    ensures room <= Room(recs[..n]) && (id == 0 ==> n == 0 && Room(recs[..n]) == 0)
  {
  }

  lemma HeadBelow(recs: seq<Record>, n: nat, id: nat, room: nat)
    requires Head(recs, n, id, room) && id > 0
    ensures Head(recs, n, id - 1, 0)
  {
  }

  /** Writing the head record, new or again. */
  lemma PutHead(recs: seq<Record>, n: nat, id: nat, room: nat, room': nat, last: nat, me: nat)
    requires Ascending(recs) && Reserved(recs, n, last) && 0 < id <= last && Head(recs, n, id, room)
    ensures var again := n > 0 && recs[0].id == id;
      var r := [Record(id, room', [])] + (if again then recs[1..] else recs);
      var m := if again then n else n + 1;
      && Ascending(r) && Reserved(r, m, last) && Head(r, m, id, room')
      && Room(r[..m]) == Room(recs[..n]) - room + room' && r[m..] == recs[n..]
      && (Has(recs, me) ==> Has(r, me))
  {
    hide Ascending, Reserved, Has, Room;
    if n > 0 && recs[0].id == id {
      PopHead(recs, n, last, me);
      PushHead(recs[1..], n - 1, id, room', last, me);
    } else {
      FirstBeyond(recs, n, id, last);
      PushHead(recs, n, id, room', last, me);
    }
  }

  lemma FirstBeyond(recs: seq<Record>, n: nat, id: nat, last: nat)
    requires Reserved(recs, n, last) && id <= last && (n > 0 ==> id < recs[0].id)
    ensures recs != [] ==> id < recs[0].id
  {
  }

  lemma PushHead(rest: seq<Record>, m: nat, id: nat, room: nat, last: nat, me: nat)
    requires Ascending(rest) && Reserved(rest, m, last) && 0 < id <= last && (rest != [] ==> id < rest[0].id)
    ensures var r := [Record(id, room, [])] + rest;
      && Ascending(r) && Reserved(r, m + 1, last) && Head(r, m + 1, id, room)
      && Room(r[..m + 1]) == Room(rest[..m]) + room
      && (Has(rest, me) || me == id ==> Has(r, me))
  {
    var r := [Record(id, room, [])] + rest;
    assert r[..m + 1][1..] == rest[..m];
    assert forall i :: 0 < i < |r| ==> r[i] == rest[i - 1];
    if Has(rest, me) {
      var i :| 0 <= i < |rest| && rest[i].id == me;
      assert r[i + 1].id == me;
    }
    if me == id { assert r[0].id == me; }
  }

  lemma PopHead(recs: seq<Record>, n: nat, last: nat, me: nat)
    requires Ascending(recs) && Reserved(recs, n, last) && n > 0
    ensures Ascending(recs[1..]) && Reserved(recs[1..], n - 1, last) && (|recs| > 1 ==> recs[0].id < recs[1..][0].id)
    ensures Room(recs[..n]) == recs[0].room + Room(recs[1..][..n - 1])
    ensures Has(recs, me) ==> me == recs[0].id || Has(recs[1..], me)
  {
    assert recs[..n][1..] == recs[1..][..n - 1] && recs[..n][0] == recs[0];
    if Has(recs, me) && me != recs[0].id {
      var i :| 0 <= i < |recs| && recs[i].id == me;
      assert recs[1..][i - 1].id == me;
    }
  }

  // --- Filling the records -------------------------------------------------------------------------

  lemma {:induction false} PagesConcat(a: seq<Record>, b: seq<Record>)
    ensures Pages(a + b) == Pages(b) + Pages(a)
  {
    if a == [] {
      assert a + b == b;
    } else {
      PagesConcat(a[1..], b);
      assert (a + b)[1..] == a[1..] + b && (a + b)[0] == a[0];
      assert Pages(a + b) == Pages(a[1..] + b) + a[0].pages;
    }
  }

  lemma {:induction false} PagesEmpty(a: seq<Record>)
    requires forall i :: 0 <= i < |a| ==> a[i].pages == []
    ensures Pages(a) == []
  {
    if a != [] { PagesEmpty(a[1..]); }
  }

  lemma PagesOne(r: Record)
    ensures Pages([r]) == r.pages
  {
  }

  /** Deleting the first record. */
  lemma FirstUsed(recs: seq<Record>, last: nat)
    requires Ascending(recs) && Has(recs, last)
    ensures recs != [] && 0 < recs[0].id <= last && Ascending(recs[1..]) && Reserved(recs[1..], 0, recs[0].id)
    ensures Head(recs[1..], 0, recs[0].id, 0) && Room(recs[1..][..0]) == 0
    ensures recs[0].id < last ==> Has(recs[1..], last)
  {
  }

  lemma NoneUsed(recs: seq<Record>, last: nat)
    ensures AllUpTo(recs[..0], last)
  {
  }

  lemma OneMore(recs: seq<Record>, k: nat, last: nat)
    requires k < |recs| && AllUpTo(recs[..k], last) && recs[k].id <= last
    ensures AllUpTo(recs[..k + 1], last) && recs[k..][1..] == recs[k + 1..]
  {
    assert recs[..k + 1] == recs[..k] + [recs[k]];
  }

  lemma NoneReserved(recs: seq<Record>, n: nat, last: nat)
    requires Reserved(recs, n, last)
    ensures n == 0 ==> forall i :: 0 <= i < |recs| ==> recs[i].id > last
  {
  }

  // --- What the protocol needs -----------------------------------------------------------------

  ghost function PageSet(s: seq<Id>): set<Mvcc.Pgno> { set i | 0 <= i < |s| :: s[i] as nat }

  /** The records as the protocol sees them. */
  ghost function Kept(recs: seq<Record>): Mvcc.FreeDb
    requires Ascending(recs)
  {
    map i | 0 <= i < |recs| :: recs[i].id := PageSet(recs[i].pages)
  }

  lemma {:induction false} PagesHave(recs: seq<Record>, p: Id)
    ensures p in Pages(recs) <==> exists i :: 0 <= i < |recs| && p in recs[i].pages
  {
    if recs != [] {
      PagesHave(recs[1..], p);
      assert p in Pages(recs) <==> p in Pages(recs[1..]) || p in recs[0].pages;
      forall i | 0 <= i < |recs| && p in recs[i].pages ensures p in Pages(recs) {
        if i > 0 { assert recs[1..][i - 1] == recs[i]; }
      }
      if p in Pages(recs[1..]) {
        var i :| 0 <= i < |recs[1..]| && p in recs[1..][i].pages;
        assert recs[i + 1] == recs[1..][i];
      }
    }
  }

  /** In a list without repetition no page is in two records. */
  lemma {:induction false} PagesApart(recs: seq<Record>, j: nat, k: nat, p: Id)
    requires Strict(Pages(recs)) && j < k < |recs| && p in recs[j].pages
    ensures p !in recs[k].pages
  {
    var rest, first := Pages(recs[1..]), recs[0].pages;
    assert Pages(recs) == rest + first;
    StrictParts(rest, first);
    if j > 0 {
      assert recs[1..][j - 1] == recs[j] && recs[1..][k - 1] == recs[k];
      PagesApart(recs[1..], j - 1, k - 1, p);
    } else {
      PagesHave(recs[1..], p);
      assert recs[1..][k - 1] == recs[k];
    }
  }

  lemma StrictParts(a: seq<Id>, b: seq<Id>)
    requires Strict(a + b)
    ensures Strict(a) && forall p :: p in b ==> p !in a
  {
    var s := a + b;
    forall x, y | 0 <= x < y < |a| ensures a[x] > a[y] { assert s[x] == a[x] && s[y] == a[y]; }
    forall p | p in b ensures p !in a {
      var y :| 0 <= y < |b| && b[y] == p;
      forall x | 0 <= x < |a| ensures a[x] != p { assert s[x] == a[x] && s[|a| + y] == p; }
    }
  }

  lemma RecordWithin(recs: seq<Record>, i: nat)
    requires i < |recs|
    ensures PageSet(recs[i].pages) <= PageSet(Pages(recs))
  {
    hide Pages;
    forall p | p in PageSet(recs[i].pages) ensures p in PageSet(Pages(recs)) {
      var x :| 0 <= x < |recs[i].pages| && recs[i].pages[x] == p;
      PagesHave(recs, recs[i].pages[x]);
    }
  }

  lemma PageKept(recs: seq<Record>, p: Mvcc.Pgno)
    requires Ascending(recs) && p in PageSet(Pages(recs))
    ensures Mvcc.InRecord(Kept(recs), 0, p)
  {
    hide Pages;
    var x :| 0 <= x < |Pages(recs)| && Pages(recs)[x] == p;
    PagesHave(recs, Pages(recs)[x]);
    var i :| 0 <= i < |recs| && Pages(recs)[x] in recs[i].pages;
    assert recs[i].id in Kept(recs) && p in Kept(recs)[recs[i].id];
  }

  lemma KeptAt(recs: seq<Record>, k: Mvcc.Txnid) returns (i: nat)
    requires Ascending(recs) && k in Kept(recs)
    ensures i < |recs| && recs[i].id == k && Kept(recs)[k] == PageSet(recs[i].pages)
  {
    i :| i < |recs| && recs[i].id == k;
  }

  lemma KeptDistributes(recs: seq<Record>, last: nat)
    requires Ascending(recs) && AllUpTo(recs, last) && Strict(Pages(recs))
    ensures Mvcc.Distributes(Kept(recs), last, PageSet(Pages(recs)))
  {
    hide Kept, PageSet, Pages, Strict, Mvcc.InRecord;
    var kept := Kept(recs);
    forall k | k in kept ensures 1 <= k <= last && kept[k] <= PageSet(Pages(recs)) {
      var i := KeptAt(recs, k);
      RecordWithin(recs, i);
    }
    forall j, k | j in kept && k in kept && j != k ensures kept[j] !! kept[k] {
      var x := KeptAt(recs, j);
      var y := KeptAt(recs, k);
      RecordsApart(recs, x, y);
    }
    forall p | p in PageSet(Pages(recs)) ensures Mvcc.InRecord(kept, 0, p) { PageKept(recs, p); }
  }

  /** Filling is what the protocol takes for granted of a save: the reclaimed pages are
      distributed over records with keys from 1 to me_pglast, each in one of them. */
  lemma FilledDistributes(recs: seq<Record>, was: seq<Record>, n: nat, last: nat, list: seq<Id>)
    requires Ascending(was) && Reserved(was, n, last) && Filled(recs, was, n, list) && Strict(list)
    ensures Ascending(recs[..n]) && Mvcc.Distributes(Kept(recs[..n]), last, PageSet(list))
  {
    hide Kept, PageSet, Strict, Pages, Mvcc.Distributes;
    assert forall j :: 0 <= j < n ==> recs[..n][j].id == was[j].id;
    KeptDistributes(recs[..n], last);
  }

  lemma FilledRest(recs: seq<Record>, was: seq<Record>, n: nat, list: seq<Id>)
    requires Filled(recs, was, n, list)
    ensures n <= |recs| == |was| && recs[n..] == was[n..]
  {
  }

  lemma PageSetUnion(s: seq<Id>, t: seq<Id>, r: seq<Id>)
    requires forall x :: x in r <==> x in s || x in t
    ensures PageSet(r) == PageSet(s) + PageSet(t)
  {
    forall p ensures p in PageSet(r) <==> p in PageSet(s) + PageSet(t) {
      InPageSet(r, p);
      InPageSet(s, p);
      InPageSet(t, p);
    }
  }

  lemma InPageSet(s: seq<Id>, p: Mvcc.Pgno)
    ensures p in PageSet(s) <==> p <= MAX_ID && p in s
  {
    if p <= MAX_ID && p in s { var i :| 0 <= i < |s| && s[i] == p; }
  }

  /** What is left of the records after those that were used. */
  lemma StillUnread(recs: seq<Record>, was: seq<Record>, n: nat, last: nat, k: nat)
    requires Reserved(recs, n, last) && k <= |was| && recs == was[k..] && AllUpTo(was[..k], last)
    ensures n <= |recs| && Unread(recs[n..], was, last)
  {
    assert recs[n..] == was[k + n..];
    forall i | 0 <= i < k + n ensures was[i].id <= last {
      if i < k { assert was[..k][i] == was[i]; } else { assert recs[i - k] == was[i]; }
    }
    assert AllUpTo(was[..k + n], last);
  }

  /** With nothing read there are no records to keep. */
  lemma NoneKept(recs: seq<Record>, n: nat)
    requires Ascending(recs) && Reserved(recs, n, 0)
    ensures n == 0 && Ascending(recs[..n]) && Mvcc.Distributes(Kept(recs[..n]), 0, {})
  {
    assert recs == [] || recs[0].id > 0;
  }

  lemma RecordsApart(recs: seq<Record>, x: nat, y: nat)
    requires Strict(Pages(recs)) && x < |recs| && y < |recs| && x != y
    ensures PageSet(recs[x].pages) !! PageSet(recs[y].pages)
  {
    hide Pages, Strict;
    forall p | p in PageSet(recs[x].pages) ensures p !in PageSet(recs[y].pages) {
      var i :| 0 <= i < |recs[x].pages| && recs[x].pages[i] == p;
      if x < y {
        PagesApart(recs, x, y, recs[x].pages[i]);
      } else {
        forall k | 0 <= k < |recs[y].pages| ensures recs[y].pages[k] != p { PagesApart(recs, y, x, recs[y].pages[k]); }
      }
    }
  }
}
