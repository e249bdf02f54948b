/**
 The state-list loop of `internal_dfa_exec`: at every subject position the active
 states are worked through, more of them are added on the way, and the states for the
 next character are collected.
 */
module PcreDfa {
  import opened PcrePaths

  const ERROR_NOMATCH := -1
  const ERROR_DFA_UITEM := -16
  const ERROR_DFA_WSSIZE := -19

  // --- Recording matches -------------------------------------------------------------------------

  /** match_count after the match ends `ends` were found, with room for `cap` pairs. */
  function MatchCount(n: nat, cap: nat): int { if n == 0 then ERROR_NOMATCH else if n <= cap then n else 0 }

  function Min(a: nat, b: nat): nat { if a < b then a else b }

  /** The vector holds the last matches found, the longest first. */
  ghost predicate Recorded(offsets: seq<int>, cap: nat, from: nat, ends: seq<nat>) {
    && 2 * cap <= |offsets|
    && forall k :: 0 <= k < Min(|ends|, cap) ==> offsets[2 * k] == from && offsets[2 * k + 1] == ends[|ends| - 1 - k]
  }

  /** Saves a match that ends at `ptr`, shifting up the previous ones. */
  method Save(offsets: array<int>, offsetcount: nat, matchCount: int, from: nat, ptr: nat,
          ghost ends: seq<nat>) returns (count: int)
    requires offsetcount % 2 == 0 && offsetcount <= offsets.Length
    requires matchCount == MatchCount(|ends|, offsetcount / 2) && Recorded(offsets[..], offsetcount / 2, from, ends)
    modifies offsets
    ensures count == if 2 * (|ends| + 1) <= offsetcount then |ends| + 1 else 0
    ensures count == MatchCount(|ends| + 1, offsetcount / 2)
    ensures Recorded(offsets[..], offsetcount / 2, from, ends + [ptr])
  {
    count := matchCount;
    if count < 0 {
      count := if offsetcount >= 2 then 1 else 0;
    } else if count > 0 {
      count := count + 1;
      if count * 2 > offsetcount { count := 0; }
    }
    var len := (if count == 0 then offsetcount else count * 2) - 2;
    ghost var was := offsets[..];
    if len > 0 { ShiftUp(offsets, len); }
    if offsetcount >= 2 {
      offsets[0] := from;
      offsets[1] := ptr;
    }
    Shifted(was, offsets[..], offsetcount / 2, from, ends, ptr, len);
  }

  /** Moves `len` entries up by two. */
  method ShiftUp(a: array<int>, len: nat)
    requires len + 2 <= a.Length
    modifies a
    ensures forall k {:trigger a[k]} :: 2 <= k < len + 2 ==> a[k] == old(a[k - 2])
    ensures forall k :: 0 <= k < 2 || len + 2 <= k < a.Length ==> a[k] == old(a[k])
  {
    var i := len;
    while i > 0
      invariant 0 <= i <= len
      invariant forall k {:trigger a[k]} :: i + 2 <= k < len + 2 ==> a[k] == old(a[k - 2])
      invariant forall k {:trigger a[k]} :: 0 <= k < i + 2 || len + 2 <= k < a.Length ==> a[k] == old(a[k])
    {
      i := i - 1;
      a[i + 2] := a[i];
    }
  }

  lemma Shifted(was: seq<int>, now: seq<int>, cap: nat, from: nat, ends: seq<nat>, ptr: nat, len: int)
    requires |was| == |now| && Recorded(was, cap, from, ends)
    requires len == 2 * Min(|ends| + 1, cap) - 2
    requires cap > 0 ==> now[0] == from && now[1] == ptr
    requires forall k :: 2 <= k < len + 2 ==> now[k] == was[k - 2]
    ensures Recorded(now, cap, from, ends + [ptr])
  {
    var more := ends + [ptr];
    forall k | 0 <= k < Min(|more|, cap) ensures now[2 * k] == from && now[2 * k + 1] == more[|more| - 1 - k] {
      if k > 0 {
        assert now[2 * k] == was[2 * (k - 1)] && now[2 * k + 1] == was[2 * (k - 1) + 1];
      }
    }
  }

  // --- Working through the active states --------------------------------------------------------

  predicate IsCounted(op: Instr) { op.Plus? || op.Upto? || op.Exact? }

  /** Only counted items have a count. */
  predicate CountOk(code: Code, s: State) { s.count > 0 ==> IsCounted(At(code, s.offset)) }

  function NewAt(p: Search, pos: nat, s: State): seq<State> {
    if pos < |p.subject| then New(p.code, s, p.subject[pos]) else []
  }

  ghost predicate AllReach(p: Search, pos: nat, list: seq<State>)
    requires p.Ok()
  {
    forall s :: s in list ==> Reachable(p, Config(pos, s)) && CountOk(p.code, s)
  }

  /** The first `i` active states are done: what they lead to is in the lists. */
  ghost predicate Done(p: Search, pos: nat, act: seq<State>, next: seq<State>, i: nat)
    requires p.Ok()
  {
    && i <= |act|
    && (forall j, t :: 0 <= j < i && t in Active(p.code, p.end, act[j]) ==> t in act)
    && (forall j, t :: 0 <= j < i && t in NewAt(p, pos, act[j]) ==> t in next)
  }

  lemma NewCounts(code: Code, s: State, c: char)
    ensures forall t :: t in New(code, s, c) ==> CountOk(code, t)
  {
  }

  lemma ReachMore(p: Search, pos: nat, s: State)
    requires p.Ok() && Reachable(p, Config(pos, s))
    ensures AllReach(p, pos, Active(p.code, p.end, s)) && AllReach(p, pos + 1, NewAt(p, pos, s))
  {
    hide Reachable, Linked, Active, New;
    forall t | t in Active(p.code, p.end, s) ensures Reachable(p, Config(pos, t)) && CountOk(p.code, t) {
      ReachStep(p, Config(pos, s), Config(pos, t));
    }
    forall t | t in NewAt(p, pos, s) ensures Reachable(p, Config(pos + 1, t)) && CountOk(p.code, t) {
      NewCounts(p.code, s, p.subject[pos]);
      ReachStep(p, Config(pos, s), Config(pos + 1, t));
    }
  }

  lemma DoneStep(p: Search, pos: nat, act: seq<State>, next: seq<State>, i: nat)
    requires p.Ok() && Done(p, pos, act, next, i) && i < |act| && AllReach(p, pos, act) && AllReach(p, pos + 1, next)
    ensures var act', next' := act + Active(p.code, p.end, act[i]), next + NewAt(p, pos, act[i]);
      Done(p, pos, act', next', i + 1) && AllReach(p, pos, act') && AllReach(p, pos + 1, next')
  {
    hide Reachable, Linked, Active, NewAt, CountOk;
    assert act[i] in act;
    ReachMore(p, pos, act[i]);
  }

  lemma DoneAgain(p: Search, pos: nat, act: seq<State>, next: seq<State>, i: nat, j: nat)
    requires p.Ok() && Done(p, pos, act, next, i) && j < i < |act| && act[i] == act[j]
    ensures Done(p, pos, act, next, i + 1)
  {
  }

  lemma AllDone(p: Search, pos: nat, act: seq<State>, next: seq<State>)
    requires p.Ok() && Done(p, pos, act, next, |act|)
    ensures Closed(p.code, p.end, act)
    ensures if pos < |p.subject| then Follows(p.code, act, p.subject[pos], next) else true
  {
  }

  /** Looks for an earlier state that is the same. */
  method IsDuplicate(act: seq<State>, i: nat) returns (dup: bool, ghost at: nat)
    requires i < |act|
    ensures dup ==> at < i && act[at] == act[i]
    ensures !dup ==> act[i] !in act[..i]
  {
    var j := 0;
    at := 0;
    while j < i
      invariant 0 <= j <= i && act[i] !in act[..j]
    {
      if act[j].offset == act[i].offset && act[j].count == act[i].count { return true, j; }
      assert act[..j + 1] == act[..j] + [act[j]];
      j := j + 1;
    }
    return false, 0;
  }

  ghost predicate Distinct(d: seq<State>) { forall i, j :: 0 <= i < j < |d| ==> d[i] != d[j] }

  /** How many states those in `d` lead to without reading. */
  ghost function ActiveSum(p: Search, d: seq<State>): nat
    requires p.Ok()
  {
    if d == [] then 0 else ActiveSum(p, d[..|d| - 1]) + |Active(p.code, p.end, d[|d| - 1])|
  }

  /** The states `d`, worked on at position `pos`, are different and reachable; the lists
      are no longer than these say. */
  ghost predicate Worked(p: Search, pos: nat, first: seq<State>, act: seq<State>, next: seq<State>, i: nat,
          d: seq<State>)
    requires p.Ok() && i <= |act|
  {
    && Distinct(d) && AllReach(p, pos, d) && (forall s :: s in d ==> s in act[..i])
    && |act| == |first| + ActiveSum(p, d) && |next| <= |d|
  }

  lemma {:induction false} WorkedMore(p: Search, pos: nat, first: seq<State>, act: seq<State>, next: seq<State>,
          i: nat, d: seq<State>)
    requires p.Ok() && i < |act| && Worked(p, pos, first, act, next, i, d) && act[i] !in act[..i]
    requires AllReach(p, pos, act)
    ensures var d', act', next' := d + [act[i]], act + Active(p.code, p.end, act[i]), next + NewAt(p, pos, act[i]);
      Worked(p, pos, first, act', next', i + 1, d')
  {
    hide Reachable, Linked, Active, CountOk;
    var s := act[i];
    assert s in act;
    var d', act' := d + [s], act + Active(p.code, p.end, s);
    assert d'[..|d'| - 1] == d;
    assert act'[..i + 1] == act[..i] + [s];
    assert forall j :: 0 <= j < |d| ==> d[j] in d;
    NewAtMostOne(p, pos, s);
  }

  lemma NewAtMostOne(p: Search, pos: nat, s: State)
    ensures |NewAt(p, pos, s)| <= 1
  {
  }

  lemma WorkedAgain(p: Search, pos: nat, first: seq<State>, act: seq<State>, next: seq<State>, i: nat, d: seq<State>)
    requires p.Ok() && i < |act| && Worked(p, pos, first, act, next, i, d)
    ensures Worked(p, pos, first, act, next, i + 1, d)
  {
  }

  /** The workspace is too small for the states that are reachable: those before, those
      that `d` leads to, or `d` itself. */
  ghost predicate Crowded(p: Search, pos: nat, before: nat, d: seq<State>, wscount: nat)
    requires p.Ok()
  {
    Distinct(d) && AllReach(p, pos, d) && (before + ActiveSum(p, d) > wscount || |d| > wscount)
  }

  ghost predicate Unsupported(p: Search, c: Config)
    requires p.Ok()
  {
    Reachable(p, c) && At(p.code, c.s.offset).Operand?
  }

  /** An opcode that is not supported can be reached. */
  ghost predicate HasUnsupported(p: Search)
    requires p.Ok()
  {
    exists c :: Unsupported(p, c)
  }

  ghost predicate Supported(code: Code, list: seq<State>) { forall s :: s in list ==> !At(code, s.offset).Operand? }

  /** One subject position: `first` are the states to begin with. */
  method Scan(p: Search, pos: nat, first: seq<State>, wscount: nat,
      offsets: array<int>, offsetcount: nat, matchCount: int, ghost ends: seq<nat>)
    returns (rc: int, act: seq<State>, next: seq<State>, count: int, ghost matched: bool, ghost d: seq<State>)
    requires p.Ok() && p.end < |p.code| && p.code[p.end].Ket? && AllReach(p, pos, first) && |first| <= wscount
    requires offsetcount % 2 == 0 && offsetcount <= offsets.Length
    requires matchCount == MatchCount(|ends|, offsetcount / 2) && Recorded(offsets[..], offsetcount / 2, p.from, ends)
    modifies offsets
    ensures rc == 0 || rc == ERROR_DFA_UITEM || rc == ERROR_DFA_WSSIZE
    ensures rc == ERROR_DFA_UITEM ==> HasUnsupported(p)
    ensures rc == 0 ==> Supported(p.code, act)
    ensures rc == ERROR_DFA_WSSIZE ==> Crowded(p, pos, |first|, d, wscount)
    ensures rc == 0 ==> Distinct(d) && AllReach(p, pos, d) && |next| <= |d|
    ensures rc == 0 ==>
        first <= act && Done(p, pos, act, next, |act|) && AllReach(p, pos, act) && AllReach(p, pos + 1, next)
    ensures rc == 0 ==> (pos >= |p.subject| ==> next == []) && |next| <= wscount
    ensures rc == 0 ==> (matched <==> State(p.end, 0) in act)
    ensures rc == 0 ==> var e := ends + EndHere(p, act, pos);
      count == MatchCount(|e|, offsetcount / 2) && Recorded(offsets[..], offsetcount / 2, p.from, e)
  {
    hide Reachable, Linked, Done, Active, New, Recorded, MatchCount, AllReach, Worked, Crowded,
      Supported, HasUnsupported;
    rc, act, next, count, matched, d := 0, first, [], matchCount, false, [];
    NoStateYet(p.code, act);
    DoneNone(p, pos, first);
    WorkedNone(p, pos, first);
    var i := 0;
    while i < |act|
      invariant 0 <= i <= |act| <= wscount && |next| <= wscount && first <= act && rc == 0
      invariant Done(p, pos, act, next, i) && AllReach(p, pos, act) && AllReach(p, pos + 1, next)
      invariant Worked(p, pos, first, act, next, i, d)
      invariant pos >= |p.subject| ==> next == []
      invariant matched <==> State(p.end, 0) in act[..i]
      invariant Supported(p.code, act[..i])
      invariant count == MatchCount(if matched then |ends| + 1 else |ends|, offsetcount / 2)
      invariant Recorded(offsets[..], offsetcount / 2, p.from, if matched then ends + [pos] else ends)
      decreases wscount - i
    {
      var dup, at := IsDuplicate(act, i);
      assert act[..i + 1] == act[..i] + [act[i]];
      if dup {
        DoneAgain(p, pos, act, next, i, at);
        WorkedAgain(p, pos, first, act, next, i, d);
        SupportedAgain(p.code, act, i);
      } else {
        var s := act[i];
        OneCount(p, pos, act, i);
        if At(p.code, s.offset).Operand? {
          IsUnsupported(p, pos, act, s);
          return ERROR_DFA_UITEM, act, next, count, matched, d;
        }
        SupportedNext(p.code, act, i);
        WorkedMore(p, pos, first, act, next, i, d);
        d := d + [s];
        if s.offset == p.end {
          count := Save(offsets, offsetcount, count, p.from, pos, ends);
          matched := true;
        }
        var a, n := Active(p.code, p.end, s), NewAt(p, pos, s);
        if |act| + |a| > wscount || |next| + |n| > wscount {
          TooMany(p, pos, first, act + a, next + n, i + 1, d, wscount);
          return ERROR_DFA_WSSIZE, act, next, count, matched, d;
        }
        DoneStep(p, pos, act, next, i);
        ghost var was := act;
        act, next := act + a, next + n;
        assert act[..i + 1] == was[..i + 1];
      }
      i := i + 1;
    }
    assert act[..i] == act;
    assert !matched ==> ends + [] == ends;
    WorkedIs(p, pos, first, act, next, i, d);
  }

  lemma WorkedNone(p: Search, pos: nat, first: seq<State>)
    requires p.Ok()
    ensures Worked(p, pos, first, first, [], 0, [])
  {
  }

  lemma WorkedIs(p: Search, pos: nat, first: seq<State>, act: seq<State>, next: seq<State>, i: nat, d: seq<State>)
    requires p.Ok() && i <= |act| && Worked(p, pos, first, act, next, i, d)
    ensures Distinct(d) && AllReach(p, pos, d) && |next| <= |d| && |act| == |first| + ActiveSum(p, d)
  {
  }

  lemma TooMany(p: Search, pos: nat, first: seq<State>, act: seq<State>, next: seq<State>, i: nat, d: seq<State>,
          wscount: nat)
    requires p.Ok() && i <= |act| && Worked(p, pos, first, act, next, i, d) && (|act| > wscount || |next| > wscount)
    ensures Crowded(p, pos, |first|, d, wscount)
  {
  }

  lemma DoneNone(p: Search, pos: nat, first: seq<State>)
    requires p.Ok()
    ensures Done(p, pos, first, [], 0) && AllReach(p, pos + 1, [])
  {
  }

  /** The end of the pattern has no count, so it is the same state each time. */
  lemma OneCount(p: Search, pos: nat, act: seq<State>, i: nat)
    requires p.Ok() && AllReach(p, pos, act) && i < |act| && p.end < |p.code| && p.code[p.end].Ket?
    ensures act[i].offset == p.end <==> act[i] == State(p.end, 0)
    ensures Reachable(p, Config(pos, act[i]))
  {
    hide Reachable, Linked;
    var s := act[i];
    assert s in act;
    assert Reachable(p, Config(pos, s)) && CountOk(p.code, s);
  }

  // --- The subject ---------------------------------------------------------------------------------

  function EndHere(p: Search, layer: seq<State>, pos: nat): (r: seq<nat>)
    ensures r == [] || r == [pos]
  {
    if State(p.end, 0) in layer then [pos] else []
  }

  /** The positions, in order, of the layers that have the end of the pattern. */
  ghost function EndsOf(p: Search, layers: seq<seq<State>>): seq<nat> {
    if layers == [] then []
    else EndsOf(p, layers[..|layers| - 1]) + EndHere(p, layers[|layers| - 1], p.from + |layers| - 1)
  }

  lemma {:induction false} EndsMore(p: Search, layers: seq<seq<State>>, layer: seq<State>)
    ensures EndsOf(p, layers + [layer]) == EndsOf(p, layers) + EndHere(p, layer, p.from + |layers|)
  {
  }

  lemma {:induction false} EndsInOrder(p: Search, layers: seq<seq<State>>)
    ensures forall i :: 0 <= i < |EndsOf(p, layers)| ==> EndsOf(p, layers)[i] < p.from + |layers|
    ensures forall i, j :: 0 <= i < j < |EndsOf(p, layers)| ==> EndsOf(p, layers)[i] < EndsOf(p, layers)[j]
  {
    hide EndHere;
    if layers != [] {
      var rest := layers[..|layers| - 1];
      EndsInOrder(p, rest);
      var e, h := EndsOf(p, rest), EndHere(p, layers[|layers| - 1], p.from + |layers| - 1);
      assert EndsOf(p, layers) == e + h;
    }
  }

  lemma {:induction false} EndsHave(p: Search, layers: seq<seq<State>>, x: nat)
    ensures x in EndsOf(p, layers) <==> InLayers(p, layers, Config(x, State(p.end, 0)))
  {
    if layers != [] {
      var rest := layers[..|layers| - 1];
      EndsHave(p, rest, x);
      assert EndsOf(p, layers) == EndsOf(p, rest) + EndHere(p, layers[|layers| - 1], p.from + |rest|);
      assert p.from <= x < p.from + |rest| ==> rest[x - p.from] == layers[x - p.from];
    }
  }

  /** The layers so far, and the states for the position after them. */
  ghost predicate SoFar(p: Search, layers: seq<seq<State>>, next: seq<State>)
    requires p.Ok()
  {
    && AllReach(p, p.from + |layers|, next) && p.from + |layers| <= |p.subject|
    && if layers == [] then next == p.first
       else Layers(p, layers) && Follows(p.code, layers[|layers| - 1], p.subject[p.from + |layers| - 1], next)
  }

  lemma LayerMore(p: Search, layers: seq<seq<State>>, first: seq<State>, act: seq<State>, next: seq<State>)
    requires p.Ok() && SoFar(p, layers, first) && first <= act
    requires Done(p, p.from + |layers|, act, next, |act|) && AllReach(p, p.from + |layers|, act)
    ensures Layers(p, layers + [act])
    ensures next == [] ==> Stuck(p, layers + [act])
    ensures p.from + |layers| < |p.subject| ==> Follows(p.code, act, p.subject[p.from + |layers|], next)
  {
    hide Reachable, Linked, Active, New;
    var l, n := layers + [act], |layers|;
    AllDone(p, p.from + n, act, next);
    assert forall s :: s in first ==> s in act;
    forall k | 0 <= k < |l| ensures Layer(p, l, k) {
      if k < n { assert Layer(p, layers, k); }
    }
  }

  /** `internal_dfa_exec` for the outermost bracket: unless it stops with an error, the
      match ends it has found are all there are, and the vector has the longest. */
  method Exec(code: Code, subject: seq<char>, from: nat, offsets: array<int>, offsetcount: nat, wscount: nat)
    returns (rc: int, ghost ends: seq<nat>)
    requires Linked(code) && code != [] && IsBra(code[0]) && from <= |subject|
    requires offsetcount <= offsets.Length
    modifies offsets
    ensures var p := Search(code, KetOf(code, 0), subject, Branches(code, 0), from);
      if rc == ERROR_DFA_UITEM then HasUnsupported(p)
      else if rc == ERROR_DFA_WSSIZE then ShortOfSpace(p, wscount)
      else
        && !HasUnsupported(p)
        && rc == (if ends == [] then ERROR_NOMATCH else if 2 * |ends| <= offsetcount then |ends| else 0)
        && (forall k :: 0 <= k < |ends| && 2 * k + 1 < offsetcount ==>
              offsets[2 * k] == from && offsets[2 * k + 1] == ends[|ends| - 1 - k])
        && (forall i, j :: 0 <= i < j < |ends| ==> ends[i] < ends[j])
        && (forall x: nat :: x in ends <==> Reachable(p, Config(x, State(p.end, 0))))
  {
    hide Reachable, Linked, Done, Active, New, Recorded, AllReach, SoFar, EndsOf, Layers, Stuck, Follows,
      HasUnsupported, Crowded, ShortOfSpace, Distinct, Supported, AllSupported;
    ends := [];
    var p := Search(code, KetOf(code, 0), subject, Branches(code, 0), from);
    if |p.first| > wscount {
      NoSpaceToStart(p, wscount);
      return ERROR_DFA_WSSIZE, ends;
    }
    ghost var prev: seq<State> := [];
    var count, next, ptr := ERROR_NOMATCH, p.first, from;
    ghost var layers := [];
    var pairs := offsetcount - offsetcount % 2;
    Start(p, offsets[..], pairs / 2);
    NoneYet(p);
    while true
      invariant ptr == from + |layers| <= |subject| && |next| <= wscount
      invariant SoFar(p, layers, next) && ends == EndsOf(p, layers) && AllSupported(p, layers)
      invariant if layers == [] then next == p.first
          else Distinct(prev) && AllReach(p, ptr - 1, prev) && |next| <= |prev|
      invariant count == MatchCount(|ends|, pairs / 2) && Recorded(offsets[..], pairs / 2, from, ends)
      decreases |subject| - ptr
    {
      ghost var matched;
      var err, act;
      ghost var first := next;
      SoFarReach(p, layers, first);
      ghost var d;
      err, act, next, count, matched, d := Scan(p, ptr, next, wscount, offsets, pairs, count, ends);
      if err != 0 {
        if err == ERROR_DFA_WSSIZE { NoSpace(p, ptr, prev, d, |first|, wscount); }
        return err, ends;
      }
      prev := d;
      LayerMore(p, layers, first, act, next);
      SupportedMore(p, layers, act);
      EndsMore(p, layers, act);
      ends := ends + EndHere(p, act, ptr);
      layers := layers + [act];
      if next == [] { break; }
      SoFarMore(p, layers, next);
      ptr := ptr + 1;
    }
    AllEnds(p, layers);
    NoneUnsupported(p, layers);
    RecordedIs(offsets[..], offsetcount, from, ends);
    rc := count;
  }

  lemma RecordedIs(offsets: seq<int>, offsetcount: nat, from: nat, ends: seq<nat>)
    requires Recorded(offsets, offsetcount / 2, from, ends) && offsetcount <= |offsets|
    ensures forall k :: 0 <= k < |ends| && 2 * k + 1 < offsetcount ==>
      offsets[2 * k] == from && offsets[2 * k + 1] == ends[|ends| - 1 - k]
  {
  }

  ghost predicate AllSupported(p: Search, layers: seq<seq<State>>) {
    forall k :: 0 <= k < |layers| ==> Supported(p.code, layers[k])
  }

  lemma NoStateYet(code: Code, act: seq<State>)
    ensures Supported(code, act[..0])
  {
  }

  lemma SupportedNext(code: Code, act: seq<State>, i: nat)
    requires i < |act| && Supported(code, act[..i]) && !At(code, act[i].offset).Operand?
    ensures Supported(code, act[..i + 1])
  {
    assert act[..i + 1] == act[..i] + [act[i]];
  }

  lemma SupportedAgain(code: Code, act: seq<State>, i: nat)
    requires i < |act| && Supported(code, act[..i]) && act[i] in act[..i]
    ensures Supported(code, act[..i + 1])
  {
    assert act[..i + 1] == act[..i] + [act[i]];
  }

  lemma IsUnsupported(p: Search, pos: nat, act: seq<State>, s: State)
    requires p.Ok() && AllReach(p, pos, act) && s in act && At(p.code, s.offset).Operand?
    ensures HasUnsupported(p)
  {
    assert Unsupported(p, Config(pos, s));
  }

  lemma NoneYet(p: Search)
    ensures AllSupported(p, [])
  {
  }

  lemma SupportedMore(p: Search, layers: seq<seq<State>>, act: seq<State>)
    requires AllSupported(p, layers) && Supported(p.code, act)
    ensures AllSupported(p, layers + [act])
  {
    hide Supported;
  }

  lemma NoneUnsupported(p: Search, layers: seq<seq<State>>)
    requires p.Ok() && Layers(p, layers) && Stuck(p, layers) && AllSupported(p, layers)
    ensures !HasUnsupported(p)
  {
    hide Reachable, Linked, Layers, Stuck;
    forall c ensures !Unsupported(p, c) {
      LayersComplete(p, layers, c);
      if InLayers(p, layers, c) { assert Supported(p.code, layers[c.pos - p.from]); }
    }
  }

  /** There are too many reachable states for the workspace at position `pos`, `prev`
      being different states reachable at the position before. */
  ghost predicate OutOfSpace(p: Search, pos: nat, prev: seq<State>, d: seq<State>, wscount: nat)
    requires p.Ok()
  {
    && p.from <= pos && Crowded(p, pos, if pos == p.from then |p.first| else |prev|, d, wscount)
    && (pos > p.from ==> Distinct(prev) && AllReach(p, pos - 1, prev))
  }

  ghost predicate ShortOfSpace(p: Search, wscount: nat)
    requires p.Ok()
  {
    exists pos: nat, prev, d :: OutOfSpace(p, pos, prev, d, wscount)
  }

  lemma NoSpaceToStart(p: Search, wscount: nat)
    requires p.Ok() && |p.first| > wscount
    ensures ShortOfSpace(p, wscount)
  {
    assert OutOfSpace(p, p.from, [], [], wscount);
  }

  lemma NoSpace(p: Search, pos: nat, prev: seq<State>, d: seq<State>, before: nat, wscount: nat)
    requires p.Ok() && p.from <= pos && Crowded(p, pos, before, d, wscount)
    requires if pos == p.from then before == |p.first|
        else before <= |prev| && Distinct(prev) && AllReach(p, pos - 1, prev)
    ensures ShortOfSpace(p, wscount)
  {
    hide AllReach, ActiveSum, Distinct;
    assert OutOfSpace(p, pos, prev, d, wscount);
  }

  lemma Start(p: Search, offsets: seq<int>, cap: nat)
    requires p.Ok() && 2 * cap <= |offsets| && (forall i :: 0 <= i < |p.first| ==> p.first[i].count == 0)
    ensures SoFar(p, [], p.first) && EndsOf(p, []) == [] && Recorded(offsets, cap, p.from, [])
  {
    forall s | s in p.first ensures Reachable(p, Config(p.from, s)) && CountOk(p.code, s) {
      ReachFirst(p, s);
    }
  }

  lemma SoFarReach(p: Search, layers: seq<seq<State>>, next: seq<State>)
    requires p.Ok() && SoFar(p, layers, next)
    ensures AllReach(p, p.from + |layers|, next)
  {
  }

  lemma SoFarMore(p: Search, layers: seq<seq<State>>, next: seq<State>)
    requires p.Ok() && layers != [] && Layers(p, layers) && p.from + |layers| <= |p.subject|
    requires AllReach(p, p.from + |layers|, next)
    requires Follows(p.code, layers[|layers| - 1], p.subject[p.from + |layers| - 1], next)
    ensures SoFar(p, layers, next)
  {
  }

  lemma AllEnds(p: Search, layers: seq<seq<State>>)
    requires p.Ok() && Layers(p, layers) && layers != [] && Stuck(p, layers)
    ensures var ends := EndsOf(p, layers);
      && (forall i, j :: 0 <= i < j < |ends| ==> ends[i] < ends[j])
      && forall x: nat :: x in ends <==> Reachable(p, Config(x, State(p.end, 0)))
  {
    hide Reachable, Layers, Stuck, Linked, EndsOf;
    EndsInOrder(p, layers);
    forall x: nat ensures x in EndsOf(p, layers) <==> Reachable(p, Config(x, State(p.end, 0))) {
      LayersComplete(p, layers, Config(x, State(p.end, 0)));
      EndsHave(p, layers, x);
    }
  }
}
