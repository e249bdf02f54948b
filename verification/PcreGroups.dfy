/**
 What a whole pattern means: how expressions with brackets, alternatives and repeated
 groups are laid out in a pattern, and that the texts paths read through it are exactly
 the texts the expression stands for.
 */
module PcreGroups {
  import opened PcrePaths
  import opened PcreItems

  datatype Re =
    | Empty
    | One(op: Instr)
    | Cat(first: Re, rest: Re)
    | Group(capture: bool, zero: bool, again: bool, alts: Alts)

  datatype Alts = Only(re: Re) | Or(re: Re, more: Alts)

  // --- Texts ------------------------------------------------------------------------------------

  /** The texts an expression stands for. A repeated group is one text of the group or
      several in a row, and with `zero` also none. */
  ghost predicate Match(re: Re, cs: seq<char>)
    decreases re, 0
  {
    match re
    case Empty => cs == []
    case One(op) => Matches(op, 0, cs)
    case Cat(a, b) => exists k :: 0 <= k <= |cs| && Match(a, cs[..k]) && Match(b, cs[k..])
    case Group(_, zero, again, alts) =>
      (zero && cs == []) || exists n: nat :: n > 0 && (again || n == 1) && Many(alts, cs, n)
  }

  ghost predicate MatchAlts(alts: Alts, cs: seq<char>)
    decreases alts, 0
  {
    match alts
    case Only(re) => Match(re, cs)
    case Or(re, more) => Match(re, cs) || MatchAlts(more, cs)
  }

  ghost predicate Many(alts: Alts, cs: seq<char>, n: nat)
    decreases alts, n + 1
  {
    if n == 0 then cs == []
    else exists k :: 0 <= k <= |cs| && MatchAlts(alts, cs[..k]) && Many(alts, cs[k..], n - 1)
  }

  // --- Layout -----------------------------------------------------------------------------------

  const HEAD := 1 + LINK_SIZE

  function Width(capture: bool): nat { if capture then HEAD + IMM2_SIZE else HEAD }

  function Size(re: Re): nat {
    match re
    case Empty => 0
    case One(op) => Length(op)
    case Cat(a, b) => Size(a) + Size(b)
    case Group(capture, zero, _, alts) => (if zero then 1 else 0) + Width(capture) + AltsSize(alts) + HEAD
  }

  function AltsSize(alts: Alts): nat {
    match alts
    case Only(re) => Size(re)
    case Or(re, more) => Size(re) + HEAD + AltsSize(more)
  }

  /** Where the bracket of a group at `i` and the end of the group are. */
  function Bracket(re: Re, i: nat): nat
    requires re.Group?
  {
    if re.zero then i + 1 else i
  }

  function EndOf(re: Re, i: nat): nat
    requires re.Group?
  {
    Bracket(re, i) + Width(re.capture) + AltsSize(re.alts)
  }

  /** Expression `re` is at offset `i` of the pattern. */
  ghost predicate Laid(code: Code, i: nat, re: Re)
    decreases re
  {
    match re
    case Empty => true
    case One(op) => i < |code| && code[i] == op && IsItem(op)
    case Cat(a, b) => Laid(code, i, a) && Laid(code, i + Size(a), b)
    case Group(capture, zero, again, alts) =>
      var o, k := Bracket(re, i), EndOf(re, i);
      && k < |code| && (zero ==> code[i].BraZero?) && (if capture then code[o].CBra? else code[o].Bra?)
      && LaidAlts(code, o, Width(capture), alts, k) && code[k] == Ket(k - o, again)
  }

  /** Alternatives after the head, `w` units wide, at `h`, up to the end at `k`. */
  ghost predicate LaidAlts(code: Code, h: nat, w: nat, alts: Alts, k: nat)
    decreases alts
  {
    && h < |code| && HasLink(code[h]) && w == Width(code[h].CBra?)
    && Laid(code, h + w, alts.re)
    && match alts
       case Only(re) => h + w + Size(re) == k && code[h].link == k - h && k < |code| && code[k].Ket?
       case Or(re, more) =>
         var h' := h + w + Size(re);
         h' < |code| && code[h'].Alt? && code[h].link == h' - h && LaidAlts(code, h', HEAD, more, k)
  }

  /** The offsets of opcodes a path can be at within the expression. */
  ghost function Offsets(re: Re, i: nat): (r: set<nat>)
    ensures forall o :: o in r ==> i <= o < i + Size(re)
    ensures Size(re) > 0 ==> i in r || re.Cat?
  {
    match re
    case Empty => {}
    case One(_) => {i}
    case Cat(a, b) => Offsets(a, i) + Offsets(b, i + Size(a))
    case Group(capture, zero, _, alts) =>
      {i, Bracket(re, i), EndOf(re, i)} + AltsOffsets(alts, Bracket(re, i) + Width(capture))
  }

  /** Alternatives whose first one starts at `i`. */
  ghost function AltsOffsets(alts: Alts, i: nat): (r: set<nat>)
    ensures forall o :: o in r ==> i <= o < i + AltsSize(alts)
  {
    match alts
    case Only(re) => Offsets(re, i)
    case Or(re, more) => Offsets(re, i) + {i + Size(re)} + AltsOffsets(more, i + Size(re) + HEAD)
  }

  lemma {:induction false} StartIn(re: Re, i: nat)
    ensures i in Offsets(re, i) || Size(re) == 0
  {
    if re.Cat? {
      StartIn(re.first, i);
      StartIn(re.rest, i + Size(re.first));
    }
  }

  lemma NonePart(i: nat)
    ensures Offsets(Empty, i) == {}
  {
  }

  lemma OnePart(code: Code, re: Re, i: nat)
    requires re.One?
    ensures Offsets(re, i) == {i} && (Laid(code, i, re) <==> i < |code| && code[i] == re.op && IsItem(re.op))
  {
  }

  lemma {:induction false} CatParts(code: Code, re: Re, i: nat)
    requires re.Cat?
    ensures var m := i + Size(re.first);
      && Offsets(re, i) == Offsets(re.first, i) + Offsets(re.rest, m) && m + Size(re.rest) == i + Size(re)
      && m !in Offsets(re.first, i) && i + Size(re) !in Offsets(re, i)
      && (Laid(code, i, re) <==> Laid(code, i, re.first) && Laid(code, m, re.rest))
  {
    CatLaid(code, re, i);
    hide Laid;
  }

  lemma {:induction false} CatLaid(code: Code, re: Re, i: nat)
    requires re.Cat?
    ensures Laid(code, i, re) <==> Laid(code, i, re.first) && Laid(code, i + Size(re.first), re.rest)
  {
    hide Offsets, LaidAlts;
  }

  lemma {:induction false} GroupParts(re: Re, i: nat)
    requires re.Group?
    ensures var o, k := Bracket(re, i), EndOf(re, i);
      var part := AltsOffsets(re.alts, o + Width(re.capture));
      && Offsets(re, i) == {i, o, k} + part && k !in part && i + Size(re) !in Offsets(re, i)
  {
  }

  lemma {:induction false} AltsLaid(code: Code, h: nat, w: nat, alts: Alts, k: nat)
    requires LaidAlts(code, h, w, alts, k)
    ensures h < |code| && HasLink(code[h]) && w == Width(code[h].CBra?) && Laid(code, h + w, alts.re)
    ensures alts.Only? ==> h + w + Size(alts.re) == k < |code| && code[k].Ket? && code[h].link == k - h
    ensures alts.Or? ==> var h' := h + w + Size(alts.re);
      h' < |code| && code[h'].Alt? && code[h].link == h' - h && LaidAlts(code, h', HEAD, alts.more, k)
  {
    hide Laid;
  }

  lemma {:induction false} AltsFirst(alts: Alts, i: nat)
    ensures Offsets(alts.re, i) <= AltsOffsets(alts, i) && (alts.Only? ==> AltsOffsets(alts, i) == Offsets(alts.re, i))
  {
  }

  lemma {:induction false} AltsParts(alts: Alts, i: nat)
    requires alts.Or?
    ensures var m := i + Size(alts.re);
      && AltsOffsets(alts, i) == Offsets(alts.re, i) + {m} + AltsOffsets(alts.more, m + HEAD)
      && m !in Offsets(alts.re, i) && i + AltsSize(alts) !in AltsOffsets(alts, i)
      && i + AltsSize(alts) == m + HEAD + AltsSize(alts.more)
  {
  }

  lemma {:induction false} GroupLaid(code: Code, re: Re, i: nat)
    requires re.Group? && Laid(code, i, re)
    ensures var o, k := Bracket(re, i), EndOf(re, i);
      && o < k < |code| && IsBra(code[o]) && (re.zero ==> code[i].BraZero?) && code[k] == Ket(k - o, re.again)
      && LaidAlts(code, o, Width(re.capture), re.alts, k) && k + HEAD == i + Size(re)
  {
  }

  lemma {:induction false} AltsEnd(code: Code, h: nat, w: nat, alts: Alts, k: nat)
    requires LaidAlts(code, h, w, alts, k)
    ensures k == h + w + AltsSize(alts) < |code| && code[k].Ket?
    decreases alts
  {
    hide Laid;
    if alts.Or? { AltsEnd(code, h + w + Size(alts.re), HEAD, alts.more, k); }
  }

  // --- Runs ---------------------------------------------------------------------------------------

  /** A step from `s` with `cs` to be read leads to `u` with `ds` to be read. */
  predicate Succ(code: Code, end: nat, s: State, cs: seq<char>, u: State, ds: seq<char>)
    requires Linked(code)
  {
    (u in Active(code, end, s) && ds == cs) || (cs != [] && u in New(code, s, cs[0]) && ds == cs[1..])
  }

  /** A run of `n` steps that reads `cs`. */
  ghost predicate Runs(code: Code, end: nat, s: State, cs: seq<char>, t: State, n: nat)
    requires Linked(code)
    decreases n
  {
    if n == 0 then s == t && cs == []
    else exists u, ds :: Succ(code, end, s, cs, u, ds) && Runs(code, end, u, ds, t, n - 1)
  }

  /** A run that stays in a region until it leaves it to `exit`. */
  ghost predicate Within(code: Code, end: nat, region: set<nat>, exit: nat, s: State, cs: seq<char>, n: nat)
    requires Linked(code)
    decreases n
  {
    if s.offset in region then
      n > 0 && exists u, ds :: Succ(code, end, s, cs, u, ds) && Within(code, end, region, exit, u, ds, n - 1)
    else n == 0 && s == State(exit, 0) && cs == []
  }

  /** Steps from offset `o` lead into a region or to `exit`. */
  ghost predicate Goes(code: Code, end: nat, o: nat, region: set<nat>, exit: nat)
    requires Linked(code)
  {
    forall s: State, cs, u: State, ds :: s.offset == o && Succ(code, end, s, cs, u, ds) ==>
      u.offset in region || u == State(exit, 0)
  }

  ghost predicate Confined(code: Code, end: nat, region: set<nat>, exit: nat)
    requires Linked(code)
  {
    forall o :: o in region ==> Goes(code, end, o, region, exit)
  }

  lemma GoesTo(code: Code, end: nat, region: set<nat>, exit: nat, s: State, cs: seq<char>, u: State, ds: seq<char>)
    requires Linked(code) && Confined(code, end, region, exit) && s.offset in region && Succ(code, end, s, cs, u, ds)
    ensures u.offset in region || u == State(exit, 0)
  {
    hide Succ, Linked;
    assert Goes(code, end, s.offset, region, exit);
  }

  /** A smaller region leads no further than a larger one that has its exit. */
  lemma GoesWider(code: Code, end: nat, o: nat, part: set<nat>, e: nat, region: set<nat>, exit: nat)
    requires Linked(code) && Goes(code, end, o, part, e) && part <= region && (e in region || e == exit)
    ensures Goes(code, end, o, region, exit)
  {
    hide Succ, Linked;
  }

  lemma ConfinedUnion(code: Code, end: nat, a: set<nat>, e: nat, b: set<nat>, exit: nat)
    requires Linked(code) && Confined(code, end, a, e) && Confined(code, end, b, exit) && (e in b || e == exit)
    ensures Confined(code, end, a + b, exit)
  {
    hide Goes, Linked;
    forall o | o in a + b ensures Goes(code, end, o, a + b, exit) {
      if o in a { GoesWider(code, end, o, a, e, a + b, exit); } else { GoesWider(code, end, o, b, exit, a + b, exit); }
    }
  }

  lemma {:induction false} RunsConcat(code: Code, end: nat, s: State, cs: seq<char>, t: State, n: nat,
          ds: seq<char>, u: State, m: nat)
    requires Linked(code) && Runs(code, end, s, cs, t, n) && Runs(code, end, t, ds, u, m)
    ensures Runs(code, end, s, cs + ds, u, n + m)
    decreases n
  {
    hide Linked, Active, New;
    if n == 0 {
      assert cs + ds == ds;
    } else {
      var v, rest :| Succ(code, end, s, cs, v, rest) && Runs(code, end, v, rest, t, n - 1);
      RunsConcat(code, end, v, rest, t, n - 1, ds, u, m);
      assert cs != [] ==> (cs + ds)[1..] == cs[1..] + ds;
      assert Succ(code, end, s, cs + ds, v, rest + ds);
    }
  }

  lemma RunStep(code: Code, end: nat, s: State, u: State)
    requires Linked(code) && u in Active(code, end, s)
    ensures Runs(code, end, s, [], u, 1)
  {
    hide Linked, Active, New;
    assert Succ(code, end, s, [], u, []) && Runs(code, end, u, [], u, 0);
  }

  /** A run starts with a stay in any confined part of its region that it starts in. */
  lemma {:induction false} Split(code: Code, end: nat, part: set<nat>, e: nat, region: set<nat>, exit: nat, s: State,
          cs: seq<char>, n: nat) returns (x: nat, m: nat)
    requires Linked(code) && part <= region && Confined(code, end, part, e) && e !in part
    requires Within(code, end, region, exit, s, cs, n) && (s.offset in part || s == State(e, 0))
    ensures x <= |cs| && m <= n && Within(code, end, part, e, s, cs[..x], m)
    ensures Within(code, end, region, exit, State(e, 0), cs[x..], n - m)
    decreases n
  {
    hide Linked, Succ, Confined;
    if s.offset in part {
      var u, ds :| Succ(code, end, s, cs, u, ds) && Within(code, end, region, exit, u, ds, n - 1);
      GoesTo(code, end, part, e, s, cs, u, ds);
      x, m := Split(code, end, part, e, region, exit, u, ds, n - 1);
      x := SuccPrefix(code, end, s, cs, u, ds, x);
      m := m + 1;
    } else {
      x, m := 0, 0;
      assert cs[..0] == [] && cs[0..] == cs;
    }
  }

  lemma SuccPrefix(code: Code, end: nat, s: State, cs: seq<char>, u: State, ds: seq<char>, y: nat) returns (x: nat)
    requires Linked(code) && Succ(code, end, s, cs, u, ds) && y <= |ds|
    ensures x <= |cs| && Succ(code, end, s, cs[..x], u, ds[..y]) && ds[y..] == cs[x..]
  {
    hide Linked, Active, New;
    if u in Active(code, end, s) && ds == cs {
      x := y;
    } else {
      x := y + 1;
      assert cs[..x][1..] == cs[1..][..y] && cs[1..][y..] == cs[x..];
    }
  }

  /** When the part has the same exit, the whole run is in it. */
  lemma Narrow(code: Code, end: nat, part: set<nat>, region: set<nat>, exit: nat, s: State, cs: seq<char>, n: nat)
    requires Linked(code) && part <= region && Confined(code, end, part, exit) && exit !in region
    requires Within(code, end, region, exit, s, cs, n) && (s.offset in part || s == State(exit, 0))
    ensures Within(code, end, part, exit, s, cs, n)
  {
    hide Linked, Confined, Succ;
    var x, m := Split(code, end, part, exit, region, exit, s, cs, n);
    assert x == |cs| && m == n && cs[..x] == cs;
  }

  // --- Regions ------------------------------------------------------------------------------------

  /** Every head leads to the end of its group. */
  lemma {:induction false} HeadEnd(code: Code, h: nat, w: nat, alts: Alts, k: nat)
    requires Linked(code) && LaidAlts(code, h, w, alts, k)
    ensures KetOf(code, h) == k
    decreases alts
  {
    hide Linked, Laid;
    if alts.Or? { HeadEnd(code, h + w + Size(alts.re), HEAD, alts.more, k); }
  }

  lemma {:induction false} BranchesFrom(code: Code, h: nat, u: State)
    requires Linked(code) && h < |code| && HasLink(code[h])
    ensures var n := h + code[h].link;
      && n < |code|
      && (u in Branches(code, h) <==>
            u == State(h + Width(code[h].CBra?), 0) || (code[n].Alt? && u in Branches(code, n)))
  {
    var n := h + code[h].link;
    assert n < |code| && (code[n].Alt? || code[n].Ket?);
    hide Linked;
    var rest := if code[n].Alt? then Branches(code, n) else [];
    assert Branches(code, h) == [State(h + Width(code[h].CBra?), 0)] + rest;
    hide Branches;
  }

  lemma {:induction false} BranchesAre(code: Code, h: nat, w: nat, alts: Alts, k: nat, u: State)
    requires Linked(code) && LaidAlts(code, h, w, alts, k)
    ensures u in Branches(code, h) <==>
      u == State(h + w, 0) || (alts.Or? && u in Branches(code, h + w + Size(alts.re)))
  {
    hide Linked, Laid, LaidAlts, Branches;
    AltsLaid(code, h, w, alts, k);
    BranchesFrom(code, h, u);
  }

  /** The branches of a head are the starts of the alternatives. */
  lemma {:induction false} BranchIn(code: Code, h: nat, w: nat, alts: Alts, k: nat, u: State)
    requires Linked(code) && LaidAlts(code, h, w, alts, k) && u in Branches(code, h)
    ensures u.count == 0 && (u.offset in AltsOffsets(alts, h + w) || u.offset == k)
    decreases alts
  {
    hide Linked, Laid, LaidAlts, Offsets, AltsOffsets, Branches;
    AltsLaid(code, h, w, alts, k);
    AltsFirst(alts, h + w);
    StartIn(alts.re, h + w);
    BranchesAre(code, h, w, alts, k, u);
    if alts.Or? {
      AltsParts(alts, h + w);
      if u != State(h + w, 0) { BranchIn(code, h + w + Size(alts.re), HEAD, alts.more, k, u); }
    }
  }

  lemma {:induction false} Keeps(code: Code, end: nat, re: Re, i: nat)
    requires Linked(code) && Laid(code, i, re) && end !in Offsets(re, i)
    ensures Confined(code, end, Offsets(re, i), i + Size(re))
    decreases re
  {
    hide Linked, Confined, Laid, Offsets;
    match re
    case Empty => NonePart(i); ConfinedNone(code, end, i);
    case One(op) => OnePart(code, re, i); ItemKeeps(code, end, i);
    case Cat(a, b) =>
      var m := i + Size(a);
      CatParts(code, re, i);
      Keeps(code, end, a, i);
      Keeps(code, end, b, m);
      StartIn(b, m);
      ConfinedUnion(code, end, Offsets(a, i), m, Offsets(b, m), i + Size(re));
    case Group(capture, zero, again, alts) =>
      GroupParts(re, i);
      GroupLaid(code, re, i);
      KeepsAlts(code, end, alts, Bracket(re, i), Width(capture), EndOf(re, i));
      KeepsGroup(code, end, re, i);
  }

  lemma ConfinedNone(code: Code, end: nat, exit: nat)
    requires Linked(code)
    ensures Confined(code, end, {}, exit)
  {
  }

  lemma ItemKeeps(code: Code, end: nat, i: nat)
    requires Linked(code) && i < |code| && IsItem(code[i])
    ensures Confined(code, end, {i}, i + Length(code[i]))
  {
    hide Linked;
  }

  // What brackets, alternatives and the ends of groups lead to; none of them reads.

  lemma ZeroSucc(code: Code, end: nat, i: nat, s: State, cs: seq<char>, u: State, ds: seq<char>)
    requires Linked(code) && i < |code| && code[i].BraZero? && s.offset == i && Succ(code, end, s, cs, u, ds)
    ensures ds == cs && i + 1 < |code| && IsBra(code[i + 1])
    ensures u == State(i + 1, 0) || u == State(KetOf(code, i + 1) + HEAD, 0)
  {
    hide KetOf;
  }

  lemma BracketSucc(code: Code, end: nat, o: nat, s: State, cs: seq<char>, u: State, ds: seq<char>)
    requires Linked(code) && o < |code| && IsBra(code[o]) && s.offset == o && Succ(code, end, s, cs, u, ds)
    ensures ds == cs && u in Branches(code, o)
  {
    hide Linked, Branches;
  }

  lemma AltSucc(code: Code, end: nat, h: nat, s: State, cs: seq<char>, u: State, ds: seq<char>)
    requires Linked(code) && h < |code| && code[h].Alt? && s.offset == h && Succ(code, end, s, cs, u, ds)
    ensures ds == cs && u == State(KetOf(code, h), 0)
  {
    hide Linked, KetOf;
  }

  lemma KetSucc(code: Code, end: nat, k: nat, s: State, cs: seq<char>, u: State, ds: seq<char>)
    requires Linked(code) && k < |code| && code[k].Ket? && s.offset == k && Succ(code, end, s, cs, u, ds)
    ensures ds == cs && k != end && code[k].link <= k
    ensures u == State(k + HEAD, 0) || (code[k].again && u == State(k - code[k].link, 0))
  {
  }

  lemma BracketGoes(code: Code, end: nat, o: nat, w: nat, alts: Alts, k: nat)
    requires Linked(code) && LaidAlts(code, o, w, alts, k) && IsBra(code[o])
    ensures Goes(code, end, o, AltsOffsets(alts, o + w), k)
  {
    hide Linked, Laid, AltsOffsets, Succ;
    forall s: State, cs, u: State, ds | s.offset == o && Succ(code, end, s, cs, u, ds)
      ensures u.offset in AltsOffsets(alts, o + w) || u == State(k, 0)
    {
      BracketSucc(code, end, o, s, cs, u, ds);
      BranchIn(code, o, w, alts, k, u);
    }
  }

  lemma AltKeeps(code: Code, end: nat, h: nat, w: nat, alts: Alts, k: nat)
    requires Linked(code) && LaidAlts(code, h, w, alts, k) && code[h].Alt?
    ensures Confined(code, end, {h}, k)
  {
    hide Linked, Laid, Succ;
    HeadEnd(code, h, w, alts, k);
    forall s: State, cs, u: State, ds | s.offset == h && Succ(code, end, s, cs, u, ds) ensures u == State(k, 0) {
      AltSucc(code, end, h, s, cs, u, ds);
    }
  }

  lemma KetGoes(code: Code, end: nat, k: nat)
    requires Linked(code) && k < |code| && code[k].Ket? && code[k].link <= k
    ensures Goes(code, end, k, {k - code[k].link}, k + HEAD)
  {
    hide Linked, Succ;
    forall s: State, cs, u: State, ds | s.offset == k && Succ(code, end, s, cs, u, ds)
      ensures u.offset == k - code[k].link || u == State(k + HEAD, 0)
    {
      KetSucc(code, end, k, s, cs, u, ds);
    }
  }

  lemma ZeroGoes(code: Code, end: nat, i: nat, w: nat, alts: Alts, k: nat)
    requires Linked(code) && i + 1 < |code| && code[i].BraZero? && LaidAlts(code, i + 1, w, alts, k)
    ensures Goes(code, end, i, {i + 1}, k + HEAD)
  {
    hide Linked, Laid, Succ;
    HeadEnd(code, i + 1, w, alts, k);
    forall s: State, cs, u: State, ds | s.offset == i && Succ(code, end, s, cs, u, ds)
      ensures u.offset == i + 1 || u == State(k + HEAD, 0)
    {
      ZeroSucc(code, end, i, s, cs, u, ds);
    }
  }

  lemma KeepsGroup(code: Code, end: nat, re: Re, i: nat)
    requires Linked(code) && re.Group? && Laid(code, i, re) && end !in Offsets(re, i)
    requires Confined(code, end, AltsOffsets(re.alts, Bracket(re, i) + Width(re.capture)), EndOf(re, i))
    ensures Confined(code, end, Offsets(re, i), i + Size(re))
  {
    hide Linked, Goes, Laid, LaidAlts, Offsets, AltsOffsets;
    GroupParts(re, i);
    GroupLaid(code, re, i);
    var o, k, w, exit := Bracket(re, i), EndOf(re, i), Width(re.capture), i + Size(re);
    var part, region := AltsOffsets(re.alts, o + w), Offsets(re, i);
    forall x | x in region ensures Goes(code, end, x, region, exit) {
      if x in part {
        GoesWider(code, end, x, part, k, region, exit);
      } else if x == o {
        BracketGoes(code, end, o, w, re.alts, k);
        GoesWider(code, end, o, part, k, region, exit);
      } else if x == k {
        KetGoes(code, end, k);
        GoesWider(code, end, k, {o}, exit, region, exit);
      } else {
        ZeroGoes(code, end, i, w, re.alts, k);
        GoesWider(code, end, i, {o}, exit, region, exit);
      }
    }
  }

  lemma {:induction false} KeepsAlts(code: Code, end: nat, alts: Alts, h: nat, w: nat, k: nat)
    requires Linked(code) && LaidAlts(code, h, w, alts, k) && end !in AltsOffsets(alts, h + w)
    ensures Confined(code, end, AltsOffsets(alts, h + w), k)
    decreases alts
  {
    hide Linked, Laid, LaidAlts, Offsets, AltsOffsets, Goes, Confined;
    AltsLaid(code, h, w, alts, k);
    AltsFirst(alts, h + w);
    Keeps(code, end, alts.re, h + w);
    if alts.Or? {
      AltsParts(alts, h + w);
      var a, h' := Offsets(alts.re, h + w), h + w + Size(alts.re);
      var b := AltsOffsets(alts.more, h' + HEAD);
      KeepsAlts(code, end, alts.more, h', HEAD, k);
      AltKeeps(code, end, h', HEAD, alts.more, k);
      ConfinedUnion(code, end, {h'}, k, b, k);
      ConfinedUnion(code, end, a, h', {h'} + b, k);
      assert a + ({h'} + b) == AltsOffsets(alts, h + w);
    }
  }

  // --- What is read belongs to the expression -----------------------------------------------------

  lemma {:induction false} ItemSound(code: Code, end: nat, i: nat, s: State, cs: seq<char>, n: nat)
    requires Linked(code) && i < |code| && IsItem(code[i]) && s.offset == i
    requires Within(code, end, {i}, i + Length(code[i]), s, cs, n)
    ensures Leaves(code, end, i, s, cs, State(i + Length(code[i]), 0))
    decreases n
  {
    hide Linked;
    var u, ds :| Succ(code, end, s, cs, u, ds) && Within(code, end, {i}, i + Length(code[i]), u, ds, n - 1);
    if u.offset == i { ItemSound(code, end, i, u, ds, n - 1); }
  }

  /** The first step of a run within a region. */
  lemma First(code: Code, end: nat, region: set<nat>, exit: nat, s: State, cs: seq<char>, n: nat)
    returns (u: State, ds: seq<char>)
    requires Linked(code) && s.offset in region && Within(code, end, region, exit, s, cs, n)
    ensures n > 0 && Succ(code, end, s, cs, u, ds) && Within(code, end, region, exit, u, ds, n - 1)
  {
    hide Linked, Succ;
    u, ds :| Succ(code, end, s, cs, u, ds) && Within(code, end, region, exit, u, ds, n - 1);
  }

  /** At its exit a run has nothing left to read. */
  lemma Out(code: Code, end: nat, region: set<nat>, exit: nat, cs: seq<char>, n: nat)
    requires Linked(code) && exit !in region && Within(code, end, region, exit, State(exit, 0), cs, n)
    ensures cs == [] && n == 0
  {
    hide Linked, Succ;
  }

  /** What paths read in an expression is a text of it. */
  lemma {:induction false} Sound(code: Code, end: nat, re: Re, i: nat, cs: seq<char>, n: nat)
    requires Linked(code) && Laid(code, i, re) && end !in Offsets(re, i)
    requires Within(code, end, Offsets(re, i), i + Size(re), State(i, 0), cs, n)
    ensures Match(re, cs)
    decreases re, 2, n
  {
    hide Linked, Confined, Succ, Many, Within, Laid, Offsets;
    match re
    case Empty => Out(code, end, Offsets(re, i), i, cs, n);
    case One(op) =>
      OnePart(code, re, i);
      ItemSound(code, end, i, State(i, 0), cs, n);
      LeavesExactly(code, end, i, 0, cs, State(i + Length(op), 0));
    case Cat(a, b) =>
      var x, y := CatSplit(code, end, re, i, cs, n);
      CatParts(code, re, i);
      Sound(code, end, a, i, cs[..x], y);
      Sound(code, end, b, i + Size(a), cs[x..], n - y);
    case Group(_, _, _, _) =>
      OptionalSound(code, end, re, i, cs, n);
  }

  lemma {:induction false} CatSplit(code: Code, end: nat, re: Re, i: nat, cs: seq<char>, n: nat)
    returns (x: nat, y: nat)
    requires Linked(code) && re.Cat? && Laid(code, i, re) && end !in Offsets(re, i)
    requires Within(code, end, Offsets(re, i), i + Size(re), State(i, 0), cs, n)
    ensures x <= |cs| && y <= n
    ensures Within(code, end, Offsets(re.first, i), i + Size(re.first), State(i, 0), cs[..x], y)
    ensures var m := i + Size(re.first);
      Within(code, end, Offsets(re.rest, m), m + Size(re.rest), State(m, 0), cs[x..], n - y)
  {
    hide Linked, Confined, Succ, Within, Laid, Offsets;
    var m, exit := i + Size(re.first), i + Size(re);
    var a, b := Offsets(re.first, i), Offsets(re.rest, m);
    CatParts(code, re, i);
    Keeps(code, end, re.first, i);
    Keeps(code, end, re.rest, m);
    StartIn(re.first, i);
    StartIn(re.rest, m);
    x, y := Split(code, end, a, m, a + b, exit, State(i, 0), cs, n);
    Narrow(code, end, b, a + b, exit, State(m, 0), cs[x..], n - y);
  }

  lemma {:induction false} OptionalSound(code: Code, end: nat, re: Re, i: nat, cs: seq<char>, n: nat)
    requires Linked(code) && re.Group? && Laid(code, i, re) && end !in Offsets(re, i)
    requires Within(code, end, Offsets(re, i), i + Size(re), State(i, 0), cs, n)
    ensures Match(re, cs)
    decreases re, 1, n
  {
    hide Linked, Laid, Offsets, Within, Succ, Many;
    var region, exit := Offsets(re, i), i + Size(re);
    GroupParts(re, i);
    GroupLaid(code, re, i);
    if re.zero {
      var u, ds := First(code, end, region, exit, State(i, 0), cs, n);
      ZeroSucc(code, end, i, State(i, 0), cs, u, ds);
      HeadEnd(code, i + 1, Width(re.capture), re.alts, EndOf(re, i));
      if u == State(exit, 0) {
        Out(code, end, region, exit, cs, n - 1);
      } else {
        var c := GroupSound(code, end, re, i, cs, n - 1);
      }
    } else {
      var c := GroupSound(code, end, re, i, cs, n);
    }
  }

  /** From the bracket to behind the group: one text of the group, or several in a row. */
  lemma {:induction false} GroupSound(code: Code, end: nat, re: Re, i: nat, cs: seq<char>, n: nat) returns (c: nat)
    requires Linked(code) && re.Group? && Laid(code, i, re) && end !in Offsets(re, i)
    requires Within(code, end, Offsets(re, i), i + Size(re), State(Bracket(re, i), 0), cs, n)
    ensures c > 0 && (re.again || c == 1) && Many(re.alts, cs, c)
    decreases re, 0, n
  {
    hide Linked, Laid, LaidAlts, Offsets, AltsOffsets, Within, Succ, Match, MatchAlts, Confined;
    var o, k, w, region, exit := Bracket(re, i), EndOf(re, i), Width(re.capture), Offsets(re, i), i + Size(re);
    var part := AltsOffsets(re.alts, o + w);
    GroupParts(re, i);
    GroupLaid(code, re, i);
    var u, ds := First(code, end, region, exit, State(o, 0), cs, n);
    BracketSucc(code, end, o, State(o, 0), cs, u, ds);
    BranchIn(code, o, w, re.alts, k, u);
    KeepsAlts(code, end, re.alts, o, w, k);
    var x, m := Split(code, end, part, k, region, exit, u, cs, n - 1);
    AltsSound(code, end, re.alts, o, w, k, u, cs[..x], m);
    var v, es := First(code, end, region, exit, State(k, 0), cs[x..], n - 1 - m);
    KetSucc(code, end, k, State(k, 0), cs[x..], v, es);
    if v == State(exit, 0) {
      Out(code, end, region, exit, cs[x..], n - 2 - m);
      c := 1;
      assert Many(re.alts, cs[x..], 0);
    } else {
      c := GroupSound(code, end, re, i, cs[x..], n - 2 - m);
      c := c + 1;
    }
  }

  lemma {:induction false} AltsSound(code: Code, end: nat, alts: Alts, h: nat, w: nat, k: nat, u: State,
          cs: seq<char>, n: nat)
    requires Linked(code) && LaidAlts(code, h, w, alts, k) && end !in AltsOffsets(alts, h + w)
    requires u in Branches(code, h) && Within(code, end, AltsOffsets(alts, h + w), k, u, cs, n)
    ensures MatchAlts(alts, cs)
    decreases alts, 3, n
  {
    hide Linked, Laid, LaidAlts, Confined, Succ, Within, Match, Branches, Offsets, AltsOffsets;
    AltsLaid(code, h, w, alts, k);
    BranchesAre(code, h, w, alts, k, u);
    AltsFirst(alts, h + w);
    if alts.Only? {
      Sound(code, end, alts.re, h + w, cs, n);
    } else if u == State(h + w, 0) {
      var m := FirstAlt(code, end, alts, h, w, k, cs, n);
      Sound(code, end, alts.re, h + w, cs, m);
    } else {
      var h' := h + w + Size(alts.re);
      LaterAlt(code, end, alts, h, w, k, u, cs, n);
      AltsSound(code, end, alts.more, h', HEAD, k, u, cs, n);
    }
  }

  /** A run through the first alternative ends at the next head, which leads to the end. */
  lemma {:induction false} FirstAlt(code: Code, end: nat, alts: Alts, h: nat, w: nat, k: nat, cs: seq<char>, n: nat)
    returns (m: nat)
    requires Linked(code) && alts.Or? && LaidAlts(code, h, w, alts, k) && end !in AltsOffsets(alts, h + w)
    requires Within(code, end, AltsOffsets(alts, h + w), k, State(h + w, 0), cs, n)
    ensures Within(code, end, Offsets(alts.re, h + w), h + w + Size(alts.re), State(h + w, 0), cs, m)
  {
    hide Linked, Laid, LaidAlts, Confined, Succ, Within, Offsets, AltsOffsets;
    var h' := h + w + Size(alts.re);
    AltsLaid(code, h, w, alts, k);
    var region := AltsOffsets(alts, h + w);
    AltsParts(alts, h + w);
    AltsEnd(code, h', HEAD, alts.more, k);
    StartIn(alts.re, h + w);
    Keeps(code, end, alts.re, h + w);
    var x;
    x, m := Split(code, end, Offsets(alts.re, h + w), h', region, k, State(h + w, 0), cs, n);
    var v, ds := First(code, end, region, k, State(h', 0), cs[x..], n - m);
    AltSucc(code, end, h', State(h', 0), cs[x..], v, ds);
    HeadEnd(code, h', HEAD, alts.more, k);
    Out(code, end, region, k, cs[x..], n - m - 1);
    assert cs[..x] == cs;
  }

  lemma {:induction false} LaterAlt(code: Code, end: nat, alts: Alts, h: nat, w: nat, k: nat, u: State,
          cs: seq<char>, n: nat)
    requires Linked(code) && alts.Or? && LaidAlts(code, h, w, alts, k) && end !in AltsOffsets(alts, h + w)
    requires h + w + Size(alts.re) < |code| && HasLink(code[h + w + Size(alts.re)])
    requires u in Branches(code, h + w + Size(alts.re)) && Within(code, end, AltsOffsets(alts, h + w), k, u, cs, n)
    ensures var h' := h + w + Size(alts.re); LaidAlts(code, h', HEAD, alts.more, k)
    ensures var r := AltsOffsets(alts.more, h + w + Size(alts.re) + HEAD);
      end !in r && Within(code, end, r, k, u, cs, n)
  {
    hide Linked, Laid, LaidAlts, Confined, Succ, Within, Offsets, AltsOffsets, Branches;
    var h' := h + w + Size(alts.re);
    AltsLaid(code, h, w, alts, k);
    AltsParts(alts, h + w);
    AltsEnd(code, h', HEAD, alts.more, k);
    KeepsAlts(code, end, alts.more, h', HEAD, k);
    BranchIn(code, h', HEAD, alts.more, k, u);
    Narrow(code, end, AltsOffsets(alts.more, h' + HEAD), AltsOffsets(alts, h + w), k, u, cs, n);
  }

  // --- And every text of the expression can be read ---------------------------------------------

  lemma {:induction false} ItemRuns(code: Code, end: nat, i: nat, s: State, cs: seq<char>, t: State) returns (n: nat)
    requires Linked(code) && Leaves(code, end, i, s, cs, t)
    ensures Runs(code, end, s, cs, t, n)
    decreases |cs|
  {
    hide Linked, Active, New;
    if cs == [] {
      RunStep(code, end, s, t);
      n := 1;
    } else if |cs| == 1 && t.offset != i && t in New(code, s, cs[0]) {
      n := 1;
      assert Succ(code, end, s, cs, t, []) && Runs(code, end, t, [], t, 0);
    } else {
      var u :| u in New(code, s, cs[0]) && u.offset == i && Leaves(code, end, i, u, cs[1..], t);
      n := ItemRuns(code, end, i, u, cs[1..], t);
      n := n + 1;
      assert Succ(code, end, s, cs, u, cs[1..]);
    }
  }

  lemma HeadActive(code: Code, end: nat, i: nat)
    requires Linked(code) && i < |code|
    ensures code[i].BraZero? ==> i + 1 < |code| && IsBra(code[i + 1])
    ensures code[i].BraZero? ==> State(i + 1, 0) in Active(code, end, State(i, 0))
    ensures code[i].BraZero? ==> State(KetOf(code, i + 1) + HEAD, 0) in Active(code, end, State(i, 0))
    ensures IsBra(code[i]) ==> Active(code, end, State(i, 0)) == Branches(code, i)
    ensures code[i].Alt? ==> State(KetOf(code, i), 0) in Active(code, end, State(i, 0))
    ensures code[i].Ket? ==> code[i].link <= i
    ensures code[i].Ket? && i != end ==> State(i + HEAD, 0) in Active(code, end, State(i, 0))
    ensures code[i].Ket? && i != end && code[i].again ==>
      State(i - code[i].link, 0) in Active(code, end, State(i, 0))
  {
    hide KetOf, Branches;
  }

  /** A step without reading before or after a run. */
  lemma StepBefore(code: Code, end: nat, s: State, u: State, cs: seq<char>, t: State, n: nat)
    requires Linked(code) && u in Active(code, end, s) && Runs(code, end, u, cs, t, n)
    ensures Runs(code, end, s, cs, t, n + 1)
  {
    hide Linked, Active, New;
    assert Succ(code, end, s, cs, u, cs);
  }

  lemma StepAfter(code: Code, end: nat, s: State, cs: seq<char>, t: State, n: nat, u: State)
    requires Linked(code) && Runs(code, end, s, cs, t, n) && u in Active(code, end, t)
    ensures Runs(code, end, s, cs, u, n + 1)
  {
    hide Linked, Active, New, Runs;
    RunStep(code, end, t, u);
    RunsConcat(code, end, s, cs, t, n, [], u, 1);
    assert cs + [] == cs;
  }

  lemma {:induction false} PlainText(re: Re, cs: seq<char>)
    requires Match(re, cs)
    ensures re.Empty? ==> cs == []
    ensures re.One? ==> Matches(re.op, 0, cs)
  {
    hide Many, Matches;
  }

  lemma {:induction false} CatTexts(re: Re, cs: seq<char>) returns (x: nat)
    requires re.Cat? && Match(re, cs)
    ensures x <= |cs| && Match(re.first, cs[..x]) && Match(re.rest, cs[x..])
  {
    hide Many, Matches;
    x :| 0 <= x <= |cs| && Match(re.first, cs[..x]) && Match(re.rest, cs[x..]);
  }

  lemma {:induction false} Complete(code: Code, end: nat, re: Re, i: nat, cs: seq<char>) returns (n: nat)
    requires Linked(code) && Laid(code, i, re) && end !in Offsets(re, i) && Match(re, cs)
    ensures Runs(code, end, State(i, 0), cs, State(i + Size(re), 0), n)
    decreases re, 2, 0
  {
    hide Linked, Laid, Offsets, Active, New, Match, Matches, Leaves, Succ;
    match re
    case Empty =>
      PlainText(re, cs);
      n := 0;
    case One(op) =>
      PlainText(re, cs);
      OnePart(code, re, i);
      LeavesExactly(code, end, i, 0, cs, State(i + Length(op), 0));
      n := ItemRuns(code, end, i, State(i, 0), cs, State(i + Length(op), 0));
    case Cat(a, b) =>
      hide Runs;
      CatParts(code, re, i);
      var x := CatTexts(re, cs);
      var m := i + Size(a);
      var n1 := Complete(code, end, a, i, cs[..x]);
      var n2 := Complete(code, end, b, m, cs[x..]);
      RunsConcat(code, end, State(i, 0), cs[..x], State(m, 0), n1, cs[x..], State(i + Size(re), 0), n2);
      assert cs[..x] + cs[x..] == cs;
      n := n1 + n2;
    case Group(_, _, _, _) =>
      n := OptionalRuns(code, end, re, i, cs);
  }

  lemma {:induction false} Repeats(re: Re, cs: seq<char>) returns (c: nat)
    requires re.Group? && Match(re, cs) && !(re.zero && cs == [])
    ensures c > 0 && (re.again || c == 1) && Many(re.alts, cs, c)
  {
    hide Many;
    c :| c > 0 && (re.again || c == 1) && Many(re.alts, cs, c);
  }

  lemma {:induction false} OptionalRuns(code: Code, end: nat, re: Re, i: nat, cs: seq<char>) returns (n: nat)
    requires Linked(code) && re.Group? && Laid(code, i, re) && end !in Offsets(re, i) && Match(re, cs)
    ensures Runs(code, end, State(i, 0), cs, State(i + Size(re), 0), n)
    decreases re, 1, 0
  {
    hide Linked, Laid, LaidAlts, Offsets, Active, Many, Match, Runs;
    var exit := State(i + Size(re), 0);
    GroupLaid(code, re, i);
    HeadActive(code, end, i);
    HeadEnd(code, Bracket(re, i), Width(re.capture), re.alts, EndOf(re, i));
    if re.zero && cs == [] {
      RunStep(code, end, State(i, 0), exit);
      n := 1;
    } else {
      var c := Repeats(re, cs);
      n := GroupRuns(code, end, re, i, cs, c);
      if re.zero {
        StepBefore(code, end, State(i, 0), State(i + 1, 0), cs, exit, n);
        n := n + 1;
      }
    }
  }

  lemma {:induction false} FirstText(alts: Alts, cs: seq<char>, c: nat) returns (x: nat)
    requires c > 0 && Many(alts, cs, c)
    ensures x <= |cs| && MatchAlts(alts, cs[..x]) && Many(alts, cs[x..], c - 1) && (c == 1 ==> cs[..x] == cs)
  {
    hide MatchAlts;
    x :| 0 <= x <= |cs| && MatchAlts(alts, cs[..x]) && Many(alts, cs[x..], c - 1);
  }

  lemma {:induction false} GroupRuns(code: Code, end: nat, re: Re, i: nat, cs: seq<char>, c: nat) returns (n: nat)
    requires Linked(code) && re.Group? && Laid(code, i, re) && end !in Offsets(re, i)
    requires c > 0 && (re.again || c == 1) && Many(re.alts, cs, c)
    ensures Runs(code, end, State(Bracket(re, i), 0), cs, State(i + Size(re), 0), n)
    decreases re, 0, c
  {
    hide Linked, Laid, LaidAlts, Offsets, AltsOffsets, Active, New, MatchAlts, Many, Runs;
    var o, k, exit := Bracket(re, i), EndOf(re, i), i + Size(re);
    var x := FirstText(re.alts, cs, c);
    GroupParts(re, i);
    GroupLaid(code, re, i);
    HeadActive(code, end, o);
    HeadActive(code, end, k);
    var u, m := AltsComplete(code, end, re.alts, o, Width(re.capture), k, cs[..x]);
    StepBefore(code, end, State(o, 0), u, cs[..x], State(k, 0), m);
    if c == 1 {
      StepAfter(code, end, State(o, 0), cs, State(k, 0), m + 1, State(exit, 0));
      n := m + 2;
    } else {
      StepAfter(code, end, State(o, 0), cs[..x], State(k, 0), m + 1, State(o, 0));
      var rest := GroupRuns(code, end, re, i, cs[x..], c - 1);
      RunsConcat(code, end, State(o, 0), cs[..x], State(o, 0), m + 2, cs[x..], State(exit, 0), rest);
      assert cs[..x] + cs[x..] == cs;
      n := m + 2 + rest;
    }
  }

  lemma {:induction false} AltsComplete(code: Code, end: nat, alts: Alts, h: nat, w: nat, k: nat, cs: seq<char>)
    returns (u: State, n: nat)
    requires Linked(code) && LaidAlts(code, h, w, alts, k) && end !in AltsOffsets(alts, h + w) && MatchAlts(alts, cs)
    ensures h < |code| && HasLink(code[h]) && u in Branches(code, h) && Runs(code, end, u, cs, State(k, 0), n)
    decreases alts, 3, 0
  {
    hide Linked, Laid, LaidAlts, Offsets, AltsOffsets, Active, New, Match, Runs, Branches;
    AltsLaid(code, h, w, alts, k);
    AltsFirst(alts, h + w);
    var h' := h + w + Size(alts.re);
    if Match(alts.re, cs) {
      u := State(h + w, 0);
      BranchesAre(code, h, w, alts, k, u);
      n := Complete(code, end, alts.re, h + w, cs);
      if alts.Or? {
        HeadActive(code, end, h');
        HeadEnd(code, h', HEAD, alts.more, k);
        StepAfter(code, end, u, cs, State(h', 0), n, State(k, 0));
        n := n + 1;
      }
    } else {
      AltsParts(alts, h + w);
      u, n := AltsComplete(code, end, alts.more, h', HEAD, k, cs);
      BranchesAre(code, h, w, alts, k, u);
    }
  }

  // --- The whole pattern ----------------------------------------------------------------------------

  lemma StepRuns(p: Search, a: Config, b: Config)
    requires p.Ok() && Step(p, a, b) && a.pos <= |p.subject|
    ensures a.pos <= b.pos <= |p.subject| && Runs(p.code, p.end, a.s, p.subject[a.pos..b.pos], b.s, 1)
  {
    hide Linked, Active, New;
    var cs := p.subject[a.pos..b.pos];
    assert Succ(p.code, p.end, a.s, cs, b.s, []) && Runs(p.code, p.end, b.s, [], b.s, 0);
  }

  lemma {:induction false} PathRuns(p: Search, r: seq<Config>)
    requires p.Ok() && IsPath(p, r)
    ensures var last := r[|r| - 1];
      p.from <= last.pos <= |p.subject| && Runs(p.code, p.end, r[0].s, p.subject[p.from..last.pos], last.s, |r| - 1)
    decreases |r|
  {
    hide Linked, Active, New, Step, Succ;
    if |r| == 1 {
      assert p.subject[p.from..p.from] == [];
    } else {
      PathInit(p, r);
      var q, a, b := r[..|r| - 1], r[|r| - 2], r[|r| - 1];
      PathRuns(p, q);
      StepRuns(p, a, b);
      hide Runs;
      RunsConcat(p.code, p.end, r[0].s, p.subject[p.from..a.pos], a.s, |q| - 1, p.subject[a.pos..b.pos], b.s, 1);
      assert p.subject[p.from..a.pos] + p.subject[a.pos..b.pos] == p.subject[p.from..b.pos];
    }
  }

  lemma {:induction false} RunsReach(p: Search, pos: nat, s: State, cs: seq<char>, t: State, n: nat)
    requires p.Ok() && Reachable(p, Config(pos, s)) && pos + |cs| <= |p.subject| && cs == p.subject[pos..pos + |cs|]
    requires Runs(p.code, p.end, s, cs, t, n)
    ensures Reachable(p, Config(pos + |cs|, t))
    decreases n
  {
    hide Linked, Active, New, Reachable;
    if n > 0 {
      var u, ds :| Succ(p.code, p.end, s, cs, u, ds) && Runs(p.code, p.end, u, ds, t, n - 1);
      var next := pos + |cs| - |ds|;
      ReachStep(p, Config(pos, s), Config(next, u));
      RunsReach(p, next, u, ds, t, n - 1);
    }
  }

  /** A run to the end of the pattern, from where there is no step. */
  lemma {:induction false} RunsWithin(code: Code, end: nat, region: set<nat>, s: State, cs: seq<char>, n: nat)
    requires Linked(code) && Confined(code, end, region, end) && end !in region && end < |code| && code[end].Ket?
    requires (s.offset in region || s == State(end, 0)) && Runs(code, end, s, cs, State(end, 0), n)
    ensures Within(code, end, region, end, s, cs, n)
    decreases n
  {
    hide Linked, Active, New, Succ, Confined;
    if n > 0 {
      var u, ds :| Succ(code, end, s, cs, u, ds) && Runs(code, end, u, ds, State(end, 0), n - 1);
      if s.offset == end { KetSucc(code, end, end, s, cs, u, ds); }
      GoesTo(code, end, region, end, s, cs, u, ds);
      RunsWithin(code, end, region, u, ds, n - 1);
    }
  }

  /** A search with a bracket of these alternatives as its pattern. */
  ghost predicate IsPattern(p: Search, alts: Alts) {
    && p.Ok() && p.code != [] && IsBra(p.code[0]) && p.first == Branches(p.code, 0)
    && LaidAlts(p.code, 0, Width(p.code[0].CBra?), alts, p.end)
  }

  lemma ReachRuns(p: Search, x: nat, t: State) returns (s: State, n: nat)
    requires p.Ok() && Reachable(p, Config(x, t))
    ensures p.from <= x <= |p.subject| && s in p.first && Runs(p.code, p.end, s, p.subject[p.from..x], t, n)
  {
    hide Linked, Step, Runs;
    var r: seq<Config> :| IsPath(p, r) && r[|r| - 1] == Config(x, t);
    PathRuns(p, r);
    s, n := r[0].s, |r| - 1;
  }

  lemma {:induction false} PatternSound(p: Search, alts: Alts, s: State, cs: seq<char>, n: nat)
    requires IsPattern(p, alts) && s in p.first && Runs(p.code, p.end, s, cs, State(p.end, 0), n)
    ensures MatchAlts(alts, cs)
  {
    hide Linked, LaidAlts, AltsOffsets, Branches, MatchAlts, Runs, Within, Confined;
    var w, code, end := Width(p.code[0].CBra?), p.code, p.end;
    AltsEnd(code, 0, w, alts, end);
    KeepsAlts(code, end, alts, 0, w, end);
    BranchIn(code, 0, w, alts, end, s);
    RunsWithin(code, end, AltsOffsets(alts, w), s, cs, n);
    AltsSound(code, end, alts, 0, w, end, s, cs, n);
  }

  lemma {:induction false} PatternComplete(p: Search, alts: Alts, x: nat)
    requires IsPattern(p, alts) && p.from <= x <= |p.subject| && MatchAlts(alts, p.subject[p.from..x])
    ensures Reachable(p, Config(x, State(p.end, 0)))
  {
    hide Linked, LaidAlts, AltsOffsets, Branches, MatchAlts, Runs, Reachable;
    var w, cs := Width(p.code[0].CBra?), p.subject[p.from..x];
    AltsEnd(p.code, 0, w, alts, p.end);
    var u, n := AltsComplete(p.code, p.end, alts, 0, w, p.end, cs);
    ReachFirst(p, u);
    RunsReach(p, p.from, u, cs, State(p.end, 0), n);
  }

  /** The end of the pattern is reachable after exactly the texts of the pattern. */
  lemma {:induction false} PatternMeans(p: Search, alts: Alts, x: nat)
    requires IsPattern(p, alts)
    ensures Reachable(p, Config(x, State(p.end, 0))) <==>
      p.from <= x <= |p.subject| && MatchAlts(alts, p.subject[p.from..x])
  {
    hide Linked, LaidAlts, Branches, MatchAlts, Reachable;
    if Reachable(p, Config(x, State(p.end, 0))) {
      var s, n := ReachRuns(p, x, State(p.end, 0));
      PatternSound(p, alts, s, p.subject[p.from..x], n);
    }
    if p.from <= x <= |p.subject| && MatchAlts(alts, p.subject[p.from..x]) { PatternComplete(p, alts, x); }
  }

  /** So the match ends that `internal_dfa_exec` finds are those of the texts of the pattern. */
  lemma EndsMean(p: Search, alts: Alts, ends: seq<nat>)
    requires IsPattern(p, alts) && forall x: nat :: x in ends <==> Reachable(p, Config(x, State(p.end, 0)))
    ensures forall x: nat :: x in ends <==> p.from <= x <= |p.subject| && MatchAlts(alts, p.subject[p.from..x])
  {
    hide IsPattern, Reachable, MatchAlts;
    forall x: nat ensures x in ends <==> p.from <= x <= |p.subject| && MatchAlts(alts, p.subject[p.from..x]) {
      PatternMeans(p, alts, x);
    }
  }
}
