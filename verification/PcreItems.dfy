/**
 What the single-character items of a pattern mean: which texts a path can read from
 the moment it comes to an item until it leaves it.
 */
module PcreItems {
  import opened PcrePaths

  predicate IsItem(op: Instr) {
    op.Char? || op.AllAny? || op.Star? || op.Plus? || op.Query? || op.Upto? || op.Exact?
  }

  /** How many code units an item takes up. */
  function Length(op: Instr): nat {
    match op
    case AllAny => 1
    case Upto(_, _, _) => 2 + IMM2_SIZE
    case Exact(_, _, _) => 2 + IMM2_SIZE
    case _ => 2
  }

  /** Every character is `d`, or with `neg` none is. */
  predicate AllAre(d: char, neg: bool, cs: seq<char>) {
    forall i :: 0 <= i < |cs| ==> if neg then cs[i] != d else cs[i] == d
  }

  /** A count of zero, which no compiled pattern has, is taken for one. */
  function Limit(max: nat): nat { if max == 0 then 1 else max }

  /** The texts an item stands for once it has matched `n` times. */
  predicate Matches(op: Instr, n: nat, cs: seq<char>) {
    match op
    case Char(d) => cs == [d]
    case AllAny => |cs| == 1
    case Star(d, neg) => AllAre(d, neg, cs)
    case Plus(d, neg) => AllAre(d, neg, cs) && n + |cs| >= 1
    case Query(d, neg) => AllAre(d, neg, cs) && |cs| <= 1
    case Upto(max, d, neg) => AllAre(d, neg, cs) && n + |cs| <= Limit(max)
    case Exact(max, d, neg) => AllAre(d, neg, cs) && n + |cs| == Limit(max)
    case _ => false
  }

  /** The counts a path can have at an item. */
  predicate CountOk(op: Instr, n: nat) {
    match op
    case Plus(_, _) => true
    case Upto(max, _, _) => n < Limit(max)
    case Exact(max, _, _) => n < Limit(max)
    case _ => n == 0
  }

  /** From state `s` of the item at `i`, reading `cs` leads out of the item to `t`. */
  ghost predicate Leaves(code: Code, end: nat, i: nat, s: State, cs: seq<char>, t: State)
    requires Linked(code)
    decreases |cs|
  {
    if cs == [] then t in Active(code, end, s)
    else if |cs| == 1 && t.offset != i && t in New(code, s, cs[0]) then true
    else exists u :: u in New(code, s, cs[0]) && u.offset == i && Leaves(code, end, i, u, cs[1..], t)
  }

  lemma Tail(op: Instr, d: char, neg: bool, n: nat, cs: seq<char>)
    requires cs != [] && Hit(d, neg, cs[0])
    requires (op.Star? || op.Plus? || op.Upto? || op.Exact?) && op.d == d && op.neg == neg
    ensures Matches(op, n, cs) <==> Matches(op, if op.Star? then n else n + 1, cs[1..])
  {
    assert cs == [cs[0]] + cs[1..];
    assert AllAre(d, neg, cs) <==> AllAre(d, neg, cs[1..]);
  }

  /** An item is left exactly to the opcode after it, and exactly by the texts it stands
      for: a counted item takes no more than its count and, when exact, no less. */
  lemma {:induction false} LeavesExactly(code: Code, end: nat, i: nat, n: nat, cs: seq<char>, t: State)
    requires Linked(code) && i < |code| && IsItem(code[i]) && CountOk(code[i], n)
    ensures Leaves(code, end, i, State(i, n), cs, t)
       <==> t == State(i + Length(code[i]), 0) && Matches(code[i], n, cs)
    decreases |cs|
  {
    hide Linked;
    var op, s := code[i], State(i, n);
    if cs != [] {
      var next := New(code, s, cs[0]);
      if next == [] {
        assert forall u :: u !in next;
      } else {
        var u := next[0];
        assert u in next && forall v :: v in next ==> v == u;
        if u.offset == i {
          LeavesExactly(code, end, i, u.count, cs[1..], t);
          Tail(op, op.d, op.neg, n, cs);
        }
      }
    }
  }

  /** A path at an item can go wherever the item lets it. */
  lemma {:induction false} LeavesReach(p: Search, i: nat, pos: nat, s: State, cs: seq<char>, t: State)
    requires p.Ok() && Reachable(p, Config(pos, s)) && pos + |cs| <= |p.subject| && cs == p.subject[pos..pos + |cs|]
    requires Leaves(p.code, p.end, i, s, cs, t)
    ensures Reachable(p, Config(pos + |cs|, t))
    decreases |cs|
  {
    hide Linked, Active, New, Reachable;
    if cs == [] {
      ReachStep(p, Config(pos, s), Config(pos, t));
    } else {
      var c := cs[0];
      if |cs| == 1 && t.offset != i && t in New(p.code, s, c) {
        ReachStep(p, Config(pos, s), Config(pos + 1, t));
      } else {
        var u :| u in New(p.code, s, c) && u.offset == i && Leaves(p.code, p.end, i, u, cs[1..], t);
        ReachStep(p, Config(pos, s), Config(pos + 1, u));
        LeavesReach(p, i, pos + 1, u, cs[1..], t);
      }
    }
  }

  /** The stretch of a path from `a` to `b` is at the item at `i`, and leaves it at `b`. */
  ghost predicate Stays(r: seq<Config>, i: nat, a: nat, b: nat) {
    a < b < |r| && r[b].s.offset != i && forall k :: a <= k < b ==> r[k].s.offset == i
  }

  lemma ItemStep(p: Search, i: nat, a: Config, b: Config)
    requires p.Ok() && i < |p.code| && IsItem(p.code[i]) && a.s.offset == i && Step(p, a, b)
    ensures b.pos == a.pos ==> b.s in Active(p.code, p.end, a.s) && b.s.offset != i
    ensures b.pos != a.pos ==> a.pos < |p.subject| && b.pos == a.pos + 1 && b.s in New(p.code, a.s, p.subject[a.pos])
  {
    hide Linked;
  }

  /** And a path that comes to an item and leaves it has read a text that lets it. */
  lemma {:induction false} PathLeaves(p: Search, i: nat, r: seq<Config>, a: nat, b: nat)
    requires p.Ok() && i < |p.code| && IsItem(p.code[i]) && IsPath(p, r) && Stays(r, i, a, b)
    requires r[a].pos <= |p.subject|
    ensures r[a].pos <= r[b].pos <= |p.subject|
    ensures Leaves(p.code, p.end, i, r[a].s, p.subject[r[a].pos..r[b].pos], r[b].s)
    decreases b - a
  {
    hide Linked, Active, New, Step;
    var x, y := r[a], r[a + 1];
    assert Step(p, r[a + 1 - 1], r[a + 1]);
    ItemStep(p, i, x, y);
    if a + 1 < b {
      PathLeaves(p, i, r, a + 1, b);
      var cs := p.subject[x.pos..r[b].pos];
      assert cs[0] == p.subject[x.pos] && cs[1..] == p.subject[y.pos..r[b].pos];
    }
  }

  /** What a path reads at an item is exactly what the item stands for. */
  lemma ItemMeans(p: Search, i: nat, r: seq<Config>, a: nat, b: nat)
    requires p.Ok() && i < |p.code| && IsItem(p.code[i]) && IsPath(p, r) && Stays(r, i, a, b)
    requires r[a].pos <= |p.subject| && r[a].s.count == 0
    ensures r[a].pos <= r[b].pos <= |p.subject| && r[b].s == State(i + Length(p.code[i]), 0)
    ensures Matches(p.code[i], 0, p.subject[r[a].pos..r[b].pos])
  {
    hide Linked, Active, New, Step, Leaves, Matches;
    PathLeaves(p, i, r, a, b);
    LeavesExactly(p.code, p.end, i, 0, p.subject[r[a].pos..r[b].pos], r[b].s);
  }

  /** And everything the item stands for can be read there. */
  lemma ItemReads(p: Search, i: nat, pos: nat, cs: seq<char>)
    requires p.Ok() && i < |p.code| && IsItem(p.code[i]) && Reachable(p, Config(pos, State(i, 0)))
    requires pos + |cs| <= |p.subject| && cs == p.subject[pos..pos + |cs|] && Matches(p.code[i], 0, cs)
    ensures Reachable(p, Config(pos + |cs|, State(i + Length(p.code[i]), 0)))
  {
    hide Linked, Active, New, Leaves, Matches, Reachable;
    var t := State(i + Length(p.code[i]), 0);
    LeavesExactly(p.code, p.end, i, 0, cs, t);
    LeavesReach(p, i, pos, State(i, 0), cs, t);
  }
}
