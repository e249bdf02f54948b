/**
 Patterns of `pcre_dfa_exec.c` as instructions, and what it means for a pattern to
 match: the paths through it while characters of the subject are read.
 */
module PcrePaths {
  const LINK_SIZE := 2
  const IMM2_SIZE := 2

  /** One opcode; the bytes that follow an opcode are operands. `neg` marks the forms
      that match any character but `d`. */
  datatype Instr =
    | Operand
    | Char(d: char)
    | AllAny
    | Star(d: char, neg: bool)
    | Plus(d: char, neg: bool)
    | Query(d: char, neg: bool)
    | Upto(max: nat, d: char, neg: bool)
    | Exact(max: nat, d: char, neg: bool)
    | Bra(link: nat)
    | CBra(link: nat)
    | Alt(link: nat)
    | Ket(link: nat, again: bool)
    | BraZero

  type Code = seq<Instr>

  /** A place in the pattern, and how often a counted item has matched already. */
  datatype State = State(offset: nat, count: nat)

  predicate IsBra(op: Instr) { op.Bra? || op.CBra? }
  predicate HasLink(op: Instr) { op.Bra? || op.CBra? || op.Alt? }

  function At(code: Code, offset: nat): Instr { if offset < |code| then code[offset] else Operand }

  /** Links lead forward from a bracket to its alternatives and its end, and back from
      the end to the bracket. */
  ghost predicate Linked(code: Code) {
    && (forall i :: 0 <= i < |code| && HasLink(code[i]) ==>
          code[i].link > 0 && i + code[i].link < |code| && (code[i + code[i].link].Alt? || code[i + code[i].link].Ket?))
    && (forall i :: 0 <= i < |code| && code[i].Ket? ==> code[i].link <= i)
    && (forall i :: 0 <= i < |code| && code[i].BraZero? ==> i + 1 < |code| && IsBra(code[i + 1]))
  }

  /** The end of a bracket, from its start or one of its alternatives. */
  function KetOf(code: Code, i: nat): (k: nat)
    requires Linked(code) && i < |code| && HasLink(code[i])
    ensures k < |code| && code[k].Ket?
    decreases |code| - i
  {
    var n := i + code[i].link;
    if code[n].Alt? then KetOf(code, n) else n
  }

  /** The first opcodes of the alternatives from `i` on. */
  function Branches(code: Code, i: nat): (s: seq<State>)
    requires Linked(code) && i < |code| && HasLink(code[i])
    ensures forall j :: 0 <= j < |s| ==> s[j].count == 0
    decreases |code| - i
  {
    var n := i + code[i].link;
    [State(i + 1 + LINK_SIZE + (if code[i].CBra? then IMM2_SIZE else 0), 0)]
    + (if code[n].Alt? then Branches(code, n) else [])
  }

  predicate Hit(d: char, neg: bool, c: char) { (c == d) == !neg }

  /** States reached from `s` without reading a character. */
  function Active(code: Code, end: nat, s: State): (r: seq<State>)
    requires Linked(code)
    ensures forall j :: 0 <= j < |r| ==> r[j].count == 0
  {
    var i := s.offset;
    match At(code, i)
    case Ket(link, again) =>
      if i == end then [] else [State(i + 1 + LINK_SIZE, 0)] + (if again then [State(i - link, 0)] else [])
    case Alt(_) => [State(KetOf(code, i), 0)]
    case Bra(_) => Branches(code, i)
    case CBra(_) => Branches(code, i)
    case BraZero => [State(i + 1, 0), State(KetOf(code, i + 1) + 1 + LINK_SIZE, 0)]
    case Star(_, _) => [State(i + 2, 0)]
    case Query(_, _) => [State(i + 2, 0)]
    case Plus(_, _) => if s.count > 0 then [State(i + 2, 0)] else []
    case Upto(_, _, _) => [State(i + 2 + IMM2_SIZE, 0)]
    case _ => []
  }

  /** States reached by reading `c`. */
  function New(code: Code, s: State, c: char): seq<State> {
    var i := s.offset;
    match At(code, i)
    case Char(d) => if c == d then [State(i + 2, 0)] else []
    case AllAny => [State(i + 1, 0)]
    case Star(d, neg) => if Hit(d, neg, c) then [State(i, 0)] else []
    case Query(d, neg) => if Hit(d, neg, c) then [State(i + 2, 0)] else []
    case Plus(d, neg) => if Hit(d, neg, c) then [State(i, s.count + 1)] else []
    case Upto(max, d, neg) => if Hit(d, neg, c) then [Counted(i, s.count + 1, max)] else []
    case Exact(max, d, neg) => if Hit(d, neg, c) then [Counted(i, s.count + 1, max)] else []
    case _ => []
  }

  /** A counted item goes on until the count is reached. */
  function Counted(i: nat, count: nat, max: nat): State {
    if count >= max then State(i + 2 + IMM2_SIZE, 0) else State(i, count)
  }

  // --- Paths ------------------------------------------------------------------------------------

  /** A pattern with the end of its outermost bracket, a subject, the first states and the
      position they start at. */
  datatype Search = Search(code: Code, end: nat, subject: seq<char>, first: seq<State>, from: nat) {
    ghost predicate Ok() { Linked(code) && from <= |subject| }
  }

  datatype Config = Config(pos: nat, s: State)

  predicate Step(p: Search, a: Config, b: Config)
    requires Linked(p.code)
  {
    || (b.pos == a.pos && b.s in Active(p.code, p.end, a.s))
    || (a.pos < |p.subject| && b.pos == a.pos + 1 && b.s in New(p.code, a.s, p.subject[a.pos]))
  }

  /** A path from one of the first states. */
  ghost predicate IsPath(p: Search, r: seq<Config>)
    requires p.Ok()
  {
    && r != [] && r[0].pos == p.from && r[0].s in p.first
    && forall i :: 0 < i < |r| ==> Step(p, r[i - 1], r[i])
  }

  ghost predicate Reachable(p: Search, c: Config)
    requires p.Ok()
  {
    exists r :: IsPath(p, r) && r[|r| - 1] == c
  }

  lemma ReachFirst(p: Search, s: State)
    requires p.Ok() && s in p.first
    ensures Reachable(p, Config(p.from, s))
  {
    var r := [Config(p.from, s)];
    assert IsPath(p, r) && r[|r| - 1] == Config(p.from, s);
  }

  lemma ReachStep(p: Search, a: Config, b: Config)
    requires p.Ok() && Reachable(p, a) && Step(p, a, b)
    ensures Reachable(p, b)
  {
    hide Step;
    var r :| IsPath(p, r) && r[|r| - 1] == a;
    var q := r + [b];
    assert forall i :: 0 < i < |q| ==> Step(p, q[i - 1], q[i]);
    assert IsPath(p, q) && q[|q| - 1] == b;
  }

  lemma PathInit(p: Search, r: seq<Config>)
    requires p.Ok() && IsPath(p, r) && |r| > 1
    ensures IsPath(p, r[..|r| - 1]) && Step(p, r[|r| - 2], r[|r| - 1]) && r[..|r| - 1][|r| - 2] == r[|r| - 2]
  {
  }

  // --- Layers: all states at each position --------------------------------------------------------

  ghost predicate Closed(code: Code, end: nat, layer: seq<State>)
    requires Linked(code)
  {
    forall s, t :: s in layer && t in Active(code, end, s) ==> t in layer
  }

  ghost predicate Follows(code: Code, a: seq<State>, c: char, b: seq<State>) {
    forall s, t :: s in a && t in New(code, s, c) ==> t in b
  }

  /** Layer `k` has everything a path can be at at position from + k, and nothing else. */
  ghost predicate Layer(p: Search, layers: seq<seq<State>>, k: nat)
    requires p.Ok() && k < |layers|
  {
    && p.from + k <= |p.subject| && Closed(p.code, p.end, layers[k])
    && (k > 0 ==> Follows(p.code, layers[k - 1], p.subject[p.from + k - 1], layers[k]))
    && forall s :: s in layers[k] ==> Reachable(p, Config(p.from + k, s))
  }

  ghost predicate Layers(p: Search, layers: seq<seq<State>>)
    requires p.Ok()
  {
    && layers != [] && (forall s :: s in p.first ==> s in layers[0])
    && forall k :: 0 <= k < |layers| ==> Layer(p, layers, k)
  }

  ghost predicate InLayers(p: Search, layers: seq<seq<State>>, c: Config) {
    p.from <= c.pos < p.from + |layers| && c.s in layers[c.pos - p.from]
  }

  lemma StepInLayers(p: Search, layers: seq<seq<State>>, a: Config, b: Config)
    requires p.Ok() && Layers(p, layers) && InLayers(p, layers, a) && Step(p, a, b) && b.pos < p.from + |layers|
    ensures InLayers(p, layers, b)
  {
    hide Active, New, Linked, Reachable;
    assert Layer(p, layers, b.pos - p.from);
  }

  /** A path that ends within the layers is in them. */
  lemma {:induction false} PathInLayers(p: Search, layers: seq<seq<State>>, r: seq<Config>)
    requires p.Ok() && Layers(p, layers) && IsPath(p, r)
    ensures r[|r| - 1].pos >= p.from
    ensures r[|r| - 1].pos < p.from + |layers| ==> InLayers(p, layers, r[|r| - 1])
    decreases |r|
  {
    hide Active, New, Linked, Layer, Reachable;
    if |r| > 1 {
      PathInit(p, r);
      PathInLayers(p, layers, r[..|r| - 1]);
      if r[|r| - 1].pos < p.from + |layers| { StepInLayers(p, layers, r[|r| - 2], r[|r| - 1]); }
    }
  }

  /** Nothing can be read at the last layer. */
  ghost predicate Stuck(p: Search, layers: seq<seq<State>>)
    requires layers != []
  {
    var pos := p.from + |layers| - 1;
    pos < |p.subject| ==> Follows(p.code, layers[|layers| - 1], p.subject[pos], [])
  }

  lemma StuckMeans(p: Search, layers: seq<seq<State>>, a: Config, t: State)
    requires layers != [] && Stuck(p, layers) && InLayers(p, layers, a)
    requires a.pos == p.from + |layers| - 1 && a.pos < |p.subject|
    ensures t !in New(p.code, a.s, p.subject[a.pos])
  {
    hide New;
    var layer := layers[|layers| - 1];
    assert a.s in layer;
    assert Follows(p.code, layer, p.subject[a.pos], []);
    assert t in New(p.code, a.s, p.subject[a.pos]) ==> t in [];
  }

  lemma StepStays(p: Search, layers: seq<seq<State>>, a: Config, b: Config)
    requires p.Ok() && layers != [] && Stuck(p, layers) && InLayers(p, layers, a) && Step(p, a, b)
    ensures b.pos < p.from + |layers|
  {
    hide Active, New, Linked, Stuck, Follows;
    if a.pos == p.from + |layers| - 1 && a.pos < |p.subject| { StuckMeans(p, layers, a, b.s); }
  }

  /** Then no path goes beyond it. */
  lemma {:induction false} PathEnds(p: Search, layers: seq<seq<State>>, r: seq<Config>)
    requires p.Ok() && Layers(p, layers) && IsPath(p, r) && Stuck(p, layers)
    ensures r[|r| - 1].pos < p.from + |layers|
    decreases |r|
  {
    hide Active, New, Linked, Layer, Reachable;
    if |r| > 1 {
      PathInit(p, r);
      PathEnds(p, layers, r[..|r| - 1]);
      PathInLayers(p, layers, r[..|r| - 1]);
      StepStays(p, layers, r[|r| - 2], r[|r| - 1]);
    }
  }

  /** The layers are exactly what is reachable. */
  lemma LayersComplete(p: Search, layers: seq<seq<State>>, c: Config)
    requires p.Ok() && Layers(p, layers) && Stuck(p, layers)
    ensures Reachable(p, c) <==> InLayers(p, layers, c)
  {
    hide Active, New, Linked, Closed, Follows, Step;
    if Reachable(p, c) {
      var r :| IsPath(p, r) && r[|r| - 1] == c;
      PathInLayers(p, layers, r);
      PathEnds(p, layers, r);
    }
    if InLayers(p, layers, c) { assert Layer(p, layers, c.pos - p.from); }
  }
}
