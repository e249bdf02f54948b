/**
 Bit widths of delta-coded blocks: the 4-lane vector code of `simdcomputil.c` against
 its meaning number by number.
 */
module SimdBits {
  import opened Basics

  const TWO32 := 0x1_0000_0000
  type Word = x: int | 0 <= x < TWO32

  const BLOCK := 128

  /** `bits`: the number of binary digits of `v`. */
  function Bits(v: nat): nat { if v == 0 then 0 else 1 + Bits(v / 2) }

  /** Bitwise OR, digit by digit. */
  function Or(a: nat, b: nat): nat
    decreases a + b
  {
    if a == 0 && b == 0 then 0 else 2 * Or(a / 2, b / 2) + Max(a % 2, b % 2)
  }

  function Max(a: nat, b: nat): nat { if a < b then b else a }

  lemma OrDigits(a: nat, b: nat)
    ensures Or(a, b) / 2 == Or(a / 2, b / 2) && Or(a, b) % 2 == Max(a % 2, b % 2)
    ensures Or(a, b) == 0 <==> a == 0 && b == 0
  {
  }

  lemma {:induction false} OrAssoc(a: nat, b: nat, c: nat)
    ensures Or(Or(a, b), c) == Or(a, Or(b, c))
    decreases a + b + c
  {
    OrDigits(a, b);
    OrDigits(b, c);
    if a > 0 || b > 0 || c > 0 {
      OrAssoc(a / 2, b / 2, c / 2);
      OrDigits(Or(a, b), c);
      OrDigits(a, Or(b, c));
    }
  }

  lemma {:induction false} OrCommutes(a: nat, b: nat)
    ensures Or(a, b) == Or(b, a)
    decreases a + b
  {
    if a > 0 || b > 0 { OrCommutes(a / 2, b / 2); }
  }

  lemma {:induction false} OrNothing(a: nat)
    ensures Or(a, 0) == a && Or(0, a) == a
  {
    if a > 0 { OrNothing(a / 2); }
  }

  /** The digits of an OR are those of the wider operand. */
  lemma {:induction false} BitsOr(a: nat, b: nat)
    ensures Bits(Or(a, b)) == Max(Bits(a), Bits(b))
    decreases a + b
  {
    if a > 0 || b > 0 {
      OrDigits(a, b);
      BitsOr(a / 2, b / 2);
    }
  }

  lemma {:induction false} BitsMonotone(a: nat, b: nat)
    requires a <= b
    ensures Bits(a) <= Bits(b)
  {
    if a > 0 { BitsMonotone(a / 2, b / 2); }
  }

  /** `n` digits hold exactly the numbers below 2^n. */
  lemma {:induction false} BitsBound(v: nat, n: nat)
    ensures Bits(v) <= n <==> v < Pow2(n)
  {
    if n > 0 {
      if v > 0 { BitsBound(v / 2, n - 1); } else { BitsBound(0, n - 1); }
    }
  }

  // --- What is computed -----------------------------------------------------------------------

  function OrAll(s: seq<Word>): nat { if s == [] then 0 else Or(OrAll(s[..|s| - 1]), s[|s| - 1]) }

  /** The largest number of digits in a sequence. */
  function Width(s: seq<Word>): (n: nat)
    ensures forall i :: 0 <= i < |s| ==> Bits(s[i]) <= n
    ensures n > 0 ==> exists i :: 0 <= i < |s| && Bits(s[i]) == n
  {
    if s == [] then 0 else Max(Width(s[..|s| - 1]), Bits(s[|s| - 1]))
  }

  lemma {:induction false} BitsOfOrAll(s: seq<Word>)
    ensures Bits(OrAll(s)) == Width(s)
  {
    if s != [] {
      BitsOfOrAll(s[..|s| - 1]);
      BitsOr(OrAll(s[..|s| - 1]), s[|s| - 1]);
    }
  }

  function Largest(s: seq<Word>): Word { if s == [] then 0 else Max(Largest(s[..|s| - 1]), s[|s| - 1]) }

  /** It is that of the largest number. */
  lemma {:induction false} WidthOfLargest(s: seq<Word>)
    ensures Width(s) == Bits(Largest(s))
  {
    if s != [] {
      var l, x := Largest(s[..|s| - 1]), s[|s| - 1];
      WidthOfLargest(s[..|s| - 1]);
      if l < x { BitsMonotone(l, x); } else { BitsMonotone(x, l); }
    }
  }

  /** Subtraction of 32-bit words. */
  function Sub(a: Word, b: Word): Word { (a - b) % TWO32 }

  function Before(init: Word, s: seq<Word>, i: nat): Word
    requires i <= |s|
  {
    if i == 0 then init else s[i - 1]
  }

  /** Each number less the one before it. */
  function Diffs(init: Word, s: seq<Word>): (d: seq<Word>)
    ensures |d| == |s| && forall i :: 0 <= i < |s| ==> d[i] == Sub(s[i], Before(init, s, i))
  {
    if s == [] then [] else
      var p := s[..|s| - 1];
      assert forall i :: 0 <= i < |p| ==> Before(init, p, i) == Before(init, s, i);
      Diffs(init, p) + [Sub(s[|s| - 1], Before(init, s, |s| - 1))]
  }

  lemma DiffsMean(init: Word, s: seq<Word>, i: nat)
    requires i < |s|
    ensures Diffs(init, s)[i] == (s[i] - (if i == 0 then init else s[i - 1])) % TWO32
  {
    hide Diffs;
  }

  // --- Vectors ----------------------------------------------------------------------------------

  datatype Vec = Vec(a: nat, b: nat, c: nat, d: nat)

  predicate IsVec(x: Vec) { x.a < TWO32 && x.b < TWO32 && x.c < TWO32 && x.d < TWO32 }

  function Set1(x: Word): Vec { Vec(x, x, x, x) }
  function Load(s: seq<Word>, i: nat): (v: Vec)
    requires i + 4 <= |s|
    ensures IsVec(v)
  {
    Vec(s[i], s[i + 1], s[i + 2], s[i + 3])
  }
  function VecOr(x: Vec, y: Vec): Vec { Vec(Or(x.a, y.a), Or(x.b, y.b), Or(x.c, y.c), Or(x.d, y.d)) }
  function VecSub(x: Vec, y: Vec): Vec {
    Vec((x.a - y.a) % TWO32, (x.b - y.b) % TWO32, (x.c - y.c) % TWO32, (x.d - y.d) % TWO32)
  }
  /** Shifts by 4 bytes up and by 12 bytes down move lanes. */
  function ShiftUp4(x: Vec): Vec { Vec(0, x.a, x.b, x.c) }
  function ShiftDown12(x: Vec): Vec { Vec(x.d, 0, 0, 0) }

  function Delta(curr: Vec, prev: Vec): Vec { VecSub(curr, VecOr(ShiftUp4(curr), ShiftDown12(prev))) }

  function Lanes(x: Vec): nat { Or(Or(Or(x.a, x.b), x.c), x.d) }

  lemma DeltaIs(curr: Vec, prev: Vec)
    requires IsVec(curr) && IsVec(prev)
    ensures Delta(curr, prev) == Vec(Sub(curr.a, prev.d), Sub(curr.b, curr.a), Sub(curr.c, curr.b), Sub(curr.d, curr.c))
    ensures Delta(curr, prev).a == (curr.a - prev.d) % TWO32 && Delta(curr, prev).b == (curr.b - curr.a) % TWO32
    ensures Delta(curr, prev).c == (curr.c - curr.b) % TWO32 && Delta(curr, prev).d == (curr.d - curr.c) % TWO32
  {
    hide Delta;
    DeltaSubs(curr, prev);
  }

  lemma DeltaSubs(curr: Vec, prev: Vec)
    requires IsVec(curr) && IsVec(prev)
    ensures Delta(curr, prev) == Vec(Sub(curr.a, prev.d), Sub(curr.b, curr.a), Sub(curr.c, curr.b), Sub(curr.d, curr.c))
  {
    hide Or;
    OrNothing(prev.d);
    OrNothing(curr.a);
    OrNothing(curr.b);
    OrNothing(curr.c);
  }

  lemma SubSelf(x: Word)
    ensures Sub(x, x) == 0
  {
  }

  /** (w | x) | (y | z) == (w | y) | (x | z) */
  lemma OrSwap(w: nat, x: nat, y: nat, z: nat)
    ensures Or(Or(w, x), Or(y, z)) == Or(Or(w, y), Or(x, z))
  {
    hide Or;
    OrAssoc(w, x, Or(y, z));
    OrAssoc(x, y, z);
    OrCommutes(x, y);
    OrAssoc(y, x, z);
    OrAssoc(w, y, Or(x, z));
  }

  lemma LanesOr(x: Vec, y: Vec)
    ensures Lanes(VecOr(x, y)) == Or(Lanes(x), Lanes(y))
  {
    hide Or;
    OrSwap(x.a, y.a, x.b, y.b);
    OrSwap(Or(x.a, x.b), Or(y.a, y.b), x.c, y.c);
    OrSwap(Or(Or(x.a, x.b), x.c), Or(Or(y.a, y.b), y.c), x.d, y.d);
  }

  lemma OrAllStep(s: seq<Word>, i: nat)
    requires i < |s|
    ensures OrAll(s[..i + 1]) == Or(OrAll(s[..i]), s[i])
  {
    assert s[..i + 1][..i] == s[..i];
  }

  lemma OrAllFour(s: seq<Word>, i: nat)
    requires i + 4 <= |s|
    ensures OrAll(s[..i + 4]) == Or(OrAll(s[..i]), Lanes(Load(s, i)))
  {
    hide Or, OrAll;
    OrAllStep(s, i);
    OrAllStep(s, i + 1);
    OrAllStep(s, i + 2);
    OrAllStep(s, i + 3);
    var o := OrAll(s[..i]);
    OrAssoc(o, s[i], s[i + 1]);
    OrAssoc(o, Or(s[i], s[i + 1]), s[i + 2]);
    OrAssoc(o, Or(Or(s[i], s[i + 1]), s[i + 2]), s[i + 3]);
  }

  /** Four differences at a time. */
  lemma BlockStep(init: Word, s: seq<Word>, i: nat, acc: Vec, prev: Vec)
    requires i + 4 <= |s| && Lanes(acc) == OrAll(Diffs(init, s)[..i]) && IsVec(prev)
    requires prev.d == Before(init, s, i)
    ensures Lanes(VecOr(acc, Delta(Load(s, i), prev))) == OrAll(Diffs(init, s)[..i + 4])
  {
    hide OrAll, Lanes, VecOr, Delta, Or, Sub;
    DeltaIs(Load(s, i), prev);
    LanesOr(acc, Delta(Load(s, i), prev));
    OrAllFour(Diffs(init, s), i);
    assert Delta(Load(s, i), prev) == Load(Diffs(init, s), i);
  }

  // --- The code -----------------------------------------------------------------------------------

  method MaxBits(begin: seq<Word>) returns (r: nat)
    requires |begin| == BLOCK
    ensures r == Width(begin)
  {
    var accumulator: nat := 0;
    var k := 0;
    while k != BLOCK
      invariant 0 <= k <= BLOCK && accumulator == OrAll(begin[..k])
      decreases BLOCK - k
    {
      OrAllStep(begin, k);
      accumulator := Or(accumulator, begin[k]);
      k := k + 1;
    }
    assert begin[..k] == begin;
    BitsOfOrAll(begin);
    r := Bits(accumulator);
  }

  lemma FirstBlock(init: Word, s: seq<Word>)
    requires |s| >= 4
    ensures Lanes(Delta(Load(s, 0), Set1(init))) == OrAll(Diffs(init, s)[..4])
  {
    hide OrAll, Lanes, Delta, Diffs;
    var d := Delta(Load(s, 0), Set1(init));
    DeltaIs(Load(s, 0), Set1(init));
    OrAllFour(Diffs(init, s), 0);
    assert Diffs(init, s)[..0] == [];
    OrAllNone();
    OrNothing(Lanes(Load(Diffs(init, s), 0)));
    assert d == Load(Diffs(init, s), 0);
  }

  lemma OrAllNone()
    ensures OrAll([]) == 0
  {
  }

  /** `simdmaxbitsd1`: a block of 128 differences. */
  method SimdMaxBitsD1(init: Word, s: seq<Word>) returns (r: nat)
    requires |s| == BLOCK
    ensures r == Width(Diffs(init, s))
  {
    hide OrAll, Lanes, Delta, Diffs, VecOr;
    var newvec := Load(s, 0);
    var accumulator := Delta(newvec, Set1(init));
    FirstBlock(init, s);
    var oldvec := newvec;
    var k := 1;
    while 4 * k < BLOCK
      invariant 1 <= k <= BLOCK / 4 && oldvec == Load(s, 4 * k - 4)
      invariant Lanes(accumulator) == OrAll(Diffs(init, s)[..4 * k])
    {
      BlockStep(init, s, 4 * k, accumulator, oldvec);
      newvec := Load(s, 4 * k);
      accumulator := VecOr(accumulator, Delta(newvec, oldvec));
      oldvec := newvec;
      k := k + 1;
    }
    assert Diffs(init, s)[..4 * k] == Diffs(init, s);
    BitsOfOrAll(Diffs(init, s));
    r := Bits(Lanes(accumulator));
  }

  /** A vector padded with the last of one to three numbers. */
  function Padded(s: seq<Word>): Vec
    requires s != []
  {
    if |s| == 1 then Set1(s[0])
    else if |s| == 2 then Vec(s[0], s[1], s[1], s[1])
    else if |s| == 3 then Vec(s[0], s[1], s[2], s[2])
    else Load(s, 0)
  }

  /** The padding adds differences of zero. */
  lemma PaddedBlock(init: Word, s: seq<Word>)
    requires 0 < |s| < 4
    ensures Lanes(Delta(Padded(s), Set1(init))) == OrAll(Diffs(init, s))
  {
    hide Delta, Diffs, Or, OrAll, Sub;
    OrAllNone();
    var d, v := Diffs(init, s), Delta(Padded(s), Set1(init));
    DeltaSubs(Padded(s), Set1(init));
    SubSelf(s[|s| - 1]);
    OrAllStep(d, 0);
    assert d[..0] == [] && d[..|s|] == d;
    OrNothing(d[0]);
    if |s| > 1 { OrAllStep(d, 1); }
    if |s| > 2 { OrAllStep(d, 2); }
    OrNothing(OrAll(d));
    assert v.d == 0 && (|s| <= 2 ==> v.c == 0) && (|s| == 1 ==> v.b == 0);
  }

  /** The loop test of `simdmaxbitsd1_length`, in 32-bit arithmetic. */
  predicate More(k: nat, length: nat) { (4 * k + 4) % TWO32 <= length }

  lemma MoreIs(k: nat, length: nat)
    requires length < TWO32 && (4 * k <= length || k == 1)
    ensures More(k, length) <==> 4 * k + 4 <= length || 4 * k + 4 == TWO32
  {
  }

  /** `simdmaxbitsd1_length`: any number of differences; the last ones, fewer than four,
      are taken one by one. `None` when the loop would read past the numbers: its test
      wraps around on the last four lengths. */
  method SimdMaxBitsD1Length(init: Word, s: seq<Word>) returns (r: Option<nat>)
    requires 0 < |s| < TWO32
    ensures r == if |s| < TWO32 - 4 then Some(Width(Diffs(init, s))) else None
  {
    hide OrAll, Lanes, Delta, Diffs, VecOr, Padded, Or, Width, Bits, More, Blocks, Load, Sub;
    var newvec := Padded(s);
    var accumulator := Delta(newvec, Set1(init));
    BlocksStart(init, s);
    var oldvec := newvec;
    var k := 1;
    MoreIs(k, |s|);
    while More(k, |s|)
      invariant 1 <= k && (k == 1 || 4 * k <= |s|)
      invariant More(k, |s|) <==> 4 * k + 4 <= |s| || 4 * k + 4 == TWO32
      invariant Blocks(init, s, k, accumulator, oldvec)
      decreases |s| - k
    {
      if 4 * k + 4 > |s| { return None; }
      BlocksStep(init, s, k, accumulator, oldvec);
      newvec := Load(s, 4 * k);
      accumulator := VecOr(accumulator, Delta(newvec, oldvec));
      oldvec := newvec;
      k := k + 1;
      MoreIs(k, |s|);
    }
    BlocksEnd(init, s, k, accumulator, oldvec);
    var acc := ScalarTail(init, s, 4 * k, Lanes(accumulator));
    BitsOfOrAll(Diffs(init, s));
    r := Some(Bits(acc));
  }

  /** The differences from `from` on, one by one. */
  method ScalarTail(init: Word, s: seq<Word>, from: nat, acc0: nat) returns (acc: nat)
    requires acc0 == OrAll(Diffs(init, s)[..if from <= |s| then from else |s|])
    ensures acc == OrAll(Diffs(init, s))
  {
    hide OrAll, Diffs, Or;
    ghost var d := Diffs(init, s);
    acc := acc0;
    var k := from;
    while k < |s|
      invariant from <= k && acc == OrAll(d[..if k <= |s| then k else |s|])
    {
      OrAllStep(d, k);
      acc := Or(acc, Sub(s[k], Before(init, s, k)));
      k := k + 1;
    }
    assert d[..|s|] == d;
  }

  /** After `k` blocks of four: what the accumulator and the last vector hold. */
  ghost predicate Blocks(init: Word, s: seq<Word>, k: nat, acc: Vec, prev: Vec)
    requires k > 0
  {
    if |s| < 4 then k == 1 && Lanes(acc) == OrAll(Diffs(init, s))
    else 4 * k <= |s| && prev == Load(s, 4 * k - 4) && Lanes(acc) == OrAll(Diffs(init, s)[..4 * k])
  }

  lemma BlocksStart(init: Word, s: seq<Word>)
    requires s != []
    ensures Blocks(init, s, 1, Delta(Padded(s), Set1(init)), Padded(s))
  {
    hide OrAll, Lanes, Delta, Diffs;
    if |s| >= 4 { FirstBlock(init, s); } else { PaddedBlock(init, s); }
  }

  lemma BlocksStep(init: Word, s: seq<Word>, k: nat, acc: Vec, prev: Vec)
    requires k > 0 && Blocks(init, s, k, acc, prev) && 4 * k + 4 <= |s|
    ensures Blocks(init, s, k + 1, VecOr(acc, Delta(Load(s, 4 * k), prev)), Load(s, 4 * k))
  {
    hide OrAll, Lanes, Delta, Diffs, VecOr, Or, Sub;
    var i := 4 * k;
    assert prev.d == Before(init, s, i) && 4 * (k + 1) == i + 4;
    BlockStep(init, s, i, acc, prev);
  }

  lemma BlocksEnd(init: Word, s: seq<Word>, k: nat, acc: Vec, prev: Vec)
    requires k > 0 && Blocks(init, s, k, acc, prev)
    ensures Lanes(acc) == OrAll(Diffs(init, s)[..if 4 * k <= |s| then 4 * k else |s|])
  {
    hide OrAll, Lanes;
    if |s| < 4 { assert Diffs(init, s)[..|s|] == Diffs(init, s); }
  }

  /** The loop test is right on the way through the input exactly if the length is below
      2^32 - 4. */
  lemma GuardExact(length: Word)
    ensures (forall k: nat :: 4 * k <= length ==> (More(k, length) <==> 4 * k + 4 <= length)) <==> length < TWO32 - 4
  {
    if length >= TWO32 - 4 {
      var k: nat := 0x3FFF_FFFF;
      assert 4 * k <= length && More(k, length);
    }
  }
}
