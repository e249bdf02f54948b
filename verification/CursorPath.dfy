/**
 The path a cursor holds, from the root to a page, and the place of that page among
 all items of the tree.
 */
module CursorPath {
  import opened PageSplit
  import opened BTree
  import opened BTreeDelete

  /** A tree with all leaves at depth `d` and no empty page. */
  ghost predicate Shape(t: Tree, d: nat)
    decreases t
  {
    match t
    case Leaf(items) => d == 1 && items != []
    case Branch(seps, kids) => d > 1 && |seps| == |kids| > 1 && forall i :: 0 <= i < |kids| ==> Shape(kids[i], d - 1)
  }

  lemma {:induction false} ShapeOfWf(env: Env, t: Tree, lo: int, hi: int, d: nat)
    requires env.Valid() && Wf(env, t, lo, hi, d)
    ensures Shape(t, d)
    decreases t
  {
    match t
    case Leaf(_) =>
    case Branch(seps, kids) =>
      PageIs(env, t, lo, hi, d);
      assert KidsWf(env, seps, kids, lo, hi, d - 1);
      forall i | 0 <= i < |kids| ensures Shape(kids[i], d - 1) {
        ShapeOfWf(env, kids[i], Bound(seps, i, lo, hi), Bound(seps, i + 1, lo, hi), d - 1);
      }
  }

  lemma {:induction false} NotEmpty(t: Tree, d: nat)
    requires Shape(t, d)
    ensures Items(t) != []
    decreases t
  {
    if t.Branch? { NotEmpty(t.kids[0], d - 1); }
  }

  /** pg[..n] and ki[..n - 1] are the way from pg[0] down to pg[n - 1]. */
  ghost predicate Path(pg: seq<Tree>, ki: seq<nat>, n: nat, d: nat) {
    && 0 < n <= |pg| == |ki| && n <= d && Shape(pg[0], d)
    && forall j :: 0 <= j < n - 1 ==> Down(pg, ki, j)
  }

  /** Node ki[j] of page pg[j] leads to page pg[j + 1]. */
  ghost predicate Down(pg: seq<Tree>, ki: seq<nat>, j: nat)
    requires j + 1 < |pg| == |ki|
  {
    pg[j].Branch? && ki[j] < |pg[j].kids| && pg[j + 1] == pg[j].kids[ki[j]]
  }

  lemma {:induction false} PathShape(pg: seq<Tree>, ki: seq<nat>, n: nat, d: nat)
    requires Path(pg, ki, n, d)
    ensures Shape(pg[n - 1], d - (n - 1))
  {
    if n > 1 {
      PathShape(pg, ki, n - 1, d);
      assert Down(pg, ki, n - 2);
    }
  }

  /** The number of items left of page pg[n - 1]. */
  ghost function Start(pg: seq<Tree>, ki: seq<nat>, n: nat): nat
    requires n <= |pg| == |ki|
  {
    if n <= 1 then 0 else
      var page, i := pg[n - 2], ki[n - 2];
      Start(pg, ki, n - 1) + if page.Branch? && i <= |page.kids| then |Flat(page.kids[..i])| else 0
  }

  ghost function End(pg: seq<Tree>, ki: seq<nat>, n: nat): nat
    requires 0 < n <= |pg| == |ki|
  {
    Start(pg, ki, n) + |Items(pg[n - 1])|
  }

  /** Both depend only on the pages down to the last and on the indices above it. */
  lemma {:induction false} StartFrame(pg: seq<Tree>, ki: seq<nat>, pg': seq<Tree>, ki': seq<nat>, n: nat)
    requires 0 < n <= |pg| == |ki| && n <= |pg'| == |ki'|
    requires forall j :: 0 <= j < n - 1 ==> pg[j] == pg'[j] && ki[j] == ki'[j]
    ensures Start(pg, ki, n) == Start(pg', ki', n)
    ensures pg[n - 1] == pg'[n - 1] ==> End(pg, ki, n) == End(pg', ki', n)
  {
    if n > 1 { StartFrame(pg, ki, pg', ki', n - 1); }
  }

  lemma PathFrame(pg: seq<Tree>, ki: seq<nat>, pg': seq<Tree>, ki': seq<nat>, n: nat, d: nat)
    requires Path(pg, ki, n, d) && n <= |pg'| == |ki'|
    requires forall j :: 0 <= j < n ==> pg[j] == pg'[j] && (j < n - 1 ==> ki[j] == ki'[j])
    ensures Path(pg', ki', n, d)
  {
    forall j | 0 <= j < n - 1 ensures Down(pg', ki', j) { assert Down(pg, ki, j); }
  }

  /** The items of a page on the path, seen from its parent. */
  lemma StepDown(pg: seq<Tree>, ki: seq<nat>, n: nat, d: nat)
    requires 1 < n && Path(pg, ki, n, d)
    ensures pg[n - 2].Branch? && ki[n - 2] < |pg[n - 2].kids| && pg[n - 1] == pg[n - 2].kids[ki[n - 2]]
    ensures var kids, i := pg[n - 2].kids, ki[n - 2];
      && Items(pg[n - 2]) == Flat(kids[..i]) + Items(pg[n - 1]) + Flat(kids[i + 1..])
      && Start(pg, ki, n) == Start(pg, ki, n - 1) + |Flat(kids[..i])|
      && End(pg, ki, n) + |Flat(kids[i + 1..])| == End(pg, ki, n - 1)
  {
    hide Items;
    assert Down(pg, ki, n - 2);
    FlatAt(pg[n - 2].kids, ki[n - 2]);
    assert Items(pg[n - 2]) == Flat(pg[n - 2].kids) by { BranchItems(pg[n - 2]); }
  }

  lemma BranchItems(t: Tree)
    requires t.Branch?
    ensures Items(t) == Flat(t.kids)
  {
  }

  /** A page's items are a stretch of the tree's items. */
  lemma {:induction false} ItemsOn(pg: seq<Tree>, ki: seq<nat>, n: nat, d: nat)
    requires Path(pg, ki, n, d)
    ensures Start(pg, ki, n) < End(pg, ki, n) <= |Items(pg[0])|
    ensures Items(pg[0])[Start(pg, ki, n)..End(pg, ki, n)] == Items(pg[n - 1])
  {
    PathShape(pg, ki, n, d);
    NotEmpty(pg[n - 1], d - (n - 1));
    if n > 1 {
      ItemsOn(pg, ki, n - 1, d);
      StepDown(pg, ki, n, d);
      Stretch(Items(pg[0]), Start(pg, ki, n - 1), End(pg, ki, n - 1), Flat(pg[n - 2].kids[..ki[n - 2]]),
        Items(pg[n - 1]), Flat(pg[n - 2].kids[ki[n - 2] + 1..]));
    }
  }

  lemma Stretch(s: seq<Item>, i: nat, j: nat, a: seq<Item>, b: seq<Item>, c: seq<Item>)
    requires i <= j <= |s| && s[i..j] == a + b + c
    ensures i + |a| + |b| <= j && s[i + |a|..i + |a| + |b|] == b
  {
    assert |s[i..j]| == j - i;
    assert forall x :: 0 <= x < |b| ==> s[i + |a| + x] == s[i..j][|a| + x] == b[x];
  }

  // --- Moving to a sibling ---------------------------------------------------------------------

  /** The child after, or before, the one the path goes to. */
  lemma NextKid(pg: seq<Tree>, ki: seq<nat>, n: nat, d: nat)
    requires 1 < n && Path(pg, ki, n, d) && pg[n - 2].Branch?
    ensures ki[n - 2] + 1 < |pg[n - 2].kids| ==> End(pg, ki, n) < End(pg, ki, n - 1)
    ensures ki[n - 2] + 1 < |pg[n - 2].kids| ==>
      Start(pg, ki, n - 1) + |Flat(pg[n - 2].kids[..ki[n - 2] + 1])| == End(pg, ki, n)
    ensures ki[n - 2] + 1 >= |pg[n - 2].kids| ==> End(pg, ki, n) == End(pg, ki, n - 1)
  {
    StepDown(pg, ki, n, d);
    PathShape(pg, ki, n - 1, d);
    var kids, i := pg[n - 2].kids, ki[n - 2];
    FlatAt(kids, i);
    if i + 1 < |kids| {
      NotEmpty(kids[i + 1], d - (n - 1));
      FlatAt(kids[i + 1..], 0);
    } else {
      assert kids[i + 1..] == [];
    }
  }

  lemma PrevKid(pg: seq<Tree>, ki: seq<nat>, n: nat, d: nat)
    requires 1 < n && Path(pg, ki, n, d) && pg[n - 2].Branch? && ki[n - 2] < |pg[n - 2].kids|
    ensures ki[n - 2] > 0 ==> Start(pg, ki, n) > Start(pg, ki, n - 1)
    ensures ki[n - 2] > 0 ==>
      Start(pg, ki, n - 1) + |Flat(pg[n - 2].kids[..ki[n - 2] - 1])| +
          |Items(pg[n - 2].kids[ki[n - 2] - 1])| == Start(pg, ki, n)
    ensures ki[n - 2] == 0 ==> Start(pg, ki, n) == Start(pg, ki, n - 1)
  {
    StepDown(pg, ki, n, d);
    PathShape(pg, ki, n - 1, d);
    var kids, i := pg[n - 2].kids, ki[n - 2];
    if i > 0 {
      FlatAt(kids, i - 1);
      NotEmpty(kids[i - 1], d - (n - 1));
    } else {
      assert kids[..0] == [];
    }
  }

  /** Pushing child `i` of the last page onto the path. */
  lemma Pushed(pg: seq<Tree>, ki: seq<nat>, n: nat, d: nat, i: nat, k: nat)
    requires Path(pg, ki, n, d) && n < d && pg[n - 1].Branch? && i < |pg[n - 1].kids|
    ensures var pg', ki' := pg[..n] + [pg[n - 1].kids[i]], ki[..n - 1] + [i, k];
      && Path(pg', ki', n + 1, d) && pg'[0] == pg[0]
      && Start(pg', ki', n + 1) == Start(pg, ki, n) + |Flat(pg[n - 1].kids[..i])|
      && End(pg', ki', n + 1) == Start(pg, ki, n) + |Flat(pg[n - 1].kids[..i])| + |Items(pg[n - 1].kids[i])|
  {
    var pg', ki' := pg[..n] + [pg[n - 1].kids[i]], ki[..n - 1] + [i, k];
    StartFrame(pg, ki, pg', ki', n);
    forall j | 0 <= j < n ensures Down(pg', ki', j) {
      if j < n - 1 { assert Down(pg, ki, j); }
    }
    PathShape(pg, ki, n, d);
  }

  // --- What a move to a sibling does --------------------------------------------------------------

  /** The cursor went from one path to the next, or previous, page of the same depth. */
  ghost predicate Moved(pg: seq<Tree>, ki: seq<nat>, pg': seq<Tree>, ki': seq<nat>, n: nat, d: nat, right: bool)
    requires 0 < n <= |pg| == |ki|
  {
    && Path(pg', ki', n, d) && pg'[0] == pg[0]
    && if right then Start(pg', ki', n) == End(pg, ki, n) && ki'[n - 1] == 0
       else End(pg', ki', n) == Start(pg, ki, n) && ki'[n - 1] == NumKeys(pg'[n - 1]) - 1
  }

  /** There is a page to go to. */
  ghost predicate CanMove(pg: seq<Tree>, ki: seq<nat>, n: nat, right: bool)
    requires 0 < n <= |pg| == |ki|
  {
    if right then End(pg, ki, n) < |Items(pg[0])| else Start(pg, ki, n) > 0
  }

  lemma MovedIs(pg: seq<Tree>, ki: seq<nat>, pg': seq<Tree>, ki': seq<nat>, n: nat, d: nat, right: bool)
    requires 0 < n <= |pg| == |ki| && Moved(pg, ki, pg', ki', n, d, right)
    ensures Path(pg', ki', n, d) && pg'[0] == pg[0]
  {
  }

  lemma SetLast(ki: seq<nat>, top: nat, i: nat, k: nat)
    requires top < |ki|
    ensures ki[top := i][..top + 1] + [k] == ki[..top] + [i, k]
  {
  }

  /** The root has no siblings. */
  lemma OnlyRoot(pg: seq<Tree>, ki: seq<nat>, d: nat, right: bool)
    requires 1 <= |pg| == |ki|
    ensures !CanMove(pg, ki, 1, right)
  {
  }

  /** The parent has another child on that side. */
  predicate HasSibling(t: Tree, i: nat, right: bool) { if right then i + 1 < NumKeys(t) else i > 0 }

  /** The page `t`, about to be pushed on top of pg[..n - 1]. */
  function Push(pg: seq<Tree>, n: nat, t: Tree): seq<Tree>
    requires n <= |pg|
  {
    pg[..n] + [t]
  }

  function FirstIndex(t: Tree, right: bool): nat { if right || NumKeys(t) == 0 then 0 else NumKeys(t) - 1 }

  /** Moving to the child beside the present one. */
  lemma MovesBeside(pg: seq<Tree>, ki: seq<nat>, n: nat, d: nat, right: bool)
    requires 1 < n && Path(pg, ki, n, d) && pg[n - 2].Branch? && ki[n - 2] < |pg[n - 2].kids|
    requires HasSibling(pg[n - 2], ki[n - 2], right)
    ensures CanMove(pg, ki, n, right)
    ensures var i := if right then ki[n - 2] + 1 else ki[n - 2] - 1;
      var t := pg[n - 2].kids[i];
      Moved(pg, ki, Push(pg, n - 1, t), ki[..n - 2] + [i, FirstIndex(t, right)], n, d, right)
  {
    PathFrame(pg, ki, pg, ki, n - 1, d);
    ItemsOn(pg, ki, n - 1, d);
    PathShape(pg, ki, n - 1, d);
    var i := if right then ki[n - 2] + 1 else ki[n - 2] - 1;
    Pushed(pg, ki, n - 1, d, i, FirstIndex(pg[n - 2].kids[i], right));
    if right { NextKid(pg, ki, n, d); } else { PrevKid(pg, ki, n, d); }
  }

  /** Otherwise it can move exactly if the parent page can, and then goes to the nearest
      child of the page beside the parent. */
  lemma MovesAbove(pg: seq<Tree>, ki: seq<nat>, n: nat, d: nat, right: bool)
    requires 1 < n && Path(pg, ki, n, d) && pg[n - 2].Branch? && ki[n - 2] < |pg[n - 2].kids|
    requires !HasSibling(pg[n - 2], ki[n - 2], right)
    ensures CanMove(pg, ki, n, right) <==> CanMove(pg, ki, n - 1, right)
    ensures if right then End(pg, ki, n) == End(pg, ki, n - 1) else Start(pg, ki, n) == Start(pg, ki, n - 1)
  {
    StepDown(pg, ki, n, d);
    if right { NextKid(pg, ki, n, d); } else { PrevKid(pg, ki, n, d); }
  }

  lemma PushAfterMove(pg: seq<Tree>, ki: seq<nat>, pg': seq<Tree>, ki': seq<nat>, n: nat, d: nat, right: bool)
    requires 1 < n <= |pg| == |ki| && Moved(pg, ki, pg', ki', n - 1, d, right) && n <= d
    requires if right then End(pg, ki, n) == End(pg, ki, n - 1) else Start(pg, ki, n) == Start(pg, ki, n - 1)
    ensures pg'[n - 2].Branch? && ki'[n - 2] < |pg'[n - 2].kids|
    ensures var t := pg'[n - 2].kids[ki'[n - 2]];
      Moved(pg, ki, Push(pg', n - 1, t), ki'[..n - 1] + [FirstIndex(t, right)], n, d, right)
  {
    PathShape(pg', ki', n - 1, d);
    var kids, i := pg'[n - 2].kids, ki'[n - 2];
    Pushed(pg', ki', n - 1, d, i, FirstIndex(kids[i], right));
    assert ki'[..n - 1] == ki'[..n - 2] + [i];
    assert ki'[..n - 1] + [FirstIndex(kids[i], right)] == ki'[..n - 2] + [i, FirstIndex(kids[i], right)];
    assert Shape(kids[i], d - (n - 1));
    if right { assert kids[..0] == []; } else { FlatAt(kids, i); assert kids[i + 1..] == []; BranchItems(pg'[n - 2]); }
  }
}
