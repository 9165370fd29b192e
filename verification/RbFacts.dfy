/** Proofs about trees in cells that the operations of the red-black tree need, and the height bound. */
module RbFacts {
  import Bits
  import opened Common
  import opened RbShape
  import opened RbHeap

  /** Keys in order along an in-order listing. */
  ghost predicate Sorted(key: nat -> int, s: seq<nat>) {
    forall i, j :: 0 <= i < j < |s| ==> key(s[i]) <= key(s[j])
  }

  function TreeHeight(t: Tree): nat {
    if t.Leaf? then 0 else 1 + if TreeHeight(t.l) > TreeHeight(t.r) then TreeHeight(t.l) else TreeHeight(t.r)
  }

  lemma {:induction false} Bounds(t: Tree, bh: nat)
    requires RB(t, bh)
    ensures TreeHeight(t) <= 2 * bh + (if IsRed(t) then 1 else 0) && Bits.Pow2(bh) <= |Flat(t)| + 1
  {
    if t.Node? {
      Bounds(t.l, if t.red then bh else bh - 1);
      Bounds(t.r, if t.red then bh else bh - 1);
    }
  }

  lemma {:induction false} PowSquare(n: nat, m: nat)
    requires n <= 2 * m
    ensures Bits.Pow2(n) <= Bits.Pow2(m) * Bits.Pow2(m)
  {
    if n >= 2 {
      PowSquare(n - 2, m - 1);
      assert Bits.Pow2(n) == 4 * Bits.Pow2(n - 2);
      assert Bits.Pow2(m) * Bits.Pow2(m) == 4 * (Bits.Pow2(m - 1) * Bits.Pow2(m - 1));
    } else {
      PowPositive(m);
      if n == 1 {
        PowPositive(m - 1);
        assert Bits.Pow2(m) * Bits.Pow2(m) == 4 * (Bits.Pow2(m - 1) * Bits.Pow2(m - 1));
      }
    }
  }

  lemma {:induction false} PowPositive(m: nat)
    ensures Bits.Pow2(m) >= 1 && Bits.Pow2(m) * Bits.Pow2(m) >= 1
  {
    if m > 0 { PowPositive(m - 1); }
  }

  /** The height is at most 2 * log2(n + 1). */
  lemma {:induction false} HeightBound(t: Tree)
    requires IsRbTree(t)
    ensures Bits.Pow2(TreeHeight(t)) <= (|Flat(t)| + 1) * (|Flat(t)| + 1)
  {
    var bh :| RB(t, bh);
    Bounds(t, bh);
    PowSquare(TreeHeight(t), bh);
    Squares(Bits.Pow2(bh), |Flat(t)| + 1);
  }

  lemma {:induction false} Squares(a: nat, b: nat)
    requires a <= b
    ensures a * a <= b * b
  {
  }

  /** The child of a node that has at most one, or nil. */
  function OnlyChild(c: Cell): nat {
    if c.left != NIL then c.left else c.right
  }

  lemma {:induction false} MkNode(l: Tree, red: bool, x: nat, r: Tree)
    ensures Mk(false, r, red, x, l) == Node(l, red, x, r)
  {
  }

  lemma {:induction false} OverEl(rel: Ctx, base: Ctx)
    ensures CEl(Over(rel, base)) == CEl(rel) + CEl(base)
  {
    if rel.In? { OverEl(rel.up, base); }
  }

  lemma {:induction false} PlugEl(rel: Ctx, t: Tree)
    ensures El(Plug(rel, t)) == CEl(rel) + El(t)
  {
    if rel.In? { PlugEl(rel.up, Mk(rel.d, t, rel.red, rel.x, rel.sib)); }
  }

  lemma {:induction false} OverPlug(rel: Ctx, base: Ctx, t: Tree)
    ensures Plug(Over(rel, base), t) == Plug(base, Plug(rel, t))
  {
    if rel.In? { OverPlug(rel.up, base, Mk(rel.d, t, rel.red, rel.x, rel.sib)); }
  }

  lemma {:induction false} PlugUp(rel: Ctx, t: Tree)
    requires rel.In?
    ensures Plug(rel, t).Node?
  {
    PlugNode(rel.up, Mk(rel.d, t, rel.red, rel.x, rel.sib));
  }

  /** The successor is a node of its own, below z on the right. */
  lemma {:induction false} Successors(h: Heap, ctx: Ctx, tz: Tree, rel: Ctx, ty: Tree)
    requires tz.Node? && ty.Node? && At(h, Over(rel, In(ctx, false, tz.red, tz.x, tz.l)), ty)
    ensures 1 < ty.x < |h| && ty.x != tz.x && ty.x !in El(tz.l) && ty.x !in CEl(ctx) && ty.x !in El(Plug(rel, ty.r))
  {
    var base := In(ctx, false, tz.red, tz.x, tz.l);
    NodeParts(h, Over(rel, base), ty.l, ty.red, ty.x, ty.r);
    OverEl(rel, base);
    PlugEl(rel, ty.r);
  }

  lemma {:induction false} StillAnchored(h: Heap, h': Heap, rel: Ctx, base: Ctx, base': Ctx, tx: Tree)
    requires 1 < |h| && 1 < |h'| && Anchored(h, Over(rel, base), tx) && At(h', Over(rel, base'), tx)
    requires h'[NIL].parent == if Plug(rel, tx).Leaf? then ParentOf(base') else h[NIL].parent
    ensures Anchored(h', Over(rel, base'), tx)
  {
    hide At;
    if tx.Node? {
      FocusCells(h', Over(rel, base'), tx);
    } else if rel.In? {
      PlugUp(rel, tx);
    }
  }

  lemma {:induction false} CtxRename(rel: Ctx, ctx: Ctx, c: bool, z: nat, y: nat, l: Tree, bh: nat)
    requires CtxRB(Over(rel, In(ctx, false, c, z, l)), bh)
    ensures CtxRB(Over(rel, In(ctx, false, c, y, l)), bh)
  {
    if rel.In? {
      CtxRename(rel.up, ctx, c, z, y, l, if rel.red then bh else bh + 1);
    }
  }

  lemma {:induction false} BasePlug(ctx: Ctx, l: Tree, red: bool, x: nat, r: Tree)
    ensures Plug(In(ctx, false, red, x, l), r) == Plug(ctx, Node(l, red, x, r))
  {
  }

  lemma {:induction false} FlatNode(l: Tree, red: bool, x: nat, r: Tree)
    ensures Flat(Node(l, red, x, r)) == Flat(l) + [x] + Flat(r)
  {
  }

  lemma {:induction false} SuccessorFirst(rel: Ctx, ty: Tree)
    requires ty.Node? && ty.l == Leaf && Before(rel) == []
    ensures Flat(Plug(rel, ty)) == [ty.x] + Flat(Plug(rel, ty.r))
  {
    hide Before, After;
    FlatPlug(rel, ty);
    FlatPlug(rel, ty.r);
    assert Flat(ty) == [ty.x] + Flat(ty.r);
  }

  /** The listing after the successor has taken the node's place. */
  lemma {:induction false} SuccessorList(tree: Tree, ctx: Ctx, tz: Tree, rel: Ctx, ty: Tree)
    requires tree == Plug(ctx, tz) && tz.Node? && Distinct(tree) && tz.r == Plug(rel, ty)
    requires ty.Node? && ty.l == Leaf && Before(rel) == []
    ensures var ctx' := Over(rel, In(ctx, false, tz.red, ty.x, tz.l));
            Before(ctx') + Flat(ty.r) + After(ctx') == Without(Flat(tree), tz.x)
  {
    hide Before, After, Mk, Flat, Plug, Over, Without;
    var base' := In(ctx, false, tz.red, ty.x, tz.l);
    FlatPlug(Over(rel, base'), ty.r);
    OverPlug(rel, base', ty.r);
    BasePlug(ctx, tz.l, tz.red, ty.x, Plug(rel, ty.r));
    var t' := Node(tz.l, tz.red, ty.x, Plug(rel, ty.r));
    FlatPlug(ctx, t');
    FlatPlug(ctx, tz);
    DistinctFlat(tree);
    FlatNode(tz.l, tz.red, tz.x, tz.r);
    FlatNode(tz.l, tz.red, ty.x, Plug(rel, ty.r));
    RemoveMiddle(Before(ctx), Flat(tz.l), tz.x, Flat(tz.r), After(ctx));
    SuccessorFirst(rel, ty);
    assert Flat(t') == Flat(tz.l) + Flat(tz.r);
  }

  /** Black heights seen from inside a valid tree. */
  lemma {:induction false} UnplugRB(ctx: Ctx, t: Tree) returns (bh: nat)
    requires IsRbTree(Plug(ctx, t))
    ensures RB(t, bh) && CtxRB(ctx, bh) && (IsRed(t) ==> ctx.In? && !ctx.red)
  {
    if ctx.Top? {
      bh :| RB(t, bh);
    } else {
      var up := Mk(ctx.d, t, ctx.red, ctx.x, ctx.sib);
      var b := UnplugRB(ctx.up, up);
      bh := if ctx.red then b else b - 1;
    }
  }

  /** Leaving out a black node makes its place lack one; a red one leaves no trace. */
  lemma {:induction false} RemoveShape(ctx: Ctx, ty: Tree, tx: Tree, bh: nat)
    requires RB(ty, bh) && CtxRB(ctx, bh) && ty.Node?
    requires (ty.l == Leaf && tx == ty.r) || (ty.r == Leaf && tx == ty.l)
    ensures !ty.red ==> bh > 0 && Lacking(ctx, tx, bh - 1)
    ensures ty.red ==> RB(tx, bh) && !IsRed(tx)
  {
  }

  lemma {:induction false} LackRename(ctx: Ctx, ctx': Ctx, t: Tree, bh: nat)
    requires Lacking(ctx, t, bh) && CtxRB(ctx', bh + 1)
    ensures Lacking(ctx', t, bh)
  {
  }

  lemma {:induction false} WithoutMiddle(a: seq<nat>, z: nat, b: seq<nat>)
    requires z !in a && z !in b
    ensures Without(a + [z] + b, z) == a + b
  {
    if a == [] {
      assert a + [z] + b == [z] + b;
      WithoutNone(b, z);
    } else {
      assert (a + [z] + b)[1..] == a[1..] + [z] + b;
      WithoutMiddle(a[1..], z, b);
    }
  }

  lemma {:induction false} DistinctFlat(t: Tree)
    requires Distinct(t)
    ensures NoDup(Flat(t))
  {
    if t.Node? {
      DistinctFlat(t.l);
      DistinctFlat(t.r);
      ElFlat(t.l);
      ElFlat(t.r);
      NoDupConcat(Flat(t.l), t.x, Flat(t.r));
    }
  }

  lemma {:induction false} NoDupConcat(a: seq<nat>, z: nat, b: seq<nat>)
    requires NoDup(a) && NoDup(b) && z !in a && z !in b && forall x :: x in a ==> x !in b
    ensures NoDup(a + [z] + b)
  {
    var s := a + [z] + b;
    forall i, j | 0 <= i < j < |s| ensures s[i] != s[j] {
      if i < |a| { assert s[i] in a; }
      if j > |a| { assert s[j] == b[j - |a| - 1]; }
    }
  }

  lemma {:induction false} DistinctAt(h: Heap, t: Tree)
    requires At(h, Top, t)
    ensures Distinct(t)
  {
  }

  /** Removing z from the middle of a listing without repetitions. */
  lemma {:induction false} RemoveMiddle(p: seq<nat>, l: seq<nat>, z: nat, r: seq<nat>, q: seq<nat>)
    requires NoDup(p + (l + [z] + r) + q)
    ensures Without(p + (l + [z] + r) + q, z) == p + (l + r) + q
  {
    assert p + (l + [z] + r) + q == (p + l) + [z] + (r + q);
    NoDupMiddle(p + l, z, r + q);
    WithoutMiddle(p + l, z, r + q);
    assert (p + l) + (r + q) == p + (l + r) + q;
  }

  lemma {:induction false} NoDupMiddle(a: seq<nat>, z: nat, b: seq<nat>)
    requires NoDup(a + [z] + b)
    ensures z !in a && z !in b
  {
    var s := a + [z] + b;
    assert s[|a|] == z;
    assert forall i :: 0 <= i < |a| ==> s[i] == a[i];
    assert forall i :: 0 <= i < |b| ==> s[|a| + 1 + i] == b[i];
  }

  /** The listing after the node is spliced out. */
  lemma {:induction false} RemoveList(tree: Tree, ctx: Ctx, tz: Tree, tx: Tree)
    requires tree == Plug(ctx, tz) && tz.Node? && Distinct(tree)
    requires (tz.l == Leaf && tx == tz.r) || (tz.r == Leaf && tx == tz.l)
    ensures Before(ctx) + Flat(tx) + After(ctx) == Without(Flat(tree), tz.x)
  {
    hide Before, After;
    FlatPlug(ctx, tz);
    DistinctFlat(tree);
    RemoveMiddle(Before(ctx), Flat(tz.l), tz.x, Flat(tz.r), After(ctx));
    assert Flat(tz.l) + Flat(tz.r) == Flat(tx);
  }

  /** Along the listing the comparison never falls back in sign. */
  ghost predicate Grows(compare: nat -> int, s: seq<nat>) {
    forall i, j :: 0 <= i < j < |s| ==>
      (compare(s[i]) >= 0 ==> compare(s[j]) >= 0) && (compare(s[i]) > 0 ==> compare(s[j]) > 0)
  }

  /** Everything on the side that is left behind compares like the node. */
  lemma {:induction false} SearchStep(compare: nat -> int, s: seq<nat>, ctx: Ctx, t: Tree, left: bool)
    requires Grows(compare, s) && t.Node? && s == Before(ctx) + Flat(t) + After(ctx)
    requires (forall x :: x in Before(ctx) ==> compare(x) < 0) && (forall x :: x in After(ctx) ==> compare(x) > 0)
    requires if left then compare(t.x) > 0 else compare(t.x) < 0
    ensures var ctx' := In(ctx, left, t.red, t.x, Sub(t, !left));
            (forall x :: x in Before(ctx') ==> compare(x) < 0) && (forall x :: x in After(ctx') ==> compare(x) > 0)
  {
    hide Before, After;
    var a, c := Flat(t.l), Flat(t.r);
    var m := |Before(ctx)| + |a|;
    assert s[m] == t.x;
    if left {
      forall i | 0 <= i < |c| ensures compare(c[i]) > 0 {
        assert s[m + 1 + i] == c[i];
      }
    } else {
      forall i | 0 <= i < |a| ensures compare(a[i]) < 0 {
        assert s[|Before(ctx)| + i] == a[i];
      }
    }
    BeforeAfter(ctx, left, t.red, t.x, Sub(t, !left));
  }

  lemma {:induction false} SearchEnd(h: Heap, ctx: Ctx, t: Tree, node: nat)
    requires At(h, ctx, t) && node == RootOf(t)
    ensures node == NIL ==> Flat(t) == []
    ensures node != NIL ==> node in Flat(t)
  {
    hide Before, After;
  }

  /** y follows x in the listing (d) or precedes it (!d); nil stands for none. */
  ghost predicate IsNeighbour(s: seq<nat>, x: nat, y: nat, d: bool) {
    exists i :: NeighbourAt(s, i, x, y, d)
  }

  ghost predicate NeighbourAt(s: seq<nat>, i: int, x: nat, y: nat, d: bool) {
    0 <= i < |s| && s[i] == x &&
    y == if d then (if i + 1 < |s| then s[i + 1] else NIL) else (if i > 0 then s[i - 1] else NIL)
  }

  lemma {:induction false} TopEmpty()
    ensures Before(Top) == [] && After(Top) == []
  {
  }

  /** A relative context on top of another one. */
  ghost function Over(rel: Ctx, base: Ctx): Ctx {
    if rel.Top? then base else rel.(up := Over(rel.up, base))
  }

  lemma {:induction false} OverAt(h: Heap, rel: Ctx, base: Ctx, t: Tree)
    ensures At(h, Over(rel, base), t) <==> At(h, base, Plug(rel, t))
  {
    hide At;
    if rel.In? {
      Shift(h, Over(rel.up, base), rel.d, t, rel.red, rel.x, rel.sib);
      OverAt(h, rel.up, base, Mk(rel.d, t, rel.red, rel.x, rel.sib));
    }
  }

  /** The point of view moved to node z. */
  lemma {:induction false} Zoom(h: Heap, ctx0: Ctx, t0: Tree, z: nat) returns (ctx: Ctx, t: Tree)
    requires At(h, ctx0, t0) && z in El(t0)
    ensures At(h, ctx, t) && t.Node? && t.x == z && 1 < z < |h| && Plug(ctx, t) == Plug(ctx0, t0)
    decreases t0
  {
    if t0.x == z {
      ctx, t := ctx0, t0;
      FocusCells(h, ctx, t);
    } else if z in El(t0.l) {
      Shift(h, ctx0, true, t0.l, t0.red, t0.x, t0.r);
      ctx, t := Zoom(h, In(ctx0, true, t0.red, t0.x, t0.r), t0.l, z);
    } else {
      Shift(h, ctx0, false, t0.r, t0.red, t0.x, t0.l);
      ctx, t := Zoom(h, In(ctx0, false, t0.red, t0.x, t0.l), t0.r, z);
    }
  }

  lemma {:induction false} BelowNeighbour(ctx: Ctx, t: Tree, d: bool, rel: Ctx, ty: Tree)
    requires t.Node? && Sub(t, !d) == Plug(rel, ty) && ty.Node? && Sub(ty, d) == Leaf
    requires if d then Before(rel) == [] else After(rel) == []
    ensures IsNeighbour(Before(ctx) + Flat(t) + After(ctx), t.x, ty.x, d)
  {
    hide Before, After;
    FlatPlug(rel, ty);
    var s := Before(ctx) + Flat(t) + After(ctx);
    var i := |Before(ctx)| + |Flat(t.l)|;
    assert s[i] == t.x;
    if d {
      assert s[i + 1] == Flat(t.r)[0] == ty.x;
    } else {
      assert s[i - 1] == Flat(t.l)[|Flat(t.l)| - 1] == ty.x;
    }
    assert NeighbourAt(s, i, t.x, ty.x, d);
  }

  lemma {:induction false} ClimbStart(ctx: Ctx, t: Tree, d: bool)
    requires t.Node? && Sub(t, !d).Leaf?
    ensures Flat(t) != [] && (if d then Flat(t)[|Flat(t)| - 1] == t.x else Flat(t)[0] == t.x)
  {
  }

  lemma {:induction false} Climb(h: Heap, ctx: Ctx, t: Tree, d: bool, node: nat)
    requires 1 < |h| && At(h, ctx, t) && t.Node? && ctx.In? && t.x == h[ctx.x].Child(!d)
    requires Flat(t) != [] && (if d then Flat(t)[|Flat(t)| - 1] == node else Flat(t)[0] == node)
    ensures ctx.d == !d
    ensures var t' := Mk(ctx.d, t, ctx.red, ctx.x, ctx.sib);
            && At(h, ctx.up, t') && Flat(t') != []
            && (if d then Flat(t')[|Flat(t')| - 1] == node else Flat(t')[0] == node)
            && Before(ctx.up) + Flat(t') + After(ctx.up) == Before(ctx) + Flat(t) + After(ctx)
  {
    hide Before, After;
    HoleFacts(h, ctx, t);
    Shift(h, ctx.up, ctx.d, t, ctx.red, ctx.x, ctx.sib);
    FlatFocus(ctx.up, ctx.d, t, ctx.red, ctx.x, ctx.sib);
  }

  lemma {:induction false} ClimbEnd(h: Heap, ctx: Ctx, t: Tree, d: bool, node: nat, y: nat)
    requires 1 < |h| && At(h, ctx, t) && t.Node? && y == ParentOf(ctx) < |h| && (y == ROOT || t.x != h[y].Child(!d))
    requires Flat(t) != [] && (if d then Flat(t)[|Flat(t)| - 1] == node else Flat(t)[0] == node)
    ensures IsNeighbour(Before(ctx) + Flat(t) + After(ctx), node, if y == ROOT then NIL else y, d)
  {
    HoleFacts(h, ctx, t);
    AboveCell(h, ctx, t.x);
    var s := Before(ctx) + Flat(t) + After(ctx);
    var i := if d then |Before(ctx)| + |Flat(t)| - 1 else |Before(ctx)|;
    assert s[i] == node;
    if ctx.In? {
      assert ctx.d == d;
      if d {
        assert s[i + 1] == After(ctx)[0] == ctx.x;
      } else {
        assert s[i - 1] == Before(ctx)[|Before(ctx)| - 1] == ctx.x;
      }
    }
    assert NeighbourAt(s, i, node, if y == ROOT then NIL else y, d);
  }

  lemma {:induction false} NodeParts(h: Heap, ctx: Ctx, l: Tree, c: bool, z: nat, r: Tree)
    requires At(h, ctx, Node(l, c, z, r))
    ensures 1 < z < |h| && h[z] == Cell(c, ParentOf(ctx), RootOf(l), RootOf(r)) && IsTree(h, l, z) && IsTree(h, r, z)
    ensures IsCtx(h, ctx, z) && z !in El(l) && z !in El(r) && El(l) !! El(r)
    ensures z !in CEl(ctx) && El(l) !! CEl(ctx) && El(r) !! CEl(ctx)
  {
  }

  lemma {:induction false} SpliceFacts(h: Heap, ctx: Ctx, ty: Tree, tx: Tree)
    requires 1 < |h| && At(h, ctx, ty) && ty.Node?
    requires (ty.l == Leaf && tx == ty.r) || (ty.r == Leaf && tx == ty.l)
    ensures 1 < ty.x < |h| && h[ty.x].parent == ParentOf(ctx) && 1 <= ParentOf(ctx) < |h| && ParentOf(ctx) != ty.x
    ensures RootOf(tx) < |h| && RootOf(tx) != ty.x && RootOf(tx) != ParentOf(ctx)
    ensures if ctx.In? then h[ParentOf(ctx)].Child(ctx.d) == ty.x && h[ParentOf(ctx)].Child(!ctx.d) != ty.x
            else h[ParentOf(ctx)].Child(true) == ty.x && h[ParentOf(ctx)].Child(false) != ty.x
  {
    hide At, IsTree, IsCtx, Distinct, CDistinct, El, CEl;
    NodeParts(h, ctx, ty.l, ty.red, ty.x, ty.r);
    CtxNodes(h, ctx, ty.x);
    TreeNodes(h, tx, ty.x);
    RootIn(tx);
    ParentIn(ctx);
    HoleSide(h, ctx, ty.x);
  }

  lemma {:induction false} SpliceTree(h: Heap, h': Heap, ctx: Ctx, ty: Tree, tx: Tree)
    requires 1 < |h| && At(h, ctx, ty) && ty.Node? && |h'| == |h|
    requires (ty.l == Leaf && tx == ty.r) || (ty.r == Leaf && tx == ty.l)
    requires ParentOf(ctx) < |h| && RootOf(tx) < |h| && RootOf(tx) != ParentOf(ctx)
    requires h'[ParentOf(ctx)] == Hung(h[ParentOf(ctx)], ctx, RootOf(tx))
             && h'[RootOf(tx)] == h[RootOf(tx)].(parent := ParentOf(ctx))
    requires forall x :: 0 <= x < |h| && x != ParentOf(ctx) && x != RootOf(tx) ==> h'[x] == h[x]
    ensures At(h', ctx, tx) && Anchored(h', ctx, tx)
  {
    hide CDistinct, Hung;
    CtxNodes(h, ctx, ty.x);
    TreeNodes(h, tx, ty.x);
    RootIn(tx);
    ParentIn(ctx);
    Reparent(h, h', tx, ty.x, ParentOf(ctx));
    Rehang(h, h', ctx, ty.x, tx);
  }

  lemma {:induction false} HoleFacts(h: Heap, ctx: Ctx, t: Tree)
    requires At(h, ctx, t) && t.Node?
    ensures ParentOf(ctx) < |h|
    ensures if ctx.In? then h[ParentOf(ctx)].Child(ctx.d) == t.x && h[ParentOf(ctx)].Child(!ctx.d) != t.x
            else h[ParentOf(ctx)].Child(true) == t.x && h[ParentOf(ctx)].Child(false) != t.x
  {
    hide CEl, Distinct, CDistinct;
    NodeParts(h, ctx, t.l, t.red, t.x, t.r);
    HoleSide(h, ctx, t.x);
  }

  lemma {:induction false} PlaceFacts(h: Heap, ctx: Ctx, l: Tree, c: bool, z: nat, r: Tree, y: nat)
    requires 1 < |h| && At(h, ctx, Node(l, c, z, r)) && l.Node?
    requires 1 < y < |h| && y != z && y !in El(l) && y !in El(r) && y !in CEl(ctx)
    ensures 1 < z < |h| && h[z] == Cell(c, ParentOf(ctx), RootOf(l), RootOf(r)) && 1 <= ParentOf(ctx) < |h|
            && ParentOf(ctx) != z && ParentOf(ctx) != y
    ensures 1 < l.x < |h| && l.x != z && l.x != y && l.x != ParentOf(ctx) && l.x != RootOf(r)
    ensures RootOf(r) < |h| && RootOf(r) != z && RootOf(r) != y && RootOf(r) != ParentOf(ctx)
            && (r.Node? ==> RootOf(r) > 1)
  {
    hide At, IsTree, IsCtx, Distinct, CDistinct, El, CEl;
    NodeParts(h, ctx, l, c, z, r);
    ParentIn(ctx);
    AboveCell(h, ctx, z);
    RootIn(l);
    RootIn(r);
    TreeRoot(h, l, z);
    TreeRoot(h, r, z);
  }

  lemma {:induction false} TreeRoot(h: Heap, t: Tree, p: nat)
    requires IsTree(h, t, p)
    ensures t.Node? ==> 1 < t.x < |h|
  {
  }

  lemma {:induction false} AboveCell(h: Heap, ctx: Ctx, n: nat)
    requires IsCtx(h, ctx, n)
    ensures 1 < |h| && 1 <= ParentOf(ctx) < |h| && (ctx.In? ==> ctx.x > 1)
  {
  }

  lemma {:induction false} PlaceTree(h: Heap, h': Heap, ctx: Ctx, l: Tree, c: bool, z: nat, r: Tree, y: nat)
    requires 1 < |h| && At(h, ctx, Node(l, c, z, r)) && l.Node? && |h'| == |h| && z < |h|
    requires 1 < y < |h| && y != z && y !in El(l) && y !in El(r) && y !in CEl(ctx)
    requires ParentOf(ctx) < |h| && l.x < |h| && RootOf(r) < |h| && l.x != RootOf(r) && ParentOf(ctx) != y
             && l.x != y && RootOf(r) != y
    requires l.x != ParentOf(ctx) && RootOf(r) != ParentOf(ctx)
    requires h'[ParentOf(ctx)] == Hung(h[ParentOf(ctx)], ctx, y) && h'[y] == h[z]
    requires h'[l.x] == h[l.x].(parent := y) && h'[RootOf(r)] == h[RootOf(r)].(parent := y)
    requires forall x :: 0 <= x < |h| && x != ParentOf(ctx) && x != y && x != l.x && x != RootOf(r) ==> h'[x] == h[x]
    ensures At(h', ctx, Node(l, c, y, r))
  {
    hide CDistinct, Hung;
    CtxNodes(h, ctx, z);
    TreeNodes(h, l, z);
    TreeNodes(h, r, z);
    RootIn(l);
    RootIn(r);
    ParentIn(ctx);
    Reparent(h, h', l, z, y);
    Reparent(h, h', r, z, y);
    Rehang(h, h', ctx, z, Node(l, c, y, r));
  }

  lemma {:induction false} FinishShape(ctx: Ctx, t: Tree, bh: nat)
    requires Lacking(ctx, t, bh) && (ctx.Top? || IsRed(t))
    ensures IsRbTree(Plug(ctx, Blacken(t))) && Flat(Blacken(t)) == Flat(t)
  {
    if IsRed(t) {
      PlugRB(ctx, Blacken(t), bh + 1);
    } else {
      assert RB(Blacken(t), bh);
    }
  }

  /** What the loop condition and the side test of rb_delete_fixup find. */
  ghost predicate FixTests(h: Heap, ctx: Ctx, t: Tree, x: nat, root: nat) {
    && x < |h| && h[x].red == IsRed(t)
    && (!IsRed(t) ==>
          && (x == root <==> ctx.Top?)
          && (ctx.In? ==> ctx.x < |h| && h[x].parent == ctx.x && (x == h[ctx.x].left <==> ctx.d)))
  }

  lemma {:induction false} FixCells(h: Heap, ctx: Ctx, t: Tree, bh: nat, root: nat)
    requires 1 < |h| && !h[NIL].red && At(h, ctx, t) && Lacking(ctx, t, bh) && Anchored(h, ctx, t)
    requires !IsRed(t) ==> TopNode(ctx, t) == root
    ensures FixTests(h, ctx, t, RootOf(t), root)
  {
    hide CDistinct, Distinct, CtxRB;
    RootIn(t);
    if t.Node? { FocusCells(h, ctx, t); }
    if ctx.In? {
      SiblingRB(ctx, bh + 1);
      RootIn(ctx.sib);
      TopInCtx(h, ctx, RootOf(t), t);
    }
  }

  lemma {:induction false} TopInCtx(h: Heap, ctx: Ctx, n: nat, t: Tree)
    requires IsCtx(h, ctx, n) && ctx.In?
    ensures TopNode(ctx, t) in CEl(ctx) && TopNode(ctx, t) > 1
  {
    if ctx.up.In? { TopInCtx(h, ctx.up, ctx.x, t); }
  }

  /** The left child of the root sentinel is the topmost node. */
  lemma {:induction false} TopCell(h: Heap, ctx: Ctx, t: Tree)
    requires At(h, ctx, t)
    ensures 1 < |h| && h[ROOT].left == TopNode(ctx, t)
  {
    if ctx.In? {
      Shift(h, ctx.up, ctx.d, t, ctx.red, ctx.x, ctx.sib);
      TopCell(h, ctx.up, Mk(ctx.d, t, ctx.red, ctx.x, ctx.sib));
      if ctx.up.In? { TopAny(ctx.up, t, Mk(ctx.d, t, ctx.red, ctx.x, ctx.sib)); }
    }
  }

  lemma {:induction false} TopAny(ctx: Ctx, t: Tree, t': Tree)
    requires ctx.In?
    ensures TopNode(ctx, t) == TopNode(ctx, t')
  {
    if ctx.up.In? { TopAny(ctx.up, t, t'); }
  }

  lemma {:induction false} NodeAnchored(h: Heap, ctx: Ctx, t: Tree)
    requires At(h, ctx, t) && t.Node?
    ensures Anchored(h, ctx, t)
  {
    FocusCells(h, ctx, t);
  }

  /** Moving up one node keeps the topmost node. */
  lemma {:induction false} TopMove(ctx: Ctx, t: Tree, t': Tree, root: nat)
    requires ctx.In? && TopNode(ctx, t) == root && RootOf(t') == ctx.x
    ensures TopNode(ctx.up, t') == root
  {
    if ctx.up.In? { TopAny(ctx.up, t, t'); }
  }

  /** The saved root is the parent or a black node above it. */
  lemma {:induction false} TopFacts(ctx: Ctx, t: Tree, bh: nat, root: nat)
    requires ctx.In? && Lacking(ctx, t, bh) && TopNode(ctx, t) == root
    ensures root == ctx.x || BlackIn(ctx.up, root)
  {
    if ctx.up.In? {
      TopBlack(ctx.up, t, if ctx.red then bh + 1 else bh + 2);
    }
  }

  lemma {:induction false} TopBlack(ctx: Ctx, t: Tree, bh: nat)
    requires ctx.In? && CtxRB(ctx, bh)
    ensures BlackIn(ctx, TopNode(ctx, t))
  {
    if ctx.up.In? { TopBlack(ctx.up, t, if ctx.red then bh else bh + 1); }
  }

  /** A red sibling has black children and a black parent, and rotating it up keeps the lack. */
  lemma {:induction false} RedSiblingShape(ctx: Ctx, t: Tree, bh: nat, root: nat)
    requires ctx.In? && Lacking(ctx, t, bh) && ctx.sib.Node? && ctx.sib.red && !IsRed(t)
    requires root == ctx.x || BlackIn(ctx.up, root)
    ensures !ctx.red && ctx == In(ctx.up, ctx.d, false, ctx.x, ctx.sib)
    ensures var ctx1 := In(In(ctx.up, ctx.d, false, ctx.sib.x, Sub(ctx.sib, !ctx.d)), ctx.d, true, ctx.x,
              Sub(ctx.sib, ctx.d));
            && Lacking(ctx1, t, bh) && !IsRed(ctx1.sib) && (root == ctx1.x || BlackIn(ctx1.up, root))
            && Before(ctx1) + Flat(t) + After(ctx1) == Before(ctx) + Flat(t) + After(ctx)
  {
    hide Before, After, Flat;
    var d, p, W := ctx.d, ctx.x, ctx.sib;
    var a, b := Sub(W, d), Sub(W, !d);
    RBMk(d, a, W.x, b, bh + 1);
    assert CtxRB(In(ctx.up, d, false, W.x, b), bh + 1);
    FlatFocus(ctx.up, d, t, false, p, W);
    FlatFocus(In(ctx.up, d, false, W.x, b), d, t, true, p, a);
    FlatFocus(ctx.up, d, Mk(d, t, true, p, a), false, W.x, b);
    FlatRotate(d, t, true, p, a, false, W.x, b);
    FlatColour(d, a, true, false, W.x, b);
    FlatSame(d, t, t, false, true, p, W, Mk(d, a, false, W.x, b));
  }

  /** The subtree has one black node too few for its context, which painting its root black
      would supply if that root is red. */
  ghost predicate Lacking(ctx: Ctx, t: Tree, bh: nat) {
    && CtxRB(ctx, bh + 1)
    && (if IsRed(t) then RB(Blacken(t), bh + 1) else RB(t, bh))
  }

  /** The node in focus points to its parent, even when it is nil. */
  ghost predicate Anchored(h: Heap, ctx: Ctx, t: Tree) {
    RootOf(t) < |h| && h[RootOf(t)].parent == ParentOf(ctx)
  }

  /** The topmost node. */
  ghost function TopNode(ctx: Ctx, t: Tree): nat {
    if ctx.Top? then RootOf(t) else if ctx.up.Top? then ctx.x else TopNode(ctx.up, t)
  }

  /** r is a black node on the way up. */
  ghost predicate BlackIn(ctx: Ctx, r: nat) {
    ctx.In? && ((ctx.x == r && !ctx.red) || BlackIn(ctx.up, r))
  }

  lemma {:induction false} SiblingCell(h: Heap, ctx: Ctx, t: Tree)
    requires At(h, ctx, t) && ctx.In?
    ensures ctx.x < |h| && h[ctx.x].Child(!ctx.d) == RootOf(ctx.sib)
  {
  }

  /** The sibling of a lacking subtree is a node, and its children's colours are in the heap. */
  lemma {:induction false} SiblingCells(h: Heap, ctx: Ctx, t: Tree, bh: nat)
    requires 1 < |h| && !h[NIL].red && At(h, ctx, t) && ctx.In? && Lacking(ctx, t, bh)
    ensures ctx.x < |h| && h[ctx.x].Child(!ctx.d) == RootOf(ctx.sib) && ctx.sib.Node? && 1 < ctx.sib.x < |h|
    ensures h[ctx.sib.x].red == ctx.sib.red
    ensures forall d ::
              && h[ctx.sib.x].Child(d) == RootOf(Sub(ctx.sib, d)) < |h|
              && h[RootOf(Sub(ctx.sib, d))].red == IsRed(Sub(ctx.sib, d))
  {
    hide CtxRB;
    SiblingRB(ctx, bh + 1);
    assert IsTree(h, ctx.sib, ctx.x);
    forall d ensures h[RootOf(Sub(ctx.sib, d))].red == IsRed(Sub(ctx.sib, d)) && RootOf(Sub(ctx.sib, d)) < |h| {
      assert IsTree(h, Sub(ctx.sib, d), ctx.sib.x);
    }
  }

  /** The colour rules of a node, on either side. */
  lemma {:induction false} RBMk(d: bool, a: Tree, x: nat, b: Tree, bh: nat)
    ensures RB(Mk(d, a, false, x, b), bh + 1) <==> RB(a, bh) && RB(b, bh)
    ensures RB(Mk(d, a, true, x, b), bh) <==> RB(a, bh) && RB(b, bh) && !IsRed(a) && !IsRed(b)
  {
  }

  lemma {:induction false} SiblingRB(ctx: Ctx, bh: nat)
    requires ctx.In? && CtxRB(ctx, bh)
    ensures RB(ctx.sib, bh)
  {
  }

  lemma {:induction false} NephewsShape(up: Ctx, d: bool, c: bool, p: nat, t: Tree, W: Tree, bh: nat)
    requires Lacking(In(up, d, c, p, W), t, bh) && !IsRed(t) && W.Node? && !W.red && !IsRed(W.l) && !IsRed(W.r)
    ensures var t' := Mk(d, t, c, p, W.(red := true));
            && Lacking(up, t', if c then bh else bh + 1) && IsRed(t') == c && RootOf(t') == p && t'.Node?
            && Before(up) + Flat(t') + After(up) == Before(In(up, d, c, p, W)) + Flat(t) + After(In(up, d, c, p, W))
  {
    hide Before, After;
    var W' := W.(red := true);
    assert RB(W', bh);
    FlatFocus(up, d, t, c, p, W);
    FlatSame(d, t, t, c, c, p, W, W');
  }

  lemma {:induction false} NearShape(up: Ctx, d: bool, c: bool, p: nat, t: Tree, w: nat, n: Tree, f: Tree, bh: nat)
    requires Lacking(In(up, d, c, p, Mk(d, n, false, w, f)), t, bh) && n.Node? && n.red && !IsRed(f)
    ensures var ctx, ctx' := In(up, d, c, p, Mk(d, n, false, w, f)),
                             In(up, d, c, p, Mk(d, Sub(n, d), false, n.x, Mk(d, Sub(n, !d), true, w, f)));
            && Lacking(ctx', t, bh) && RootOf(ctx'.sib) == n.x
            && Before(ctx') + Flat(t) + After(ctx') == Before(ctx) + Flat(t) + After(ctx)
  {
    hide Before, After;
    var W, W' := Mk(d, n, false, w, f), Mk(d, Sub(n, d), false, n.x, Mk(d, Sub(n, !d), true, w, f));
    SiblingRB(In(up, d, c, p, W), bh + 1);
    RBMk(d, n, w, f, bh);
    RBMk(d, Sub(n, d), n.x, Sub(n, !d), bh);
    RBMk(d, Sub(n, !d), w, f, bh);
    RBMk(d, Sub(n, d), n.x, Mk(d, Sub(n, !d), true, w, f), bh);
    FlatRotate(d, Sub(n, d), true, n.x, Sub(n, !d), false, w, f);
    FlatColour(d, Sub(n, d), false, true, n.x, Mk(d, Sub(n, !d), false, w, f));
    FlatSame(d, Sub(n, d), Sub(n, d), true, false, n.x, Mk(d, Sub(n, !d), false, w, f), Mk(d, Sub(n, !d), true, w, f));
    assert Flat(W') == Flat(W);
    FlatFocus(up, d, t, c, p, W);
    FlatFocus(up, d, t, c, p, W');
    FlatSame(d, t, t, c, c, p, W, W');
  }

  lemma {:induction false} FarShape(h: Heap, up: Ctx, d: bool, c: bool, p: nat, t: Tree, w: nat, n: Tree, f: Tree,
      bh: nat, root: nat)
    requires Lacking(In(up, d, c, p, Mk(d, n, false, w, f)), t, bh) && !IsRed(t) && f.Node? && f.red
    requires At(h, up, Mk(d, Mk(d, t, false, p, n), c, w, Blacken(f))) && (root == p || BlackIn(up, root))
    ensures var r := Mk(d, Mk(d, t, false, p, n), c, w, Blacken(f));
            && At(h, Top, Plug(up, r)) && IsRbTree(Plug(up, r)) && root < |h| && !h[root].red
            && Before(Top) + Flat(Plug(up, r)) + After(Top) ==
               Before(In(up, d, c, p, Mk(d, n, false, w, f))) + Flat(t) + After(In(up, d, c, p, Mk(d, n, false, w, f)))
  {
    hide Before, After, At;
    var r := Mk(d, Mk(d, t, false, p, n), c, w, Blacken(f));
    SiblingRB(In(up, d, c, p, Mk(d, n, false, w, f)), bh + 1);
    RBMk(d, n, w, f, bh);
    RBMk(d, Sub(f, d), f.x, Sub(f, !d), bh);
    RBMk(d, t, p, n, bh);
    RBMk(d, Mk(d, t, false, p, n), w, Blacken(f), bh + 1);
    PlugRB(up, r, if c then bh + 1 else bh + 2);
    TopOf(h, up, r);
    FarRoot(h, up, d, Mk(d, t, false, p, n), c, w, Blacken(f), root);
    FlatPlug(up, r);
    FlatRotate(d, t, false, p, n, c, w, Blacken(f));
    FlatSame(d, n, n, false, c, w, f, Blacken(f));
    FlatSame(d, t, t, c, false, p, Mk(d, n, false, w, f), Mk(d, n, c, w, Blacken(f)));
    FlatFocus(up, d, t, c, p, Mk(d, n, false, w, f));
    TopLists(Flat(Plug(up, r)));
  }

  lemma {:induction false} TopLists(s: seq<nat>)
    ensures Before(Top) + s + After(Top) == s
  {
  }

  /** The saved root is black when the loop ends. */
  lemma {:induction false} FarRoot(h: Heap, up: Ctx, d: bool, a: Tree, c: bool, w: nat, b: Tree, root: nat)
    requires At(h, up, Mk(d, a, c, w, b)) && a.Node? && !a.red && (root == a.x || BlackIn(up, root))
    ensures root < |h| && !h[root].red
  {
    if root == a.x {
      Shift(h, up, d, a, c, w, b);
      FocusCells(h, In(up, d, c, w, b), a);
    } else {
      BlackCell(h, up, w, root);
    }
  }

  lemma {:induction false} BlackCell(h: Heap, ctx: Ctx, n: nat, r: nat)
    requires IsCtx(h, ctx, n) && BlackIn(ctx, r)
    ensures r < |h| && !h[r].red
  {
    if !(ctx.x == r && !ctx.red) {
      BlackCell(h, ctx.up, ctx.x, r);
    }
  }

  lemma {:induction false} NephewCell(h: Heap, ctx: Ctx, d: bool, a: Tree, red: bool, x: nat, b: Tree)
    requires At(h, In(ctx, d, red, x, b), a)
    ensures x < |h| && h[x].Child(d) == RootOf(a)
  {
  }

  ghost predicate Below(key: nat -> int, s: seq<nat>, k: int) {
    forall i :: 0 <= i < |s| ==> key(s[i]) <= k
  }

  ghost predicate Above(key: nat -> int, s: seq<nat>, k: int) {
    forall i :: 0 <= i < |s| ==> key(s[i]) > k
  }

  /** How many nodes at the front are not greater than z. */
  ghost function Rank(key: nat -> int, s: seq<nat>, z: nat): (n: nat)
    ensures n <= |s|
  {
    if s == [] || key(s[0]) > key(z) then 0 else 1 + Rank(key, s[1..], z)
  }

  ghost function Placed(key: nat -> int, s: seq<nat>, z: nat): seq<nat> {
    s[..Rank(key, s, z)] + [z] + s[Rank(key, s, z)..]
  }

  lemma {:induction false} RankHere(key: nat -> int, a: seq<nat>, b: seq<nat>, z: nat)
    requires Below(key, a, key(z)) && Above(key, b, key(z))
    ensures Rank(key, a + b, z) == |a|
  {
    if a != [] {
      assert (a + b)[0] == a[0] && (a + b)[1..] == a[1..] + b;
      RankHere(key, a[1..], b, z);
    } else {
      assert a + b == b;
    }
  }

  lemma {:induction false} PlacedHere(key: nat -> int, a: seq<nat>, b: seq<nat>, z: nat)
    requires Sorted(key, a + b) && Below(key, a, key(z)) && Above(key, b, key(z))
    ensures Placed(key, a + b, z) == a + Flat(Node(Leaf, true, z, Leaf)) + b
    ensures Sorted(key, a + Flat(Node(Leaf, true, z, Leaf)) + b)
    ensures forall x :: x in a + Flat(Node(Leaf, true, z, Leaf)) + b <==> x in a + b || x == z
  {
    RankHere(key, a, b, z);
    assert Flat(Node(Leaf, true, z, Leaf)) == [z];
    SortedParts(key, a, b);
  }

  lemma {:induction false} SortedParts(key: nat -> int, a: seq<nat>, b: seq<nat>)
    requires Sorted(key, a + b)
    ensures Sorted(key, a) && Sorted(key, b) && forall i, j :: 0 <= i < |a| && 0 <= j < |b| ==> key(a[i]) <= key(b[j])
  {
    var s := a + b;
    assert forall i :: 0 <= i < |a| ==> s[i] == a[i];
    assert forall j :: 0 <= j < |b| ==> s[|a| + j] == b[j];
  }

  lemma {:induction false} ElFlat(t: Tree)
    ensures forall x :: x in El(t) <==> x in Flat(t)
  {
    if t.Node? {
      ElFlat(t.l);
      ElFlat(t.r);
    }
  }

  lemma {:induction false} LeafRB(z: nat)
    ensures RB(Node(Leaf, true, z, Leaf), 0)
  {
  }

  /** Black height of a valid tree. */
  ghost function Height(t: Tree): nat
    requires IsRbTree(t)
    ensures RB(t, Height(t))
  {
    var bh :| RB(t, bh); bh
  }

  /** Where the descent stands: the subtree and its context still form the listed tree. */
  ghost predicate OnPath(ctx: Ctx, t: Tree, bh: nat, s: seq<nat>, z: nat) {
    && RB(t, bh) && CtxRB(ctx, bh) && (IsRed(t) ==> ctx.In? && !ctx.red)
    && Before(ctx) + Flat(t) + After(ctx) == s && z !in El(t) && z !in CEl(ctx)
  }

  lemma {:induction false} StartDescent(h: Heap, t: Tree, key: nat -> int, k: int)
    requires At(h, Top, t) && IsRbTree(t)
    ensures 1 < |h| && h[ROOT].left == RootOf(t) && Below(key, Before(Top), k) && Above(key, After(Top), k)
    ensures forall z :: z !in El(t) ==> OnPath(Top, t, Height(t), Flat(t), z)
  {
  }

  /** Cells of nodes outside the tree do not matter. */
  lemma {:induction false} Outsider(h: Heap, h': Heap, t: Tree, z: nat)
    requires At(h, Top, t) && |h'| == |h| && z > 1 && z !in El(t)
             && forall x :: 0 <= x < |h| && x != z ==> h'[x] == h[x]
    ensures At(h', Top, t)
  {
    TreeFrame(h, h', t, ROOT);
  }

  lemma {:induction false} Descend(h: Heap, ctx: Ctx, t: Tree, bh: nat, whole: Tree, z: nat, left: bool,
      key: nat -> int)
    requires At(h, ctx, t) && t.Node? && t.x < |h| && OnPath(ctx, t, bh, Flat(whole), z) && Sorted(key, Flat(whole))
    requires left == (key(t.x) > key(z)) && Below(key, Before(ctx), key(z)) && Above(key, After(ctx), key(z))
    ensures var ctx' := In(ctx, left, t.red, t.x, Sub(t, !left));
            && At(h, ctx', Sub(t, left)) && h[t.x].Child(left) == RootOf(Sub(t, left)) && Sub(t, left) < t
            && (t.red || bh > 0) && OnPath(ctx', Sub(t, left), if t.red then bh else bh - 1, Flat(whole), z)
            && Below(key, Before(ctx'), key(z)) && Above(key, After(ctx'), key(z))
  {
    hide At, Flat, Before, After, Sorted, Distinct, CDistinct;
    Shift(h, ctx, left, Sub(t, left), t.red, t.x, Sub(t, !left));
    ChildCell(h, ctx, t, left);
    FlatFocus(ctx, left, Sub(t, left), t.red, t.x, Sub(t, !left));
    DescendOrder(ctx, t, z, left, key);
  }

  lemma {:induction false} ChildCell(h: Heap, ctx: Ctx, t: Tree, d: bool)
    requires At(h, ctx, t) && t.Node?
    ensures 1 < t.x < |h| && h[t.x].Child(d) == RootOf(Sub(t, d)) && (Sub(t, d).Node? ==> Sub(t, d).x != NIL)
  {
    assert IsTree(h, Sub(t, d), t.x);
  }

  lemma {:induction false} DescendOrder(ctx: Ctx, t: Tree, z: nat, left: bool, key: nat -> int)
    requires t.Node? && Sorted(key, Before(ctx) + Flat(t) + After(ctx))
    requires left == (key(t.x) > key(z)) && Below(key, Before(ctx), key(z)) && Above(key, After(ctx), key(z))
    ensures var ctx' := In(ctx, left, t.red, t.x, Sub(t, !left));
            Below(key, Before(ctx'), key(z)) && Above(key, After(ctx'), key(z))
  {
    hide Sorted, Before, After;
    var a, b, c := Flat(t.l), [t.x], Flat(t.r);
    SortedParts(key, Before(ctx) + Flat(t), After(ctx));
    SortedParts(key, Before(ctx), Flat(t));
    SortedParts(key, a + b, c);
    SortedParts(key, a, b);
    BeforeAfter(ctx, left, t.red, t.x, Sub(t, !left));
    assert (a + b)[|a|] == t.x;
    assert b[0] == t.x;
  }

  lemma {:induction false} BeforeAfter(ctx: Ctx, d: bool, red: bool, x: nat, sib: Tree)
    ensures Before(In(ctx, d, red, x, sib)) == if d then Before(ctx) else Before(ctx) + Flat(sib) + [x]
    ensures After(In(ctx, d, red, x, sib)) == if d then [x] + Flat(sib) + After(ctx) else After(ctx)
  {
  }

  lemma {:induction false} EndDescent(h: Heap, ctx: Ctx, t: Tree, bh: nat, whole: Tree, z: nat)
    requires At(h, ctx, t) && RootOf(t) == NIL && OnPath(ctx, t, bh, Flat(whole), z) && z > 1
    ensures t == Leaf && bh == 0 && CtxRB(ctx, 0) && Flat(whole) == Before(ctx) + After(ctx) && z !in CEl(ctx)
    ensures 1 <= ParentOf(ctx) < |h| && ParentOf(ctx) != z && (ParentOf(ctx) == ROOT <==> ctx.Top?)
  {
    CtxNodes(h, ctx, NIL);
    ParentIn(ctx);
    assert Before(ctx) + [] + After(ctx) == Before(ctx) + After(ctx);
  }

  /** The comparison after the loop picks the side the search ended on. */
  lemma {:induction false} SideTaken(ctx: Ctx, key: nat -> int, k: int)
    requires Below(key, Before(ctx), k) && Above(key, After(ctx), k)
    ensures ctx.In? ==> ctx.d == (key(ctx.x) > k)
  {
    if ctx.In? {
      if ctx.d {
        assert After(ctx)[0] == ctx.x;
      } else {
        assert Before(ctx)[|Before(ctx)| - 1] == ctx.x;
      }
    }
  }

  lemma {:induction false} HangLeaf(h: Heap, h': Heap, ctx: Ctx, z: nat)
    requires At(h, ctx, Leaf) && 1 < z < |h| && z !in CEl(ctx) && |h'| == |h|
    requires ParentOf(ctx) < |h| && ParentOf(ctx) != z && h'[ParentOf(ctx)] == Hung(h[ParentOf(ctx)], ctx, z)
    requires h'[z].parent == ParentOf(ctx) && h'[z].left == NIL && h'[z].right == NIL
    requires forall x :: 0 <= x < |h| && x != z && x != ParentOf(ctx) ==> h'[x] == h[x]
    ensures At(h', ctx, Node(Leaf, h'[z].red, z, Leaf))
  {
    Rehang(h, h', ctx, NIL, Node(Leaf, h'[z].red, z, Leaf));
  }

  /** A whole tree whose only fault is a red root is repaired by blackening it. */
  lemma {:induction false} BlackenWhole(ctx: Ctx, t: Tree, bh: nat)
    requires RB(t, bh) && CtxRB(ctx, bh) && !RedAbove(ctx) && t.Node?
    ensures Plug(ctx, t).Node? && IsRbTree(Blacken(Plug(ctx, t))) && Flat(Blacken(Plug(ctx, t))) == Flat(Plug(ctx, t))
  {
    if ctx.Top? {
      if t.red {
        assert RB(Blacken(t), bh + 1);
      } else {
        assert RB(Blacken(t), bh);
      }
    } else {
      PlugRB(ctx, t, bh);
      PlugNode(ctx, t);
    }
  }

  lemma {:induction false} PlugNode(ctx: Ctx, t: Tree)
    requires t.Node?
    ensures Plug(ctx, t).Node?
  {
    if ctx.In? { PlugNode(ctx.up, Mk(ctx.d, t, ctx.red, ctx.x, ctx.sib)); }
  }

  function Depth(ctx: Ctx): nat {
    if ctx.In? then 1 + Depth(ctx.up) else 0
  }

  /** The whole tree, seen from the top. */
  lemma {:induction false} TopOf(h: Heap, ctx: Ctx, t: Tree)
    requires At(h, ctx, t)
    ensures At(h, Top, Plug(ctx, t))
  {
    hide At;
    if ctx.In? {
      Shift(h, ctx.up, ctx.d, t, ctx.red, ctx.x, ctx.sib);
      TopOf(h, ctx.up, Mk(ctx.d, t, ctx.red, ctx.x, ctx.sib));
    }
  }

  lemma {:induction false} RootCell(h: Heap, t: Tree)
    requires At(h, Top, t)
    ensures 1 < |h| && h[ROOT].left == RootOf(t)
  {
  }

  /** The cells of the node in focus and of its parent. */
  lemma {:induction false} FocusCells(h: Heap, ctx: Ctx, t: Tree)
    requires At(h, ctx, t) && t.Node?
    ensures 1 < t.x < |h| && h[t.x].parent == ParentOf(ctx) < |h| && h[ParentOf(ctx)].red == RedAbove(ctx)
    ensures h[t.x].red == t.red
  {
  }

  /** Below a red parent: the grandparent is a black node, and the side tests find the sides. */
  lemma {:induction false} UncleCells(h: Heap, ctx: Ctx, t: Tree, bh: nat)
    requires At(h, ctx, t) && t.Node? && RedAbove(ctx) && CtxRB(ctx, bh) && 1 < |h| && !h[NIL].red
    ensures ctx.up.In? && !ctx.up.red && ctx.x < |h| && h[ctx.x].parent == ctx.up.x < |h|
    ensures (ctx.x == h[ctx.up.x].left) == ctx.up.d
    ensures h[ctx.up.x].Child(!ctx.up.d) == RootOf(ctx.up.sib) < |h| && h[RootOf(ctx.up.sib)].red == IsRed(ctx.up.sib)
    ensures forall d :: (t.x == h[ctx.x].Child(d)) == (d == ctx.d)
  {
    RootIn(ctx.sib);
    RootIn(ctx.up.sib);
    assert IsCtx(h, ctx.up, ctx.x);
    assert IsTree(h, ctx.up.sib, ctx.up.x);
  }

  lemma {:induction false} RecolourShape(up: Ctx, d: bool, u: Tree, dp: bool, t: Tree, s: Tree, g: nat, p: nat, bh: nat)
    requires CtxRB(In(In(up, d, false, g, u), dp, true, p, s), bh) && RB(t, bh) && u.Node? && u.red
    ensures var t' := Mk(d, Mk(dp, t, false, p, s), true, g, Blacken(u));
            && RB(t', bh + 1) && CtxRB(up, bh + 1) && t'.Node? && t'.red && t'.x == g
            && Before(up) + Flat(t') + After(up) ==
               Before(In(In(up, d, false, g, u), dp, true, p, s)) + Flat(t)
                 + After(In(In(up, d, false, g, u), dp, true, p, s))
  {
    hide CtxRB, RB, Flat, Before, After;
    RecolourBalance(up, d, u, dp, t, s, g, p, bh);
    var ctx := In(In(up, d, false, g, u), dp, true, p, s);
    var gctx := In(up, d, false, g, u);
    FlatFocus(gctx, dp, t, true, p, s);
    FlatColour(dp, t, true, false, p, s);
    FlatFocus(up, d, Mk(dp, t, true, p, s), false, g, u);
    FlatSame(d, Mk(dp, t, true, p, s), Mk(dp, t, false, p, s), false, true, g, u, Blacken(u));
  }

  lemma {:induction false} RecolourBalance(up: Ctx, d: bool, u: Tree, dp: bool, t: Tree, s: Tree, g: nat, p: nat,
      bh: nat)
    requires CtxRB(In(In(up, d, false, g, u), dp, true, p, s), bh) && RB(t, bh) && u.Node? && u.red
    ensures var t' := Mk(d, Mk(dp, t, false, p, s), true, g, Blacken(u));
            RB(t', bh + 1) && CtxRB(up, bh + 1) && t'.Node? && t'.red && t'.x == g && Flat(Blacken(u)) == Flat(u)
  {
    assert RB(Blacken(u), bh + 1);
    assert RB(Mk(dp, t, false, p, s), bh + 1);
  }

  /** The listing does not depend on the point of view. */
  lemma {:induction false} FlatFocus(up: Ctx, d: bool, t: Tree, red: bool, x: nat, sib: Tree)
    ensures Before(In(up, d, red, x, sib)) + Flat(t) + After(In(up, d, red, x, sib)) ==
            Before(up) + Flat(Mk(d, t, red, x, sib)) + After(up)
  {
    Regroup(Before(up), Flat(t), [x], Flat(sib), After(up));
    Regroup(Before(up), Flat(sib), [x], Flat(t), After(up));
  }

  /** Nor on colours. */
  lemma {:induction false} FlatColour(d: bool, t: Tree, red: bool, red': bool, x: nat, s: Tree)
    ensures Flat(Mk(d, t, red, x, s)) == Flat(Mk(d, t, red', x, s))
  {
  }

  lemma {:induction false} FlatSame(d: bool, t: Tree, t': Tree, red: bool, red': bool, x: nat, s: Tree, s': Tree)
    requires Flat(t') == Flat(t) && Flat(s') == Flat(s)
    ensures Flat(Mk(d, t', red', x, s')) == Flat(Mk(d, t, red, x, s))
  {
  }

  /** A rotation keeps the listing. */
  lemma {:induction false} FlatRotate(d: bool, a: Tree, cx: bool, x: nat, b: Tree, cy: bool, y: nat, c: Tree)
    ensures Flat(Mk(d, Mk(d, a, cx, x, b), cy, y, c)) == Flat(Mk(d, a, cx, x, Mk(d, b, cy, y, c)))
  {
    Regroup(Flat(a), [x], Flat(b), [y], Flat(c));
    Regroup(Flat(c), [y], Flat(b), [x], Flat(a));
  }

  lemma {:induction false} InnerShape(gctx: Ctx, d: bool, t: Tree, s: Tree, p: nat, bh: nat)
    requires CtxRB(In(gctx, !d, true, p, s), bh) && RB(t, bh) && t.Node? && t.red && gctx.In?
    ensures var t' := Mk(d, s, true, p, Sub(t, d));
            var ctx' := In(gctx, d, true, t.x, Sub(t, !d));
            && RB(t', bh) && CtxRB(ctx', bh) && t'.Node? && t'.red && t'.x == p
            && Before(ctx') + Flat(t') + After(ctx') ==
               Before(In(gctx, !d, true, p, s)) + Flat(t) + After(In(gctx, !d, true, p, s))
  {
    FlatFocus(gctx, !d, t, true, p, s);
    FlatFocus(gctx, d, Mk(d, s, true, p, Sub(t, d)), true, t.x, Sub(t, !d));
    FlatRotate(d, s, true, p, Sub(t, d), true, t.x, Sub(t, !d));
  }

  lemma {:induction false} OuterShape(up: Ctx, d: bool, u: Tree, t: Tree, s: Tree, g: nat, p: nat, bh: nat)
    requires CtxRB(In(In(up, d, false, g, u), d, true, p, s), bh) && RB(t, bh) && !IsRed(u)
    ensures var ctx' := In(up, d, false, p, Mk(d, s, true, g, u));
            && CtxRB(ctx', bh)
            && Before(ctx') + Flat(t) + After(ctx') ==
               Before(In(In(up, d, false, g, u), d, true, p, s)) + Flat(t)
                 + After(In(In(up, d, false, g, u), d, true, p, s))
  {
    FlatFocus(In(up, d, false, g, u), d, t, true, p, s);
    FlatFocus(up, d, Mk(d, t, true, p, s), false, g, u);
    FlatFocus(up, d, t, false, p, Mk(d, s, true, g, u));
    FlatRotate(!d, u, true, g, s, false, p, t);
    FlatColour(d, Mk(d, t, true, p, s), false, true, g, u);
    FlatSame(d, Mk(d, t, true, p, s), Mk(d, t, false, p, s), false, true, g, u, u);
  }

  /** The cells a rotation reads and writes. */
  lemma {:induction false} RotateFacts(h: Heap, ctx: Ctx, d: bool, a: Tree, cx: bool, x: nat, b: Tree, cy: bool,
      y: nat, c: Tree)
    requires 1 < |h| && At(h, ctx, Mk(d, a, cx, x, Mk(d, b, cy, y, c)))
    ensures 1 < x < |h| && 1 < y < |h| && x != y && 1 <= ParentOf(ctx) < |h| && ParentOf(ctx) != x && ParentOf(ctx) != y
    ensures h[x].Child(!d) == y && h[x].parent == ParentOf(ctx) && h[y].Child(d) == RootOf(b)
    ensures b.Node? ==> 1 < b.x < |h| && b.x != x && b.x != y && b.x != ParentOf(ctx)
    ensures if ctx.In? then h[ParentOf(ctx)].Child(ctx.d) == x && h[ParentOf(ctx)].Child(!ctx.d) != x
            else h[ParentOf(ctx)].Child(true) == x && h[ParentOf(ctx)].Child(false) != x
  {
    hide Distinct, CDistinct, El, CEl, IsTree;
    var ty := Mk(d, b, cy, y, c);
    MkTree(h, d, b, cy, y, c, x);
    MkTree(h, d, a, cx, x, ty, ParentOf(ctx));
    CtxNodes(h, ctx, x);
    TreeNodes(h, ty, x);
    RootIn(b);
    HoleSide(h, ctx, x);
    ParentIn(ctx);
  }

  lemma {:induction false} CellFacts(c: Cell, d: bool, v: nat)
    ensures c.WithChild(d, v).Child(d) == v && c.WithChild(d, v).Child(!d) == c.Child(!d)
    ensures c.WithChild(d, v).parent == c.parent && c.WithChild(d, v).red == c.red
  {
  }

  lemma {:induction false} ParentIn(ctx: Ctx)
    ensures ctx.In? ==> ctx.x in CEl(ctx)
  {
  }

  /** Only the hole of a context points to its subtree. */
  lemma {:induction false} HoleSide(h: Heap, ctx: Ctx, x: nat)
    requires IsCtx(h, ctx, x) && x > 1 && x !in CEl(ctx)
    ensures ctx.In? ==> 1 < ctx.x < |h| && h[ctx.x].Child(ctx.d) == x && h[ctx.x].Child(!ctx.d) != x
    ensures ctx.Top? ==> h[ROOT].left == x && h[ROOT].right != x
  {
    if ctx.In? { RootIn(ctx.sib); }
  }
}
