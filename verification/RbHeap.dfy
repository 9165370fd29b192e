/** Linked nodes holding a red-black tree: which cells represent which tree, and what the
    link changes of a rotation or a recolouring do to it. */
module RbHeap {
  import opened Common
  import opened RbShape

  /** The sentinels: `nil` stands for every missing child, and the left child of `root` is the
      topmost node. */
  const NIL: nat := 0
  const ROOT: nat := 1

  datatype Cell = Cell(red: bool, parent: nat, left: nat, right: nat) {
    function Child(d: bool): nat {
      if d then left else right
    }

    function WithChild(d: bool, v: nat): Cell {
      if d then this.(left := v) else this.(right := v)
    }
  }

  type Heap = seq<Cell>

  function RootOf(t: Tree): nat {
    if t.Node? then t.x else NIL
  }

  function ParentOf(ctx: Ctx): nat {
    if ctx.In? then ctx.x else ROOT
  }

  /** A node's cell with the given child on side `d` and the other opposite. */
  function MkCell(d: bool, red: bool, parent: nat, a: nat, b: nat): Cell {
    if d then Cell(red, parent, a, b) else Cell(red, parent, b, a)
  }

  /** The cells at and below the root of `t` hold `t`, with `p` above it. */
  ghost predicate IsTree(h: Heap, t: Tree, p: nat) {
    match t
    case Leaf => true
    case Node(l, red, x, r) =>
      1 < x < |h| && h[x] == Cell(red, p, RootOf(l), RootOf(r)) && IsTree(h, l, x) && IsTree(h, r, x)
  }

  /** The cells around the hole hold `ctx`, with `n` hanging in the hole. */
  ghost predicate IsCtx(h: Heap, ctx: Ctx, n: nat) {
    match ctx
    case Top => 1 < |h| && h[ROOT] == Cell(false, NIL, n, NIL)
    case In(up, d, red, x, sib) =>
      1 < x < |h| && h[x] == MkCell(d, red, ParentOf(up), n, RootOf(sib)) && IsTree(h, sib, x) && IsCtx(h, up, x)
  }

  /** The heap holds `t` in context `ctx`. */
  ghost predicate At(h: Heap, ctx: Ctx, t: Tree) {
    && IsCtx(h, ctx, RootOf(t)) && IsTree(h, t, ParentOf(ctx))
    && Distinct(t) && CDistinct(ctx) && El(t) !! CEl(ctx)
  }

  /** Moving the point of view between a node and its child. */
  lemma {:induction false} Shift(h: Heap, ctx: Ctx, d: bool, a: Tree, red: bool, x: nat, b: Tree)
    ensures At(h, ctx, Mk(d, a, red, x, b)) <==> At(h, In(ctx, d, red, x, b), a)
  {
  }

  lemma {:induction false} TreeNodes(h: Heap, t: Tree, p: nat)
    requires IsTree(h, t, p)
    ensures forall x :: x in El(t) ==> 1 < x < |h|
  {
    match t
    case Leaf =>
    case Node(l, red, x, r) =>
      TreeNodes(h, l, x);
      TreeNodes(h, r, x);
  }

  lemma {:induction false} CtxNodes(h: Heap, ctx: Ctx, n: nat)
    requires IsCtx(h, ctx, n)
    ensures forall x :: x in CEl(ctx) ==> 1 < x < |h|
    ensures 1 < |h| && ParentOf(ctx) in CEl(ctx) + {ROOT}
  {
    match ctx
    case Top =>
    case In(up, d, red, x, sib) =>
      TreeNodes(h, sib, x);
      CtxNodes(h, up, x);
  }

  /** A tree does not depend on other cells. */
  lemma {:induction false} TreeFrame(h: Heap, h': Heap, t: Tree, p: nat)
    requires IsTree(h, t, p) && |h'| == |h| && forall x :: x in El(t) && x < |h| ==> h'[x] == h[x]
    ensures IsTree(h', t, p)
  {
    match t
    case Leaf =>
    case Node(l, red, x, r) =>
      TreeFrame(h, h', l, x);
      TreeFrame(h, h', r, x);
  }

  lemma {:induction false} CtxFrame(h: Heap, h': Heap, ctx: Ctx, n: nat)
    requires IsCtx(h, ctx, n) && |h'| == |h| && forall x :: x in CEl(ctx) + {ROOT} && x < |h| ==> h'[x] == h[x]
    ensures IsCtx(h', ctx, n)
  {
    match ctx
    case Top =>
    case In(up, d, red, x, sib) =>
      TreeFrame(h, h', sib, x);
      CtxFrame(h, h', up, x);
  }

  /** The same tree under another parent. */
  lemma {:induction false} Reparent(h: Heap, h': Heap, t: Tree, p: nat, p': nat)
    requires IsTree(h, t, p) && Distinct(t) && |h'| == |h|
    requires forall x :: x in El(t) && x < |h| ==> h'[x] == if x == RootOf(t) then h[x].(parent := p') else h[x]
    ensures IsTree(h', t, p')
  {
    match t
    case Leaf =>
    case Node(l, red, x, r) =>
      TreeFrame(h, h', l, x);
      TreeFrame(h, h', r, x);
  }

  /** The cell above the hole after `n` is hung into it. */
  ghost function Hung(above: Cell, ctx: Ctx, n: nat): Cell {
    above.WithChild(if ctx.In? then ctx.d else true, n)
  }

  /** Hanging another tree into the hole. */
  lemma {:induction false} Rehang(h: Heap, h': Heap, ctx: Ctx, n: nat, t: Tree)
    requires IsCtx(h, ctx, n) && CDistinct(ctx) && |h'| == |h|
    requires ParentOf(ctx) < |h| && h'[ParentOf(ctx)] == Hung(h[ParentOf(ctx)], ctx, RootOf(t))
    requires forall x :: x in CEl(ctx) + {ROOT} && x < |h| && x != ParentOf(ctx) ==> h'[x] == h[x]
    requires IsTree(h', t, ParentOf(ctx)) && Distinct(t) && El(t) !! CEl(ctx)
    ensures At(h', ctx, t)
  {
    match ctx
    case Top =>
    case In(up, d, red, x, sib) =>
      CtxNodes(h, up, x);
      TreeFrame(h, h', sib, x);
      CtxFrame(h, h', up, x);
  }

  /** Recolouring the node in focus. */
  lemma {:induction false} Recolour(h: Heap, ctx: Ctx, t: Tree, red: bool)
    requires At(h, ctx, t) && t.Node? && t.x < |h|
    ensures At(h[t.x := h[t.x].(red := red)], ctx, t.(red := red))
  {
    var h' := h[t.x := h[t.x].(red := red)];
    CtxNodes(h, ctx, t.x);
    TreeFrame(h, h', t.l, t.x);
    TreeFrame(h, h', t.r, t.x);
    CtxFrame(h, h', ctx, t.x);
  }

  lemma {:induction false} RootIn(t: Tree)
    ensures t.Node? ==> t.x in El(t)
  {
  }

  /** Mk, cell by cell. */
  lemma {:induction false} MkTree(h: Heap, d: bool, a: Tree, red: bool, x: nat, b: Tree, p: nat)
    ensures IsTree(h, Mk(d, a, red, x, b), p) <==>
              1 < x < |h| && h[x] == MkCell(d, red, p, RootOf(a), RootOf(b)) && IsTree(h, a, x) && IsTree(h, b, x)
    ensures Distinct(Mk(d, a, red, x, b)) <==>
              x !in El(a) && x !in El(b) && El(a) !! El(b) && Distinct(a) && Distinct(b)
    ensures El(Mk(d, a, red, x, b)) == El(a) + {x} + El(b) && RootOf(Mk(d, a, red, x, b)) == x
  {
  }

  /** Rotation: x goes down on side d and its child y on the other side takes its place. */
  lemma {:induction false} Rotated(h: Heap, h': Heap, ctx: Ctx, d: bool, a: Tree, cx: bool, x: nat, b: Tree,
      cy: bool, y: nat, c: Tree)
    requires At(h, ctx, Mk(d, a, cx, x, Mk(d, b, cy, y, c))) && |h'| == |h| && 1 < |h|
    requires x < |h| && y < |h| && ParentOf(ctx) < |h|
    requires h'[x] == h[x].WithChild(!d, RootOf(b)).(parent := y)
    requires h'[y] == h[y].(parent := ParentOf(ctx)).WithChild(d, x)
    requires h'[ParentOf(ctx)] == Hung(h[ParentOf(ctx)], ctx, y)
    requires forall z: nat :: z < |h| && z != x && z != y && z != ParentOf(ctx) ==>
               h'[z] == if b.Node? && z == b.x then h[z].(parent := x) else h[z]
    ensures At(h', ctx, Mk(d, Mk(d, a, cx, x, b), cy, y, c))
  {
    hide IsCtx, CDistinct, Hung, Mk, IsTree, Distinct, El, CEl;
    var ty, tx := Mk(d, b, cy, y, c), Mk(d, a, cx, x, b);
    var t, t' := Mk(d, a, cx, x, ty), Mk(d, tx, cy, y, c);
    MkTree(h, d, b, cy, y, c, x);
    MkTree(h, d, a, cx, x, ty, ParentOf(ctx));
    CtxNodes(h, ctx, x);
    TreeNodes(h, t, ParentOf(ctx));
    RootIn(b);
    TreeFrame(h, h', a, x);
    TreeFrame(h, h', c, y);
    Reparent(h, h', b, y, x);
    MkTree(h', d, a, cx, x, b, y);
    MkTree(h', d, tx, cy, y, c, ParentOf(ctx));
    Rehang(h, h', ctx, x, t');
  }
}
