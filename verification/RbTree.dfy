/** The red-black tree of libs/rb_tree.c: nodes are indices into `h`, and `tree` is the value
    the cells represent. */
module RbTree {
  import opened Common
  import opened RbShape
  import opened RbHeap
  import opened RbFacts

  class RbTree {
    var h: Heap
    ghost var tree: Tree

    ghost predicate Valid()
      reads this
    {
      1 < |h| && !h[NIL].red && At(h, Top, tree) && IsRbTree(tree)
    }

    /** rb_tree_create, for `n` nodes that may join and leave the tree. */
    constructor (n: nat)
      ensures Valid() && |h| == n + 2 && tree == Leaf
    {
      h := seq(n + 2, _ => Cell(false, NIL, NIL, NIL));
      tree := Leaf;
      new;
      assert RB(Leaf, 0);
    }

    /** Whichever child of p was x is now y; side d is looked at first. */
    method ReplaceChild(p: nat, d: bool, x: nat, y: nat, ghost ctx: Ctx)
      requires p < |h| && ParentOf(ctx) == p
      requires if ctx.In? then h[p].Child(ctx.d) == x && h[p].Child(!ctx.d) != x
               else h[p].Child(true) == x && h[p].Child(false) != x
      modifies this
      ensures tree == old(tree) && h == old(h)[p := Hung(old(h)[p], ctx, y)]
    {
      if x == h[p].Child(d) {
        h := h[p := h[p].WithChild(d, y)];
      } else {
        h := h[p := h[p].WithChild(!d, y)];
      }
    }

    /** FUNC_ROTATE, with d as `_left`. */
    method Rotate(x: nat, d: bool, ghost ctx: Ctx, ghost a: Tree, ghost cx: bool, ghost b: Tree, ghost cy: bool,
        ghost y0: nat, ghost c: Tree)
      requires 1 < |h| && At(h, ctx, Mk(d, a, cx, x, Mk(d, b, cy, y0, c)))
      modifies this
      ensures tree == old(tree) && |h| == |old(h)| && h[NIL] == old(h)[NIL]
      ensures At(h, ctx, Mk(d, Mk(d, a, cx, x, b), cy, y0, c))
    {
      hide At, IsTree, IsCtx, Distinct, CDistinct, El, CEl, Mk, Hung, Cell.WithChild, Cell.Child;
      RotateFacts(h, ctx, d, a, cx, x, b, cy, y0, c);
      ghost var h0 := h;
      var y := h[x].Child(!d);
      CellFacts(h[x], !d, h[y].Child(d));
      CellFacts(h[y].(parent := h[x].parent), d, x);
      h := h[x := h[x].WithChild(!d, h[y].Child(d))];
      if h[y].Child(d) != NIL {
        h := h[h[y].Child(d) := h[h[y].Child(d)].(parent := x)];
      }
      h := h[y := h[y].(parent := h[x].parent)];
      var p := h[x].parent;
      ReplaceChild(p, d, x, y, ctx);
      h := h[y := h[y].WithChild(d, x)];
      h := h[x := h[x].(parent := y)];
      Rotated(h0, h, ctx, d, a, cx, x, b, cy, y, c);
    }

    method SetRed(x: nat, red: bool, ghost ctx: Ctx, ghost t: Tree)
      requires 1 < |h| && At(h, ctx, t) && t.Node? && t.x == x
      modifies this
      ensures tree == old(tree) && |h| == |old(h)| && h[NIL] == old(h)[NIL]
      ensures At(h, ctx, t.(red := red))
    {
      Recolour(h, ctx, t, red);
      h := h[x := h[x].(red := red)];
    }

    /** The red uncle: parent and uncle become black, the grandparent red. */
    method InsertRecolour(ghost up: Ctx, ghost dd: bool, ghost u: Tree, ghost dp: bool, ghost t: Tree, ghost s: Tree,
        g: nat, p: nat, y: nat)
      requires 1 < |h| && At(h, In(In(up, dd, false, g, u), dp, true, p, s), t) && u.Node? && u.x == y
      modifies this
      ensures tree == old(tree) && |h| == |old(h)| && h[NIL] == old(h)[NIL]
      ensures At(h, up, Mk(dd, Mk(dp, t, false, p, s), true, g, Blacken(u)))
    {
      hide At, IsTree, IsCtx, Distinct, CDistinct, El, CEl;
      ghost var gctx := In(up, dd, false, g, u);
      Shift(h, gctx, dp, t, true, p, s);
      SetRed(p, false, gctx, Mk(dp, t, true, p, s));
      ghost var P := Mk(dp, t, false, p, s);
      Shift(h, up, dd, P, false, g, u);
      Shift(h, up, !dd, u, false, g, P);
      SetRed(y, false, In(up, !dd, false, g, P), u);
      Shift(h, up, !dd, Blacken(u), false, g, P);
      SetRed(g, true, up, Mk(dd, P, false, g, Blacken(u)));
    }

    /** The inner grandchild: rotate it above its parent. */
    method InsertInner(ghost gctx: Ctx, dd: bool, ghost t: Tree, ghost s: Tree, p: nat)
      requires 1 < |h| && At(h, In(gctx, !dd, true, p, s), t) && t.Node?
      modifies this
      ensures tree == old(tree) && |h| == |old(h)| && h[NIL] == old(h)[NIL]
      ensures At(h, In(gctx, dd, t.red, t.x, Sub(t, !dd)), Mk(dd, s, true, p, Sub(t, dd)))
    {
      hide At, IsTree, IsCtx, Distinct, CDistinct, El, CEl;
      Shift(h, gctx, !dd, t, true, p, s);
      Rotate(p, dd, gctx, s, true, Sub(t, dd), t.red, t.x, Sub(t, !dd));
      Shift(h, gctx, dd, Mk(dd, s, true, p, Sub(t, dd)), t.red, t.x, Sub(t, !dd));
    }

    /** The outer grandchild: parent black, grandparent red and rotated below the parent. */
    method InsertOuter(ghost up: Ctx, dd: bool, ghost u: Tree, ghost t: Tree, ghost s: Tree, g: nat, p: nat)
      requires 1 < |h| && At(h, In(In(up, dd, false, g, u), dd, true, p, s), t)
      modifies this
      ensures tree == old(tree) && |h| == |old(h)| && h[NIL] == old(h)[NIL]
      ensures At(h, In(up, dd, false, p, Mk(dd, s, true, g, u)), t)
    {
      hide At, IsTree, IsCtx, Distinct, CDistinct, El, CEl;
      ghost var gctx := In(up, dd, false, g, u);
      Shift(h, gctx, dd, t, true, p, s);
      SetRed(p, false, gctx, Mk(dd, t, true, p, s));
      ghost var P := Mk(dd, t, false, p, s);
      Shift(h, up, dd, P, false, g, u);
      SetRed(g, true, up, Mk(dd, P, false, g, u));
      Rotate(g, !dd, up, u, true, s, false, p, t);
      Shift(h, up, dd, t, false, p, Mk(dd, s, true, g, u));
    }

    /** The loop of rb_insert: the only fault left is a red node below a red node. */
    method InsertFixup(z: nat, ghost ctx0: Ctx, ghost t0: Tree, ghost bh0: nat)
      requires 1 < |h| && !h[NIL].red && At(h, ctx0, t0) && t0.Node? && t0.red && t0.x == z
      requires RB(t0, bh0) && CtxRB(ctx0, bh0)
      modifies this
      ensures Valid() && |h| == |old(h)| && Flat(tree) == Before(ctx0) + Flat(t0) + After(ctx0)
    {
      hide At, IsTree, IsCtx, Distinct, CDistinct, El, CEl, Mk, Flat, Before, After;
      var x := z;
      ghost var ctx, t, bh := ctx0, t0, bh0;
      while true
        invariant |h| == |old(h)| && !h[NIL].red && At(h, ctx, t) && t.Node? && t.red && t.x == x
        invariant RB(t, bh) && CtxRB(ctx, bh)
        invariant Before(ctx) + Flat(t) + After(ctx) == Before(ctx0) + Flat(t0) + After(ctx0)
        decreases Depth(ctx)
      {
        FocusCells(h, ctx, t);
        if !h[h[x].parent].red {
          break;
        }
        UncleCells(h, ctx, t, bh);
        var p := h[x].parent;
        var g := h[p].parent;
        var d := p == h[g].left;
        var y := h[g].Child(!d);
        ghost var up, u, dp, s := ctx.up.up, ctx.up.sib, ctx.d, ctx.sib;
        assert Depth(ctx) == 1 + Depth(ctx.up) == 2 + Depth(up);
        if h[y].red {
          InsertRecolour(up, d, u, dp, t, s, g, p, y);
          RecolourShape(up, d, u, dp, t, s, g, p, bh);
          x := g;
          ctx, t, bh := up, Mk(d, Mk(dp, t, false, p, s), true, g, Blacken(u)), bh + 1;
        } else {
          if x == h[p].Child(!d) {
            InsertInner(ctx.up, d, t, s, p);
            InnerShape(ctx.up, d, t, s, p, bh);
            ctx, t := In(ctx.up, d, true, x, Sub(t, !d)), Mk(d, s, true, p, Sub(t, d));
            x, p := p, x;
          }
          InsertOuter(up, d, u, t, ctx.sib, g, p);
          OuterShape(up, d, u, t, ctx.sib, g, p, bh);
          ctx := In(up, d, false, p, Mk(d, ctx.sib, true, g, u));
        }
      }
      FinishInsert(ctx, t, bh);
    }

    /** tree->root->left->red = 0, once no red node has a red parent. */
    method FinishInsert(ghost ctx: Ctx, ghost t: Tree, ghost bh: nat)
      requires 1 < |h| && !h[NIL].red && At(h, ctx, t) && t.Node? && t.red && RB(t, bh) && CtxRB(ctx, bh)
               && !RedAbove(ctx)
      modifies this
      ensures Valid() && |h| == |old(h)| && Flat(tree) == Before(ctx) + Flat(t) + After(ctx)
    {
      hide At, IsTree, IsCtx, Distinct, CDistinct, El, CEl;
      TopOf(h, ctx, t);
      ghost var whole := Plug(ctx, t);
      FlatPlug(ctx, t);
      BlackenWhole(ctx, t, bh);
      RootCell(h, whole);
      SetRed(h[ROOT].left, false, Top, whole);
      tree := Blacken(whole);
    }

    /** rb_insert_binary: hang z below the last node of the search path. */
    method InsertBinary(z: nat, key: nat -> int) returns (ghost ctx: Ctx)
      requires Valid() && 1 < z < |h| && z !in El(tree) && Sorted(key, Flat(tree))
      modifies this
      ensures |h| == |old(h)| && h[NIL] == old(h)[NIL] && CtxRB(ctx, 0) && z < |h|
      ensures At(h, ctx, Node(Leaf, h[z].red, z, Leaf)) && Flat(tree) == Before(ctx) + After(ctx) && tree == old(tree)
      ensures Below(key, Before(ctx), key(z)) && Above(key, After(ctx), key(z))
    {
      hide At, IsTree, IsCtx, Distinct, CDistinct, El, CEl, Mk, Flat, Before, After, RB, CtxRB, Below, Above;
      ghost var t, bh := tree, Height(tree);
      ctx := Top;
      h := h[z := h[z].(left := NIL, right := NIL)];
      Outsider(old(h), h, tree, z);
      StartDescent(h, tree, key, key(z));
      var y, x := ROOT, h[ROOT].left;
      while x != NIL
        invariant |h| == |old(h)| && h[NIL] == old(h)[NIL] && At(h, ctx, t) && x == RootOf(t) && y == ParentOf(ctx)
        invariant OnPath(ctx, t, bh, Flat(tree), z) && h[z].left == h[z].right == NIL && tree == old(tree)
        invariant Below(key, Before(ctx), key(z)) && Above(key, After(ctx), key(z))
        decreases t
      {
        FocusCells(h, ctx, t);
        y := x;
        var left := key(x) > key(z);
        Descend(h, ctx, t, bh, tree, z, left, key);
        x := h[x].Child(left);
        bh := if t.red then bh else bh - 1;
        ctx, t := In(ctx, left, t.red, t.x, Sub(t, !left)), Sub(t, left);
      }
      EndDescent(h, ctx, t, bh, tree, z);
      ghost var h0 := h;
      h := h[z := h[z].(parent := y)];
      if y == ROOT || key(y) > key(z) {
        h := h[y := h[y].(left := z)];
      } else {
        h := h[y := h[y].(right := z)];
      }
      SideTaken(ctx, key, key(z));
      HangLeaf(h0, h, ctx, z);
    }

    /** rb_insert: the node joins the tree after every node that is not greater. */
    method Insert(z: nat, key: nat -> int)
      requires Valid() && 1 < z < |h| && z !in El(tree) && Sorted(key, Flat(tree))
      modifies this
      ensures Valid() && |h| == |old(h)| && El(tree) == old(El(tree)) + {z}
      ensures Sorted(key, Flat(tree)) && Flat(tree) == Placed(key, old(Flat(tree)), z)
    {
      hide At, IsTree, IsCtx, Distinct, CDistinct, El, CEl, Mk, Flat, Before, After, RB, CtxRB, Below, Above, Placed,
        Sorted;
      ghost var s := Flat(tree);
      ghost var e := El(tree);
      ElFlat(tree);
      ghost var ctx := InsertBinary(z, key);
      SetRed(z, true, ctx, Node(Leaf, h[z].red, z, Leaf));
      LeafRB(z);
      InsertFixup(z, ctx, Node(Leaf, true, z, Leaf), 0);
      PlacedHere(key, Before(ctx), After(ctx), z);
      ElFlat(tree);
      assert El(tree) == e + {z};
    }

    /** rb_delete_fixup, red sibling: after the rotation the sibling is black. */
    method FixRedSibling(ghost up: Ctx, d: bool, p: nat, ghost t: Tree, w: nat, ghost W: Tree)
      requires 1 < |h| && At(h, In(up, d, false, p, W), t) && W.Node? && W.red && W.x == w
      modifies this
      ensures tree == old(tree) && |h| == |old(h)| && h[NIL] == old(h)[NIL]
      ensures At(h, In(In(up, d, false, w, Sub(W, !d)), d, true, p, Sub(W, d)), t)
    {
      hide At, IsTree, IsCtx, Distinct, CDistinct, El, CEl;
      ghost var a, b := Sub(W, d), Sub(W, !d);
      Shift(h, up, d, t, false, p, W);
      Shift(h, up, !d, W, false, p, t);
      SetRed(w, false, In(up, !d, false, p, t), W);
      Shift(h, up, !d, Mk(d, a, false, w, b), false, p, t);
      SetRed(p, true, up, Mk(d, t, false, p, Mk(d, a, false, w, b)));
      Rotate(p, d, up, t, true, a, false, w, b);
      Shift(h, up, d, Mk(d, t, true, p, a), false, w, b);
      Shift(h, In(up, d, false, w, b), d, t, true, p, a);
    }

    /** rb_delete_fixup, black sibling with black children: the sibling becomes red. */
    method FixBlackNephews(ghost up: Ctx, ghost d: bool, ghost c: bool, ghost p: nat, ghost t: Tree, w: nat,
        ghost W: Tree)
      requires 1 < |h| && At(h, In(up, d, c, p, W), t) && W.Node? && W.x == w
      modifies this
      ensures tree == old(tree) && |h| == |old(h)| && h[NIL] == old(h)[NIL]
      ensures At(h, up, Mk(d, t, c, p, W.(red := true)))
    {
      hide At, IsTree, IsCtx, Distinct, CDistinct, El, CEl;
      Shift(h, up, d, t, c, p, W);
      Shift(h, up, !d, W, c, p, t);
      SetRed(w, true, In(up, !d, c, p, t), W);
      Shift(h, up, !d, W.(red := true), c, p, t);
    }

    /** rb_delete_fixup, the near nephew red: rotate it into the sibling's place. */
    method FixNear(ghost up: Ctx, d: bool, ghost c: bool, ghost p: nat, ghost t: Tree, w: nat, ghost n: Tree,
        ghost f: Tree)
      requires 1 < |h| && At(h, In(up, d, c, p, Mk(d, n, false, w, f)), t) && n.Node? && n.red
      modifies this
      ensures tree == old(tree) && |h| == |old(h)| && h[NIL] == old(h)[NIL]
      ensures At(h, In(up, d, c, p, Mk(d, Sub(n, d), false, n.x, Mk(d, Sub(n, !d), true, w, f))), t)
    {
      hide At, IsTree, IsCtx, Distinct, CDistinct, El, CEl;
      ghost var a, b := Sub(n, d), Sub(n, !d);
      ghost var wctx := In(up, !d, c, p, t);
      Shift(h, up, d, t, c, p, Mk(d, n, false, w, f));
      Shift(h, up, !d, Mk(d, n, false, w, f), c, p, t);
      Shift(h, wctx, d, n, false, w, f);
      NephewCell(h, wctx, d, n, false, w, f);
      SetRed(h[w].Child(d), false, In(wctx, d, false, w, f), n);
      ghost var n' := Mk(d, a, false, n.x, b);
      Shift(h, wctx, d, n', false, w, f);
      SetRed(w, true, wctx, Mk(d, n', false, w, f));
      Rotate(w, !d, wctx, f, true, b, false, n.x, a);
      ghost var W' := Mk(d, a, false, n.x, Mk(d, b, true, w, f));
      Shift(h, up, !d, W', c, p, t);
      Shift(h, up, d, t, c, p, W');
    }

    /** rb_delete_fixup, the far nephew red: the last rotation restores the black heights. */
    method FixFar(ghost up: Ctx, d: bool, ghost c: bool, p: nat, ghost t: Tree, w: nat, ghost n: Tree, ghost f: Tree)
      requires 1 < |h| && At(h, In(up, d, c, p, Mk(d, n, false, w, f)), t) && f.Node?
      modifies this
      ensures tree == old(tree) && |h| == |old(h)| && h[NIL] == old(h)[NIL]
      ensures At(h, up, Mk(d, Mk(d, t, false, p, n), c, w, Blacken(f)))
    {
      hide At, IsTree, IsCtx, Distinct, CDistinct, El, CEl;
      ghost var W := Mk(d, n, false, w, f);
      Shift(h, up, d, t, c, p, W);
      Shift(h, up, !d, W, c, p, t);
      FocusCells(h, up, Mk(d, t, c, p, W));
      SetRed(w, h[p].red, In(up, !d, c, p, t), W);
      ghost var W1 := Mk(d, n, c, w, f);
      Shift(h, up, !d, W1, c, p, t);
      SetRed(p, false, up, Mk(d, t, c, p, W1));
      ghost var wctx := In(up, !d, false, p, t);
      Shift(h, up, !d, W1, false, p, t);
      Shift(h, wctx, !d, f, c, w, n);
      NephewCell(h, wctx, !d, f, c, w, n);
      SetRed(h[w].Child(!d), false, In(wctx, !d, c, w, n), f);
      Shift(h, wctx, !d, Blacken(f), c, w, n);
      Shift(h, up, !d, Mk(d, n, c, w, Blacken(f)), false, p, t);
      Rotate(p, d, up, t, false, n, c, w, Blacken(f));
    }

    /** One turn of rb_delete_fixup once the sibling is black.  With `fin` the loop is about to
        end at the saved root and the tree is whole again. */
    method FixBlackSibling(p: nat, d: bool, ghost ctx: Ctx, ghost t: Tree, ghost bh: nat, ghost root: nat)
      returns (ghost ctx': Ctx, ghost t': Tree, ghost bh': nat, fin: bool)
      requires 1 < |h| && !h[NIL].red && At(h, ctx, t) && Lacking(ctx, t, bh)
      requires ctx.In? && !IsRed(t) && !IsRed(ctx.sib) && p == ctx.x && d == ctx.d
               && (root == p || BlackIn(ctx.up, root))
      modifies this
      ensures tree == old(tree) && |h| == |old(h)| && h[NIL] == old(h)[NIL]
      ensures !fin ==>
                && At(h, ctx', t') && RootOf(t') == p && t'.Node? && Lacking(ctx', t', bh') && ctx' == ctx.up
                && IsRed(t') == ctx.red
      ensures fin ==> At(h, Top, t') && IsRbTree(t') && root < |h| && !h[root].red && ctx' == Top
      ensures Before(ctx') + Flat(t') + After(ctx') == Before(ctx) + Flat(t) + After(ctx)
    {
      hide At, IsTree, IsCtx, Distinct, CDistinct, El, CEl, Flat, Before, After, Lacking, CtxRB, RB, BlackIn, IsRbTree;
      SiblingCells(h, ctx, t, bh);
      var w := h[p].Child(!d);
      ghost var up, c, W := ctx.up, ctx.red, ctx.sib;
      if !h[h[w].Child(d)].red && !h[h[w].Child(!d)].red {
        FixBlackNephews(up, d, c, p, t, w, W);
        NephewsShape(up, d, c, p, t, W, bh);
        ctx', t', bh', fin := up, Mk(d, t, c, p, W.(red := true)), if c then bh else bh + 1, false;
      } else {
        ghost var n, f := Sub(W, d), Sub(W, !d);
        if !h[h[w].Child(!d)].red {
          FixNear(up, d, c, p, t, w, n, f);
          NearShape(up, d, c, p, t, w, n, f, bh);
          n, f := Sub(n, d), Mk(d, Sub(n, !d), true, w, f);
          SiblingCell(h, In(up, d, c, p, Mk(d, n, false, Sub(ctx.sib, d).x, f)), t);
          w := h[p].Child(!d);
        }
        FixFar(up, d, c, p, t, w, n, f);
        FarShape(h, up, d, c, p, t, w, n, f, bh, root);
        ctx', t', bh', fin := Top, Plug(up, Mk(d, Mk(d, t, false, p, n), c, w, Blacken(f))), bh, true;
      }
    }

    /** One turn of the loop of rb_delete_fixup. */
    method FixTurn(p: nat, d: bool, ghost ctx: Ctx, ghost t: Tree, ghost bh: nat, ghost root: nat)
      returns (ghost ctx': Ctx, ghost t': Tree, ghost bh': nat, fin: bool)
      requires 1 < |h| && !h[NIL].red && At(h, ctx, t) && Lacking(ctx, t, bh)
      requires ctx.In? && !IsRed(t) && p == ctx.x && d == ctx.d && TopNode(ctx, t) == root
      modifies this
      ensures tree == old(tree) && |h| == |old(h)| && h[NIL] == old(h)[NIL]
      ensures !fin ==>
                && At(h, ctx', t') && RootOf(t') == p && t'.Node? && Lacking(ctx', t', bh')
                && (IsRed(t') || (ctx' == ctx.up && TopNode(ctx', t') == root))
      ensures fin ==> At(h, Top, t') && IsRbTree(t') && root < |h| && !h[root].red && ctx' == Top
      ensures Before(ctx') + Flat(t') + After(ctx') == Before(ctx) + Flat(t) + After(ctx)
    {
      hide At, IsTree, IsCtx, Distinct, CDistinct, El, CEl, Mk, Flat, Before, After, Lacking, CtxRB, RB, BlackIn,
        IsRbTree, TopNode;
      SiblingCells(h, ctx, t, bh);
      TopFacts(ctx, t, bh, root);
      var w := h[p].Child(!d);
      if h[w].red {
        RedSiblingShape(ctx, t, bh, root);
        FixRedSibling(ctx.up, d, p, t, w, ctx.sib);
        ghost var ctx1 := In(In(ctx.up, d, false, w, Sub(ctx.sib, !d)), d, true, p, Sub(ctx.sib, d));
        ctx', t', bh', fin := FixBlackSibling(p, d, ctx1, t, bh, root);
      } else {
        ctx', t', bh', fin := FixBlackSibling(p, d, ctx, t, bh, root);
        if !fin { TopMove(ctx, t, t', root); }
      }
    }

    /** rb_delete_fixup: the subtree at x lacks one black node.  The loop compares against the
        root saved at the start, which the last rotation may have moved down. */
    method DeleteFixup(x0: nat, ghost ctx0: Ctx, ghost t0: Tree, ghost bh0: nat)
      requires 1 < |h| && !h[NIL].red && At(h, ctx0, t0) && RootOf(t0) == x0 && Lacking(ctx0, t0, bh0)
      requires Anchored(h, ctx0, t0)
      modifies this
      ensures Valid() && |h| == |old(h)| && Flat(tree) == Before(ctx0) + Flat(t0) + After(ctx0)
    {
      hide At, IsTree, IsCtx, Distinct, CDistinct, El, CEl, Mk, Flat, Before, After, Lacking, CtxRB, RB, IsRbTree,
        Anchored, TopNode;
      var x := x0;
      ghost var ctx, t, bh := ctx0, t0, bh0;
      var fin := false;
      TopCell(h, ctx, t);
      var root := h[ROOT].left;
      FixCells(h, ctx, t, bh, root);
      while x != root && !h[x].red
        invariant |h| == |old(h)| && !h[NIL].red && x < |h|
        invariant !fin ==> At(h, ctx, t) && RootOf(t) == x && Lacking(ctx, t, bh) && Anchored(h, ctx, t)
        invariant !fin && !IsRed(t) ==> TopNode(ctx, t) == root
        invariant !fin ==> FixTests(h, ctx, t, x, root)
        invariant fin ==> At(h, Top, t) && IsRbTree(t) && x == root && root < |h| && !h[root].red && ctx == Top
        invariant Before(ctx) + Flat(t) + After(ctx) == Before(ctx0) + Flat(t0) + After(ctx0)
        decreases if fin || IsRed(t) then 0 else 1 + Depth(ctx)
      {
        var p := h[x].parent;
        var d := x == h[p].left;
        ghost var depth := Depth(ctx);
        ctx, t, bh, fin := FixTurn(p, d, ctx, t, bh, root);
        if fin {
          x := root;
        } else {
          x := p;
          NodeAnchored(h, ctx, t);
          FixCells(h, ctx, t, bh, root);
        }
      }
      if fin {
        assert h[x := h[x].(red := false)] == h;
        h := h[x := h[x].(red := false)];
        tree := t;
        TopLists(Flat(t));
      } else {
        FinishDelete(x, ctx, t, bh);
      }
    }

    /** x->red = 0 at the end of rb_delete_fixup. */
    method FinishDelete(x: nat, ghost ctx: Ctx, ghost t: Tree, ghost bh: nat)
      requires 1 < |h| && !h[NIL].red && At(h, ctx, t) && RootOf(t) == x && Lacking(ctx, t, bh)
               && (ctx.Top? || IsRed(t))
      modifies this
      ensures Valid() && |h| == |old(h)| && Flat(tree) == Before(ctx) + Flat(t) + After(ctx)
    {
      hide At, IsTree, IsCtx, Distinct, CDistinct, El, CEl, Flat, Before, After;
      FinishShape(ctx, t, bh);
      FlatPlug(ctx, Blacken(t));
      if t.Node? {
        FocusCells(h, ctx, t);
        Recolour(h, ctx, t, false);
      } else {
        assert h[x := h[x].(red := false)] == h;
      }
      h := h[x := h[x].(red := false)];
      TopOf(h, ctx, Blacken(t));
      tree := Plug(ctx, Blacken(t));
    }

    /** Take a node with at most one child out of the tree; x is that child or nil. */
    method Splice(y: nat, x: nat, ghost ctx: Ctx, ghost ty: Tree, ghost tx: Tree)
      requires 1 < |h| && At(h, ctx, ty) && ty.Node? && ty.x == y && x == RootOf(tx)
      requires (ty.l == Leaf && tx == ty.r) || (ty.r == Leaf && tx == ty.l)
      modifies this
      ensures tree == old(tree) && |h| == |old(h)| && h[NIL].red == old(h)[NIL].red
      ensures At(h, ctx, tx) && Anchored(h, ctx, tx) && y < |h| && h[y] == old(h)[y]
    {
      hide At, IsTree, IsCtx, Distinct, CDistinct, El, CEl, Hung;
      SpliceFacts(h, ctx, ty, tx);
      ghost var h0 := h;
      h := h[x := h[x].(parent := h[y].parent)];
      ReplaceChild(h[y].parent, true, y, x, ctx);
      SpliceTree(h0, h, ctx, ty, tx);
    }

    /** Put y into the place and colour of z. */
    method TakePlace(y: nat, z: nat, ghost ctx: Ctx, ghost l: Tree, ghost c: bool, ghost r: Tree)
      requires 1 < |h| && At(h, ctx, Node(l, c, z, r)) && l.Node?
      requires 1 < y < |h| && y != z && y !in El(l) && y !in El(r) && y !in CEl(ctx)
      modifies this
      ensures tree == old(tree) && |h| == |old(h)| && h[NIL].red == old(h)[NIL].red
      ensures At(h, ctx, Node(l, c, y, r)) && h[NIL].parent == if r.Leaf? then y else old(h)[NIL].parent
    {
      hide At, IsTree, IsCtx, Distinct, CDistinct, El, CEl, Hung;
      PlaceFacts(h, ctx, l, c, z, r, y);
      HoleFacts(h, ctx, Node(l, c, z, r));
      ghost var h0 := h;
      ReplaceChild(h[z].parent, true, z, y, ctx);
      h := h[h[z].right := h[h[z].right].(parent := y)];
      h := h[h[z].left := h[h[z].left].(parent := y)];
      h := h[y := h[z]];
      PlaceTree(h0, h, ctx, l, c, z, r, y);
    }

    /** rb_search: a node that compares equal, or NIL exactly when there is none, for a comparison
        that goes from smaller over equal to larger along the listing. */
    method Search(compare: nat -> int) returns (node: nat)
      requires Valid() && Grows(compare, Flat(tree))
      ensures node != NIL ==> node in Flat(tree) && compare(node) == 0
      ensures node == NIL ==> forall x :: x in Flat(tree) ==> compare(x) != 0
    {
      hide At, IsTree, IsCtx, Distinct, CDistinct, El, CEl, Flat, Before, After, IsRbTree, Grows;
      ghost var ctx, t := Top, tree;
      RootCell(h, t);
      TopEmpty();
      TopLists(Flat(t));
      node := h[ROOT].left;
      while node != NIL && compare(node) != 0
        invariant At(h, ctx, t) && node == RootOf(t) && Flat(tree) == Before(ctx) + Flat(t) + After(ctx)
        invariant (forall x :: x in Before(ctx) ==> compare(x) < 0) && (forall x :: x in After(ctx) ==> compare(x) > 0)
        decreases t
      {
        var left := compare(node) > 0;
        SearchStep(compare, Flat(tree), ctx, t, left);
        ChildCell(h, ctx, t, left);
        Shift(h, ctx, left, Sub(t, left), t.red, t.x, Sub(t, !left));
        FlatFocus(ctx, left, Sub(t, left), t.red, t.x, Sub(t, !left));
        node := h[node].Child(left);
        ctx, t := In(ctx, left, t.red, t.x, Sub(t, !left)), Sub(t, left);
      }
      SearchEnd(h, ctx, t, node);
    }

    /** The node at the end of the path that keeps to side d. */
    method Outermost(y0: nat, d: bool, ghost base: Ctx, ghost r: Tree) returns (y: nat, ghost rel: Ctx, ghost ty: Tree)
      requires 1 < |h| && At(h, base, r) && r.Node? && r.x == y0
      ensures r == Plug(rel, ty) && ty.Node? && ty.x == y && Sub(ty, d) == Leaf && At(h, Over(rel, base), ty)
      ensures if d then Before(rel) == [] else After(rel) == []
    {
      hide At, IsTree, IsCtx, Distinct, CDistinct, El, CEl, Before, After;
      y, rel, ty := y0, Top, r;
      TopEmpty();
      ChildCell(h, base, r, d);
      while h[y].Child(d) != NIL
        invariant r == Plug(rel, ty) && ty.Node? && ty.x == y && At(h, Over(rel, base), ty)
        invariant 1 < y < |h| && h[y].Child(d) == RootOf(Sub(ty, d)) && (Sub(ty, d).Node? ==> Sub(ty, d).x != NIL)
        invariant if d then Before(rel) == [] else After(rel) == []
        decreases ty
      {
        Shift(h, Over(rel, base), d, Sub(ty, d), ty.red, ty.x, Sub(ty, !d));
        BeforeAfter(rel, d, ty.red, ty.x, Sub(ty, !d));
        rel, ty := In(rel, d, ty.red, ty.x, Sub(ty, !d)), Sub(ty, d);
        y := h[y].Child(d);
        ChildCell(h, Over(rel, base), ty, d);
      }
    }

    /** rb_tree_successor and rb_tree_predecessor: the neighbour in the listing on side !d. */
    method Neighbour(node: nat, d: bool) returns (y: nat)
      requires Valid() && node in El(tree)
      ensures IsNeighbour(Flat(tree), node, y, d)
    {
      hide At, IsTree, IsCtx, Distinct, CDistinct, El, CEl, Before, After, Flat, IsNeighbour;
      ghost var ctx, t := Zoom(h, Top, tree, node);
      FlatPlug(ctx, t);
      ChildCell(h, ctx, t, !d);
      y := h[node].Child(!d);
      if y != NIL {
        ghost var rel, ty;
        Shift(h, ctx, !d, Sub(t, !d), t.red, t.x, Sub(t, d));
        y, rel, ty := Outermost(y, d, In(ctx, !d, t.red, t.x, Sub(t, d)), Sub(t, !d));
        BelowNeighbour(ctx, t, d, rel, ty);
        return;
      }
      ghost var t0 := t;
      var x := node;
      FocusCells(h, ctx, t);
      y := h[x].parent;
      ClimbStart(ctx, t, d);
      while y != ROOT && x == h[y].Child(!d)
        invariant At(h, ctx, t) && t.Node? && t.x == x && y == ParentOf(ctx) && y < |h|
        invariant Flat(tree) == Before(ctx) + Flat(t) + After(ctx)
        invariant t.Node? && Flat(t) != [] && (if d then Flat(t)[|Flat(t)| - 1] == node else Flat(t)[0] == node)
        decreases Depth(ctx)
      {
        Climb(h, ctx, t, d, node);
        x := y;
        t, ctx := Mk(ctx.d, t, ctx.red, ctx.x, ctx.sib), ctx.up;
        FocusCells(h, ctx, t);
        y := h[y].parent;
      }
      ClimbEnd(h, ctx, t, d, node, y);
      if y == ROOT {
        y := NIL;
      }
    }

    /** rb_delete: the listing loses exactly the given node. */
    method Delete(z: nat)
      requires Valid() && z in El(tree)
      modifies this
      ensures Valid() && |h| == |old(h)| && Flat(tree) == Without(old(Flat(tree)), z) && El(tree) == old(El(tree)) - {z}
    {
      hide At, IsTree, IsCtx, Distinct, CDistinct, El, CEl, Before, After, Flat, Lacking, CtxRB, RB, IsRbTree, Anchored;
      ghost var ctx, tz := Zoom(h, Top, tree, z);
      ElFlat(tree);
      ghost var e := El(tree);
      ChildCell(h, ctx, tz, true);
      ChildCell(h, ctx, tz, false);
      if h[z].left == NIL || h[z].right == NIL {
        RemoveInner(z, ctx, tz);
      } else {
        Shift(h, ctx, false, tz.r, tz.red, z, tz.l);
        ghost var rel, ty;
        var y;
        y, rel, ty := Outermost(h[z].right, true, In(ctx, false, tz.red, z, tz.l), tz.r);
        RemoveOuter(z, y, ctx, tz, rel, ty);
      }
      ElFlat(tree);
      assert El(tree) == e - {z};
    }

    /** rb_delete of a node with at most one child. */
    method RemoveInner(z: nat, ghost ctx: Ctx, ghost tz: Tree)
      requires Valid() && At(h, ctx, tz) && tz.Node? && tz.x == z && (tz.l.Leaf? || tz.r.Leaf?) && Plug(ctx, tz) == tree
      modifies this
      ensures Valid() && |h| == |old(h)| && Flat(tree) == Without(old(Flat(tree)), z)
    {
      hide At, IsTree, IsCtx, Distinct, CDistinct, El, CEl, Before, After, Flat, Lacking, CtxRB, RB, IsRbTree, Anchored;
      ChildCell(h, ctx, tz, true);
      ChildCell(h, ctx, tz, false);
      FocusCells(h, ctx, tz);
      var x := OnlyChild(h[z]);
      ghost var tx := if tz.l.Node? then tz.l else tz.r;
      ghost var bh := UnplugRB(ctx, tz);
      RemoveShape(ctx, tz, tx, bh);
      DistinctAt(h, tree);
      RemoveList(tree, ctx, tz, tx);
      Splice(z, x, ctx, tz, tx);
      if !h[z].red {
        DeleteFixup(x, ctx, tx, bh - 1);
      } else {
        PlugRB(ctx, tx, bh);
        TopOf(h, ctx, tx);
        FlatPlug(ctx, tx);
        tree := Plug(ctx, tx);
      }
    }

    /** rb_delete of a node with two children: its successor y leaves its own place and takes
        over the node's. */
    method RemoveOuter(z: nat, y: nat, ghost ctx: Ctx, ghost tz: Tree, ghost rel: Ctx, ghost ty: Tree)
      requires Valid() && At(h, ctx, tz) && tz.Node? && tz.x == z && tz.l.Node? && tz.r == Plug(rel, ty)
               && Plug(ctx, tz) == tree
      requires ty.Node? && ty.x == y && ty.l == Leaf && Before(rel) == []
      modifies this
      ensures Valid() && |h| == |old(h)| && Flat(tree) == Without(old(Flat(tree)), z)
    {
      hide At, IsTree, IsCtx, Distinct, CDistinct, El, CEl, Before, After, Flat, Lacking, CtxRB, RB, IsRbTree, Mk;
      ghost var base, tx := In(ctx, false, tz.red, z, tz.l), ty.r;
      Shift(h, ctx, false, tz.r, tz.red, z, tz.l);
      MkNode(tz.l, tz.red, z, tz.r);
      OverAt(h, rel, base, ty);
      FocusCells(h, Over(rel, base), ty);
      ChildCell(h, Over(rel, base), ty, true);
      ChildCell(h, Over(rel, base), ty, false);
      Successors(h, ctx, tz, rel, ty);
      OverPlug(rel, base, ty);
      MkNode(tz.l, tz.red, z, Plug(rel, ty));
      ghost var bh := UnplugRB(Over(rel, base), ty);
      RemoveShape(Over(rel, base), ty, tx, bh);
      DistinctAt(h, tree);
      SuccessorList(tree, ctx, tz, rel, ty);
      var x := OnlyChild(h[y]);
      Splice(y, x, Over(rel, base), ty, tx);
      var needFixup := !h[y].red;
      OverAt(h, rel, base, tx);
      Shift(h, ctx, false, Plug(rel, tx), tz.red, z, tz.l);
      MkNode(tz.l, tz.red, z, Plug(rel, tx));
      ghost var h1 := h;
      TakePlace(y, z, ctx, tz.l, tz.red, Plug(rel, tx));
      ghost var base' := In(ctx, false, tz.red, y, tz.l);
      Shift(h, ctx, false, Plug(rel, tx), tz.red, y, tz.l);
      MkNode(tz.l, tz.red, y, Plug(rel, tx));
      OverAt(h, rel, base', tx);
      StillAnchored(h1, h, rel, base, base', tx);
      if needFixup {
        CtxRename(rel, ctx, tz.red, z, y, tz.l, bh);
        LackRename(Over(rel, base), Over(rel, base'), tx, bh - 1);
        DeleteFixup(x, Over(rel, base'), tx, bh - 1);
      } else {
        CtxRename(rel, ctx, tz.red, z, y, tz.l, bh);
        PlugRB(Over(rel, base'), tx, bh);
        TopOf(h, Over(rel, base'), tx);
        FlatPlug(Over(rel, base'), tx);
        tree := Plug(Over(rel, base'), tx);
      }
    }
  }
}
