/** Red-black trees as values: the tree below a node, the context above it, their in-order
    listing and the colour rules.  A direction is `true` for left. */
module RbShape {
  import opened Common

  datatype Tree = Leaf | Node(l: Tree, red: bool, x: nat, r: Tree)

  /** What surrounds a subtree: the hole is child `d` of node `x`, whose other child is `sib`. */
  datatype Ctx = Top | In(up: Ctx, d: bool, red: bool, x: nat, sib: Tree)

  /** A node with `a` on side `d` and `b` on the other. */
  function Mk(d: bool, a: Tree, red: bool, x: nat, b: Tree): Tree {
    if d then Node(a, red, x, b) else Node(b, red, x, a)
  }

  function Sub(t: Tree, d: bool): Tree
    requires t.Node?
  {
    if d then t.l else t.r
  }

  function Plug(ctx: Ctx, t: Tree): Tree {
    match ctx
    case Top => t
    case In(up, d, red, x, sib) => Plug(up, Mk(d, t, red, x, sib))
  }

  function El(t: Tree): set<nat> {
    match t
    case Leaf => {}
    case Node(l, _, x, r) => El(l) + {x} + El(r)
  }

  function CEl(ctx: Ctx): set<nat> {
    match ctx
    case Top => {}
    case In(up, _, _, x, sib) => CEl(up) + {x} + El(sib)
  }

  /** No node occurs twice. */
  ghost predicate Distinct(t: Tree) {
    match t
    case Leaf => true
    case Node(l, _, x, r) => x !in El(l) && x !in El(r) && El(l) !! El(r) && Distinct(l) && Distinct(r)
  }

  ghost predicate CDistinct(ctx: Ctx) {
    match ctx
    case Top => true
    case In(up, _, _, x, sib) => x !in El(sib) && x !in CEl(up) && El(sib) !! CEl(up) && Distinct(sib) && CDistinct(up)
  }

  /** In-order listing. */
  function Flat(t: Tree): seq<nat> {
    match t
    case Leaf => []
    case Node(l, _, x, r) => Flat(l) + [x] + Flat(r)
  }

  /** What the context lists before and after the hole. */
  function Before(ctx: Ctx): seq<nat> {
    match ctx
    case Top => []
    case In(up, d, _, x, sib) => if d then Before(up) else Before(up) + Flat(sib) + [x]
  }

  function After(ctx: Ctx): seq<nat> {
    match ctx
    case Top => []
    case In(up, d, _, x, sib) => if d then [x] + Flat(sib) + After(up) else After(up)
  }

  lemma {:induction false} FlatPlug(ctx: Ctx, t: Tree)
    ensures Flat(Plug(ctx, t)) == Before(ctx) + Flat(t) + After(ctx)
  {
    match ctx
    case Top =>
    case In(up, d, red, x, sib) =>
      FlatPlug(up, Mk(d, t, red, x, sib));
      Regroup(Before(up), Flat(t), [x], Flat(sib), After(up));
      Regroup(Before(up), Flat(sib), [x], Flat(t), After(up));
  }

  lemma {:induction false} Regroup(a: seq<nat>, b: seq<nat>, c: seq<nat>, d: seq<nat>, e: seq<nat>)
    ensures a + (b + c + d) + e == a + b + (c + d + e)
    ensures a + (b + c + d) + e == (a + b + c) + d + e
  {
  }

  ghost predicate IsRed(t: Tree) {
    t.Node? && t.red
  }

  /** Red nodes have black children and every path has `bh` black nodes. */
  ghost predicate RB(t: Tree, bh: nat) {
    match t
    case Leaf => bh == 0
    case Node(l, red, _, r) =>
      if red then RB(l, bh) && RB(r, bh) && !IsRed(l) && !IsRed(r)
      else bh > 0 && RB(l, bh - 1) && RB(r, bh - 1)
  }

  /** The node above the hole is red. */
  ghost predicate RedAbove(ctx: Ctx) {
    ctx.In? && ctx.red
  }

  /** The context completes any subtree of black height `bh` with a black root; its own root is
      black. */
  ghost predicate CtxRB(ctx: Ctx, bh: nat) {
    match ctx
    case Top => true
    case In(up, _, red, _, sib) =>
      RB(sib, bh) &&
      if red then !IsRed(sib) && up.In? && !up.red && CtxRB(up, bh)
      else CtxRB(up, bh + 1)
  }

  /** A whole tree: black root. */
  ghost predicate IsRbTree(t: Tree) {
    !IsRed(t) && exists bh :: RB(t, bh)
  }

  lemma {:induction false} PlugRB(ctx: Ctx, t: Tree, bh: nat)
    requires CtxRB(ctx, bh) && RB(t, bh) && (IsRed(t) ==> ctx.In? && !ctx.red)
    ensures IsRbTree(Plug(ctx, t))
  {
    match ctx
    case Top =>
    case In(up, d, red, x, sib) =>
      PlugRB(up, Mk(d, t, red, x, sib), if red then bh else bh + 1);
  }

  function Blacken(t: Tree): Tree {
    if t.Node? then t.(red := false) else t
  }
}
