/** Aligned blocks of 2^o pages inside one zone, and the maximal free ones among them. */
module BuddyShape {
  import opened Bits

  const MAX_ORDER: nat := 16

  predicate Within(i: nat, n: nat, k: nat) {
    i <= k < i + n
  }

  ghost function Span(i: nat, n: nat): set<nat> {
    set k: nat | k < i + n && Within(i, n, k)
  }

  /** The block of order o at i is free. */
  ghost predicate Run(free: set<nat>, i: nat, o: nat) {
    forall k :: i <= k < i + Pow2(o) ==> k in free
  }

  /** A free block that is not part of a larger free block. */
  ghost predicate Maximal(free: set<nat>, i: nat, o: nat) {
    && o <= MAX_ORDER && Aligned(i, o) && Run(free, i, o)
    && (o < MAX_ORDER ==> !Run(free, Base(i, o + 1), o + 1))
  }

  lemma {:induction false} OnePage(free: set<nat>, k: nat)
    ensures Pow2(0) == 1 && Aligned(k, 0) && (Run(free, k, 0) <==> k in free)
  {
  }

  /** Two aligned blocks that meet are nested. */
  lemma {:induction false} Nested(i: nat, o: nat, j: nat, q: nat)
    requires Aligned(i, o) && Aligned(j, q) && o <= q
    requires i < j + Pow2(q) && j < i + Pow2(o)
    ensures j <= i && i + Pow2(o) <= j + Pow2(q)
  {
    Coarser(j, o, q);
    PowAligned(o, q);
    MultipleSum(j, Pow2(q), o);
    MultipleStep(i, j + Pow2(q), o);
    if i < j {
      MultipleStep(i, j, o);
    }
  }

  /** A free aligned block that meets a maximal one lies inside it. */
  lemma {:induction false} MaximalTop(free: set<nat>, i: nat, o: nat, j: nat, q: nat)
    requires Maximal(free, i, o) && Aligned(j, q) && q <= MAX_ORDER && Run(free, j, q)
    requires i < j + Pow2(q) && j < i + Pow2(o)
    ensures q <= o && i <= j && j + Pow2(q) <= i + Pow2(o)
  {
    hide Pow2, Xor, Aligned, Base, Bit;
    if o < q {
      Nested(i, o, j, q);
      Parent(i, o);
      Nested(Base(i, o + 1), o + 1, j, q);
      assert false;
    }
    Nested(j, q, i, o);
  }

  /** Taking a maximal block away, or adding one, changes the maximal blocks by that one only. */
  lemma {:induction false} MaximalDelta(free: set<nat>, b: nat, o: nat)
    requires o <= MAX_ORDER && Span(b, Pow2(o)) !! free && Maximal(free + Span(b, Pow2(o)), b, o)
    ensures forall i: nat, q: nat ::
            Maximal(free + Span(b, Pow2(o)), i, q) <==> Maximal(free, i, q) || (i == b && q == o)
  {
    forall i: nat, q: nat
      ensures Maximal(free + Span(b, Pow2(o)), i, q) <==> Maximal(free, i, q) || (i == b && q == o)
    {
      DeltaOne(free, b, o, i, q);
    }
  }

  lemma {:induction false} DeltaOne(free: set<nat>, b: nat, o: nat, i: nat, q: nat)
    requires o <= MAX_ORDER && Span(b, Pow2(o)) !! free && Maximal(free + Span(b, Pow2(o)), b, o)
    ensures Maximal(free + Span(b, Pow2(o)), i, q) <==> Maximal(free, i, q) || (i == b && q == o)
  {
    hide Pow2, Xor, Aligned, Base, Bit;
    var more := free + Span(b, Pow2(o));
    if Maximal(free, i, q) {
      if q < MAX_ORDER {
        DeltaParent(free, b, o, i, q);
      }
    } else if Maximal(more, i, q) {
      if i < b + Pow2(o) && b < i + Pow2(q) {
        MaximalTop(more, b, o, i, q);
        MaximalTop(more, i, q, b, o);
      }
    }
  }

  lemma {:induction false} DeltaParent(free: set<nat>, b: nat, o: nat, i: nat, q: nat)
    requires o <= MAX_ORDER && Span(b, Pow2(o)) !! free && Maximal(free + Span(b, Pow2(o)), b, o)
    requires Maximal(free, i, q) && q < MAX_ORDER
    ensures !Run(free + Span(b, Pow2(o)), Base(i, q + 1), q + 1)
  {
    hide Pow2, Xor, Aligned, Base, Bit;
    var more := free + Span(b, Pow2(o));
    var p := Base(i, q + 1);
    Parent(i, q);
    assert i in free;
    if Run(more, p, q + 1) {
      if p < b + Pow2(o) && b < p + Pow2(q + 1) {
        MaximalTop(more, b, o, p, q + 1);
        assert false;
      }
    }
  }

  /** Every free aligned block lies in a maximal one. */
  lemma {:induction false} Climb(free: set<nat>, i: nat, o: nat) returns (j: nat, q: nat)
    requires o <= MAX_ORDER && Aligned(i, o) && Run(free, i, o)
    ensures o <= q && Maximal(free, j, q) && j <= i && i + Pow2(o) <= j + Pow2(q)
    decreases MAX_ORDER - o
  {
    if o == MAX_ORDER || !Run(free, Base(i, o + 1), o + 1) {
      j, q := i, o;
    } else {
      Parent(i, o);
      j, q := Climb(free, Base(i, o + 1), o + 1);
    }
  }

  // The blocks as a set of (start, order) pairs.

  ghost predicate Apart(b: (nat, nat), c: (nat, nat)) {
    b.0 + Pow2(b.1) <= c.0 || c.0 + Pow2(c.1) <= b.0
  }

  ghost predicate Holds(b: (nat, nat), k: nat) {
    b.0 <= k < b.0 + Pow2(b.1)
  }

  /** Aligned blocks, disjoint, together exactly the free pages, no two of them buddies. */
  ghost predicate BuddySystem(blocks: set<(nat, nat)>, free: set<nat>) {
    && (forall b :: b in blocks ==> b.1 <= MAX_ORDER && Aligned(b.0, b.1))
    && (forall b, c :: b in blocks && c in blocks && b != c ==> Apart(b, c))
    && (forall k: nat :: k in free <==> exists b :: b in blocks && Holds(b, k))
    && (forall b :: b in blocks && b.1 < MAX_ORDER ==> (Xor(b.0, Pow2(b.1)), b.1) !in blocks)
  }

  /** In a buddy system every free aligned block lies in one block. */
  lemma {:induction false} OneBlock(blocks: set<(nat, nat)>, free: set<nat>, j: nat, q: nat) returns (b: (nat, nat))
    requires BuddySystem(blocks, free) && q <= MAX_ORDER && Aligned(j, q) && Run(free, j, q)
    ensures b in blocks && q <= b.1 && b.0 <= j && j + Pow2(q) <= b.0 + Pow2(b.1)
    decreases q
  {
    hide Pow2, Xor, Aligned, Base, Bit;
    if q == 0 {
      OnePage(free, j);
      b :| b in blocks && Holds(b, j);
    } else {
      var h := Pow2(q - 1);
      Coarser(j, q - 1, q);
      Parent(j, q - 1);
      PowAligned(q - 1, q - 1);
      MultipleSum(j, h, q - 1);
      b := OneBlock(blocks, free, j, q - 1);
      var c := OneBlock(blocks, free, j + h, q - 1);
      if b.1 >= q {
        Nested(j, q, b.0, b.1);
      } else if c.1 >= q {
        Nested(j, q, c.0, c.1);
        assert b == c || Apart(b, c);
        b := c;
      } else {
        assert b == (j, q - 1) && c == (j + h, q - 1);
        BaseAligned(j, q);
        XorPow2(j, q - 1);
        assert false;
      }
    }
  }

  /** The blocks of a buddy system are the maximal free blocks: a function of the free pages. */
  lemma {:induction false} BlocksUnique(blocks: set<(nat, nat)>, free: set<nat>)
    ensures BuddySystem(blocks, free) <==> forall i: nat, o: nat :: (i, o) in blocks <==> Maximal(free, i, o)
  {
    if BuddySystem(blocks, free) {
      forall i: nat, o: nat ensures (i, o) in blocks <==> Maximal(free, i, o) {
        SystemMaximal(blocks, free, i, o);
      }
    }
    if forall i: nat, o: nat :: (i, o) in blocks <==> Maximal(free, i, o) {
      MaximalSystem(blocks, free);
    }
  }

  lemma {:induction false} SystemMaximal(blocks: set<(nat, nat)>, free: set<nat>, i: nat, o: nat)
    requires BuddySystem(blocks, free)
    ensures (i, o) in blocks <==> Maximal(free, i, o)
  {
    hide Pow2, Xor, Aligned, Base, Bit;
    if (i, o) in blocks {
      BlockMaximal(blocks, free, i, o);
    } else if Maximal(free, i, o) {
      var b := OneBlock(blocks, free, i, o);
      BlockMaximal(blocks, free, b.0, b.1);
      MaximalTop(free, i, o, b.0, b.1);
      assert false;
    }
  }

  lemma {:induction false} BlockMaximal(blocks: set<(nat, nat)>, free: set<nat>, i: nat, o: nat)
    requires BuddySystem(blocks, free) && (i, o) in blocks
    ensures Maximal(free, i, o)
  {
    hide Pow2, Xor, Aligned, Base, Bit;
    forall k | i <= k < i + Pow2(o) ensures k in free {
      assert Holds((i, o), k);
    }
    if o < MAX_ORDER && Run(free, Base(i, o + 1), o + 1) {
      Parent(i, o);
      var b := OneBlock(blocks, free, Base(i, o + 1), o + 1);
      assert false;
    }
  }

  lemma {:induction false} MaximalSystem(blocks: set<(nat, nat)>, free: set<nat>)
    requires forall i: nat, o: nat :: (i, o) in blocks <==> Maximal(free, i, o)
    ensures BuddySystem(blocks, free)
  {
    hide Pow2, Xor, Aligned, Base, Bit;
    forall b | b in blocks ensures Maximal(free, b.0, b.1) {
      assert b == (b.0, b.1);
    }
    forall b, c | b in blocks && c in blocks && b != c ensures Apart(b, c) {
      if !Apart(b, c) {
        MaximalTop(free, b.0, b.1, c.0, c.1);
        MaximalTop(free, c.0, c.1, b.0, b.1);
        assert false;
      }
    }
    forall k: nat ensures k in free <==> exists b :: b in blocks && Holds(b, k) {
      if k in free {
        OnePage(free, k);
        var j, q := Climb(free, k, 0);
        assert (j, q) in blocks && Holds((j, q), k);
      }
    }
    forall b | b in blocks && b.1 < MAX_ORDER ensures (Xor(b.0, Pow2(b.1)), b.1) !in blocks {
      XorPow2(b.0, b.1);
      Parent(b.0, b.1);
    }
  }
}
