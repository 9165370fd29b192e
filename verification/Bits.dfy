/** Powers of two and the bit operations of the C sources on natural numbers, bit by bit. */
module Bits {

  function Pow2(n: nat): (r: nat)
    ensures r > 0
  {
    if n == 0 then 1 else 2 * Pow2(n - 1)
  }

  function And(a: nat, b: nat): nat {
    if a == 0 || b == 0 then 0 else (if a % 2 == 1 && b % 2 == 1 then 1 else 0) + 2 * And(a / 2, b / 2)
  }

  function Xor(a: nat, b: nat): nat {
    if a == 0 then b else if b == 0 then a else (if a % 2 == b % 2 then 0 else 1) + 2 * Xor(a / 2, b / 2)
  }

  function Or(a: nat, b: nat): nat {
    if a == 0 then b else if b == 0 then a else (if a % 2 == 1 || b % 2 == 1 then 1 else 0) + 2 * Or(a / 2, b / 2)
  }

  function Shr(a: nat, n: nat): nat {
    if n == 0 then a else Shr(a / 2, n - 1)
  }

  /** Bit o of i. */
  predicate Bit(i: nat, o: nat) {
    if o == 0 then i % 2 == 1 else Bit(i / 2, o - 1)
  }

  /** i is a multiple of 2^o: its low o bits are zero. */
  predicate Aligned(i: nat, o: nat) {
    o == 0 || (i % 2 == 0 && Aligned(i / 2, o - 1))
  }

  /** i with its low o bits cleared. */
  function Base(i: nat, o: nat): (b: nat)
    ensures Aligned(b, o) && b <= i < b + Pow2(o)
  {
    if o == 0 then i else 2 * Base(i / 2, o - 1)
  }

  lemma {:induction false} AndPow2(i: nat, o: nat)
    ensures And(i, Pow2(o)) != 0 <==> Bit(i, o)
  {
    if o > 0 {
      AndPow2(i / 2, o - 1);
    }
  }

  lemma {:induction false} AndMask(i: nat, o: nat)
    ensures And(i, Pow2(o) - 1) == 0 <==> Aligned(i, o)
  {
    if o > 0 {
      AndMask(i / 2, o - 1);
      assert (Pow2(o) - 1) / 2 == Pow2(o - 1) - 1;
    }
  }

  lemma {:induction false} XorPow2(i: nat, o: nat)
    ensures Bit(i, o) ==> i >= Pow2(o)
    ensures Xor(i, Pow2(o)) == if Bit(i, o) then i - Pow2(o) else i + Pow2(o)
  {
    hide Xor;
    XorHalf(i, Pow2(o));
    if o == 0 {
      XorNone(i / 2);
    } else {
      XorPow2(i / 2, o - 1);
      assert Pow2(o) == 2 * Pow2(o - 1) && Pow2(o) / 2 == Pow2(o - 1);
    }
  }

  lemma {:induction false} XorNone(i: nat)
    ensures Xor(i, 0) == i
  {
  }

  lemma {:induction false} AndSelf(i: nat)
    ensures And(i, i) == i
  {
    if i > 0 {
      AndSelf(i / 2);
    }
  }

  lemma {:induction false} AndHalf(a: nat, b: nat)
    ensures And(a, b) == (if a % 2 == 1 && b % 2 == 1 then 1 else 0) + 2 * And(a / 2, b / 2)
  {
  }

  lemma {:induction false} XorHalf(a: nat, b: nat)
    ensures Xor(a, b) == (if a % 2 == b % 2 then 0 else 1) + 2 * Xor(a / 2, b / 2)
  {
  }

  lemma {:induction false} AndXor(i: nat, o: nat)
    ensures Bit(i, o) ==> i >= Pow2(o)
    ensures And(i, Xor(i, Pow2(o))) == if Bit(i, o) then i - Pow2(o) else i
  {
    hide Xor, And;
    XorPow2(i, o);
    var x := Xor(i, Pow2(o));
    AndHalf(i, x);
    if o == 0 {
      AndSelf(i / 2);
      assert x / 2 == i / 2;
    } else {
      AndXor(i / 2, o - 1);
      XorPow2(i / 2, o - 1);
      assert Pow2(o) == 2 * Pow2(o - 1) && x % 2 == i % 2;
      assert x / 2 == Xor(i / 2, Pow2(o - 1));
    }
  }

  // Multiples of powers of two.

  lemma {:induction false} MultipleStep(a: nat, b: nat, o: nat)
    requires Aligned(a, o) && Aligned(b, o) && a < b
    ensures a + Pow2(o) <= b
  {
    if o > 0 {
      MultipleStep(a / 2, b / 2, o - 1);
    }
  }

  lemma {:induction false} MultipleSum(a: nat, b: nat, o: nat)
    requires Aligned(a, o) && Aligned(b, o)
    ensures Aligned(a + b, o)
  {
    if o > 0 {
      MultipleSum(a / 2, b / 2, o - 1);
      assert (a + b) / 2 == a / 2 + b / 2;
    }
  }

  lemma {:induction false} Coarser(j: nat, o: nat, q: nat)
    requires o <= q && Aligned(j, q)
    ensures Aligned(j, o)
  {
    if o > 0 {
      Coarser(j / 2, o - 1, q - 1);
    }
  }

  lemma {:induction false} PowAligned(o: nat, q: nat)
    requires o <= q
    ensures Aligned(Pow2(q), o)
  {
    if o > 0 {
      PowAligned(o - 1, q - 1);
      assert Pow2(q) / 2 == Pow2(q - 1);
    }
  }

  lemma {:induction false} BaseAligned(j: nat, o: nat)
    requires Aligned(j, o)
    ensures Base(j, o) == j
  {
    if o > 0 {
      BaseAligned(j / 2, o - 1);
    }
  }

  /** The multiple of 2^(o+1) below a multiple of 2^o. */
  lemma {:induction false} Parent(i: nat, o: nat)
    requires Aligned(i, o)
    ensures Pow2(o + 1) == 2 * Pow2(o)
    ensures Base(i, o + 1) == if Bit(i, o) then i - Pow2(o) else i
    ensures Bit(i, o) ==> i >= Pow2(o)
  {
    if o == 0 {
      assert Base(i, 1) == 2 * Base(i / 2, 0);
    } else {
      Parent(i / 2, o - 1);
    }
  }

  lemma {:induction false} PowMonotone(o: nat, q: nat)
    requires o <= q
    ensures Pow2(o) <= Pow2(q)
  {
    if o > 0 {
      PowMonotone(o - 1, q - 1);
    }
  }

  // Bitmaps.

  lemma {:induction false} ZeroBit(k: nat)
    ensures !Bit(0, k)
  {
    if k > 0 {
      ZeroBit(k - 1);
    }
  }

  lemma {:induction false} PowBit(o: nat, k: nat)
    ensures Bit(Pow2(o), k) <==> k == o
  {
    if o == 0 {
      if k > 0 {
        assert Pow2(0) / 2 == 0;
        ZeroBit(k - 1);
      }
    } else if k > 0 {
      assert Pow2(o) / 2 == Pow2(o - 1);
      PowBit(o - 1, k - 1);
    }
  }

  lemma {:induction false} OrBit(a: nat, o: nat, k: nat)
    ensures Bit(Or(a, Pow2(o)), k) <==> Bit(a, k) || k == o
  {
    PowBit(o, k);
    ZeroBit(k);
    if a > 0 && k > 0 {
      var b := Pow2(o);
      assert Or(a, b) / 2 == Or(a / 2, b / 2);
      if o == 0 {
        assert b / 2 == 0 && Or(a / 2, 0) == a / 2;
      } else {
        assert b / 2 == Pow2(o - 1);
        OrBit(a / 2, o - 1, k - 1);
      }
    }
  }

  lemma {:induction false} XorBit(a: nat, o: nat, k: nat)
    ensures Bit(Xor(a, Pow2(o)), k) <==> Bit(a, k) != (k == o)
  {
    PowBit(o, k);
    ZeroBit(k);
    if a > 0 && k > 0 {
      var b := Pow2(o);
      assert Xor(a, b) / 2 == Xor(a / 2, b / 2);
      if o == 0 {
        assert b / 2 == 0 && Xor(a / 2, 0) == a / 2;
      } else {
        assert b / 2 == Pow2(o - 1);
        XorBit(a / 2, o - 1, k - 1);
      }
    }
  }

  lemma {:induction false} ShrBit(a: nat, n: nat, k: nat)
    ensures Bit(Shr(a, n), k) <==> Bit(a, n + k)
  {
    if n > 0 {
      ShrBit(a / 2, n - 1, k);
    }
  }

  /** Index of the lowest set bit. */
  function Bsf(a: nat): (r: nat)
    requires a > 0
    ensures Bit(a, r) && forall k: nat :: k < r ==> !Bit(a, k)
  {
    if a % 2 == 1 then 0 else 1 + Bsf(a / 2)
  }

  /** Index of the highest set bit. */
  function Bsr(a: nat): nat
    requires a > 0
  {
    if a < 2 then 0 else 1 + Bsr(a / 2)
  }

  /** A bitmap is zero exactly when no bit is set. */
  lemma {:induction false} NoBits(a: nat)
    ensures a == 0 <==> forall k: nat :: !Bit(a, k)
  {
    if a == 0 {
      forall k: nat ensures !Bit(a, k) {
        ZeroBit(k);
      }
    } else {
      var r := Bsf(a);
      assert exists k: nat :: Bit(a, k) by {
        assert Bit(a, r);
      }
    }
  }
}
