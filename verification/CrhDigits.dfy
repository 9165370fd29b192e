/** Keys of the radix heap in libs/crh.c as hexadecimal digits: the level at which two keys part,
    and where a bucket begins. */
module CrhDigits {
  import opened Bits

  /** Digit d of a key. */
  function Digit(k: nat, d: nat): (r: nat)
    ensures r < 16
  {
    if d == 0 then k % 16 else Digit(k / 16, d - 1)
  }

  /** The highest digit in which two keys differ (0 when they do not). */
  function Level(a: nat, b: nat): nat
    decreases a + b
  {
    if a / 16 == b / 16 then 0 else 1 + Level(a / 16, b / 16)
  }

  function Pow16(d: nat): (r: nat)
    ensures r > 0
  {
    if d == 0 then 1 else 16 * Pow16(d - 1)
  }

  /** The digits of a key below digit d. */
  function Low(k: nat, d: nat): (r: nat)
    ensures r <= k
  {
    if d == 0 then 0 else k % 16 + 16 * Low(k / 16, d - 1)
  }

  /** The least key that agrees with b above digit d and has g there. */
  ghost function Start(b: nat, d: nat, g: nat): nat {
    if d == 0 then b - b % 16 + g else 16 * Start(b / 16, d - 1, g)
  }

  // The expressions of the source.

  lemma {:induction false} AndFifteen(a: nat)
    ensures And(a, 15) == a % 16
  {
    AndFour(a, 15);
    assert And(a / 16, 0) == 0;
  }

  lemma {:induction false} ShrDigit(k: nat, d: nat)
    ensures And(Shr(k, 4 * d), 15) == Digit(k, d)
  {
    AndFifteen(Shr(k, 4 * d));
    ShrMod(k, d);
  }

  lemma {:induction false} ShrMod(k: nat, d: nat)
    ensures Shr(k, 4 * d) % 16 == Digit(k, d)
  {
    if d > 0 {
      ShrFour(k, 4 * d);
      ShrMod(k / 16, d - 1);
    }
  }

  lemma {:induction false} ShrFour(k: nat, n: nat)
    requires n >= 4
    ensures Shr(k, n) == Shr(k / 16, n - 4)
  {
    assert Shr(k, n) == Shr(k / 2, n - 1) == Shr(k / 2 / 2, n - 2);
    assert Shr(k / 2 / 2, n - 2) == Shr(k / 2 / 2 / 2, n - 3) == Shr(k / 2 / 2 / 2 / 2, n - 4);
    assert k / 2 / 2 / 2 / 2 == k / 16;
  }

  lemma {:induction false} AndLow(k: nat, d: nat)
    ensures Pow2(4 * d) == Pow16(d) && And(k, Pow16(d) - 1) == Low(k, d)
  {
    if d > 0 {
      AndLow(k / 16, d - 1);
      PowFour(4 * d);
      AndFour(k, Pow16(d) - 1);
    }
  }

  lemma {:induction false} PowFour(n: nat)
    requires n >= 4
    ensures Pow2(n) == 16 * Pow2(n - 4)
  {
    assert Pow2(n) == 2 * Pow2(n - 1) == 4 * Pow2(n - 2);
    assert Pow2(n - 2) == 2 * Pow2(n - 3) == 4 * Pow2(n - 4);
  }

  lemma {:induction false} AndTwo(a: nat, b: nat)
    requires b % 4 == 3
    ensures And(a, b) == a % 4 + 4 * And(a / 4, b / 4)
  {
    hide And;
    AndHalf(a, b);
    AndHalf(a / 2, b / 2);
    assert a / 2 / 2 == a / 4 && b / 2 / 2 == b / 4;
  }

  lemma {:induction false} AndFour(a: nat, b: nat)
    requires b % 16 == 15
    ensures And(a, b) == a % 16 + 16 * And(a / 16, b / 16)
  {
    hide And;
    AndTwo(a, b);
    AndTwo(a / 4, b / 4);
    assert a / 4 / 4 == a / 16 && b / 4 / 4 == b / 16;
  }

  lemma {:induction false} XorFour(a: nat, b: nat)
    ensures Xor(a, b) / 16 == Xor(a / 16, b / 16)
  {
    hide Xor;
    XorHalf(a, b);
    XorHalf(a / 2, b / 2);
    XorHalf(a / 4, b / 4);
    XorHalf(a / 8, b / 8);
    assert a / 2 / 2 == a / 4 && a / 4 / 2 == a / 8 && a / 8 / 2 == a / 16;
    assert b / 2 / 2 == b / 4 && b / 4 / 2 == b / 8 && b / 8 / 2 == b / 16;
  }

  lemma {:induction false} XorZero(a: nat, b: nat)
    ensures Xor(a, b) == 0 <==> a == b
  {
    if a > 0 && b > 0 {
      XorZero(a / 2, b / 2);
    }
  }

  lemma {:induction false} BsrFour(x: nat)
    requires x > 0
    ensures if x < 16 then Bsr(x) < 4 else Bsr(x) == 4 + Bsr(x / 16)
  {
    if x >= 16 {
      assert Bsr(x) == 1 + Bsr(x / 2) == 2 + Bsr(x / 2 / 2) == 3 + Bsr(x / 2 / 2 / 2);
      assert Bsr(x / 2 / 2 / 2) == 1 + Bsr(x / 2 / 2 / 2 / 2);
      assert x / 2 / 2 / 2 / 2 == x / 16;
    } else {
      assert x >= 2 ==> Bsr(x) == 1 + Bsr(x / 2);
      assert x >= 4 ==> Bsr(x / 2) == 1 + Bsr(x / 2 / 2);
      assert x >= 8 ==> Bsr(x / 2 / 2) == 1 + Bsr(x / 2 / 2 / 2);
    }
  }

  /** bsr(a ^ b) >> 2 is the level at which a and b part. */
  lemma {:induction false} LevelIs(a: nat, b: nat)
    requires a != b
    ensures Xor(a, b) > 0 && Bsr(Xor(a, b)) / 4 == Level(a, b)
    decreases a + b
  {
    XorZero(a, b);
    XorFour(a, b);
    XorZero(a / 16, b / 16);
    BsrFour(Xor(a, b));
    if a / 16 != b / 16 {
      LevelIs(a / 16, b / 16);
    }
  }

  // Order.

  /** A larger key has the larger digit at the level where they part. */
  lemma {:induction false} LevelDigit(b: nat, k: nat)
    requires b < k
    ensures Digit(b, Level(b, k)) < Digit(k, Level(b, k))
    decreases k
  {
    if b / 16 != k / 16 {
      LevelDigit(b / 16, k / 16);
    }
  }

  lemma {:induction false} LevelBound(b: nat, k: nat, n: nat)
    requires b < Pow16(n) && k < Pow16(n) && n > 0
    ensures Level(b, k) < n
    decreases n
  {
    if b / 16 != k / 16 {
      assert n > 1;
      LevelBound(b / 16, k / 16, n - 1);
    }
  }

  /** Moving the base from b to b' changes the bucket of a later key only if the key was in the
      bucket of b' itself. */
  lemma {:induction false} BaseMove(b: nat, b': nat, k: nat)
    requires b < b' <= k
    ensures var d := Level(b, b');
            && (Level(b, k) == d && Digit(k, d) == Digit(b', d) <==> k == b' || Level(b', k) < d)
            && (k == b' || Level(b', k) < d || Level(b', k) == Level(b, k))
    decreases k
  {
    if b / 16 != b' / 16 {
      BaseMove(b / 16, b' / 16, k / 16);
      assert k / 16 == b' / 16 ==> Digit(k / 16, Level(b / 16, b' / 16)) == Digit(b' / 16, Level(b / 16, b' / 16));
    }
  }

  /** A bucket begins no later than any key in it or in a later bucket or level. */
  lemma {:induction false} StartBelow(b: nat, k: nat, d: nat, g: nat)
    requires b < k && d <= Level(b, k) && g < 16 && (d == Level(b, k) ==> g <= Digit(k, d))
    ensures Start(b, d, g) <= k
    decreases d
  {
    if d > 0 {
      StartBelow(b / 16, k / 16, d - 1, g);
    }
  }

  lemma {:induction false} StartAbove(b: nat, d: nat, g: nat)
    requires Digit(b, d) < g
    ensures b < Start(b, d, g)
  {
    if d > 0 {
      StartAbove(b / 16, d - 1, g);
    }
  }

  /** The bucket of a key begins where its lower digits are zero. */
  lemma {:induction false} StartOf(b: nat, k: nat)
    ensures Start(b, Level(b, k), Digit(k, Level(b, k))) == k - Low(k, Level(b, k))
    decreases b + k
  {
    if b / 16 != k / 16 {
      StartOf(b / 16, k / 16);
    }
  }

  /** The distance crh_max_step computes. */
  lemma {:induction false} StartIs(b: nat, d: nat, n: nat)
    ensures Start(b, d, Digit(b, d) + n) == b + n * Pow16(d) - Low(b, d)
  {
    if d > 0 {
      StartIs(b / 16, d - 1, n);
      SixteenTimes(n, Pow16(d - 1));
      var q, x, l := b / 16, n * Pow16(d - 1), Low(b / 16, d - 1);
      assert Start(b, d, Digit(b, d) + n) == 16 * (q + x - l) && Low(b, d) == b % 16 + 16 * l;
      assert b == 16 * q + b % 16;
    }
  }

  lemma {:induction false} SixteenTimes(n: nat, p: nat)
    ensures n * (16 * p) == 16 * (n * p)
  {
  }
}
