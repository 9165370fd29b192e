/** The radix heap of libs/crh.c, for keys at or after the base and below 2^31: sixteen levels of
    sixteen buckets, with a bitmap of the nonempty ones at each level and one of the levels. */
module Crh {
  import opened Common
  import opened Bits
  import opened CrhDigits

  const SEG_COUNT: nat := 16

  /** Largest value for which the int-width shifts of crh_max_step are exact. */
  const LIMIT: nat := 0x8000_0000

  type Table = seq<seq<seq<nat>>>

  ghost predicate Shaped(heads: Table) {
    |heads| == SEG_COUNT && forall d :: 0 <= d < SEG_COUNT ==> |heads[d]| == 16
  }

  /** Seen from the base, key k belongs in bucket (d, i). */
  ghost predicate Bucket(base: nat, k: nat, d: nat, i: nat) {
    Level(base, k) == d && Digit(k, d) == i
  }

  /** Every node outside `out` is in exactly the bucket its key belongs in. */
  ghost predicate Linked(heads: Table, key: map<nat, nat>, base: nat, out: set<nat>) {
    && Shaped(heads)
    && (forall d, i :: 0 <= d < SEG_COUNT && 0 <= i < 16 ==> NoDup(heads[d][i]))
    && (forall d: nat, i: nat, x: nat :: d < SEG_COUNT && i < 16 ==>
          (x in heads[d][i] <==> x in key && x !in out && Bucket(base, key[x], d, i)))
  }

  /** Both bitmap levels show exactly what is nonempty. */
  ghost predicate Mapped(heads: Table, headsBm: seq<nat>, bm: nat) {
    && Shaped(heads) && |headsBm| == SEG_COUNT
    && (forall d: nat, i: nat :: d < SEG_COUNT ==> (Bit(headsBm[d], i) <==> i < 16 && heads[d][i] != []))
    && (forall d: nat :: Bit(bm, d) <==> d < SEG_COUNT && headsBm[d] != 0)
  }

  ghost predicate Later(key: map<nat, nat>, base: nat) {
    base < LIMIT && forall x :: x in key ==> base < key[x] < LIMIT
  }

  function Set(heads: Table, d: nat, i: nat, l: seq<nat>): Table
    requires d < |heads| && i < |heads[d]|
  {
    heads[d := heads[d][i := l]]
  }

  /** Where the bucket of key k begins, seen from the base. */
  ghost function BucketStart(base: nat, k: nat): int {
    k - Low(k, Level(base, k))
  }

  class Heap {
    var base: nat
    var bm: nat
    var headsBm: seq<nat>
    var heads: Table
    var key: map<nat, nat>

    ghost predicate Valid()
      reads this
    {
      Later(key, base) && Linked(heads, key, base, {}) && Mapped(heads, headsBm, bm)
    }

    /** crh_init. */
    constructor ()
      ensures Valid() && base == 0 && key == map[]
    {
      base, bm, key := 0, 0, map[];
      headsBm := seq(SEG_COUNT, _ => 0);
      heads := seq(SEG_COUNT, _ => seq(16, _ => []));
      new;
      EmptyMapped(heads, headsBm);
    }

    /** _crh_insert of a node whose key is set. */
    method Place(x: nat, ghost out: set<nat>)
      requires x in key && x in out && base < key[x] < LIMIT && base < LIMIT
      requires Linked(heads, key, base, out) && Mapped(heads, headsBm, bm)
      modifies this`heads, this`headsBm, this`bm
      ensures Linked(heads, key, base, out - {x}) && Mapped(heads, headsBm, bm)
    {
      hide Linked, Mapped, Level, Digit;
      BucketOf(base, key[x]);
      Sizes(heads, headsBm, bm);
      var d := Bsr(Xor(base, key[x])) / 4;
      var idx := And(Shr(key[x], 4 * d), 15);
      LinkPut(heads, key, base, out, x, d, idx);
      MapPut(heads, headsBm, bm, d, idx, [x] + heads[d][idx]);
      heads := Set(heads, d, idx, [x] + heads[d][idx]);
      headsBm := headsBm[d := Or(headsBm[d], Pow2(idx))];
      bm := Or(bm, Pow2(d));
    }

    /** crh_insert: refused exactly when the key is the base. */
    method Insert(x: nat, k: nat) returns (ret: int)
      requires Valid() && x !in key && base <= k < LIMIT
      modifies this
      ensures Valid() && base == old(base)
      ensures ret == if k == base then -1 else 0
      ensures key == if k == base then old(key) else old(key)[x := k]
    {
      hide Linked, Mapped;
      if base == k {
        return -1;
      }
      LinkNew(heads, key, base, x, k);
      key := key[x := k];
      Place(x, {x});
      assert {x} - {x} == {};
      return 0;
    }

    /** crh_set_base to a later base that passes no key: the nodes whose key is the new base are
        handed out, all others stay, each in its bucket. */
    method SetBase(base': nat) returns (result: seq<nat>)
      requires Valid() && base <= base' < LIMIT && forall x :: x in key ==> base' <= key[x]
      modifies this
      ensures Valid() && base == base' && NoDup(result)
      ensures forall x :: x in result <==> x in old(key) && old(key)[x] == base'
      ensures key == map x | x in old(key) && old(key)[x] != base' :: old(key)[x]
    {
      hide Linked, Mapped, Level, Digit;
      result := [];
      if base == base' {
        return;
      }
      BucketOf(base, base');
      Sizes(heads, headsBm, bm);
      var d := Bsr(Xor(base, base')) / 4;
      var idx := And(Shr(base', 4 * d), 15);
      var list := heads[d][idx];
      Moved(heads, key, base, base', d, idx);
      MapTake(heads, headsBm, bm, d, idx);
      base := base';
      heads := Set(heads, d, idx, []);
      if list != [] {
        headsBm := headsBm[d := Xor(headsBm[d], Pow2(idx))];
        if headsBm[d] == 0 {
          bm := Xor(bm, Pow2(d));
        }
      }
      result := Redistribute(list);
    }

    /** The loop of crh_set_base over the nodes of the emptied bucket. */
    method Redistribute(list: seq<nat>) returns (result: seq<nat>)
      requires base < LIMIT && NoDup(list) && Linked(heads, key, base, Elems(list)) && Mapped(heads, headsBm, bm)
      requires forall x :: x in key ==> base <= key[x] < LIMIT && (key[x] == base ==> x in list)
      requires forall x :: x in list ==> x in key
      modifies this`heads, this`headsBm, this`bm, this`key
      ensures Valid() && NoDup(result)
      ensures forall x :: x in result <==> x in old(key) && old(key)[x] == base
      ensures key == map x | x in old(key) && old(key)[x] != base :: old(key)[x]
    {
      hide Linked, Mapped;
      result := [];
      assert list[0..] == list;
      for j := 0 to |list|
        invariant Linked(heads, key, base, Elems(list[j..])) && Mapped(heads, headsBm, bm) && NoDup(result)
        invariant forall x :: x in result <==> x in list[..j] && old(key)[x] == base
        invariant key == map x | x in old(key) && x !in result :: old(key)[x]
      {
        var node := list[j];
        assert list[j..] == [node] + list[j + 1..] && list[..j + 1] == list[..j] + [node];
        assert node !in list[..j];
        ElemsTail(list[j..]);
        assert node in key && node !in list[j + 1..];
        if key[node] != base {
          Place(node, Elems(list[j..]));
        } else {
          result := result + [node];
          LinkDrop(heads, key, base, Elems(list[j..]), node);
          key := key - {node};
        }
      }
      assert list[|list|..] == [] && list[..|list|] == list && Elems<nat>([]) == {};
    }

    /** crh_max_step: zero exactly when nothing is pending; otherwise a positive step that passes
        no key and leads to the beginning of a bucket that holds one. */
    method MaxStep() returns (r: nat)
      requires Valid()
      ensures r == 0 <==> key == map[]
      ensures forall x :: x in key ==> base + r <= key[x]
      ensures r > 0 ==> exists x :: x in key && base + r == BucketStart(base, key[x])
    {
      hide Linked, Mapped, Level, Digit, BucketStart;
      EmptyBm(heads, headsBm, bm, key, base);
      if bm == 0 {
        return 0;
      }
      Sizes(heads, headsBm, bm);
      var d := Bsf(bm);
      StepFacts(heads, headsBm, bm, key, base);
      var idx := And(Shr(base, 4 * d), 15);
      var remain := if d == 0 then 0 else And(base, Pow2(4 * d) - 1);
      assert d != SEG_COUNT - 1;
      var rbm := Shr(headsBm[d], idx);
      assert rbm != 0;
      assert Bsf(rbm) * Pow2(4 * d) < LIMIT;
      r := Bsf(rbm) * Pow2(4 * d) - remain;
    }

    /** crh_remove. */
    method Remove(x: nat)
      requires Valid() && x in key
      modifies this
      ensures Valid() && base == old(base) && key == old(key) - {x}
    {
      hide Linked, Mapped, Level, Digit;
      BucketOf(base, key[x]);
      Sizes(heads, headsBm, bm);
      var d := Bsr(Xor(base, key[x])) / 4;
      var idx := And(Shr(key[x], 4 * d), 15);
      LinkTake(heads, key, base, x, d, idx);
      var list := heads[d][idx];
      WithoutNoDup(list, x);
      if list[0] != x {
        MapKeep(heads, headsBm, bm, d, idx, Without(list, x));
        heads := Set(heads, d, idx, Without(list, x));
      } else if |list| > 1 {
        WithoutFirst(list);
        MapKeep(heads, headsBm, bm, d, idx, list[1..]);
        heads := Set(heads, d, idx, list[1..]);
      } else {
        WithoutFirst(list);
        MapTake(heads, headsBm, bm, d, idx);
        heads := Set(heads, d, idx, []);
        headsBm := headsBm[d := Xor(headsBm[d], Pow2(idx))];
        if headsBm[d] == 0 {
          bm := Xor(bm, Pow2(d));
        }
      }
      key := key - {x};
    }
  }

  lemma {:induction false} ElemsTail(s: seq<nat>)
    requires s != [] && s[0] !in s[1..]
    ensures Elems(s) - {s[0]} == Elems(s[1..])
  {
  }

  lemma {:induction false} EmptyMapped(heads: Table, headsBm: seq<nat>)
    requires Shaped(heads) && |headsBm| == SEG_COUNT && forall d :: 0 <= d < SEG_COUNT ==> headsBm[d] == 0
    requires forall d, i :: 0 <= d < SEG_COUNT && 0 <= i < 16 ==> heads[d][i] == []
    ensures Mapped(heads, headsBm, 0) && Linked(heads, map[], 0, {})
  {
    NoBits(0);
  }

  /** The level and digit expressions of the source, for a key after the base. */
  lemma {:induction false} BucketOf(base: nat, k: nat)
    requires base < k < LIMIT
    ensures Xor(base, k) > 0
    ensures var d := Bsr(Xor(base, k)) / 4; var i := And(Shr(k, 4 * d), 15); d < 8 && i < 16 && Bucket(base, k, d, i)
  {
    LevelIs(base, k);
    ShrDigit(k, Level(base, k));
    assert Pow16(8) == 0x1_0000_0000;
    LevelBound(base, k, 8);
  }

  lemma {:induction false} Sizes(heads: Table, headsBm: seq<nat>, bm: nat)
    requires Mapped(heads, headsBm, bm)
    ensures Shaped(heads) && |headsBm| == SEG_COUNT
  {
  }

  // Bitmaps.

  /** A bucket that becomes nonempty. */
  lemma {:induction false} MapPut(heads: Table, headsBm: seq<nat>, bm: nat, d: nat, i: nat, l: seq<nat>)
    requires Mapped(heads, headsBm, bm) && d < SEG_COUNT && i < 16 && l != []
    ensures Mapped(Set(heads, d, i, l), headsBm[d := Or(headsBm[d], Pow2(i))], Or(bm, Pow2(d)))
  {
    hide Bit, Or, Pow2;
    var heads', hb, bm' := Set(heads, d, i, l), headsBm[d := Or(headsBm[d], Pow2(i))], Or(bm, Pow2(d));
    forall k: nat ensures Bit(hb[d], k) <==> Bit(headsBm[d], k) || k == i {
      OrBit(headsBm[d], i, k);
    }
    forall e: nat ensures Bit(bm', e) <==> Bit(bm, e) || e == d {
      OrBit(bm, d, e);
    }
    NoBits(hb[d]);
    assert Bit(hb[d], i) && hb[d] != 0;
    assert forall e: nat :: Bit(bm', e) <==> e < SEG_COUNT && hb[e] != 0;
    forall e: nat, k: nat | e < SEG_COUNT ensures Bit(hb[e], k) <==> k < 16 && heads'[e][k] != [] {
      assert Bit(headsBm[e], k) <==> k < 16 && heads[e][k] != [];
    }
  }

  /** A bucket that is emptied. */
  lemma {:induction false} MapTake(heads: Table, headsBm: seq<nat>, bm: nat, d: nat, i: nat)
    requires Mapped(heads, headsBm, bm) && d < SEG_COUNT && i < 16
    ensures heads[d][i] == [] ==> Mapped(Set(heads, d, i, []), headsBm, bm)
    ensures heads[d][i] != [] ==>
              var hb := Xor(headsBm[d], Pow2(i));
              Mapped(Set(heads, d, i, []), headsBm[d := hb], if hb == 0 then Xor(bm, Pow2(d)) else bm)
  {
    hide Bit, Xor, Pow2;
    if heads[d][i] == [] {
      assert Set(heads, d, i, []) == heads by {
        assert heads[d][i := []] == heads[d];
      }
    } else {
      var heads', hb := Set(heads, d, i, []), headsBm[d := Xor(headsBm[d], Pow2(i))];
      var bm' := if hb[d] == 0 then Xor(bm, Pow2(d)) else bm;
      forall k: nat ensures Bit(hb[d], k) <==> Bit(headsBm[d], k) && k != i {
        XorBit(headsBm[d], i, k);
        assert Bit(headsBm[d], i);
      }
      NoBits(headsBm[d]);
      assert Bit(headsBm[d], i) && Bit(bm, d);
      forall e: nat ensures Bit(bm', e) <==> if e == d then hb[d] != 0 else Bit(bm, e) {
        XorBit(bm, d, e);
      }
      forall e: nat, k: nat | e < SEG_COUNT ensures Bit(hb[e], k) <==> k < 16 && heads'[e][k] != [] {
        assert Bit(headsBm[e], k) <==> k < 16 && heads[e][k] != [];
      }
    }
  }

  /** A bucket that stays nonempty. */
  lemma {:induction false} MapKeep(heads: Table, headsBm: seq<nat>, bm: nat, d: nat, i: nat, l: seq<nat>)
    requires Mapped(heads, headsBm, bm) && d < SEG_COUNT && i < 16 && heads[d][i] != [] && l != []
    ensures Mapped(Set(heads, d, i, l), headsBm, bm)
  {
    var heads' := Set(heads, d, i, l);
    forall e: nat, k: nat | e < SEG_COUNT ensures Bit(headsBm[e], k) <==> k < 16 && heads'[e][k] != [] {
      assert Bit(headsBm[e], k) <==> k < 16 && heads[e][k] != [];
    }
  }

  // Buckets.

  lemma {:induction false} LinkPut(heads: Table, key: map<nat, nat>, base: nat, out: set<nat>, x: nat, d: nat, i: nat)
    requires Linked(heads, key, base, out) && x in key && x in out && d < SEG_COUNT && i < 16
             && Bucket(base, key[x], d, i)
    ensures |heads| == SEG_COUNT && |heads[d]| == 16
    ensures Linked(Set(heads, d, i, [x] + heads[d][i]), key, base, out - {x})
  {
    hide Bucket;
    OneBucket(base, key[x], d, i);
    assert x !in heads[d][i];
    var heads' := Set(heads, d, i, [x] + heads[d][i]);
    forall e: nat, k: nat, y: nat | e < SEG_COUNT && k < 16
      ensures y in heads'[e][k] <==> y in key && y !in out - {x} && Bucket(base, key[y], e, k)
    {
      assert y in heads[e][k] <==> y in key && y !in out && Bucket(base, key[y], e, k);
    }
  }

  lemma {:induction false} OneBucket(base: nat, k: nat, d: nat, i: nat)
    requires Bucket(base, k, d, i)
    ensures forall e: nat, j: nat :: Bucket(base, k, e, j) <==> e == d && j == i
  {
  }

  lemma {:induction false} LinkNew(heads: Table, key: map<nat, nat>, base: nat, x: nat, k: nat)
    requires Linked(heads, key, base, {}) && x !in key
    ensures Linked(heads, key[x := k], base, {x})
  {
    var key' := key[x := k];
    forall d: nat, i: nat, y: nat | d < SEG_COUNT && i < 16
      ensures y in heads[d][i] <==> y in key' && y !in {x} && Bucket(base, key'[y], d, i)
    {
      assert y in heads[d][i] <==> y in key && y !in {} && Bucket(base, key[y], d, i);
    }
  }

  lemma {:induction false} LinkDrop(heads: Table, key: map<nat, nat>, base: nat, out: set<nat>, x: nat)
    requires Linked(heads, key, base, out) && x in out
    ensures Linked(heads, key - {x}, base, out - {x})
  {
    hide Bucket;
    var key' := key - {x};
    forall d: nat, i: nat, y: nat | d < SEG_COUNT && i < 16
      ensures y in heads[d][i] <==> y in key' && y !in out - {x} && Bucket(base, key'[y], d, i)
    {
      assert y in heads[d][i] <==> y in key && y !in out && Bucket(base, key[y], d, i);
    }
  }

  lemma {:induction false} LinkTake(heads: Table, key: map<nat, nat>, base: nat, x: nat, d: nat, i: nat)
    requires Linked(heads, key, base, {}) && x in key && d < SEG_COUNT && i < 16 && Bucket(base, key[x], d, i)
    ensures |heads| == SEG_COUNT && |heads[d]| == 16 && x in heads[d][i] && NoDup(heads[d][i])
    ensures Linked(Set(heads, d, i, Without(heads[d][i], x)), key - {x}, base, {})
  {
    hide Bucket;
    OneBucket(base, key[x], d, i);
    assert x in heads[d][i];
    WithoutNoDup(heads[d][i], x);
    var heads', key' := Set(heads, d, i, Without(heads[d][i], x)), key - {x};
    forall e: nat, k: nat, y: nat | e < SEG_COUNT && k < 16
      ensures y in heads'[e][k] <==> y in key' && y !in {} && Bucket(base, key'[y], e, k)
    {
      assert y in heads[e][k] <==> y in key && y !in {} && Bucket(base, key[y], e, k);
    }
  }

  /** Emptying the bucket of the new base leaves every other node where it belongs. */
  lemma {:induction false} Moved(heads: Table, key: map<nat, nat>, base: nat, base': nat, d: nat, i: nat)
    requires Linked(heads, key, base, {}) && base < base' && Bucket(base, base', d, i) && d < SEG_COUNT && i < 16
    requires forall x :: x in key ==> base' <= key[x]
    ensures |heads| == SEG_COUNT && |heads[d]| == 16 && NoDup(heads[d][i])
    ensures Linked(Set(heads, d, i, []), key, base', Elems(heads[d][i]))
    ensures forall x :: x in heads[d][i] ==> x in key
    ensures forall x :: x in key && key[x] == base' ==> x in heads[d][i]
  {
    hide Level, Digit;
    var heads', out := Set(heads, d, i, []), Elems(heads[d][i]);
    forall e: nat, k: nat, y: nat | e < SEG_COUNT && k < 16
      ensures y in heads'[e][k] <==> y in key && y !in out && Bucket(base', key[y], e, k)
    {
      assert y in heads[e][k] <==> y in key && y !in {} && Bucket(base, key[y], e, k);
      assert y in heads[d][i] <==> y in key && y !in {} && Bucket(base, key[y], d, i);
      if y in key {
        BaseMove(base, base', key[y]);
      }
    }
    forall x | x in key && key[x] == base' ensures x in heads[d][i] {
      assert x !in {} && Bucket(base, key[x], d, i);
    }
  }

  /** A pending key shows in both bitmaps, above the base's digit. */
  lemma {:induction false} Shown(heads: Table, headsBm: seq<nat>, bm: nat, key: map<nat, nat>, base: nat, x: nat)
    requires Linked(heads, key, base, {}) && Mapped(heads, headsBm, bm) && Later(key, base) && x in key
    ensures var d := Level(base, key[x]); var i := Digit(key[x], d);
            && d < 8 && Bit(bm, d) && Bit(headsBm[d], i) && Digit(base, d) < i
  {
    hide Level, Digit, Bit;
    BucketOf(base, key[x]);
    var d := Level(base, key[x]);
    var i := Digit(key[x], d);
    LevelDigit(base, key[x]);
    assert x !in {} && Bucket(base, key[x], d, i);
    assert x in heads[d][i];
    assert Bit(headsBm[d], i);
    NoBits(headsBm[d]);
  }

  lemma {:induction false} EmptyBm(heads: Table, headsBm: seq<nat>, bm: nat, key: map<nat, nat>, base: nat)
    requires Linked(heads, key, base, {}) && Mapped(heads, headsBm, bm) && Later(key, base)
    ensures bm == 0 <==> key == map[]
  {
    hide Bit, Bucket;
    NoBits(bm);
    if key != map[] {
      var x :| x in key;
      Shown(heads, headsBm, bm, key, base, x);
    } else if bm != 0 {
      var x := Witness(heads, headsBm, bm, key, base, Bsf(bm));
    }
  }

  /** What crh_max_step relies on. */
  lemma {:induction false} StepFacts(heads: Table, headsBm: seq<nat>, bm: nat, key: map<nat, nat>, base: nat)
    requires Linked(heads, key, base, {}) && Mapped(heads, headsBm, bm) && Later(key, base) && bm != 0
    ensures var d := Bsf(bm); var idx := And(Shr(base, 4 * d), 15);
            && d < 8 && |headsBm| == SEG_COUNT && idx == Digit(base, d)
            && Pow2(4 * d) == Pow16(d) && And(base, Pow2(4 * d) - 1) == Low(base, d)
            && var rbm := Shr(headsBm[d], idx);
               && rbm != 0 && Bsf(rbm) > 0 && Bsf(rbm) * Pow16(d) < LIMIT
               && Bsf(rbm) * Pow16(d) > Low(base, d)
               && (forall x :: x in key ==> base + Bsf(rbm) * Pow16(d) - Low(base, d) <= key[x])
               && (exists x :: x in key && base + Bsf(rbm) * Pow16(d) - Low(base, d) == BucketStart(base, key[x]))
  {
    hide Bit, Level, Digit, Start, Low, Pow16, Shr, And;
    var d := Bsf(bm);
    ShrDigit(base, d);
    AndLow(base, d);
    var y := Witness(heads, headsBm, bm, key, base, d);
    Shown(heads, headsBm, bm, key, base, y);
    var idx := Digit(base, d);
    var rbm := Shr(headsBm[d], idx);
    ShrBit(headsBm[d], idx, Digit(key[y], d) - idx);
    NoBits(rbm);
    var n := Bsf(rbm);
    ShrBit(headsBm[d], idx, n);
    var z := AtBit(heads, headsBm, bm, key, base, d, idx + n);
    Shown(heads, headsBm, bm, key, base, z);
    StartIs(base, d, n);
    StartOf(base, key[z]);
    StartAbove(base, d, idx + n);
    forall x | x in key ensures Start(base, d, idx + n) <= key[x] {
      Shown(heads, headsBm, bm, key, base, x);
      if Level(base, key[x]) == d {
        ShrBit(headsBm[d], idx, Digit(key[x], d) - idx);
      }
      StartBelow(base, key[x], d, idx + n);
    }
  }

  lemma {:induction false} AtBit(heads: Table, headsBm: seq<nat>, bm: nat, key: map<nat, nat>, base: nat, d: nat,
      i: nat) returns (x: nat)
    requires Linked(heads, key, base, {}) && Mapped(heads, headsBm, bm) && d < SEG_COUNT && Bit(headsBm[d], i)
    ensures i < 16 && x in key && Bucket(base, key[x], d, i)
  {
    hide Bit, Bucket;
    x := heads[d][i][0];
    assert x in heads[d][i];
  }

  lemma {:induction false} Witness(heads: Table, headsBm: seq<nat>, bm: nat, key: map<nat, nat>, base: nat, d: nat)
      returns (x: nat)
    requires Linked(heads, key, base, {}) && Mapped(heads, headsBm, bm) && Bit(bm, d)
    ensures d < SEG_COUNT && x in key && Level(base, key[x]) == d
  {
    hide Bit, Level, Digit;
    var i := Bsf(headsBm[d]);
    x := AtBit(heads, headsBm, bm, key, base, d, i);
  }
}
