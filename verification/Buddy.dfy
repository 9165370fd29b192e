/** The buddy page allocator of mm/buddy_pmm.c.  A page is its index in the page array; `free`
    holds, zone by zone, the indices of the free pages. */
module Buddy {
  import opened Common
  import opened Bits
  import opened BuddyShape
  import opened BuddyState

  class Allocator {
    var pages: Pages
    var lists: seq<seq<nat>>
    var nr: seq<nat>
    var zones: seq<nat>
    ghost var len: seq<nat>
    ghost var free: seq<set<nat>>

    /** The free lists hold exactly the maximal free blocks of every zone, and are counted. */
    ghost predicate Valid()
      reads this
    {
      |zones| == |len| == |free| && Ok(pages, lists, nr, zones, len, free)
    }

    /** buddy_init over n page descriptors, all still reserved. */
    constructor (n: nat)
      ensures Valid() && zones == [] && free == [] && |pages| == n && forall p :: 0 <= p < n ==> pages[p].reserved
    {
      pages := seq(n, _ => Page(true, false, 0, 0, 0));
      lists := seq(MAX_ORDER + 1, _ => []);
      nr := seq(MAX_ORDER + 1, _ => 0);
      zones, len, free := [], [], [];
      new;
      TotalZero(nr, |nr|);
    }

    /** Mark a page as the head of a block and add it to the free list. */
    method Attach(p: nat, o: nat, ghost z: nat, ghost i: nat)
      requires Valid() && z < |zones| && p == zones[z] + i && i + Pow2(o) <= len[z] && o <= MAX_ORDER
      requires Span(i, Pow2(o)) !! free[z] && Maximal(free[z] + Span(i, Pow2(o)), i, o)
      modifies this`pages, this`lists, this`nr, this`free
      ensures Valid() && free == old(free)[z := old(free)[z] + Span(i, Pow2(o))] && RefsCleared(old(pages), pages, p, 0)
    {
      hide Ok, Span, Pow2, Maximal;
      PutKeeps(pages, lists, nr, zones, len, free, z, i, o);
      pages := PutHead(pages, p, o);
      lists := lists[o := [p] + lists[o]];
      nr := nr[o := nr[o] + 1];
      free := free[z := free[z] + Span(i, Pow2(o))];
    }

    /** Unlink a block head and clear its mark. */
    method Detach(p: nat, ghost z: nat, ghost i: nat) returns (o: nat)
      requires Valid() && z < |zones| && p == zones[z] + i && i < len[z] && p < |pages| && pages[p].head
      modifies this`pages, this`lists, this`nr, this`free
      ensures Valid() && o == old(pages)[p].order <= MAX_ORDER && RefsCleared(old(pages), pages, p, 0)
      ensures Maximal(old(free)[z], i, o) && Span(i, Pow2(o)) <= old(free)[z] && i + Pow2(o) <= len[z] && Aligned(i, o)
      ensures free == old(free)[z := old(free)[z] - Span(i, Pow2(o))]
    {
      hide Ok, Span, Pow2, Maximal;
      o := pages[p].order;
      TakeKeeps(pages, lists, nr, zones, len, free, z, i, o);
      nr := nr[o := nr[o] - 1];
      lists := lists[o := Without(lists[o], p)];
      pages := ClearHead(pages, p);
      free := free[z := free[z] - Span(i, Pow2(o))];
    }

    /** page_is_buddy. */
    predicate PageIsBuddy(p: nat, o: nat, z: nat)
      reads this
    {
      p < |pages| && pages[p].zone == z && !pages[p].reserved && pages[p].head && pages[p].order == o
    }

    /** buddy_free_pages_sub: the block joins the free pages, merged with every free buddy. */
    method FreeSub(base: nat, order: nat, ghost z: nat, ghost i: nat)
      requires Valid() && z < |zones| && base == zones[z] + i && order <= MAX_ORDER && Aligned(i, order)
      requires i + Pow2(order) <= len[z] && Span(i, Pow2(order)) !! free[z]
      modifies this`pages, this`lists, this`nr, this`free
      ensures Valid() && free == old(free)[z := old(free)[z] + Span(i, Pow2(order))]
      ensures RefsCleared(old(pages), pages, base, Pow2(order)) && |pages| == |old(pages)|
    {
      hide Ok, Span, Pow2, Maximal, Aligned;
      InZonePage(pages, lists, nr, zones, len, free, z, i);
      ResetPages(base, Pow2(order), z, i);
      InZonePage(pages, lists, nr, zones, len, free, z, i);
      var zone := pages[base].zone;
      var idx: nat, o := base - zones[zone], order;
      assert And(idx, Pow2(order) - 1) == 0 by {
        AndMask(idx, order);
      }
      while o < MAX_ORDER
        invariant Valid() && o <= MAX_ORDER && Aligned(idx, o) && idx + Pow2(o) <= len[z]
                  && Span(idx, Pow2(o)) !! free[z]
        invariant free == old(free)[z := free[z]] && free[z] + Span(idx, Pow2(o)) == old(free)[z] + Span(i, Pow2(order))
        invariant RefsCleared(old(pages), pages, base, Pow2(order))
      {
        var buddyIdx := Xor(idx, Pow2(o));
        BuddyIs(pages, lists, nr, zones, len, free, z, buddyIdx, o);
        if !PageIsBuddy(zones[zone] + buddyIdx, o, zone) {
          break;
        }
        MergeStep(free[z], len[z], idx, o);
        var _ := Detach(zones[zone] + buddyIdx, z, buddyIdx);
        idx := And(idx, buddyIdx);
        o := o + 1;
      }
      MergeEnd(free[z], idx, o);
      Attach(zones[zone] + idx, o, z, idx);
    }

    /** The first loop of buddy_free_pages_sub, with its assertions. */
    method ResetPages(base: nat, n: nat, ghost z: nat, ghost i: nat)
      requires Valid() && z < |zones| && base == zones[z] + i && i + n <= len[z] && Span(i, n) !! free[z]
      modifies this`pages
      ensures Valid() && RefsCleared(old(pages), pages, base, n)
    {
      hide Ok, Span;
      for p := base to base + n
        invariant Valid() && RefsCleared(old(pages), pages, base, p - base)
      {
        PageIdle(pages, lists, nr, zones, len, free, z, i, n, p - zones[z]);
        assert !pages[p].reserved && !pages[p].head;
        pages := pages[p := pages[p].(reserved := false, head := false, ref := 0)];
      }
    }

    /** buddy_free_pages: exactly the n pages become free.  `ok` tells whether its assertion on the order
        holds throughout: just when fewer than 2^17 pages remain once the range starts at a multiple of
        2^17.  Otherwise the kernel stops there, with the pages up to that multiple free. */
    method FreePages(base: nat, n: nat, ghost z: nat, ghost i: nat) returns (ok: bool)
      requires Valid() && z < |zones| && base == zones[z] + i && n > 0 && i + n <= len[z] && Span(i, n) !! free[z]
      modifies this`pages, this`lists, this`nr, this`free
      ensures Valid() && |pages| == |old(pages)| && (ok <==> FreesAll(i, n))
      ensures ok ==> RefsCleared(old(pages), pages, base, n)
      ensures ok ==> free == old(free)[z := old(free)[z] + Span(i, n)] && Count(free) == Count(old(free)) + n
      ensures !ok ==> free == old(free)[z := old(free)[z] + Span(i, NextMultiple(i, MAX_ORDER + 1) - i)]
    {
      hide Ok, Span, Pow2, Aligned, NextMultiple, Count, RefsCleared;
      CountAdd(free, z, i, n);
      if n == 1 {
        SmallEnough(i, n);
        OnePage({}, i);
        FreeSub(base, 0, z, i);
        return true;
      }
      var b, m, o;
      ghost var j;
      ok, b, m, o, j := FreeUp(base, n, z, i);
      if ok {
        ghost var pages1 := pages;
        FreeDown(b, m, o, z, j);
        ClearedJoin(old(pages), pages1, pages, base, j - i, m);
        SpanJoin(i, j - i, n);
        assert free[z] == old(free)[z] + Span(i, n);
      }
    }

    /** The first loop of buddy_free_pages: ever larger blocks until the start is aligned, or until its
        assertion fails. */
    method FreeUp(base: nat, n: nat, ghost z: nat, ghost i: nat)
        returns (ok: bool, b: nat, m: nat, o: nat, ghost j: nat)
      requires Valid() && z < |zones| && base == zones[z] + i && i + n <= len[z] && Span(i, n) !! free[z]
      modifies this`pages, this`lists, this`nr, this`free
      ensures Valid() && i <= j && j + m == i + n && b == zones[z] + j && o <= MAX_ORDER + 1 && Aligned(j, o)
      ensures free == old(free)[z := old(free)[z] + Span(i, j - i)] && |pages| == |old(pages)| && Span(j, m) !! free[z]
      ensures RefsCleared(old(pages), pages, base, j - i)
      ensures (ok <==> FreesAll(i, n)) && (ok ==> m < Pow2(o)) && (!ok ==> j == NextMultiple(i, MAX_ORDER + 1))
    {
      hide Ok, Span, Pow2, Aligned, NextMultiple, Bit, RefsCleared;
      b, m, o, j := base, n, 0, i;
      NoneCleared(pages, base);
      var size := 1;
      FreeStart(free, z, i, n);
      while m >= size
        invariant Valid() && i <= j && j + m == i + n && b == zones[z] + j && size == Pow2(o) && o <= MAX_ORDER + 1
                  && Aligned(j, o)
        invariant free == old(free)[z := old(free)[z] + Span(i, j - i)] && |pages| == |old(pages)|
                  && Span(j, m) !! free[z]
        invariant j <= NextMultiple(i, MAX_ORDER + 1) && RefsCleared(old(pages), pages, base, j - i)
        decreases m - size
      {
        LastOrder(i, j, o);
        if o > MAX_ORDER {
          return false, b, m, o, j;
        }
        InZonePage(pages, lists, nr, zones, len, free, z, j);
        AndPow2(j, o);
        NextUp(i, j, o);
        if And(b - zones[pages[b].zone], size) != 0 {
          SpanSplit(j, size, m, free[z]);
          ghost var pages1 := pages;
          FreeSub(b, o, z, j);
          ClearedJoin(old(pages), pages1, pages, base, j - i, size);
          GrowFree(old(free), z, i, j - i, j - i + size);
          b, m, j := b + size, m - size, j + size;
        }
        o, size := o + 1, 2 * size;
      }
      PowMonotone(o, MAX_ORDER + 1);
      return true, b, m, o, j;
    }

    /** The second loop of buddy_free_pages: ever smaller blocks. */
    method FreeDown(base: nat, n: nat, order: nat, ghost z: nat, ghost i: nat)
      requires Valid() && z < |zones| && base == zones[z] + i && i + n <= len[z] && Span(i, n) !! free[z]
      requires n < Pow2(order) && order <= MAX_ORDER + 1 && Aligned(i, order)
      modifies this`pages, this`lists, this`nr, this`free
      ensures Valid() && free == old(free)[z := old(free)[z] + Span(i, n)]
      ensures RefsCleared(old(pages), pages, base, n) && |pages| == |old(pages)|
    {
      hide Ok, Span, Pow2, Aligned, RefsCleared;
      NoneCleared(pages, base);
      var b, m: nat, o: nat, size := base, n, order, Pow2(order);
      ghost var j := i;
      FreeStart(free, z, i, n);
      while m != 0
        invariant Valid() && i <= j && j + m == i + n && b == zones[z] + j && size == Pow2(o) && o <= MAX_ORDER + 1
                  && Aligned(j, o)
        invariant free == old(free)[z := old(free)[z] + Span(i, j - i)] && |pages| == |old(pages)|
                  && Span(j, m) !! free[z]
        invariant m < size && RefsCleared(old(pages), pages, base, j - i)
        decreases m
      {
        while m < size
          invariant size == Pow2(o) && o <= MAX_ORDER + 1 && Aligned(j, o) && 0 < m < 2 * size
                    && (m >= size ==> o <= MAX_ORDER)
          decreases o
          modifies {}
        {
          HalfOrder(j, o);
          o, size := o - 1, size / 2;
        }
        SpanSplit(j, size, m, free[z]);
        ghost var pages1 := pages;
        FreeSub(b, o, z, j);
        ClearedJoin(old(pages), pages1, pages, base, j - i, size);
        GrowFree(old(free), z, i, j - i, j - i + size);
        AlignedNext(j, o);
        b, m, j := b + size, m - size, j + size;
      }
    }

    /** getorder: the least order whose block holds n pages. */
    method GetOrder(n: nat) returns (order: nat)
      requires n <= Pow2(MAX_ORDER)
      ensures order <= MAX_ORDER && n <= Pow2(order) && (order > 0 ==> Pow2(order - 1) < n)
    {
      hide Pow2;
      var size := 1;
      order := 0;
      OnePage({}, 0);
      while n > size
        invariant order <= MAX_ORDER && size == Pow2(order) && (order > 0 ==> Pow2(order - 1) < n)
        decreases MAX_ORDER - order
      {
        NextOrder(order);
        order, size := order + 1, 2 * size;
      }
    }

    /** buddy_alloc_pages_sub: fails exactly when no zone has a free aligned block of the order. */
    method AllocSub(order: nat) returns (page: Option<nat>, ghost z: nat, ghost i: nat)
      requires Valid() && order <= MAX_ORDER
      modifies this`pages, this`lists, this`nr, this`free
      ensures Valid() && |pages| == |old(pages)|
      ensures page.None? ==>
              free == old(free) && forall y: nat, k: nat :: y < |free| && Aligned(k, order) ==> !Run(free[y], k, order)
      ensures page.Some? ==> z < |zones| && page.value == zones[z] + i && i + Pow2(order) <= len[z] && Aligned(i, order)
      ensures page.Some? ==>
              Span(i, Pow2(order)) <= old(free)[z] && free == old(free)[z := old(free)[z] - Span(i, Pow2(order))]
    {
      hide Ok, Span, Pow2, Aligned, Run, Maximal;
      var cur := order;
      z, i := 0, 0;
      OkSizes(pages, lists, nr, zones, len, free);
      while cur <= MAX_ORDER
        invariant order <= cur <= MAX_ORDER + 1 && Valid() && |lists| == MAX_ORDER + 1
        invariant forall o :: order <= o < cur ==> lists[o] == []
        invariant free == old(free) && pages == old(pages)
      {
        if lists[cur] != [] {
          var p;
          p, z, i := TakeFirst(cur, order);
          return Some(p), z, i;
        }
        cur := cur + 1;
      }
      NoBlock(pages, lists, nr, zones, len, free, order);
      return None, 0, 0;
    }

    /** The first block of a list, cut down to the wanted order. */
    method TakeFirst(cur: nat, order: nat) returns (p: nat, ghost z: nat, ghost i: nat)
      requires Valid() && order <= cur <= MAX_ORDER < |lists| && lists[cur] != []
      modifies this`pages, this`lists, this`nr, this`free
      ensures Valid() && |pages| == |old(pages)|
      ensures z < |zones| && p == zones[z] + i && i + Pow2(order) <= len[z] && Aligned(i, order)
      ensures Span(i, Pow2(order)) <= old(free)[z] && free == old(free)[z := old(free)[z] - Span(i, Pow2(order))]
    {
      hide Ok, Span, Pow2, Aligned, Maximal;
      p := lists[cur][0];
      FirstListed(pages, lists, nr, zones, len, free, cur);
      z, i := pages[p].zone, p - zones[pages[p].zone];
      ghost var free0 := free;
      var _ := Detach(p, z, i);
      Split(p, cur, order, z, i);
      SplitSets(free0[z], Span(i, Pow2(cur)), Span(i, Pow2(order)));
    }

    /** Halve the detached block at p until it has the wanted order; upper halves become free. */
    method Split(p: nat, cur: nat, order: nat, ghost z: nat, ghost i: nat)
      requires Valid() && z < |zones| && p == zones[z] + i && order <= cur <= MAX_ORDER
      requires Aligned(i, cur) && i + Pow2(cur) <= len[z] && Span(i, Pow2(cur)) !! free[z]
      modifies this`pages, this`lists, this`nr, this`free
      ensures Valid() && |pages| == |old(pages)| && Aligned(i, order) && i + Pow2(order) <= len[z]
      ensures Span(i, Pow2(order)) <= Span(i, Pow2(cur))
      ensures free == old(free)[z := old(free)[z] + (Span(i, Pow2(cur)) - Span(i, Pow2(order)))]
    {
      hide Ok, Span, Pow2, Aligned, Maximal;
      var c, size := cur, Pow2(cur);
      SplitStart(free, z, i, cur);
      while c > order
        invariant order <= c <= cur && size == Pow2(c) && Valid() && |pages| == |old(pages)|
        invariant Aligned(i, c) && i + Pow2(c) <= len[z] && Span(i, Pow2(c)) <= Span(i, Pow2(cur))
        invariant free == old(free)[z := old(free)[z] + (Span(i, Pow2(cur)) - Span(i, Pow2(c)))]
      {
        SplitStep(old(free)[z], i, cur, c);
        c := c - 1;
        size := size / 2;
        Attach(p + size, c, z, i + size);
      }
    }

    /** buddy_alloc_pages: fails exactly when no zone has a free aligned block of the smallest
        order that holds n pages; otherwise exactly n free pages leave the free set. */
    method AllocPages(n: nat) returns (page: Option<nat>, ghost order: nat, ghost z: nat, ghost i: nat)
      requires Valid() && 0 < n <= Pow2(MAX_ORDER)
      modifies this`pages, this`lists, this`nr, this`free
      ensures Valid() && |pages| == |old(pages)| && n <= Pow2(order) && (order > 0 ==> Pow2(order - 1) < n)
      ensures page.None? <==>
              forall y: nat, k: nat :: y < |old(free)| && Aligned(k, order) ==> !Run(old(free)[y], k, order)
      ensures page.None? ==> free == old(free)
      ensures page.Some? ==> z < |zones| && page.value == zones[z] + i && Span(i, n) <= old(free)[z] && i + n <= len[z]
      ensures page.Some? ==> Aligned(i, order)
      ensures page.Some? ==> free == old(free)[z := old(free)[z] - Span(i, n)] && Count(free) == Count(old(free)) - n
    {
      hide Ok, Span, Pow2, Aligned, Run, NextMultiple, Count;
      var o := GetOrder(n);
      order := o;
      var size := Pow2(o);
      page, z, i := AllocSub(o);
      if page.Some? {
        RunThere(old(free)[z], i, o);
        AllocTail(old(free), z, i, n, o);
        if n != size {
          var _ := FreePages(page.value + n, size - n, z, i + n);
        }
        assert free[z] == old(free)[z] - Span(i, n);
      }
    }

    /** buddy_nr_free_pages: the number of free pages. */
    method NrFreePages() returns (ret: nat)
      requires Valid()
      ensures ret == Count(free)
    {
      OkSizes(pages, lists, nr, zones, len, free);
      ret := 0;
      var size := 1;
      for order := 0 to MAX_ORDER + 1
        invariant ret == Total(nr, order) && size == Pow2(order)
      {
        ret := ret + nr[order] * size;
        size := 2 * size;
      }
    }

    /** buddy_init_memmap: a new zone whose pages are all free. */
    method InitMemmap(base: nat, n: nat)
      requires Valid() && 0 < n && |zones| < MAX_ZONE_NUM && base + n <= |pages|
      requires forall p :: base <= p < base + n ==> pages[p].reserved
      modifies this
      ensures Valid() && zones == old(zones) + [base] && len == old(len) + [n]
      ensures free == old(free) + [Span(0, n)] && |pages| == |old(pages)|
      ensures Count(free) == Count(old(free)) + n && RefsCleared(old(pages), pages, base, n)
    {
      hide Ok, Span, Pow2, Aligned, Maximal, Count;
      ghost var pages0, z := pages, |zones|;
      var p := base;
      while p != base + n
        invariant base <= p <= base + n && NewZone(pages0, pages, base, p, z) && |zones| == z
        invariant zones == old(zones) && len == old(len) && free == old(free) && lists == old(lists) && nr == old(nr)
        decreases base + n - p
      {
        assert pages[p].reserved;
        pages := pages[p := Page(false, false, 0, |zones|, 0)];
        p := p + 1;
      }
      ZoneAdded(pages0, pages, lists, nr, zones, len, free, base, n);
      zones, len, free := zones + [base], len + [n], free + [{}];
      var m: nat, order: int, size := n, MAX_ORDER, Pow2(MAX_ORDER);
      p := base;
      ghost var i: nat := 0;
      InitStart();
      while m != 0
        invariant Valid() && zones == old(zones) + [base] && len == old(len) + [n]
                  && RefsCleared(pages0, pages, base, n)
        invariant i + m == n && p == base + i && free == old(free) + [Span(0, i)]
        invariant m > 0 ==> 0 <= order <= MAX_ORDER && size == Pow2(order) && Aligned(i, order)
        invariant 0 <= order < MAX_ORDER ==> m < 2 * size && Aligned(i, order + 1)
        decreases m, order
      {
        while m >= size
          invariant Valid() && zones == old(zones) + [base] && len == old(len) + [n]
                    && RefsCleared(pages0, pages, base, n)
          invariant i + m == n && p == base + i && free == old(free) + [Span(0, i)] && Aligned(i, order)
          invariant order < MAX_ORDER ==> m < 2 * size && (m >= size ==> Aligned(i, order + 1))
          decreases m
        {
          InitStep(i, order);
          Attach(p, order, z, i);
          AlignedNext(i, order);
          i := i + size;
          m, p := m - size, p + size;
        }
        if order > 0 {
          HalfOrder(i, order);
        } else {
          OnePage({}, i);
        }
        order := order - 1;
        size := size / 2;
      }
      CountAdd(old(free) + [{}], z, 0, n);
      CountPush(old(free));
      assert {} + Span(0, n) == Span(0, n);
      assert (old(free) + [{}])[z := Span(0, n)] == free;
    }

    /** Allocating n pages and freeing them again restores the set of free blocks exactly. */
    method AllocThenFree(n: nat) returns (ok: bool)
      requires Valid() && 0 < n <= Pow2(MAX_ORDER)
      modifies this`pages, this`lists, this`nr, this`free
      ensures Valid() && free == old(free)
      ensures forall z :: 0 <= z < |zones| ==>
              BlocksOf(pages, zones[z], len[z]) == BlocksOf(old(pages), zones[z], len[z])
    {
      hide Ok, Span, Pow2, Aligned, Run, NextMultiple, Count;
      var page;
      ghost var order, z, i;
      page, order, z, i := AllocPages(n);
      ok := page.Some?;
      if ok {
        FreeBack(old(free)[z], i, n);
        var _ := FreePages(page.value, n, z, i);
        assert free[z] == old(free)[z] && free == old(free);
      }
      SameBlocks(pages, old(pages), lists, nr, old(lists), old(nr), zones, len, free);
    }
  }

  const HALF: nat := 65536

  lemma {:induction false} HalfSizes()
    ensures Pow2(MAX_ORDER) == HALF && Pow2(MAX_ORDER + 1) == 2 * HALF && Pow2(MAX_ORDER - 1) < HALF
  {
    assert Pow2(4) == 16;
    assert Pow2(8) == 256;
    assert Pow2(12) == 4096;
  }

  lemma {:induction false} HalfOrderIs(order: nat)
    requires HALF <= Pow2(order) && (order > 0 ==> Pow2(order - 1) < HALF)
    ensures order == MAX_ORDER
  {
    hide Pow2;
    HalfSizes();
    if order < MAX_ORDER {
      PowMonotone(order, MAX_ORDER - 1);
    } else if order > MAX_ORDER {
      PowMonotone(MAX_ORDER, order - 1);
    }
  }

  /** An aligned half of the zone is the lower or the upper one. */
  lemma {:induction false} WhichHalf(i: nat)
    requires Aligned(i, MAX_ORDER) && i + HALF <= 2 * HALF
    ensures i == 0 || i == HALF
  {
    hide Pow2, Aligned;
    HalfSizes();
    ZeroAligned(MAX_ORDER);
    if i > 0 {
      MultipleStep(0, i, MAX_ORDER);
    }
  }

  lemma {:induction false} HalvesAligned()
    ensures Aligned(0, MAX_ORDER) && Aligned(HALF, MAX_ORDER)
    ensures NextMultiple(0, MAX_ORDER + 1) == 0 && !FreesAll(0, 2 * HALF)
  {
    hide Pow2, Aligned, Base;
    HalfSizes();
    ZeroAligned(MAX_ORDER);
    PowAligned(MAX_ORDER, MAX_ORDER);
    ZeroAligned(MAX_ORDER + 1);
    LeastMultiple(0, MAX_ORDER + 1);
    var c := NextMultiple(0, MAX_ORDER + 1);
    if c > 0 {
      MultipleStep(0, c, MAX_ORDER + 1);
    }
  }

  lemma {:induction false} OtherHalf(free: set<nat>, i: nat)
    requires (i == 0 || i == HALF) && free == Span(0, 2 * HALF) - Span(i, HALF)
    ensures free == Span(HALF - i, HALF) && Run(free, HALF - i, MAX_ORDER)
    ensures forall k: nat :: (k == 0 || k == HALF) && Span(k, HALF) <= free ==> k == HALF - i
  {
    hide Pow2;
    HalfSizes();
    SpanElems(0, 2 * HALF);
    SpanElems(i, HALF);
    SpanElems(HALF - i, HALF);
    RunThere(free, HALF - i, MAX_ORDER);
    forall k: nat | (k == 0 || k == HALF) && Span(k, HALF) <= free ensures k == HALF - i {
      SpanElems(k, HALF);
      assert k in Span(k, HALF);
    }
  }

  /** A zone of 2^17 pages, allocated in two halves and freed in one call: the assertion fails. */
  method WholeZone() returns (a: Allocator, ok: bool)
    ensures a.Valid() && !ok
  {
    hide Ok, Span, Pow2, Aligned, Run, NextMultiple, Count, FreesAll;
    HalfSizes();
    HalvesAligned();
    a := new Allocator(2 * HALF);
    a.InitMemmap(0, 2 * HALF);
    ghost var all := a.free[0];
    WholeRun(all);
    var p, q;
    ghost var o, z, i, o', z', i';
    p, o, z, i := a.AllocPages(HALF);
    HalfOrderIs(o);
    WhichHalf(i);
    OtherHalf(a.free[0], i);
    q, o', z', i' := a.AllocPages(HALF);
    HalfOrderIs(o');
    WhichHalf(i');
    assert a.free[0] == {};
    ok := a.FreePages(0, 2 * HALF, 0, 0);
  }

  lemma {:induction false} WholeRun(free: set<nat>)
    requires free == Span(0, 2 * HALF)
    ensures Run(free, 0, MAX_ORDER)
  {
    hide Pow2;
    HalfSizes();
    SpanElems(0, 2 * HALF);
    SpanElems(0, HALF);
    RunThere(free, 0, MAX_ORDER);
  }

  /** The range ends less than 2^17 pages after the next multiple of 2^17. */
  ghost predicate FreesAll(i: nat, n: nat) {
    n < Pow2(MAX_ORDER + 1) + NextMultiple(i, MAX_ORDER + 1) - i
  }

  ghost function NextMultiple(i: nat, o: nat): (r: nat)
    ensures i <= r && Aligned(r, o)
  {
    Base(i + Pow2(o) - 1, o)
  }

  // Facts about a state in good order.

  lemma {:induction false} TotalZero(nr: seq<nat>, n: nat)
    requires n <= |nr| && forall o :: 0 <= o < |nr| ==> nr[o] == 0
    ensures Total(nr, n) == 0
  {
    if n > 0 {
      TotalZero(nr, n - 1);
    }
  }

  lemma {:induction false} OkSizes(pages: Pages, lists: seq<seq<nat>>, nr: seq<nat>, zones: seq<nat>, len: seq<nat>,
      free: seq<set<nat>>)
    requires Ok(pages, lists, nr, zones, len, free)
    ensures |lists| == |nr| == MAX_ORDER + 1 && |zones| == |len| == |free| && Total(nr, |nr|) == Count(free)
  {
  }

  lemma {:induction false} InZonePage(pages: Pages, lists: seq<seq<nat>>, nr: seq<nat>, zones: seq<nat>,
      len: seq<nat>, free: seq<set<nat>>, z: nat, i: nat)
    requires Ok(pages, lists, nr, zones, len, free) && z < |zones| == |len| && i < len[z]
    ensures zones[z] + i < |pages| && !pages[zones[z] + i].reserved && pages[zones[z] + i].zone == z
  {
    ZonePage(pages, zones, len, z, i);
  }

  /** A page that is not free heads no block, so resetting it changes no block. */
  lemma {:induction false} PageIdle(pages: Pages, lists: seq<seq<nat>>, nr: seq<nat>, zones: seq<nat>, len: seq<nat>,
      free: seq<set<nat>>, z: nat, i: nat, n: nat, j: nat)
    requires Ok(pages, lists, nr, zones, len, free) && z < |zones| == |len| == |free| && i <= j < i + n <= len[z]
             && Span(i, n) !! free[z]
    ensures zones[z] + j < |pages| && !pages[zones[z] + j].reserved && !pages[zones[z] + j].head
    ensures Ok(pages[zones[z] + j := pages[zones[z] + j].(reserved := false, head := false, ref := 0)], lists, nr,
              zones, len, free)
  {
    hide Layout, Lists, Count, Total, Span;
    ZonePage(pages, zones, len, z, j);
    SpanElems(i, n);
    PageNotHead(pages, zones[z], len[z], free[z], j);
    var pages' := pages[zones[z] + j := pages[zones[z] + j].(reserved := false, head := false, ref := 0)];
    LayoutSame(pages, pages', zones, len);
    assert forall p: nat, o: nat :: HeadAt(pages', p, o) <==> HeadAt(pages, p, o);
    ListsSame(pages, pages', lists, nr);
  }

  lemma {:induction false} ListsSame(pages: Pages, pages': Pages, lists: seq<seq<nat>>, nr: seq<nat>)
    requires Lists(pages, lists, nr) && SameZones(pages, pages')
    requires forall p: nat, o: nat :: HeadAt(pages', p, o) <==> HeadAt(pages, p, o)
    ensures Lists(pages', lists, nr)
  {
    assert forall p: nat, o: nat :: Listed(pages', p, o) <==> Listed(pages, p, o);
  }

  /** What page_is_buddy means: that block is a maximal free block of the zone. */
  lemma {:induction false} BuddyIs(pages: Pages, lists: seq<seq<nat>>, nr: seq<nat>, zones: seq<nat>, len: seq<nat>,
      free: seq<set<nat>>, z: nat, j: nat, o: nat)
    requires Ok(pages, lists, nr, zones, len, free) && z < |zones| == |len| == |free|
    ensures var p := zones[z] + j;
            (p < |pages| && pages[p].zone == z && !pages[p].reserved && pages[p].head && pages[p].order == o) <==>
              Maximal(free[z], j, o)
    ensures Maximal(free[z], j, o) ==> j < len[z]
    ensures forall k :: k in free[z] ==> k < len[z]
  {
    var p := zones[z] + j;
    if j < len[z] {
      ZonePage(pages, zones, len, z, j);
      assert HeadAt(pages, p, o) <==> Maximal(free[z], j, o);
    } else {
      assert !InZone(zones[z], len[z], p);
      NotMaximal(free[z], j);
    }
  }

  /** Merging with a free buddy. */
  lemma {:induction false} MergeStep(free: set<nat>, len: nat, i: nat, o: nat)
    requires Aligned(i, o) && Span(i, Pow2(o)) !! free && o < MAX_ORDER
    requires forall k :: k in free ==> k < len
    requires i + Pow2(o) <= len
    ensures var j := Xor(i, Pow2(o)); var b := And(i, j);
            Maximal(free, j, o) ==>
              && Aligned(b, o + 1) && b + Pow2(o + 1) <= len && Span(b, Pow2(o + 1)) !! free - Span(j, Pow2(o))
              && free - Span(j, Pow2(o)) + Span(b, Pow2(o + 1)) == free + Span(i, Pow2(o))
  {
    var j := Xor(i, Pow2(o));
    var b := And(i, j);
    if Maximal(free, j, o) {
      XorPow2(i, o);
      AndXor(i, o);
      Parent(i, o);
      MaximalSpan(free, len, j, o);
      SpanElems(i, Pow2(o));
      SpanElems(j, Pow2(o));
      SpanElems(b, Pow2(o + 1));
    }
  }

  /** A block whose buddy is not a free block is maximal once it is free. */
  lemma {:induction false} MergeEnd(free: set<nat>, i: nat, o: nat)
    requires Aligned(i, o) && Span(i, Pow2(o)) !! free && o <= MAX_ORDER
    requires o < MAX_ORDER ==> !Maximal(free, Xor(i, Pow2(o)), o)
    ensures Maximal(free + Span(i, Pow2(o)), i, o)
  {
    var more := free + Span(i, Pow2(o));
    SpanElems(i, Pow2(o));
    assert i in Span(i, Pow2(o));
    if o < MAX_ORDER {
      var j := Xor(i, Pow2(o));
      XorPow2(i, o);
      Parent(i, o);
      BuddySide(i, o);
      if Run(more, Base(i, o + 1), o + 1) {
        assert Run(free, j, o);
        assert false;
      }
    }
  }

  lemma {:induction false} BuddySide(i: nat, o: nat)
    requires Aligned(i, o)
    ensures var j := Xor(i, Pow2(o)); Aligned(j, o) && Base(j, o + 1) == Base(i, o + 1)
  {
    hide Pow2, Aligned, Base, Bit, Xor;
    XorPow2(i, o);
    Parent(i, o);
    if Bit(i, o) {
      BaseAligned(i - Pow2(o), o + 1);
      Coarser(i - Pow2(o), o, o + 1);
    } else {
      UpperHalf(i, o + 1);
    }
  }

  lemma {:induction false} CountAdd(free: seq<set<nat>>, z: nat, i: nat, n: nat)
    requires z < |free| && Span(i, n) !! free[z]
    ensures Count(free[z := free[z] + Span(i, n)]) == Count(free) + n
  {
    AddCard(free[z], i, n);
    CountUpdate(free, z, free[z] + Span(i, n));
  }

  lemma {:induction false} SpanJoin(i: nat, k: nat, n: nat)
    requires k <= n
    ensures Span(i, k) + Span(i + k, n - k) == Span(i, n)
  {
    SpanElems(i, k);
    SpanElems(i + k, n - k);
    SpanElems(i, n);
  }

  lemma {:induction false} GrowFree(free: seq<set<nat>>, z: nat, i: nat, k: nat, n: nat)
    requires z < |free| && k <= n
    ensures var f := free[z] + Span(i, k);
            free[z := f][z := f + Span(i + k, n - k)] == free[z := free[z] + Span(i, n)]
  {
    SpanJoin(i, k, n);
    assert free[z] + Span(i, k) + Span(i + k, n - k) == free[z] + Span(i, n);
  }

  lemma {:induction false} SpanSplit(i: nat, k: nat, n: nat, free: set<nat>)
    requires k <= n && Span(i, n) !! free
    ensures Span(i, k) !! free && Span(i + k, n - k) !! free + Span(i, k)
  {
    SpanElems(i, k);
    SpanElems(i + k, n - k);
    SpanElems(i, n);
  }

  lemma {:induction false} FreeStart(free: seq<set<nat>>, z: nat, i: nat, n: nat)
    requires z < |free|
    ensures free == free[z := free[z] + Span(i, 0)] && Aligned(i, 0) && Pow2(0) == 1
    ensures forall o: nat :: i <= NextMultiple(i, o)
  {
    SpanElems(i, 0);
    assert free[z] + Span(i, 0) == free[z];
  }

  /** Past order 16 the start is the next multiple of 2^17, so too few pages remain. */
  lemma {:induction false} LastOrder(i: nat, j: nat, o: nat)
    requires i <= j <= NextMultiple(i, MAX_ORDER + 1) && Aligned(j, o)
    ensures o == MAX_ORDER + 1 ==> j == NextMultiple(i, MAX_ORDER + 1)
  {
    hide Pow2, Base;
    var c := NextMultiple(i, MAX_ORDER + 1);
    LeastMultiple(i, MAX_ORDER + 1);
    if o == MAX_ORDER + 1 && j < c {
      MultipleStep(j, c, o);
      assert false;
    }
  }

  lemma {:induction false} LeastMultiple(i: nat, o: nat)
    ensures NextMultiple(i, o) < i + Pow2(o)
  {
  }

  /** Freeing a block of order o when bit o is set moves the start to a multiple of 2^(o+1). */
  lemma {:induction false} NextUp(i: nat, j: nat, o: nat)
    requires Aligned(j, o) && j <= NextMultiple(i, MAX_ORDER + 1) && o <= MAX_ORDER
    ensures Pow2(o + 1) == 2 * Pow2(o)
    ensures if Bit(j, o) then Aligned(j + Pow2(o), o + 1) && j + Pow2(o) <= NextMultiple(i, MAX_ORDER + 1)
            else Aligned(j, o + 1)
  {
    hide Pow2, Base, Aligned, Bit, NextMultiple;
    var c := NextMultiple(i, MAX_ORDER + 1);
    Parent(j, o);
    if Bit(j, o) {
      PowAligned(o + 1, o + 1);
      MultipleSum(Base(j, o + 1), Pow2(o + 1), o + 1);
      Coarser(c, o + 1, MAX_ORDER + 1);
      Coarser(c, o, MAX_ORDER + 1);
      if j == c {
        BaseAligned(j, o + 1);
        assert false;
      }
      MultipleStep(j, c, o);
    }
  }

  lemma {:induction false} HalfOrder(j: nat, o: nat)
    requires o > 0 && Aligned(j, o)
    ensures Pow2(o) == 2 * Pow2(o - 1) && Aligned(j, o - 1)
  {
    Coarser(j, o - 1, o);
  }

  lemma {:induction false} AlignedNext(j: nat, o: nat)
    requires Aligned(j, o)
    ensures Aligned(j + Pow2(o), o)
  {
    PowAligned(o, o);
    MultipleSum(j, Pow2(o), o);
  }

  lemma {:induction false} NextOrder(o: nat)
    ensures Pow2(o + 1) == 2 * Pow2(o)
  {
  }

  lemma {:induction false} FirstListed(pages: Pages, lists: seq<seq<nat>>, nr: seq<nat>, zones: seq<nat>,
      len: seq<nat>, free: seq<set<nat>>, cur: nat)
    requires Ok(pages, lists, nr, zones, len, free) && |zones| == |len| && cur <= MAX_ORDER < |lists|
             && lists[cur] != []
    ensures var p := lists[cur][0];
            && p < |pages| && pages[p].head && pages[p].order == cur
            && var z := pages[p].zone; z < |zones| && zones[z] <= p < zones[z] + len[z]
  {
    ListedHead(pages, lists, nr, zones, len, lists[cur][0], cur);
  }

  lemma {:induction false} BlockListed(pages: Pages, lists: seq<seq<nat>>, nr: seq<nat>, zones: seq<nat>,
      len: seq<nat>, free: seq<set<nat>>, z: nat, j: nat, o: nat)
    requires Ok(pages, lists, nr, zones, len, free) && z < |zones| == |len| == |free| && Maximal(free[z], j, o)
    ensures o <= MAX_ORDER < |lists| && zones[z] + j in lists[o]
  {
    BuddyIs(pages, lists, nr, zones, len, free, z, j, o);
    assert Listed(pages, zones[z] + j, o);
  }

  /** With the lists from `order` up empty, no zone has a free aligned block of that order. */
  lemma {:induction false} NoBlock(pages: Pages, lists: seq<seq<nat>>, nr: seq<nat>, zones: seq<nat>, len: seq<nat>,
      free: seq<set<nat>>, order: nat)
    requires Ok(pages, lists, nr, zones, len, free) && |lists| == MAX_ORDER + 1 && order <= MAX_ORDER
    requires forall o :: order <= o <= MAX_ORDER ==> lists[o] == []
    ensures forall y: nat, k: nat :: y < |free| && Aligned(k, order) ==> !Run(free[y], k, order)
  {
    hide Maximal, Aligned, Pow2, Run;
    forall y: nat, k: nat | y < |free| && Aligned(k, order) ensures !Run(free[y], k, order) {
      if Run(free[y], k, order) {
        var j, q := Climb(free[y], k, order);
        BlockListed(pages, lists, nr, zones, len, free, y, j, q);
        assert false;
      }
    }
  }

  lemma {:induction false} SplitSets(free: set<nat>, big: set<nat>, small: set<nat>)
    requires small <= big <= free
    ensures free - big + (big - small) == free - small && small <= free
  {
  }

  lemma {:induction false} SplitStart(free: seq<set<nat>>, z: nat, i: nat, cur: nat)
    requires z < |free|
    ensures free == free[z := free[z] + (Span(i, Pow2(cur)) - Span(i, Pow2(cur)))]
  {
    assert free[z] + (Span(i, Pow2(cur)) - Span(i, Pow2(cur))) == free[z];
  }

  /** The upper half of a split block is maximal: its buddy, the lower half, is not free. */
  lemma {:induction false} SplitStep(free: set<nat>, i: nat, cur: nat, c: nat)
    requires 0 < c <= MAX_ORDER && Aligned(i, c) && Span(i, Pow2(c)) <= Span(i, Pow2(cur)) && Span(i, Pow2(cur)) !! free
    ensures var h := Pow2(c - 1); var f := free + (Span(i, Pow2(cur)) - Span(i, Pow2(c)));
            && Pow2(c) == 2 * h && Aligned(i, c - 1) && Span(i + h, h) !! f && Maximal(f + Span(i + h, h), i + h, c - 1)
            && f + Span(i + h, h) == free + (Span(i, Pow2(cur)) - Span(i, h)) && Span(i, h) <= Span(i, Pow2(cur))
  {
    hide Pow2, Aligned, Base, Bit;
    var h := Pow2(c - 1);
    HalfOrder(i, c);
    SpanElems(i, Pow2(cur));
    SpanElems(i, Pow2(c));
    SpanElems(i, h);
    SpanElems(i + h, h);
    var f := free + (Span(i, Pow2(cur)) - Span(i, Pow2(c)));
    assert f + Span(i + h, h) == free + (Span(i, Pow2(cur)) - Span(i, h));
    UpperHalf(i, c);
    assert i in Span(i, h) && i !in f + Span(i + h, h);
  }

  lemma {:induction false} UpperHalf(i: nat, c: nat)
    requires c > 0 && Aligned(i, c)
    ensures var h := Pow2(c - 1); Aligned(i + h, c - 1) && Base(i + h, c) == i
  {
    hide Pow2, Aligned, Base, Bit;
    var h := Pow2(c - 1);
    HalfOrder(i, c);
    AlignedNext(i, c - 1);
    Parent(i + h, c - 1);
    if Base(i + h, c) == i + h {
      MultipleStep(i, i + h, c);
      assert false;
    }
  }

  lemma {:induction false} RunThere(free: set<nat>, i: nat, o: nat)
    requires Span(i, Pow2(o)) <= free
    ensures Run(free, i, o)
  {
    SpanElems(i, Pow2(o));
  }

  lemma {:induction false} SmallEnough(i: nat, n: nat)
    requires n <= Pow2(MAX_ORDER)
    ensures FreesAll(i, n)
  {
  }

  /** Allocating a block and freeing its tail takes exactly the first n pages. */
  lemma {:induction false} AllocTail(free: seq<set<nat>>, z: nat, i: nat, n: nat, o: nat)
    requires z < |free| && Span(i, Pow2(o)) <= free[z] && n <= Pow2(o) && o <= MAX_ORDER
    ensures var f := free[z] - Span(i, Pow2(o)); var t := Span(i + n, Pow2(o) - n);
            && t !! f && f + t == free[z] - Span(i, n) && Span(i, n) <= free[z]
            && (n == Pow2(o) ==> f == free[z] - Span(i, n))
            && FreesAll(i + n, Pow2(o) - n)
    ensures Count(free[z := free[z] - Span(i, n)]) == Count(free) - n
  {
    hide Pow2, NextMultiple, Span, Count;
    TailSets(free[z], i, n, Pow2(o));
    SubCard(free[z], i, n);
    CountUpdate(free, z, free[z] - Span(i, n));
    PowMonotone(o, MAX_ORDER);
    SmallEnough(i + n, Pow2(o) - n);
  }

  lemma {:induction false} TailSets(free: set<nat>, i: nat, n: nat, m: nat)
    requires Span(i, m) <= free && n <= m
    ensures var f := free - Span(i, m); var t := Span(i + n, m - n);
            && t !! f && f + t == free - Span(i, n) && Span(i, n) <= free && (n == m ==> f == free - Span(i, n))
  {
    hide Span;
    SpanElems(i, n);
    SpanElems(i, m);
    SpanElems(i + n, m - n);
  }

  ghost predicate NewZone(pages0: Pages, pages: Pages, base: nat, p: nat, z: nat) {
    && |pages| == |pages0|
    && forall q :: 0 <= q < |pages| ==> pages[q] == if base <= q < p then Page(false, false, 0, z, 0) else pages0[q]
  }

  lemma {:induction false} ZoneAdded(pages0: Pages, pages: Pages, lists: seq<seq<nat>>, nr: seq<nat>,
      zones: seq<nat>, len: seq<nat>, free: seq<set<nat>>, base: nat, n: nat)
    requires Ok(pages0, lists, nr, zones, len, free) && |zones| == |len| == |free| && base + n <= |pages|
    requires NewZone(pages0, pages, base, base + n, |zones|) && forall p :: base <= p < base + n ==> pages0[p].reserved
    ensures Ok(pages, lists, nr, zones + [base], len + [n], free + [{}])
  {
    hide Total, Count, Maximal;
    CountPush(free);
    var zones', len', free' := zones + [base], len + [n], free + [{}];
    assert Layout(pages, zones', len') by {
      hide Lists, Heads;
      NewLayout(pages0, pages, zones, len, base, n);
    }
    forall z | 0 <= z < |zones'| ensures ZoneHeads(pages, zones'[z], len'[z], free'[z]) {
      forall i: nat, o: nat | i < len'[z] ensures HeadAt(pages, zones'[z] + i, o) <==> Maximal(free'[z], i, o) {
        if z < |zones| {
          ZonePage(pages0, zones, len, z, i);
          assert HeadAt(pages0, zones[z] + i, o) <==> Maximal(free[z], i, o);
        } else {
          NotMaximal({}, i);
        }
      }
    }
    assert forall p: nat, o: nat :: Listed(pages, p, o) <==> Listed(pages0, p, o);
  }

  lemma {:induction false} NewLayout(pages0: Pages, pages: Pages, zones: seq<nat>, len: seq<nat>, base: nat, n: nat)
    requires Layout(pages0, zones, len) && base + n <= |pages|
    requires NewZone(pages0, pages, base, base + n, |zones|) && forall p :: base <= p < base + n ==> pages0[p].reserved
    ensures Layout(pages, zones + [base], len + [n])
  {
    var zones', len' := zones + [base], len + [n];
    forall z: nat, p: nat | z < |zones'| && InZone(zones'[z], len'[z], p)
      ensures !pages[p].reserved && pages[p].zone == z
    {
      if z < |zones| {
        assert zones'[z] == zones[z] && len'[z] == len[z] && InZone(zones[z], len[z], p);
        assert !pages0[p].reserved && pages0[p].zone == z;
        assert !(base <= p < base + n) && pages[p] == pages0[p];
      } else {
        assert zones'[z] == base && len'[z] == n;
      }
    }
    forall p: nat | p < |pages| && !pages[p].reserved
      ensures pages[p].zone < |zones'| && InZone(zones'[pages[p].zone], len'[pages[p].zone], p)
    {
      assert !(base <= p < base + n) ==> pages[p] == pages0[p];
    }
  }

  lemma {:induction false} InitStart()
    ensures Span(0, 0) == {} && Aligned(0, MAX_ORDER)
  {
    ZeroAligned(MAX_ORDER);
    SpanElems(0, 0);
  }

  lemma {:induction false} ZeroAligned(o: nat)
    ensures Aligned(0, o)
  {
    if o > 0 {
      ZeroAligned(o - 1);
    }
  }

  /** Laying out a zone from the left, each block is maximal: what follows it is not free yet. */
  lemma {:induction false} InitStep(i: nat, o: nat)
    requires Aligned(i, o) && o <= MAX_ORDER && (o < MAX_ORDER ==> Aligned(i, o + 1))
    ensures Span(i, Pow2(o)) !! Span(0, i) && Maximal(Span(0, i) + Span(i, Pow2(o)), i, o)
    ensures Span(0, i) + Span(i, Pow2(o)) == Span(0, i + Pow2(o))
  {
    hide Pow2, Aligned, Base;
    SpanElems(0, i);
    SpanElems(i, Pow2(o));
    SpanElems(0, i + Pow2(o));
    if o < MAX_ORDER {
      BaseAligned(i, o + 1);
      NextOrder(o);
      assert i + Pow2(o) !in Span(0, i) + Span(i, Pow2(o));
    }
  }

  lemma {:induction false} FreeBack(free: set<nat>, i: nat, n: nat)
    requires Span(i, n) <= free && n <= Pow2(MAX_ORDER)
    ensures Span(i, n) !! free - Span(i, n) && free - Span(i, n) + Span(i, n) == free
    ensures FreesAll(i, n)
  {
    SmallEnough(i, n);
  }

  /** The block heads are a function of the free pages. */
  lemma {:induction false} SameBlocks(pages: Pages, pages': Pages, lists: seq<seq<nat>>, nr: seq<nat>,
      lists': seq<seq<nat>>, nr': seq<nat>,
                                      zones: seq<nat>, len: seq<nat>, free: seq<set<nat>>)
    requires Ok(pages, lists, nr, zones, len, free) && Ok(pages', lists', nr', zones, len, free) && |zones| == |len|
    ensures forall z :: 0 <= z < |zones| ==> BlocksOf(pages, zones[z], len[z]) == BlocksOf(pages', zones[z], len[z])
  {
    hide Maximal, Layout, Lists;
    forall z | 0 <= z < |zones| ensures BlocksOf(pages, zones[z], len[z]) == BlocksOf(pages', zones[z], len[z]) {
      forall i: nat, o: nat
        ensures (i, o) in BlocksOf(pages, zones[z], len[z]) <==> (i, o) in BlocksOf(pages', zones[z], len[z])
      {
        InBlocks(pages, zones[z], len[z], free[z], i, o);
        InBlocks(pages', zones[z], len[z], free[z], i, o);
      }
    }
  }

  ghost predicate HeadOf(pages: Pages, base: nat, i: nat) {
    base + i < |pages| && pages[base + i].head
  }

  /** The free blocks of a zone as (index, order) pairs. */
  ghost function BlocksOf(pages: Pages, base: nat, len: nat): set<(nat, nat)> {
    set i: nat | i < len && HeadOf(pages, base, i) :: (i, pages[base + i].order)
  }

  lemma {:induction false} InBlocks(pages: Pages, base: nat, len: nat, free: set<nat>, i: nat, o: nat)
    requires ZoneHeads(pages, base, len, free)
    ensures (i, o) in BlocksOf(pages, base, len) <==> Maximal(free, i, o)
  {
    hide Maximal;
    if i < len {
      assert HeadAt(pages, base + i, o) <==> Maximal(free, i, o);
      assert HeadOf(pages, base, i) && pages[base + i].order == o <==> HeadAt(pages, base + i, o);
    } else {
      NotMaximal(free, i);
    }
  }

  /** In every valid state the blocks of each zone are aligned, disjoint, cover exactly its free
      pages and include no two buddies. */
  lemma {:induction false} StateIsBuddySystem(pages: Pages, lists: seq<seq<nat>>, nr: seq<nat>, zones: seq<nat>,
      len: seq<nat>, free: seq<set<nat>>, z: nat)
    requires Ok(pages, lists, nr, zones, len, free) && z < |zones| == |len| == |free|
    ensures BuddySystem(BlocksOf(pages, zones[z], len[z]), free[z])
  {
    hide Maximal, Lists, BuddySystem, BlocksOf, ZoneHeads;
    forall i: nat, o: nat ensures (i, o) in BlocksOf(pages, zones[z], len[z]) <==> Maximal(free[z], i, o) {
      InBlocks(pages, zones[z], len[z], free[z], i, o);
    }
    BlocksUnique(BlocksOf(pages, zones[z], len[z]), free[z]);
  }
}
