/** One cache of the slab allocator in mm/slab.c.  A slab is named by the address of its pages;
    pages and off-slab descriptors come from outside. */
module Slab {
  import opened Common
  import opened Bits

  const PGSIZE: nat := 4096
  const KMALLOC_MAX_ORDER: nat := 10
  const BUFCTL_END: nat := 0xFFFF_FFFF
  const SLAB_LIMIT: nat := 0xFFFF_FFFE
  const SLAB_HEADER: nat := 48
  const BUFCTL_SIZE: nat := 8

  /** What init_kmem_cache decides about a cache. */
  datatype Geometry = Geometry(objsize: nat, num: nat, offset: nat, offSlab: bool, order: nat)

  /** The fields of slab_t that change, with the bufctl array behind it. */
  datatype SlabT = SlabT(inuse: nat, free: nat, bufctl: seq<nat>)

  function SlabSize(order: nat): nat {
    PGSIZE * Pow2(order)
  }

  function RoundUp(n: nat, align: nat): (r: nat)
    requires align > 0
    ensures n <= r < n + align
  {
    n + align - 1 - (n + align - 1) % align
  }

  /** slab_mgmt_size. */
  function MgmtSize(num: nat, align: nat): (r: nat)
    requires align > 0
    ensures r >= SLAB_HEADER + num * BUFCTL_SIZE
  {
    RoundUp(SLAB_HEADER + num * BUFCTL_SIZE, align)
  }

  lemma {:induction false} SlabSizes(order: nat)
    requires order <= KMALLOC_MAX_ORDER
    ensures PGSIZE <= SlabSize(order) <= 0x40_0000
  {
    PowMonotone(order, KMALLOC_MAX_ORDER);
    assert Pow2(10) == 1024;
  }

  /** cache_estimate: the largest number of objects that fits beside the control area. */
  method CacheEstimate(order: nat, objsize: nat, align: nat, offSlab: bool) returns (remainder: nat, num: nat)
    requires objsize > 0 && 0 < align <= PGSIZE - SLAB_HEADER && order <= KMALLOC_MAX_ORDER
    ensures num * objsize + (if offSlab then 0 else MgmtSize(num, align)) + remainder == SlabSize(order)
    ensures (num + 1) * objsize + (if offSlab then 0 else MgmtSize(num + 1, align)) > SlabSize(order)
  {
    hide RoundUp, SlabSize;
    var slabSize := SlabSize(order);
    SlabSizes(order);
    if offSlab {
      num := slabSize / objsize;
      Quotient(slabSize, objsize);
      NumBound(num, objsize, slabSize);
      assert num <= SLAB_LIMIT;
      remainder := slabSize - num * objsize;
      return;
    }
    num := (slabSize - SLAB_HEADER) / (objsize + BUFCTL_SIZE);
    UpperBound(slabSize, objsize, align, num);
    while MgmtSize(num, align) + num * objsize > slabSize
      invariant (num + 1) * objsize + MgmtSize(num + 1, align) > slabSize
      decreases num
    {
      assert num > 0;
      num := num - 1;
    }
    NumBound(num, objsize, slabSize);
    assert num <= SLAB_LIMIT;
    remainder := slabSize - num * objsize - MgmtSize(num, align);
  }

  lemma {:induction false} Quotient(a: nat, b: nat)
    requires b > 0
    ensures a / b * b <= a < (a / b + 1) * b
  {
    var q, r := a / b, a % b;
    assert a == q * b + r;
    assert (q + 1) * b == q * b + b;
  }

  lemma {:induction false} UpperBound(slabSize: nat, objsize: nat, align: nat, num: nat)
    requires objsize > 0 && align > 0 && slabSize > SLAB_HEADER
             && num == (slabSize - SLAB_HEADER) / (objsize + BUFCTL_SIZE)
    ensures (num + 1) * objsize + MgmtSize(num + 1, align) > slabSize
  {
    Quotient(slabSize - SLAB_HEADER, objsize + BUFCTL_SIZE);
    assert (num + 1) * (objsize + BUFCTL_SIZE) == (num + 1) * objsize + (num + 1) * BUFCTL_SIZE;
  }

  /** The objects fit in the slab, behind the control area when that is inside. */
  ghost predicate Fits(g: Geometry) {
    && g.objsize > 0 && 0 < g.num < BUFCTL_END && g.order <= KMALLOC_MAX_ORDER
    && g.offset + g.num * g.objsize <= SlabSize(g.order)
    && (if g.offSlab then g.offset == 0 else g.offset >= SLAB_HEADER + g.num * BUFCTL_SIZE)
  }

  /** What `num` objects and, unless it is kept elsewhere, their control area take up. */
  ghost function Taken(objsize: nat, align: nat, offSlab: bool, num: nat): nat
    requires align > 0
  {
    num * objsize + if offSlab then 0 else MgmtSize(num, align)
  }

  /** The number of objects a slab of this order holds. */
  ghost predicate Holds(order: nat, objsize: nat, align: nat, offSlab: bool, num: nat)
    requires align > 0
  {
    Taken(objsize, align, offSlab, num) <= SlabSize(order) < Taken(objsize, align, offSlab, num + 1)
  }

  /** A slab of this order holds `num` > 0 objects and at most an eighth of it is left over. */
  ghost predicate Suits(order: nat, objsize: nat, align: nat, offSlab: bool, num: nat)
    requires align > 0
  {
    num > 0 && Holds(order, objsize, align, offSlab, num)
      && (SlabSize(order) - Taken(objsize, align, offSlab, num)) * 8 <= SlabSize(order)
  }

  /** More objects than the descriptor of an off-slab layout may have. */
  ghost predicate Overfull(order: nat, objsize: nat, align: nat, offSlab: bool, num: nat)
    requires align > 0
  {
    offSlab && Holds(order, objsize, align, offSlab, num) && num > (objsize - SLAB_HEADER) / BUFCTL_SIZE
  }

  lemma {:induction false} RoundUpGrows(a: nat, b: nat, align: nat)
    requires a <= b && align > 0
    ensures RoundUp(a, align) <= RoundUp(b, align)
  {
    var p := Multiple(a, align);
    var q := Multiple(b, align);
    hide RoundUp;
    OneMore(q, p, align);
    OneMore(p, q, align);
  }

  lemma {:induction false} Multiple(a: nat, align: nat) returns (q: nat)
    requires align > 0
    ensures RoundUp(a, align) == q * align
  {
    q := (a + align - 1) / align;
  }

  lemma {:induction false} OneMore(i: nat, j: nat, size: nat)
    ensures i < j ==> i * size + size <= j * size
    decreases j
  {
    if i < j {
      OneMore(i, j - 1, size);
      assert j * size == (j - 1) * size + size;
    }
  }

  lemma {:induction false} TakenGrows(objsize: nat, align: nat, offSlab: bool, m: nat, n: nat)
    requires m <= n && align > 0
    ensures Taken(objsize, align, offSlab, m) <= Taken(objsize, align, offSlab, n)
  {
    hide RoundUp;
    RoundUpGrows(SLAB_HEADER + m * BUFCTL_SIZE, SLAB_HEADER + n * BUFCTL_SIZE, align);
    assert (n - m) * objsize >= 0;
  }

  lemma {:induction false} HoldsOnce(order: nat, objsize: nat, align: nat, offSlab: bool, m: nat, n: nat)
    requires align > 0 && Holds(order, objsize, align, offSlab, m) && Holds(order, objsize, align, offSlab, n)
    ensures m == n
  {
    hide Taken, SlabSize;
    if m < n {
      TakenGrows(objsize, align, offSlab, m + 1, n);
    } else if n < m {
      TakenGrows(objsize, align, offSlab, n + 1, m);
    }
  }

  /** An order that holds no or an unsuitable number of objects suits with no number. */
  lemma {:induction false} NotSuited(order: nat, objsize: nat, align: nat, offSlab: bool, num: nat)
    requires align > 0 && Holds(order, objsize, align, offSlab, num) && !Suits(order, objsize, align, offSlab, num)
    ensures forall n: nat :: !Suits(order, objsize, align, offSlab, n)
  {
    hide Taken, SlabSize;
    forall n: nat ensures !Suits(order, objsize, align, offSlab, n) {
      if Holds(order, objsize, align, offSlab, n) {
        HoldsOnce(order, objsize, align, offSlab, num, n);
      }
    }
  }

  lemma {:induction false} NotOverfull(order: nat, objsize: nat, align: nat, offSlab: bool, num: nat)
    requires align > 0 && Holds(order, objsize, align, offSlab, num) && !Overfull(order, objsize, align, offSlab, num)
    ensures forall n: nat :: !Overfull(order, objsize, align, offSlab, n)
  {
    hide Taken, SlabSize;
    forall n: nat ensures !Overfull(order, objsize, align, offSlab, n) {
      if Holds(order, objsize, align, offSlab, n) {
        HoldsOnce(order, objsize, align, offSlab, num, n);
      }
    }
  }

  /** The first suitable order, and where the control area goes: inside after all when enough of an
      off-slab layout is left over. */
  ghost predicate BestLayout(g: Geometry, align: nat)
    requires align > 0
  {
    var off := g.objsize >= PGSIZE / 8;
    && Suits(g.order, g.objsize, align, off, g.num)
    && (forall o: nat, n: nat :: o < g.order ==> !Suits(o, g.objsize, align, off, n))
    && (forall o: nat, n: nat :: o <= g.order ==> !Overfull(o, g.objsize, align, off, n))
    && g.offSlab == (off && SlabSize(g.order) - Taken(g.objsize, align, off, g.num) < MgmtSize(g.num, align))
    && g.offset == if g.offSlab then 0 else MgmtSize(g.num, align)
  }

  /** The order holds n objects and wastes at most an eighth, and up to it no off-slab descriptor would
      be too big. */
  ghost predicate GoodOrder(o: nat, n: nat, objsize: nat, align: nat)
    requires align > 0
  {
    var off := objsize >= PGSIZE / 8;
    && o <= KMALLOC_MAX_ORDER && Suits(o, objsize, align, off, n)
    && forall p: nat, m: nat :: p <= o ==> !Overfull(p, objsize, align, off, m)
  }

  ghost predicate CanLayOut(objsize: nat, align: nat)
    requires align > 0
  {
    exists o: nat, n: nat :: GoodOrder(o, n, objsize, align)
  }

  /** init_kmem_cache with calculate_slab_order: the first order that wastes at most an eighth, with
      everything fitting.  None where the source panics: no order suits, or the descriptor of an
      off-slab layout would be too big at an order tried first. */
  method InitCache(size: nat, align: nat) returns (r: Option<Geometry>)
    requires size > 0 && 0 < align <= PGSIZE - SLAB_HEADER
    ensures r.Some? ==> Fits(r.value) && r.value.objsize == RoundUp(size, align) && BestLayout(r.value, align)
    ensures r.Some? <==> CanLayOut(RoundUp(size, align), align)
  {
    hide RoundUp, SlabSize;
    var objsize := RoundUp(size, align);
    var offSlab := objsize >= PGSIZE / 8;
    for order := 0 to KMALLOC_MAX_ORDER + 1
      invariant forall o: nat, n: nat :: o < order ==> !Suits(o, objsize, align, offSlab, n)
      invariant forall o: nat, n: nat :: o < order ==> !Overfull(o, objsize, align, offSlab, n)
    {
      var leftOver, num := CacheEstimate(order, objsize, align, offSlab);
      assert Holds(order, objsize, align, offSlab, num);
      if num != 0 {
        if offSlab && num > (objsize - SLAB_HEADER) / BUFCTL_SIZE {
          assert Overfull(order, objsize, align, offSlab, num);
          assert !CanLayOut(objsize, align);
          return None;
        }
        NotOverfull(order, objsize, align, offSlab, num);
        if leftOver * 8 <= SlabSize(order) {
          SlabSizes(order);
          NumBound(num, objsize, SlabSize(order));
          var mgmt := MgmtSize(num, align);
          var inside := offSlab && leftOver >= mgmt;
          assert GoodOrder(order, num, objsize, align);
          return Some(Geometry(objsize, num, if offSlab && !inside then 0 else mgmt, offSlab && !inside, order));
        }
      }
      NotSuited(order, objsize, align, offSlab, num);
      NotOverfull(order, objsize, align, offSlab, num);
    }
    return None;
  }

  const CACHE_ALIGN: nat := 16

  lemma {:induction false} SmallPowers()
    ensures Pow2(5) == 32 && Pow2(6) == 64 && Pow2(7) == 128 && Pow2(8) == 256
    ensures Pow2(9) == 512 && Pow2(10) == 1024 && Pow2(11) == 2048 && Pow2(12) == 4096
    ensures Pow2(0) == 1
  {
    assert Pow2(4) == 16;
    assert Pow2(8) == 256;
  }

  /** Sizes below an eighth of a page: the control area is inside a slab of one page. */
  lemma {:induction false} InsideFits(k: nat)
    requires 5 <= k <= 8
    ensures CanLayOut(Pow2(k), CACHE_ALIGN)
  {
    hide Pow2;
    SmallPowers();
    var n := if k == 5 then 101 else if k == 6 then 56 else if k == 7 then 29 else 15;
    assert Suits(0, Pow2(k), CACHE_ALIGN, false, n);
    assert GoodOrder(0, n, Pow2(k), CACHE_ALIGN);
  }

  /** Up to a page: the page is divided without rest. */
  lemma {:induction false} PageFits(k: nat)
    requires 9 <= k <= 12
    ensures CanLayOut(Pow2(k), CACHE_ALIGN)
  {
    hide Pow2;
    SmallPowers();
    var n := if k == 9 then 8 else if k == 10 then 4 else if k == 11 then 2 else 1;
    assert Suits(0, Pow2(k), CACHE_ALIGN, true, n);
    NotOverfull(0, Pow2(k), CACHE_ALIGN, true, n);
    assert GoodOrder(0, n, Pow2(k), CACHE_ALIGN);
  }

  /** Above a page: one object per slab. */
  lemma {:induction false} PagesFit(k: nat)
    requires 12 <= k <= 17
    ensures CanLayOut(Pow2(k), CACHE_ALIGN)
  {
    hide Pow2;
    SmallPowers();
    var e := k - 12;
    var size := Pow2(k);
    PowAdd(e);
    assert size == SlabSize(e);
    assert Suits(e, size, CACHE_ALIGN, true, 1);
    SlabSizes(e);
    NotOverfull(e, size, CACHE_ALIGN, true, 1);
    forall p: nat, m: nat | p <= e ensures !Overfull(p, size, CACHE_ALIGN, true, m) {
      if p < e {
        PowStrict(p, e);
        assert Holds(p, size, CACHE_ALIGN, true, 0);
        NotOverfull(p, size, CACHE_ALIGN, true, 0);
      }
    }
    assert GoodOrder(e, 1, size, CACHE_ALIGN);
  }

  lemma {:induction false} PowAdd(e: nat)
    ensures Pow2(12 + e) == 4096 * Pow2(e)
  {
    SmallPowers();
    if e > 0 {
      PowAdd(e - 1);
    }
  }

  lemma {:induction false} PowStrict(p: nat, e: nat)
    requires p < e
    ensures Pow2(p) < Pow2(e)
  {
    PowMonotone(p, e - 1);
  }

  lemma {:induction false} Rounded(k: nat)
    requires k >= 4
    ensures RoundUp(Pow2(k), CACHE_ALIGN) == Pow2(k)
  {
    PowSixteen(k);
  }

  lemma {:induction false} PowSixteen(k: nat)
    requires k >= 4
    ensures Pow2(k) % 16 == 0
  {
    if k == 4 {
      assert Pow2(4) == 16;
    } else {
      PowSixteen(k - 1);
    }
  }

  /** slab_init: none of the thirteen caches fails to find a layout. */
  method SlabInit() returns (caches: seq<Geometry>)
    ensures |caches| == 13
    ensures forall i :: 0 <= i < 13 ==>
            Fits(caches[i]) && caches[i].objsize == Pow2(i + 5) && BestLayout(caches[i], CACHE_ALIGN)
  {
    hide Pow2, RoundUp, Fits, BestLayout, CanLayOut;
    caches := [];
    for i := 0 to 13
      invariant |caches| == i
      invariant forall j ::
                0 <= j < i ==> Fits(caches[j]) && caches[j].objsize == Pow2(j + 5) && BestLayout(caches[j], CACHE_ALIGN)
    {
      var k := i + 5;
      Rounded(k);
      if k <= 8 { InsideFits(k); } else if k <= 12 { PageFits(k); } else { PagesFit(k); }
      var g := InitCache(Pow2(k), CACHE_ALIGN);
      caches := caches + [g.value];
    }
  }

  lemma {:induction false} NumBound(num: nat, objsize: nat, size: nat)
    requires objsize > 0 && num * objsize <= size
    ensures num <= size
  {
    assert num * (objsize - 1) >= 0;
  }

  // Slabs.

  /** Entry k of the chain, or its end. */
  ghost function Link(chain: seq<nat>, k: nat): nat {
    if k < |chain| then chain[k] else BUFCTL_END
  }

  /** The chain of free objects starting at `free`. */
  ghost predicate Chain(s: SlabT, chain: seq<nat>) {
    && s.free == Link(chain, 0)
    && (forall k :: 0 <= k < |chain| ==> chain[k] < |s.bufctl|)
    && (forall k: nat :: k < |chain| ==> Link(chain, k) < |s.bufctl| && s.bufctl[Link(chain, k)] == Link(chain, k + 1))
  }

  /** The chain visits exactly num - inuse distinct objects; the others are live. */
  ghost predicate SlabOk(s: SlabT, chain: seq<nat>, num: nat) {
    |s.bufctl| == num && Chain(s, chain) && NoDup(chain) && s.inuse + |chain| == num
  }

  ghost predicate LiveIn(chain: seq<nat>, num: nat, i: nat) {
    i < num && i !in chain
  }

  type Slabs = map<nat, SlabT>
  type Chains = map<nat, seq<nat>>

  /** Slabs do not share pages. */
  ghost predicate Apart(slabs: Slabs, size: nat) {
    forall a, b :: a in slabs && b in slabs && a < b ==> a + size <= b
  }

  ghost predicate AllOk(slabs: Slabs, chains: Chains, num: nat) {
    slabs.Keys == chains.Keys && forall b :: b in slabs ==> SlabOk(slabs[b], chains[b], num)
  }

  /** A slab is on exactly one list: full when every object is live. */
  ghost predicate Listed(slabs: Slabs, full: seq<nat>, notfull: seq<nat>, num: nat) {
    && NoDup(full) && NoDup(notfull)
    && (forall b :: b in full ==> b in slabs && slabs[b].inuse == num)
    && (forall b :: b in notfull ==> b in slabs && slabs[b].inuse < num)
    && (forall b :: b in slabs ==> b in full || b in notfull)
  }

  function Address(g: Geometry, b: nat, i: nat): nat {
    b + g.offset + i * g.objsize
  }

  /** Object i of slab b is allocated. */
  ghost predicate Live(chains: Chains, num: nat, b: nat, i: nat) {
    b in chains && LiveIn(chains[b], num, i)
  }

  class Cache {
    const g: Geometry
    var slabs: Slabs
    var full: seq<nat>
    var notfull: seq<nat>
    ghost var chains: Chains

    ghost predicate Valid()
      reads this
    {
      Fits(g) && AllOk(slabs, chains, g.num) && Listed(slabs, full, notfull, g.num) && Apart(slabs, SlabSize(g.order))
    }

    constructor (geometry: Geometry)
      requires Fits(geometry)
      ensures Valid() && g == geometry && slabs == map[] && chains == map[]
    {
      g, slabs, full, notfull, chains := geometry, map[], [], [], map[];
    }

    /** kmem_cache_grow, given the pages alloc_pages returned and whether an off-slab descriptor
        could be had: a new slab whose objects are all free. */
    method Grow(page: Option<nat>, mgmt: bool) returns (ok: bool)
      requires Valid()
      requires page.Some? ==>
               forall b :: b in slabs ==> b + SlabSize(g.order) <= page.value || page.value + SlabSize(g.order) <= b
      modifies this
      ensures Valid() && ok == (page.Some? && (g.offSlab ==> mgmt))
      ensures ok ==> page.value !in old(slabs) && notfull == [page.value] + old(notfull) && full == old(full)
      ensures ok ==> slabs.Keys == old(slabs).Keys + {page.value}
      ensures !ok ==> notfull == old(notfull) && full == old(full) && slabs == old(slabs)
      ensures forall b: nat, i: nat :: Live(chains, g.num, b, i) <==> Live(old(chains), g.num, b, i)
    {
      hide AllOk, Listed, Apart, SlabSize, NoDup;
      if page.None? || (g.offSlab && !mgmt) {
        return false;
      }
      var p := page.value;
      NewApart(slabs, p, g.order, SlabT(0, 0, []));
      var bufctl := InitBufctl(g.num);
      ghost var chain := Everything(g.num, bufctl);
      var s := SlabT(0, 0, bufctl);
      NewApart(slabs, p, g.order, s);
      OkUpdate(slabs, chains, g.num, p, s, chain);
      NewListed(slabs, full, notfull, g.num, p, s);
      SameKeys(slabs, chains, g.num);
      slabs := slabs[p := s];
      chains := chains[p := chain];
      notfull := [p] + notfull;
      return true;
    }

    /** The loop of kmem_cache_grow over the bufctl array. */
    static method InitBufctl(num: nat) returns (bufctl: seq<nat>)
      requires num > 0
      ensures |bufctl| == num && forall i :: 0 <= i < num ==> bufctl[i] == if i + 1 < num then i + 1 else BUFCTL_END
    {
      bufctl := [];
      for i := 0 to num
        invariant |bufctl| == i && forall j :: 0 <= j < i ==> bufctl[j] == j + 1
      {
        bufctl := bufctl + [i + 1];
      }
      bufctl := bufctl[num - 1 := BUFCTL_END];
    }

    /** kmem_cache_alloc_one on the first slab that is not full: one free object becomes live. */
    method AllocOne() returns (objp: nat, ghost b: nat, ghost i: nat)
      requires Valid() && notfull != []
      modifies this
      ensures Valid() && slabs.Keys == old(slabs).Keys
      ensures b == old(notfull)[0] && !Live(old(chains), g.num, b, i) && i < g.num && objp == Address(g, b, i)
      ensures forall c: nat, j: nat ::
              Live(chains, g.num, c, j) <==> Live(old(chains), g.num, c, j) || (c == b && j == i)
    {
      hide Fits, AllOk, Listed, Apart, SlabOk, NoDup;
      GeometryPositive(g);
      var slab := notfull[0];
      HeadListed(slabs, chains, full, notfull, g.num);
      var s := slabs[slab];
      ghost var chain := chains[slab];
      b, i := slab, s.free;
      FirstFree(s, chain, g.num);
      objp := slab + g.offset + s.free * g.objsize;
      s := s.(inuse := s.inuse + 1);
      s := s.(free := s.bufctl[s.free]);
      OkUpdate(slabs, chains, g.num, slab, s, chain[1..]);
      SameApart(slabs, slab, SlabSize(g.order), s);
      if s.free == BUFCTL_END {
        FillListed(slabs, full, notfull, g.num, slab, s);
        notfull := Without<nat>(notfull, slab);
        full := [slab] + full;
      } else {
        SameListed(slabs, full, notfull, g.num, slab, s);
      }
      slabs := slabs[slab := s];
      chains := chains[slab := chain[1..]];
    }

    /** kmem_cache_alloc: from a slab that has room, or from a new one; fails only if growing does. */
    method Alloc(page: Option<nat>, mgmt: bool) returns (objp: Option<nat>, ghost b: nat, ghost i: nat)
      requires Valid()
      requires page.Some? ==>
               forall c :: c in slabs ==> c + SlabSize(g.order) <= page.value || page.value + SlabSize(g.order) <= c
      modifies this
      ensures Valid() && (objp.None? <==> old(notfull) == [] && (page.None? || (g.offSlab && !mgmt)))
      ensures objp.Some? ==> !Live(old(chains), g.num, b, i) && i < g.num && objp.value == Address(g, b, i)
      ensures objp.Some? ==>
              forall c: nat, j: nat ::
                Live(chains, g.num, c, j) <==> Live(old(chains), g.num, c, j) || (c == b && j == i)
      ensures objp.None? ==> forall c: nat, j: nat :: Live(chains, g.num, c, j) <==> Live(old(chains), g.num, c, j)
      ensures slabs.Keys == old(slabs).Keys + if old(notfull) == [] && objp.Some? then {page.value} else {}
    {
      hide Fits, AllOk, Listed, Apart, Live;
      b, i := 0, 0;
      if notfull == [] {
        var ok := Grow(page, mgmt);
        if !ok {
          return None, 0, 0;
        }
      }
      var o;
      o, b, i := AllocOne();
      objp := Some(o);
    }

    /** kmem_cache_free_one: the object is free again; a slab without live objects gives its pages
        back, and a full slab that gets room moves to the other list. */
    method FreeOne(slab: nat, objp: nat, ghost i: nat) returns (released: bool)
      requires Valid() && Live(chains, g.num, slab, i) && objp == Address(g, slab, i)
      modifies this
      ensures Valid()
      ensures forall c: nat, j: nat ::
              Live(chains, g.num, c, j) <==> Live(old(chains), g.num, c, j) && !(c == slab && j == i)
      ensures slab in old(slabs) && released == (old(slabs)[slab].inuse == 1)
      ensures slabs.Keys == old(slabs).Keys - (if released then {slab} else {})
    {
      hide Fits, AllOk, Listed, Apart, SlabOk, NoDup;
      GeometryPositive(g);
      Index(g, slab, i);
      LiveSlab(slabs, chains, full, notfull, g.num, slab, i);
      var s := slabs[slab];
      ghost var chain := chains[slab];
      var objnr := (objp - (slab + g.offset)) / g.objsize;
      assert objnr == i;
      Freed(s, chain, g.num, i);
      s := s.(bufctl := s.bufctl[objnr := s.free]);
      s := s.(free := objnr);
      s := s.(inuse := s.inuse - 1);
      if s.inuse == 0 {
        NoneLive(s, [objnr] + chain, g.num);
        DropListed(slabs, full, notfull, g.num, slab);
        OkDrop(slabs, chains, g.num, slab);
        DropApart(slabs, slab, SlabSize(g.order));
        full := Without<nat>(full, slab);
        notfull := Without<nat>(notfull, slab);
        slabs := slabs - {slab};
        chains := chains - {slab};
        return true;
      }
      OkUpdate(slabs, chains, g.num, slab, s, [objnr] + chain);
      SameApart(slabs, slab, SlabSize(g.order), s);
      if s.inuse == g.num - 1 {
        DrainListed(slabs, full, notfull, g.num, slab, s);
        full := Without<nat>(full, slab);
        notfull := [slab] + notfull;
      } else {
        SameListed(slabs, full, notfull, g.num, slab, s);
      }
      slabs := slabs[slab := s];
      chains := chains[slab := [objnr] + chain];
      return false;
    }
  }

  // Slabs and their lists.

  lemma {:induction false} OkUpdate(slabs: Slabs, chains: Chains, num: nat, b: nat, s: SlabT, c: seq<nat>)
    requires AllOk(slabs, chains, num) && SlabOk(s, c, num)
    ensures AllOk(slabs[b := s], chains[b := c], num)
  {
    hide SlabOk;
  }

  lemma {:induction false} SameKeys(slabs: Slabs, chains: Chains, num: nat)
    requires AllOk(slabs, chains, num)
    ensures slabs.Keys == chains.Keys
  {
  }

  lemma {:induction false} OkDrop(slabs: Slabs, chains: Chains, num: nat, b: nat)
    requires AllOk(slabs, chains, num)
    ensures AllOk(slabs - {b}, chains - {b}, num)
  {
    hide SlabOk;
  }

  lemma {:induction false} NewApart(slabs: Slabs, p: nat, order: nat, s: SlabT)
    requires Apart(slabs, SlabSize(order))
             && forall b :: b in slabs ==> b + SlabSize(order) <= p || p + SlabSize(order) <= b
    ensures p !in slabs && Apart(slabs[p := s], SlabSize(order))
  {
  }

  lemma {:induction false} SameApart(slabs: Slabs, b: nat, size: nat, s: SlabT)
    requires Apart(slabs, size) && b in slabs
    ensures Apart(slabs[b := s], size)
  {
  }

  lemma {:induction false} DropApart(slabs: Slabs, b: nat, size: nat)
    requires Apart(slabs, size)
    ensures Apart(slabs - {b}, size)
  {
  }

  lemma {:induction false} NewListed(slabs: Slabs, full: seq<nat>, notfull: seq<nat>, num: nat, p: nat, s: SlabT)
    requires Listed(slabs, full, notfull, num) && p !in slabs && s.inuse < num
    ensures Listed(slabs[p := s], full, [p] + notfull, num)
  {
  }

  lemma {:induction false} SameListed(slabs: Slabs, full: seq<nat>, notfull: seq<nat>, num: nat, b: nat, s: SlabT)
    requires Listed(slabs, full, notfull, num) && b in slabs && slabs[b].inuse < num && s.inuse < num
    ensures Listed(slabs[b := s], full, notfull, num)
  {
  }

  lemma {:induction false} FillListed(slabs: Slabs, full: seq<nat>, notfull: seq<nat>, num: nat, b: nat, s: SlabT)
    requires Listed(slabs, full, notfull, num) && b in slabs && slabs[b].inuse < num && s.inuse == num
    ensures Listed(slabs[b := s], [b] + full, Without(notfull, b), num)
  {
    WithoutNoDup(notfull, b);
    assert b !in full;
  }

  lemma {:induction false} DrainListed(slabs: Slabs, full: seq<nat>, notfull: seq<nat>, num: nat, b: nat, s: SlabT)
    requires Listed(slabs, full, notfull, num) && b in slabs && slabs[b].inuse == num && s.inuse < num
    ensures Listed(slabs[b := s], Without(full, b), [b] + notfull, num)
  {
    WithoutNoDup(full, b);
    assert b !in notfull;
  }

  lemma {:induction false} DropListed(slabs: Slabs, full: seq<nat>, notfull: seq<nat>, num: nat, b: nat)
    requires Listed(slabs, full, notfull, num)
    ensures Listed(slabs - {b}, Without(full, b), Without(notfull, b), num)
  {
    WithoutNoDup(full, b);
    WithoutNoDup(notfull, b);
  }

  lemma {:induction false} HeadListed(slabs: Slabs, chains: Chains, full: seq<nat>, notfull: seq<nat>, num: nat)
    requires AllOk(slabs, chains, num) && Listed(slabs, full, notfull, num) && notfull != []
    ensures var b := notfull[0]; b in slabs && b in chains && slabs[b].inuse < num && SlabOk(slabs[b], chains[b], num)
  {
    assert notfull[0] in notfull;
  }

  lemma {:induction false} LiveSlab(slabs: Slabs, chains: Chains, full: seq<nat>, notfull: seq<nat>, num: nat,
      b: nat, i: nat)
    requires AllOk(slabs, chains, num) && Listed(slabs, full, notfull, num) && Live(chains, num, b, i)
    ensures b in slabs && b in chains && slabs[b].inuse <= num && SlabOk(slabs[b], chains[b], num)
  {
  }

  /** A fresh slab: the chain runs through all objects. */
  lemma {:induction false} Everything(num: nat, bufctl: seq<nat>) returns (chain: seq<nat>)
    requires 0 < num && |bufctl| == num
             && forall i :: 0 <= i < num ==> bufctl[i] == if i + 1 < num then i + 1 else BUFCTL_END
    ensures SlabOk(SlabT(0, 0, bufctl), chain, num) && forall j: nat :: !LiveIn(chain, num, j)
  {
    chain := seq(num, i => i);
    forall j: nat | j < num ensures j in chain {
      assert chain[j] == j;
    }
    assert forall k: nat :: k < num ==> Link(chain, k) == k;
  }

  lemma {:induction false} GeometryPositive(g: Geometry)
    requires Fits(g)
    ensures g.objsize > 0 && 0 < g.num < BUFCTL_END
  {
  }

  /** Taking the first free object. */
  lemma {:induction false} FirstFree(s: SlabT, chain: seq<nat>, num: nat)
    requires SlabOk(s, chain, num) && s.inuse < num
    ensures chain != [] && s.free == chain[0] && s.free < num && s.free in chain
    ensures var t := SlabT(s.inuse + 1, s.bufctl[s.free], s.bufctl);
            && SlabOk(t, chain[1..], num)
            && (forall j: nat :: LiveIn(chain[1..], num, j) <==> LiveIn(chain, num, j) || j == s.free)
            && (num < BUFCTL_END ==> (t.free == BUFCTL_END <==> t.inuse == num))
  {
    assert chain != [];
    var rest := chain[1..];
    assert forall x :: x in chain <==> x == chain[0] || x in rest;
    assert chain[0] !in rest;
    assert s.bufctl[Link(chain, 0)] == Link(chain, 1);
    assert forall k: nat :: Link(rest, k) == Link(chain, k + 1);
  }

  /** Putting an object back at the head of the chain. */
  lemma {:induction false} Freed(s: SlabT, chain: seq<nat>, num: nat, i: nat)
    requires SlabOk(s, chain, num) && LiveIn(chain, num, i)
    ensures s.inuse > 0
    ensures var t := SlabT(s.inuse - 1, i, s.bufctl[i := s.free]);
            && SlabOk(t, [i] + chain, num)
            && (forall j: nat :: LiveIn([i] + chain, num, j) <==> LiveIn(chain, num, j) && j != i)
  {
    var c := [i] + chain;
    assert forall k :: 0 <= k < |chain| ==> chain[k] in chain;
    Short(c, num);
    assert forall k: nat :: Link(c, k) == if k == 0 then i else Link(chain, k - 1);
    var bufctl := s.bufctl[i := s.free];
    forall k: nat | k < |c| ensures Link(c, k) < num && bufctl[Link(c, k)] == Link(c, k + 1) {
      if k > 0 {
        assert Link(chain, k - 1) in chain;
        assert s.bufctl[Link(chain, k - 1)] == Link(chain, k);
      }
    }
  }

  /** Distinct indices below num are at most num many. */
  lemma {:induction false} Short(chain: seq<nat>, num: nat)
    requires NoDup(chain) && forall k :: 0 <= k < |chain| ==> chain[k] < num
    ensures |chain| <= num
  {
    NoDupCard(chain);
    BoundedCard((set x | x in chain), num);
  }

  /** A chain as long as the slab leaves nothing live. */
  lemma {:induction false} NoneLive(s: SlabT, chain: seq<nat>, num: nat)
    requires SlabOk(s, chain, num) && s.inuse == 0
    ensures forall j: nat :: !LiveIn(chain, num, j)
  {
    forall j: nat | j < num ensures j in chain {
      if j !in chain {
        Short(chain + [j], num);
        assert false;
      }
    }
  }

  /** The division of kmem_cache_free_one finds the object again. */
  lemma {:induction false} Index(g: Geometry, b: nat, i: nat)
    requires g.objsize > 0
    ensures (Address(g, b, i) - (b + g.offset)) / g.objsize == i
  {
    var s := g.objsize;
    var q := i * s / s;
    Quotient(i * s, s);
    assert (q + 1) * s == q * s + s;
    if q < i {
      OneMore(q, i, s);
    } else if i < q {
      OneMore(i, q, s);
    }
  }

  /** Live objects lie in their slab, behind its control area, and overlap no other live object. */
  lemma {:induction false} ObjectsApart(g: Geometry, slabs: Slabs, b: nat, i: nat, c: nat, j: nat)
    requires Fits(g) && Apart(slabs, SlabSize(g.order)) && b in slabs && c in slabs && i < g.num && j < g.num
    ensures b + g.offset <= Address(g, b, i) && Address(g, b, i) + g.objsize <= b + SlabSize(g.order)
    ensures !g.offSlab ==> b + SLAB_HEADER + g.num * BUFCTL_SIZE <= Address(g, b, i)
    ensures (b, i) != (c, j) ==>
            Address(g, b, i) + g.objsize <= Address(g, c, j) || Address(g, c, j) + g.objsize <= Address(g, b, i)
  {
    InSlab(g, b, i);
    InSlab(g, c, j);
    if b == c {
      if i < j {
        OneMore(i, j, g.objsize);
      } else if j < i {
        OneMore(j, i, g.objsize);
      }
    }
  }

  lemma {:induction false} InSlab(g: Geometry, b: nat, i: nat)
    requires Fits(g) && i < g.num
    ensures b + g.offset <= Address(g, b, i) && Address(g, b, i) + g.objsize <= b + SlabSize(g.order)
  {
    OneMore(i, g.num, g.objsize);
  }
}
