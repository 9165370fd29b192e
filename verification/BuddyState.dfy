/** Page descriptors, zones and free lists of mm/buddy_pmm.c, and what one block put on or taken
    off a free list does to them. */
module BuddyState {
  import opened Common
  import opened Bits
  import opened BuddyShape

  const MAX_ZONE_NUM: nat := 10

  /** struct Page: the reserved and property flags, the block order, the zone, the reference count. */
  datatype Page = Page(reserved: bool, head: bool, order: nat, zone: nat, ref: int)

  type Pages = seq<Page>

  ghost predicate InZone(base: nat, len: nat, p: nat) {
    base <= p < base + len
  }

  /** Zones are disjoint ranges; a page outside every zone is reserved. */
  ghost predicate Layout(pages: Pages, zones: seq<nat>, len: seq<nat>) {
    && |zones| == |len|
    && (forall z :: 0 <= z < |zones| ==> zones[z] + len[z] <= |pages|)
    && (forall z: nat, p: nat ::
        z < |zones| && InZone(zones[z], len[z], p) ==> !pages[p].reserved && pages[p].zone == z)
    && (forall p: nat :: p < |pages| && !pages[p].reserved ==>
          pages[p].zone < |zones| && InZone(zones[pages[p].zone], len[pages[p].zone], p))
  }

  /** Page p heads a free block of order o. */
  ghost predicate HeadAt(pages: Pages, p: nat, o: nat) {
    p < |pages| && pages[p].head && pages[p].order == o
  }

  /** In one zone the block heads are exactly the maximal free blocks. */
  ghost predicate ZoneHeads(pages: Pages, base: nat, len: nat, free: set<nat>) {
    && (forall k :: k in free ==> k < len)
    && (forall i: nat, o: nat :: i < len ==> (HeadAt(pages, base + i, o) <==> Maximal(free, i, o)))
  }

  ghost predicate Heads(pages: Pages, zones: seq<nat>, len: seq<nat>, free: seq<set<nat>>) {
    && |free| == |zones| == |len|
    && forall z :: 0 <= z < |zones| ==> ZoneHeads(pages, zones[z], len[z], free[z])
  }

  ghost predicate Listed(pages: Pages, p: nat, o: nat) {
    HeadAt(pages, p, o) && !pages[p].reserved
  }

  /** Each free list holds exactly the heads of its order, and nr_free counts them. */
  ghost predicate Lists(pages: Pages, lists: seq<seq<nat>>, nr: seq<nat>) {
    && |lists| == |nr| == MAX_ORDER + 1
    && (forall o :: 0 <= o <= MAX_ORDER ==> NoDup(lists[o]) && nr[o] == |lists[o]|)
    && (forall o: nat, p: nat :: o <= MAX_ORDER ==> (p in lists[o] <==> Listed(pages, p, o)))
  }

  /** Sum of nr[o] * 2^o over the orders below n. */
  ghost function Total(nr: seq<nat>, n: nat): nat
    requires n <= |nr|
  {
    if n == 0 then 0 else Total(nr, n - 1) + nr[n - 1] * Pow2(n - 1)
  }

  /** Number of free pages in all zones. */
  ghost function Count(free: seq<set<nat>>): nat {
    if free == [] then 0 else |free[0]| + Count(free[1..])
  }

  ghost predicate Ok(pages: Pages, lists: seq<seq<nat>>, nr: seq<nat>, zones: seq<nat>, len: seq<nat>,
      free: seq<set<nat>>) {
    && Layout(pages, zones, len) && Heads(pages, zones, len, free) && Lists(pages, lists, nr)
    && Total(nr, |nr|) == Count(free)
  }

  /** The reference counts of n pages from p on are 0, and no other has changed. */
  ghost predicate RefsCleared(pages: Pages, pages': Pages, p: nat, n: nat) {
    |pages'| == |pages|
    && forall q :: 0 <= q < |pages| ==> pages'[q].ref == if p <= q < p + n then 0 else pages[q].ref
  }

  lemma {:induction false} ClearedJoin(pages: Pages, pages1: Pages, pages2: Pages, p: nat, m: nat, n: nat)
    requires RefsCleared(pages, pages1, p, m) && RefsCleared(pages1, pages2, p + m, n)
    ensures RefsCleared(pages, pages2, p, m + n)
  {
  }

  lemma {:induction false} NoneCleared(pages: Pages, p: nat)
    ensures RefsCleared(pages, pages, p, 0)
  {
  }

  function PutHead(pages: Pages, p: nat, o: nat): Pages
    requires p < |pages|
  {
    pages[p := pages[p].(head := true, order := o)]
  }

  function ClearHead(pages: Pages, p: nat): Pages
    requires p < |pages|
  {
    pages[p := pages[p].(head := false)]
  }

  // Counting.

  lemma {:induction false} SpanElems(i: nat, n: nat)
    ensures forall k :: k in Span(i, n) <==> i <= k < i + n
  {
    assert forall k: nat :: Within(i, n, k) <==> i <= k < i + n;
  }

  lemma {:induction false} SpanCard(i: nat, n: nat)
    ensures |Span(i, n)| == n
  {
    SpanElems(i, n);
    RangeCard(Span(i, n), i, n);
  }

  lemma {:induction false} AddCard(free: set<nat>, i: nat, n: nat)
    requires Span(i, n) !! free
    ensures |free + Span(i, n)| == |free| + n
  {
    SpanCard(i, n);
  }

  lemma {:induction false} SubCard(free: set<nat>, i: nat, n: nat)
    requires Span(i, n) <= free
    ensures |free - Span(i, n)| == |free| - n
  {
    assert free == (free - Span(i, n)) + Span(i, n);
    AddCard(free - Span(i, n), i, n);
  }

  lemma {:induction false} CountUpdate(free: seq<set<nat>>, z: nat, f: set<nat>)
    requires z < |free|
    ensures Count(free[z := f]) == Count(free) - |free[z]| + |f|
  {
    if z == 0 {
      assert free[0 := f][1..] == free[1..];
    } else {
      CountUpdate(free[1..], z - 1, f);
      assert free[z := f][1..] == free[1..][z - 1 := f];
    }
  }

  lemma {:induction false} CountPush(free: seq<set<nat>>)
    ensures Count(free + [{}]) == Count(free)
  {
    if free == [] {
      assert (free + [{}])[1..] == [];
    } else {
      CountPush(free[1..]);
      assert (free + [{}])[1..] == free[1..] + [{}];
    }
  }

  lemma {:induction false} TotalUpdate(nr: seq<nat>, o: nat, k: nat, n: nat)
    requires o < |nr| && n <= |nr|
    ensures Total(nr[o := k], n) == Total(nr, n) + if o < n then (k - nr[o]) * Pow2(o) else 0
  {
    if n > 0 {
      TotalUpdate(nr, o, k, n - 1);
    }
  }

  // One block put on or taken off.

  ghost predicate SameZones(pages: Pages, pages': Pages) {
    && |pages'| == |pages|
    && forall p: nat :: p < |pages| ==> pages'[p].reserved == pages[p].reserved && pages'[p].zone == pages[p].zone
  }

  lemma {:induction false} LayoutSame(pages: Pages, pages': Pages, zones: seq<nat>, len: seq<nat>)
    requires Layout(pages, zones, len) && SameZones(pages, pages')
    ensures Layout(pages', zones, len)
  {
  }

  /** Pages of zone z are in no other zone. */
  lemma {:induction false} ZoneOnly(pages: Pages, zones: seq<nat>, len: seq<nat>, z: nat, i: nat, y: nat, j: nat)
    requires Layout(pages, zones, len) && z < |zones| && i < len[z] && y < |zones| && j < len[y] && y != z
    ensures zones[z] + i != zones[y] + j
  {
    ZonePage(pages, zones, len, z, i);
    ZonePage(pages, zones, len, y, j);
  }

  lemma {:induction false} HeadsPut(pages: Pages, zones: seq<nat>, len: seq<nat>, free: seq<set<nat>>, z: nat,
      i: nat, o: nat)
    requires Layout(pages, zones, len) && Heads(pages, zones, len, free) && z < |zones| && i + Pow2(o) <= len[z]
             && o <= MAX_ORDER
    requires Span(i, Pow2(o)) !! free[z] && Maximal(free[z] + Span(i, Pow2(o)), i, o)
    requires zones[z] + i < |pages|
    ensures !pages[zones[z] + i].head
    ensures Heads(PutHead(pages, zones[z] + i, o), zones, len, free[z := free[z] + Span(i, Pow2(o))])
  {
    hide Maximal, Span, Pow2, Layout;
    var pages' := PutHead(pages, zones[z] + i, o);
    var f := free[z] + Span(i, Pow2(o));
    NotHead(pages, zones[z], len[z], free[z], i, o);
    MaximalDelta(free[z], i, o);
    SpanElems(i, Pow2(o));
    forall y | 0 <= y < |zones| && y != z ensures ZoneHeads(pages', zones[y], len[y], free[y]) {
      forall j: nat, q: nat | j < len[y] ensures HeadAt(pages', zones[y] + j, q) <==> Maximal(free[y], j, q) {
        ZoneOnly(pages, zones, len, z, i, y, j);
      }
    }
    forall j: nat, q: nat | j < len[z] ensures HeadAt(pages', zones[z] + j, q) <==> Maximal(f, j, q) {
      assert HeadAt(pages, zones[z] + j, q) <==> Maximal(free[z], j, q);
    }
  }

  /** A page that is not free heads no block. */
  lemma {:induction false} NotHead(pages: Pages, base: nat, len: nat, free: set<nat>, i: nat, o: nat)
    requires ZoneHeads(pages, base, len, free) && i < len && base + i < |pages| && Span(i, Pow2(o)) !! free
    ensures !pages[base + i].head
  {
    SpanElems(i, Pow2(o));
    PageNotHead(pages, base, len, free, i);
  }

  lemma {:induction false} PageNotHead(pages: Pages, base: nat, len: nat, free: set<nat>, i: nat)
    requires ZoneHeads(pages, base, len, free) && i < len && base + i < |pages| && i !in free
    ensures !pages[base + i].head
  {
    var q := pages[base + i].order;
    assert HeadAt(pages, base + i, q) <==> Maximal(free, i, q);
    assert Maximal(free, i, q) ==> Run(free, i, q) && i in free;
  }

  lemma {:induction false} HeadsTake(pages: Pages, zones: seq<nat>, len: seq<nat>, free: seq<set<nat>>, z: nat,
      i: nat, o: nat)
    requires Layout(pages, zones, len) && Heads(pages, zones, len, free) && z < |zones| && i < len[z]
             && HeadAt(pages, zones[z] + i, o)
    ensures Maximal(free[z], i, o) && o <= MAX_ORDER && Aligned(i, o)
    ensures Span(i, Pow2(o)) <= free[z] && i + Pow2(o) <= len[z]
    ensures Heads(ClearHead(pages, zones[z] + i), zones, len, free[z := free[z] - Span(i, Pow2(o))])
  {
    hide Maximal, Span, Pow2, Layout;
    var pages' := ClearHead(pages, zones[z] + i);
    var f := free[z] - Span(i, Pow2(o));
    assert Maximal(free[z], i, o);
    MaximalSpan(free[z], len[z], i, o);
    assert f + Span(i, Pow2(o)) == free[z];
    MaximalDelta(f, i, o);
    SpanElems(i, Pow2(o));
    forall y | 0 <= y < |zones| && y != z ensures ZoneHeads(pages', zones[y], len[y], free[y]) {
      forall j: nat, q: nat | j < len[y] ensures HeadAt(pages', zones[y] + j, q) <==> Maximal(free[y], j, q) {
        ZoneOnly(pages, zones, len, z, i, y, j);
      }
    }
    NotMaximal(f, i);
    forall j: nat, q: nat | j < len[z] ensures HeadAt(pages', zones[z] + j, q) <==> Maximal(f, j, q) {
      assert HeadAt(pages, zones[z] + j, q) <==> Maximal(free[z], j, q);
    }
  }

  lemma {:induction false} NotMaximal(free: set<nat>, i: nat)
    requires i !in free
    ensures forall q: nat :: !Maximal(free, i, q)
  {
    forall q: nat ensures !Maximal(free, i, q) {
      assert Run(free, i, q) ==> i in free;
    }
  }

  lemma {:induction false} MaximalSpan(free: set<nat>, len: nat, i: nat, o: nat)
    requires Maximal(free, i, o) && forall k :: k in free ==> k < len
    ensures o <= MAX_ORDER && Aligned(i, o) && Span(i, Pow2(o)) <= free && i + Pow2(o) <= len
  {
    SpanElems(i, Pow2(o));
    assert i + Pow2(o) - 1 in free;
  }

  lemma {:induction false} ListsPut(pages: Pages, lists: seq<seq<nat>>, nr: seq<nat>, p: nat, o: nat)
    requires Lists(pages, lists, nr) && p < |pages| && !pages[p].head && !pages[p].reserved && o <= MAX_ORDER
    ensures Lists(PutHead(pages, p, o), lists[o := [p] + lists[o]], nr[o := nr[o] + 1])
  {
    assert forall q: nat :: q <= MAX_ORDER ==> !Listed(pages, p, q) && p !in lists[q];
    var pages', lists' := PutHead(pages, p, o), lists[o := [p] + lists[o]];
    assert forall x: nat, q: nat :: x != p ==> (Listed(pages', x, q) <==> Listed(pages, x, q));
    assert forall x: nat :: x in lists'[o] <==> x in lists[o] || x == p;
    assert forall q: nat :: Listed(pages', p, q) <==> q == o;
  }

  lemma {:induction false} ListsTake(pages: Pages, lists: seq<seq<nat>>, nr: seq<nat>, p: nat, o: nat)
    requires Lists(pages, lists, nr) && o <= MAX_ORDER && Listed(pages, p, o)
    ensures p in lists[o] && nr[o] > 0
    ensures Lists(ClearHead(pages, p), lists[o := Without(lists[o], p)], nr[o := nr[o] - 1])
  {
    WithoutNoDup(lists[o], p);
    var pages' := ClearHead(pages, p);
    assert forall x: nat, q: nat :: x != p ==> (Listed(pages', x, q) <==> Listed(pages, x, q));
    assert forall q: nat :: !Listed(pages', p, q);
    assert forall q: nat :: q <= MAX_ORDER && q != o ==> p !in lists[q];
  }

  /** A free list entry is the head of a block of that order in its zone. */
  lemma {:induction false} ListedHead(pages: Pages, lists: seq<seq<nat>>, nr: seq<nat>, zones: seq<nat>,
      len: seq<nat>, p: nat, o: nat)
    requires Lists(pages, lists, nr) && Layout(pages, zones, len) && o <= MAX_ORDER && p in lists[o]
    ensures Listed(pages, p, o) && pages[p].zone < |zones| && InZone(zones[pages[p].zone], len[pages[p].zone], p)
  {
    assert Listed(pages, p, o);
  }

  lemma {:induction false} ZonePage(pages: Pages, zones: seq<nat>, len: seq<nat>, z: nat, i: nat)
    requires Layout(pages, zones, len) && z < |zones| && i < len[z]
    ensures zones[z] + i < |pages| && !pages[zones[z] + i].reserved && pages[zones[z] + i].zone == z
  {
    assert InZone(zones[z], len[z], zones[z] + i);
  }

  /** Putting a block that becomes maximal on its free list. */
  lemma {:induction false} PutKeeps(pages: Pages, lists: seq<seq<nat>>, nr: seq<nat>, zones: seq<nat>, len: seq<nat>,
      free: seq<set<nat>>, z: nat, i: nat, o: nat)
    requires Ok(pages, lists, nr, zones, len, free) && z < |zones| == |len| == |free| && i + Pow2(o) <= len[z]
             && o <= MAX_ORDER
    requires Span(i, Pow2(o)) !! free[z] && Maximal(free[z] + Span(i, Pow2(o)), i, o)
    ensures zones[z] + i < |pages| && |lists| == |nr| == MAX_ORDER + 1
    ensures Ok(PutHead(pages, zones[z] + i, o), lists[o := [zones[z] + i] + lists[o]], nr[o := nr[o] + 1], zones, len,
               free[z := free[z] + Span(i, Pow2(o))])
  {
    hide Layout, Heads, Lists, Total, Count, Span, Pow2, Maximal;
    Sizes(pages, lists, nr, zones, len);
    ZonePage(pages, zones, len, z, i);
    HeadsPut(pages, zones, len, free, z, i, o);
    ListsPut(pages, lists, nr, zones[z] + i, o);
    LayoutSame(pages, PutHead(pages, zones[z] + i, o), zones, len);
    AddCard(free[z], i, Pow2(o));
    CountUpdate(free, z, free[z] + Span(i, Pow2(o)));
    TotalUpdate(nr, o, nr[o] + 1, |nr|);
  }

  lemma {:induction false} Sizes(pages: Pages, lists: seq<seq<nat>>, nr: seq<nat>, zones: seq<nat>, len: seq<nat>)
    requires Layout(pages, zones, len) && Lists(pages, lists, nr)
    ensures |zones| == |len| && |lists| == |nr| == MAX_ORDER + 1
  {
  }

  /** Taking a block off its free list. */
  lemma {:induction false} TakeKeeps(pages: Pages, lists: seq<seq<nat>>, nr: seq<nat>, zones: seq<nat>,
      len: seq<nat>, free: seq<set<nat>>, z: nat, i: nat, o: nat)
    requires Ok(pages, lists, nr, zones, len, free) && z < |zones| == |len| == |free| && i < len[z]
             && HeadAt(pages, zones[z] + i, o)
    ensures o <= MAX_ORDER && |lists| == |nr| == MAX_ORDER + 1 && nr[o] > 0 && zones[z] + i in lists[o]
    ensures Maximal(free[z], i, o) && Span(i, Pow2(o)) <= free[z] && i + Pow2(o) <= len[z] && Aligned(i, o)
    ensures Ok(ClearHead(pages, zones[z] + i), lists[o := Without<nat>(lists[o], zones[z] + i)], nr[o := nr[o] - 1],
               zones, len, free[z := free[z] - Span(i, Pow2(o))])
  {
    hide Layout, Heads, Lists, Total, Count, Span, Pow2, Maximal, Aligned, Without;
    Sizes(pages, lists, nr, zones, len);
    ZonePage(pages, zones, len, z, i);
    HeadsTake(pages, zones, len, free, z, i, o);
    ListsTake(pages, lists, nr, zones[z] + i, o);
    LayoutSame(pages, ClearHead(pages, zones[z] + i), zones, len);
    SubCard(free[z], i, Pow2(o));
    CountUpdate(free, z, free[z] - Span(i, Pow2(o)));
    TotalUpdate(nr, o, nr[o] - 1, |nr|);
  }
}
