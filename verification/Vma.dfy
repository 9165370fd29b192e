/** The area manager of mm/vmm.c: an ordered list, from 32 areas on a red-black tree as well,
    and a one-entry cache.  An area is a node of both; nodes are numbered from 2. */
module VmaManager {
  import opened Common
  import opened RbShape
  import opened RbHeap
  import opened RbFacts
  import opened RbTree
  import opened VmaState
  import opened VmaFacts
  import opened VmaSpec

  class Mm {
    const cap: nat
    var vmas: Vmas
    var list: seq<nat>
    var cache: Option<nat>
    var mapCount: int
    var tree: RbTree?

    /** List, tree, cache and counter agree. */
    ghost predicate Valid()
      reads this, tree
    {
      && Ordered(vmas, list)
      && mapCount == |list|
      && (cache.Some? ==> cache.value in list)
      && (forall x :: x in vmas ==> 2 <= x < cap + 2)
      && (tree != null ==> tree.Valid() && |tree.h| == cap + 2 && Flat(tree.tree) == list)
    }

    constructor (n: nat)
      ensures Whole() && list == [] && vmas == map[] && cap == n && tree == null
    {
      cap := n;
      vmas, list, cache, mapCount, tree := map[], [], None, 0, null;
    }

    /** find_vma_rb. */
    method FindVmaRb(addr: int) returns (r: Option<nat>)
      requires Valid() && tree != null
      ensures r == Lowest(vmas, list, addr)
    {
      hide At, IsTree, IsCtx, Distinct, CDistinct, El, CEl, Flat, Before, After, First, Ordered, IsRbTree;
      var h := tree.h;
      ghost var ctx, t := Top, tree.tree;
      r := None;
      RootCell(h, t);
      TopEmpty();
      TopLists(Flat(t));
      var node := h[ROOT].left;
      while node != NIL
        invariant At(h, ctx, t) && node == RootOf(t) && list == Before(ctx) + Flat(t) + After(ctx)
        invariant EndBy(vmas, Before(ctx), addr) && EndAfter(vmas, After(ctx), addr)
        invariant r == if After(ctx) == [] then None else Some(After(ctx)[0])
        decreases t
      {
        AreaStep(vmas, list, ctx, t, addr);
        var left := vmas[node].end > addr;
        if left {
          r := Some(node);
          if vmas[node].start <= addr {
            return;
          }
        }
        ChildCell(h, ctx, t, left);
        Shift(h, ctx, left, Sub(t, left), t.red, t.x, Sub(t, !left));
        FlatFocus(ctx, left, Sub(t, left), t.red, t.x, Sub(t, !left));
        BeforeAfter(ctx, left, t.red, t.x, Sub(t, !left));
        node := h[node].Child(left);
        ctx, t := In(ctx, left, t.red, t.x, Sub(t, !left)), Sub(t, left);
      }
      AreaEnd(vmas, list, ctx, h, t, addr);
    }

    /** find_vma: through the cache, the tree or the list, always the same area. */
    method FindVma(addr: int) returns (r: Option<nat>)
      requires Valid()
      modifies this`cache
      ensures Valid() && r == Lowest(vmas, list, addr)
      ensures cache == if r.Some? then r else old(cache)
    {
      hide First, Ordered;
      r := cache;
      CacheHit(vmas, list, cache, addr);
      if !(r.Some? && vmas[r.value].start <= addr && vmas[r.value].end > addr) {
        if tree != null {
          r := FindVmaRb(addr);
        } else {
          r := FindVmaList(addr);
        }
      }
      if r.Some? {
        cache := r;
        LowestListed(vmas, list, addr);
      }
    }

    /** The list half of find_vma. */
    method FindVmaList(addr: int) returns (r: Option<nat>)
      requires Valid()
      ensures r == Lowest(vmas, list, addr)
    {
      hide First;
      for i := 0 to |list|
        invariant forall j :: 0 <= j < i ==> vmas[list[j]].end <= addr
      {
        if addr < vmas[list[i]].end {
          FirstIs(vmas, list, addr, i);
          return Some(list[i]);
        }
      }
      FirstIs(vmas, list, addr, |list|);
      return None;
    }

    /** The tree half of insert_vma_struct: insert and look up the predecessor. */
    method InsertVmaRb(z: nat) returns (prev: nat)
      requires Valid() && tree != null && z in vmas && z !in list && Fits(vmas, list, vmas[z])
      modifies tree
      ensures tree.Valid() && |tree.h| == cap + 2 && Flat(tree.tree) == Placed(Key(vmas), list, z)
      ensures IsNeighbour(Flat(tree.tree), z, prev, false)
    {
      hide Ordered, Sorted, Placed, IsNeighbour, Flat, IsRbTree, At;
      OrderedNoDup(vmas, list);
      ElFlat(tree.tree);
      tree.Insert(z, Key(vmas));
      ElFlat(tree.tree);
      prev := tree.Neighbour(z, false);
    }

    /** The list half: the last area that does not start later. */
    method FindPrev(z: nat) returns (prev: nat)
      requires Valid() && z in vmas && z !in list && Fits(vmas, list, vmas[z])
      ensures IsNeighbour(Placed(Key(vmas), list, z), z, prev, false)
    {
      hide Rank;
      prev := NIL;
      var i := 0;
      OrderedNoDup(vmas, list);
      while i < |list| && vmas[list[i]].start <= vmas[z].start
        invariant 0 <= i <= |list| && prev == (if i == 0 then NIL else list[i - 1])
        invariant forall j :: 0 <= j < i ==> vmas[list[j]].start <= vmas[z].start
      {
        prev := list[i];
        i := i + 1;
      }
      RankIs(Key(vmas), list, z, i);
      assert NeighbourAt(Placed(Key(vmas), list, z), i, z, prev, false);
    }

    /** insert_vma_struct for an area that overlaps no other (the assertions of
        check_vma_overlap); `treeOk` says whether rb_tree_create succeeds. */
    method InsertVma(z: nat, treeOk: bool)
      requires Valid() && z in vmas && z !in list && Fits(vmas, list, vmas[z])
      modifies this`list, this`mapCount, this`tree, tree
      ensures Valid() && list == Placed(Key(vmas), old(list), z)
      ensures tree == old(tree) || (tree != null && fresh(tree))
      ensures tree != null <==> old(tree) != null || (treeOk && |list| >= RB_MIN_MAP_COUNT)
    {
      hide Placed, IsNeighbour, Flat, IsRbTree, At, Ordered, Fits;
      InsertFits(vmas, list, z);
      var prev;
      if tree != null {
        prev := InsertVmaRb(z);
      } else {
        prev := FindPrev(z);
      }
      InsertedHere(vmas, list, z, prev);
      list := AddAfter(list, prev, z);
      mapCount := mapCount + 1;
      if tree == null && mapCount >= RB_MIN_MAP_COUNT {
        if treeOk {
          BuildTree();
        }
      }
    }

    /** rb_tree_create and the insertion of every listed area. */
    method BuildTree()
      requires Valid() && tree == null
      modifies this`tree
      ensures Valid() && tree != null && fresh(tree)
    {
      hide Placed, IsNeighbour, Flat, IsRbTree, At;
      var t := new RbTree(cap);
      LeafFlat();
      for i := 0 to |list|
        invariant t.Valid() && |t.h| == cap + 2 && fresh(t) && Flat(t.tree) == list[..i]
      {
        OrderedPrefix(vmas, list, i);
        ElFlat(t.tree);
        assert list[i] !in list[..i];
        t.Insert(list[i], Key(vmas));
      }
      assert list[..|list|] == list;
      tree := t;
    }

    /** remove_vma_struct. */
    method RemoveVma(x: nat)
      requires Valid() && x in list
      modifies this`list, this`mapCount, this`cache, tree
      ensures Valid() && list == Without(old(list), x) && |list| == |old(list)| - 1
    {
      hide Flat, IsRbTree, At, Ordered;
      OrderedNoDup(vmas, list);
      WithoutNoDup(list, x);
      RemoveOrdered(vmas, list, x);
      if tree != null {
        ElFlat(tree.tree);
        tree.Delete(x);
      }
      list := Without(list, x);
      if cache == Some(x) {
        cache := None;
      }
      mapCount := mapCount - 1;
    }

    /** Between calls every area is listed, page-aligned and in user space. */
    ghost predicate Whole()
      reads this, tree
    {
      Valid() && Aligned(vmas, list) && forall x :: x in vmas ==> x in list
    }

    /** vma_create: a node not in use, or none. */
    method VmaCreate(start: nat, end: nat, flags: Flags) returns (r: Option<nat>)
      requires Valid()
      modifies this`vmas
      ensures Valid()
      ensures r.None? <==> Full(old(vmas), cap)
      ensures r.None? ==> vmas == old(vmas)
      ensures r.Some? ==>
                && r.value !in old(vmas) && r.value !in list
                && vmas == old(vmas)[r.value := Vma(start, end, flags)]
    {
      if exists x :: 2 <= x < cap + 2 && x !in vmas {
        var x :| 2 <= x < cap + 2 && x !in vmas;
        vmas := vmas[x := Vma(start, end, flags)];
        return Some(x);
      }
      return None;
    }

    /** mm_map: succeeds only on a range that is free, and maps exactly that range. */
    method MmMap(addr: Word, len: Word, flags: Flags, treeOk: bool) returns (ret: int)
      requires Whole()
      modifies this, tree
      ensures Whole() && (tree == old(tree) || (tree != null && fresh(tree)))
      ensures var start, end := RoundDown(addr), RoundUp(Plus(addr, len));
              && (ret == 0 ==>
                    && UserAccess(start, end)
                    && (forall a, f :: start <= a < end ==> !Maps(old(vmas), old(list), a, f)))
              && (ret == 0 ==> forall a, f ::
                    Maps(vmas, list, a, f) <==>
                      Maps(old(vmas), old(list), a, f) || (start <= a < end && f == flags.(share := false)))
              && (ret == E_INVAL <==> !UserAccess(start, end) || Meets(old(vmas), old(list), start, end))
              && (ret == E_NO_MEM <==>
                  UserAccess(start, end) && !Meets(old(vmas), old(list), start, end) && Full(old(vmas), cap))
              && (ret == 0 ==> OneMore(old(vmas), vmas, Vma(start, end, flags.(share := false))))
      ensures ret != 0 ==> vmas == old(vmas) && list == old(list)
      ensures ret == 0 || ret == E_INVAL || ret == E_NO_MEM
      ensures addr + len < WORD && !UserRange(addr, len) ==> ret == E_INVAL
      ensures addr + len < WORD && ret == 0 ==>
              forall a :: addr <= a < addr + len ==> Maps(vmas, list, a, flags.(share := false))
      ensures addr + len < WORD && ret == 0 ==>
              forall a, f :: !OnPages(addr, len, a) ==> (Maps(vmas, list, a, f) <==> Maps(old(vmas), old(list), a, f))
    {
      hide Placed, IsNeighbour, Flat, IsRbTree, At, Ordered, First, Aligned, Maps, Fits, OnPages, RoundDown, RoundUp;
      RangeIs(addr, len);
      BytesOnPages(addr, len);
      var start, end := RoundDown(addr), RoundUp(Plus(addr, len));
      if !UserAccess(start, end) {
        return E_INVAL;
      }
      var vma := FindVma(start);
      RangeFree(vmas, list, start, end);
      if vma.Some? && end > vmas[vma.value].start {
        return E_INVAL;
      }
      ret := AddArea(start, end, flags.(share := false), treeOk);
    }

    /** vma_create and insert_vma_struct of an area over a free range. */
    method AddArea(start: nat, end: nat, flags: Flags, treeOk: bool) returns (ret: int)
      requires Whole() && Fits(vmas, list, Vma(start, end, flags))
      requires UserAccess(start, end) && start % PGSIZE == 0 && end % PGSIZE == 0
      modifies this, tree
      ensures Whole() && (tree == old(tree) || (tree != null && fresh(tree)))
      ensures ret == 0 || ret == E_NO_MEM
      ensures ret == 0 ==>
              forall a, f :: Maps(vmas, list, a, f) <==>
                Maps(old(vmas), old(list), a, f) || (start <= a < end && f == flags)
      ensures ret == E_NO_MEM <==> Full(old(vmas), cap)
      ensures ret == E_NO_MEM ==> vmas == old(vmas) && list == old(list)
      ensures ret == 0 ==> OneMore(old(vmas), vmas, Vma(start, end, flags))
    {
      hide Placed, IsNeighbour, Flat, IsRbTree, At, Ordered, First, Aligned, Maps, Fits, Full;
      ghost var v0, l0 := vmas, list;
      var z := VmaCreate(start, end, flags);
      if z.None? {
        return E_NO_MEM;
      }
      OtherVma(v0, vmas, list, z.value);
      InsertFits(vmas, list, z.value);
      InsertVma(z.value, treeOk);
      AlignedInsert(vmas, l0, list, z.value);
      forall a, f ensures Maps(vmas, list, a, f) <==> Maps(v0, l0, a, f) || (start <= a < end && f == flags) {
        MapsInsert(vmas, l0, list, z.value, a, f);
        MapsOther(v0, vmas, l0, z.value, a, f);
      }
      return 0;
    }

    /** The first loop of mm_unmap: areas that begin before `end` leave the list, last one first
        on the free list. */
    method Detach(x0: nat, end: nat, ghost i: nat) returns (freed: seq<nat>, ghost k: nat)
      requires Valid() && i < |list| && list[i] == x0 && vmas[x0].start < end
      modifies this`list, this`mapCount, this`cache, tree
      ensures Valid() && i < k <= |old(list)| && list == old(list)[..i] + old(list)[k..]
              && freed == Reversed(old(list)[i..k])
      ensures forall j :: i <= j < k ==> vmas[old(list)[j]].start < end
      ensures k < |old(list)| ==> vmas[old(list)[k]].start >= end
    {
      hide Flat, IsRbTree, At, Ordered, Reversed, NoDup, Next;
      ghost var l0 := list;
      var x := x0;
      freed, k := [], i;
      OrderedFacts(vmas, list);
      DetachNone(l0, i);
      while vmas[x].start < end
        invariant Valid() && i <= k < |l0| && x == l0[k] && list == l0[..i] + l0[k..] && freed == Reversed(l0[i..k])
        invariant forall j :: i <= j < k ==> vmas[l0[j]].start < end
        decreases |l0| - k
      {
        NextListed(l0, list, i, k);
        DetachMore(l0, i, k);
        var le := Next(list, x);
        RemoveVma(x);
        freed := [x] + freed;
        k := k + 1;
        if le == NIL {
          break;
        }
        x := le;
      }
    }

    /** vma_resize and insert_vma_struct of a detached area. */
    method PutBack(x: nat, start': nat, end': nat, treeOk: bool)
      requires Valid() && Aligned(vmas, list) && x in vmas && x !in list
      requires start' % PGSIZE == 0 && end' % PGSIZE == 0 && vmas[x].start <= start' < end' <= vmas[x].end
               && UserAccess(start', end')
      requires Fits(vmas, list, Vma(start', end', vmas[x].flags))
      modifies this`vmas, this`list, this`mapCount, this`tree, tree
      ensures Valid() && Aligned(vmas, list) && (tree == old(tree) || (tree != null && fresh(tree)))
      ensures x in old(vmas) && vmas == old(vmas)[x := Vma(start', end', old(vmas)[x].flags)]
      ensures forall y :: y in list <==> y in old(list) || y == x
    {
      hide Placed, IsNeighbour, Flat, IsRbTree, At, Ordered, First, Aligned, Maps, Fits;
      ghost var v0, l0 := vmas, list;
      vmas := vmas[x := Vma(start', end', vmas[x].flags)];
      OtherVma(v0, vmas, list, x);
      InsertFits(vmas, list, x);
      InsertVma(x, treeOk);
      AlignedInsert(vmas, l0, list, x);
    }

    /** One turn of the second loop of mm_unmap. */
    method ReattachOne(x: nat, start: nat, end: nat, treeOk: bool, ghost v0: Vmas, ghost l0: seq<nat>,
        ghost rest: seq<nat>)
      returns (ghost u: (nat, nat))
      requires Valid() && Aligned(vmas, list) && (forall y :: y in vmas ==> y in list || y in [x] + rest)
      requires Ordered(v0, l0) && Aligned(v0, l0) && UserAccess(start, end) && start % PGSIZE == 0 && end % PGSIZE == 0
      requires CutSoFar(v0, l0, vmas, list, [x] + rest, start, end) && x !in rest && Straddles(v0, l0, x, start, end)
      modifies this, tree
      ensures Valid() && Aligned(vmas, list) && (tree == old(tree) || (tree != null && fresh(tree)))
      ensures forall y :: y in vmas ==> y in list || y in rest
      ensures CutSoFar(v0, l0, vmas, list, rest, start, end)
      ensures x in v0 && IsPart(u, v0[x], start, end)
    {
      hide Placed, IsNeighbour, Flat, IsRbTree, At, Ordered, First, Aligned, Maps, Fits, CutSoFar, Straddles;
      ghost var v1, l1 := vmas, list;
      StraddleFacts(v0, l0, vmas, list, x, rest, start, end);
      var unStart, unEnd := vmas[x].start, vmas[x].end;
      if vmas[x].start < start {
        unStart := start;
        PutBack(x, vmas[x].start, start, treeOk);
      } else if end < vmas[x].end {
        unEnd := end;
        PutBack(x, end, vmas[x].end, treeOk);
      } else {
        vmas := vmas - {x};
        DropVma(v1, vmas, list, x);
      }
      CutNext(v0, l0, v1, l1, vmas, list, x, rest, start, end);
      u := (unStart, unEnd);
    }

    /** The second loop of mm_unmap: what sticks out of the range goes back, trimmed. */
    method Reattach(freed: seq<nat>, start: nat, end: nat, treeOk: bool, ghost v0: Vmas, ghost l0: seq<nat>)
        returns (ghost calls: seq<(nat, nat)>)
      requires Valid() && Aligned(vmas, list) && (forall x :: x in vmas ==> x in list || x in freed)
      requires v0 == vmas && Ordered(v0, l0) && Aligned(v0, l0) && UserAccess(start, end) && start % PGSIZE == 0
               && end % PGSIZE == 0
      requires NoDup(freed) && CutSoFar(v0, l0, vmas, list, freed, start, end)
      requires forall x :: x in freed ==> Straddles(v0, l0, x, start, end)
      modifies this, tree
      ensures Whole() && (tree == old(tree) || (tree != null && fresh(tree)))
      ensures Cut(v0, l0, vmas, list, start, end)
      ensures forall a :: InCalls(calls, a) <==> Removed(v0, freed, start, end, a)
    {
      hide Placed, IsNeighbour, Flat, IsRbTree, At, Ordered, First, Aligned, Maps, Fits, CutSoFar, Straddles,
        InCalls, Removed, Cut, IsPart;
      calls := [];
      CallsNone(v0, start, end);
      assert freed[..0] == [] && freed[0..] == freed;
      for j := 0 to |freed|
        invariant Valid() && Aligned(vmas, list) && (tree == old(tree) || (tree != null && fresh(tree)))
        invariant forall x :: x in vmas ==> x in list || x in freed[j..]
        invariant CutSoFar(v0, l0, vmas, list, freed[j..], start, end)
        invariant forall a :: InCalls(calls, a) <==> Removed(v0, freed[..j], start, end, a)
      {
        var x := freed[j];
        ghost var rest := freed[j + 1..];
        assert freed[j..] == [x] + rest && freed[..j + 1] == freed[..j] + [x];
        assert x !in rest;
        ghost var u := ReattachOne(x, start, end, treeOk, v0, l0, rest);
        CallsNext(v0, calls, freed[..j], x, start, end, u);
        calls := calls + [u];
      }
      assert freed[|freed|..] == [] && freed[..|freed|] == freed;
      CutDone(v0, l0, vmas, list, start, end);
    }

    /** mm_unmap, the range strictly inside one area: the area is split. */
    method UnmapInside(x: nat, start: nat, end: nat, treeOk: bool) returns (ret: int)
      requires Whole() && x in list && UserAccess(start, end) && start % PGSIZE == 0 && end % PGSIZE == 0
      requires x in vmas && vmas[x].start < start && end < vmas[x].end
      modifies this, tree
      ensures Whole() && (tree == old(tree) || (tree != null && fresh(tree)))
      ensures ret == E_NO_MEM <==> Full(old(vmas), cap)
      ensures ret == E_NO_MEM ==> vmas == old(vmas) && list == old(list)
      ensures ret == 0 || ret == E_NO_MEM
      ensures ret == 0 ==> exists z :: z !in old(vmas) && vmas.Keys == old(vmas).Keys + {z}
      ensures ret == 0 ==>
              forall a, f :: Maps(vmas, list, a, f) <==> Maps(old(vmas), old(list), a, f) && !(start <= a < end)
    {
      hide Placed, IsNeighbour, Flat, IsRbTree, At, Ordered, First, Aligned, Maps, Fits, Full;
      ghost var v0, l0 := vmas, list;
      var n := VmaCreate(vmas[x].start, start, vmas[x].flags);
      if n.None? {
        return E_NO_MEM;
      }
      var z := n.value;
      SplitFacts(v0, list, x, z, start, end);
      vmas := vmas[x := vmas[x].(start := end)];
      InsertFits(vmas, list, z);
      InsertVma(z, treeOk);
      AlignedInsert(vmas, l0, list, z);
      forall a, f ensures Maps(vmas, list, a, f) <==> Maps(v0, l0, a, f) && !(start <= a < end) {
        SplitMaps(v0, l0, x, z, start, end, a, f);
        MapsInsert(vmas, l0, list, z, a, f);
      }
      assert vmas.Keys == v0.Keys + {z};
      return 0;
    }

    /** mm_unmap: afterwards an address is mapped, with its old flags, exactly when it was and
        lies outside the page-rounded range; unmap_range is called on exactly what went. */
    method MmUnmap(addr: Word, len: Word, treeOk: bool) returns (ret: int, ghost calls: seq<(nat, nat)>)
      requires Whole()
      modifies this, tree
      ensures Whole() && (tree == old(tree) || (tree != null && fresh(tree)))
      ensures ret == 0 || ret == E_INVAL || ret == E_NO_MEM
      ensures var start, end := RoundDown(addr), RoundUp(Plus(addr, len));
              && (ret == E_INVAL <==> !UserAccess(start, end))
              && (ret == E_NO_MEM <==> UserAccess(start, end) && UnmapFails(old(vmas), old(list), cap, start, end))
              && (ret == 0 ==> KeysAfter(old(vmas), old(list), vmas, start, end))
              && (!Meets(old(vmas), old(list), start, end) ==> vmas == old(vmas) && list == old(list))
              && (ret == 0 ==> forall a, f ::
                  Maps(vmas, list, a, f) <==> Maps(old(vmas), old(list), a, f) && !(start <= a < end))
              && (ret == 0 ==> forall a ::
                  InCalls(calls, a) <==> start <= a < end && exists f :: Maps(old(vmas), old(list), a, f))
      ensures ret != 0 ==> vmas == old(vmas) && list == old(list) && calls == []
      ensures addr + len < WORD ==> (ret == E_INVAL <==> !UserRange(addr, len))
      ensures addr + len < WORD && ret == 0 ==>
              forall a, f :: addr <= a < addr + len ==> !Maps(vmas, list, a, f)
      ensures addr + len < WORD && ret == 0 ==>
              forall a, f :: !OnPages(addr, len, a) ==> (Maps(vmas, list, a, f) <==> Maps(old(vmas), old(list), a, f))
    {
      hide Placed, IsNeighbour, Flat, IsRbTree, At, Ordered, First, Aligned, Maps, Fits, InCalls, Cut, CutSoFar,
        Straddles, Removed, Full, Encloses, OnPages, RoundDown, RoundUp;
      RangeIs(addr, len);
      BytesOnPages(addr, len);
      calls := [];
      var start, end := RoundDown(addr), RoundUp(Plus(addr, len));
      if !UserAccess(start, end) {
        return E_INVAL, [];
      }
      ghost var v0, l0 := vmas, list;
      var vma := FindVma(start);
      RangeFree(vmas, list, start, end);
      if vma.None? || end <= vmas[vma.value].start {
        NoCalls();
        NothingMet(vmas, list, start, end);
        return 0, [];
      }
      var x := vma.value;
      OneEncloser(vmas, list, start, end);
      if vmas[x].start < start && end < vmas[x].end {
        ret := UnmapInside(x, start, end, treeOk);
        if ret == 0 {
          calls := [(start, end)];
          InsideCalls(v0, l0, x, start, end);
        }
        return;
      }
      calls := UnmapAcross(x, start, end, treeOk);
      return 0, calls;
    }

    /** mm_unmap, the general case: detach every area that meets the range, put back what is left. */
    method UnmapAcross(x: nat, start: nat, end: nat, treeOk: bool) returns (ghost calls: seq<(nat, nat)>)
      requires Whole() && Lowest(vmas, list, start) == Some(x) && UserAccess(start, end) && start % PGSIZE == 0
               && end % PGSIZE == 0
      requires x in vmas && vmas[x].start < end && !(vmas[x].start < start && end < vmas[x].end)
      modifies this, tree
      ensures Whole() && (tree == old(tree) || (tree != null && fresh(tree)))
      ensures forall a, f :: Maps(vmas, list, a, f) <==> Maps(old(vmas), old(list), a, f) && !(start <= a < end)
      ensures forall a :: InCalls(calls, a) <==> start <= a < end && exists f :: Maps(old(vmas), old(list), a, f)
      ensures forall y :: y in vmas <==> y in old(vmas) && !Swallowed(old(vmas)[y], start, end)
    {
      hide Placed, IsNeighbour, Flat, IsRbTree, At, Ordered, First, Aligned, Maps, Fits, InCalls, Cut, CutSoFar,
        Straddles, Removed, Swallowed;
      ghost var v0, l0 := vmas, list;
      ghost var i := FirstIndex(vmas, list, start);
      var freed;
      ghost var k;
      freed, k := Detach(x, end, i);
      DetachedFacts(v0, l0, list, i, k, freed, start, end);
      calls := Reattach(freed, start, end, treeOk, v0, l0);
      forall a, f ensures Maps(vmas, list, a, f) <==> Maps(v0, l0, a, f) && !(start <= a < end) {
        CutMaps(v0, l0, vmas, list, start, end, a, f);
      }
      CutKeys(v0, l0, vmas, list, start, end);
      Sides(v0, l0, i, k, start, end);
      RemovedAll(v0, l0, i, k, freed, start, end);
    }

    /** mm_brk: the range becomes readable and writable, by growing the area that ends where it
        starts or by a new one; nothing else changes.  When the last allocation fails the range
        has already been unmapped. */
    method MmBrk(addr: Word, len: Word, treeOk: bool) returns (ret: int, ghost calls: seq<(nat, nat)>)
      requires Whole()
      modifies this, tree
      ensures Whole()
      ensures ret == 0 || ret == E_INVAL || ret == E_NO_MEM
      ensures var start, end := RoundDown(addr), RoundUp(Plus(addr, len));
              && (ret == E_INVAL <==> !UserAccess(start, end))
              && (ret == 0 ==> forall a, f ::
                    Maps(vmas, list, a, f) <==>
                      if start <= a < end then f == READ_WRITE else Maps(old(vmas), old(list), a, f))
              && (ret == E_NO_MEM <==>
                    && UserAccess(start, end)
                    && (UnmapFails(old(vmas), old(list), cap, start, end)
                        || BrkStuck(old(vmas), old(list), cap, start, end)))
              && var half := ret == E_NO_MEM && !UnmapFails(old(vmas), old(list), cap, start, end)
                && Meets(old(vmas), old(list), start, end);
                 if half then forall a, f ::
                   Maps(vmas, list, a, f) <==> Maps(old(vmas), old(list), a, f) && !(start <= a < end)
                 else ret != 0 ==> vmas == old(vmas) && list == old(list)
      ensures var start, end := RoundDown(addr), RoundUp(Plus(addr, len));
              if ret == E_INVAL || UnmapFails(old(vmas), old(list), cap, start, end) then calls == []
              else forall a :: InCalls(calls, a) <==> start <= a < end && exists f :: Maps(old(vmas), old(list), a, f)
      ensures tree == old(tree) || (tree != null && fresh(tree))
      ensures addr + len < WORD ==> (ret == E_INVAL <==> !UserRange(addr, len))
      ensures addr + len < WORD && ret == 0 ==> forall a :: addr <= a < addr + len ==> Maps(vmas, list, a, READ_WRITE)
      ensures addr + len < WORD && ret == 0 ==>
              forall a, f :: !OnPages(addr, len, a) ==> (Maps(vmas, list, a, f) <==> Maps(old(vmas), old(list), a, f))
    {
      hide Placed, IsNeighbour, Flat, IsRbTree, At, Ordered, First, Aligned, Maps, Fits, InCalls, Full, LastFree,
        Encloses, Swallows, KeysAfter, Meets, OnPages, RoundDown, RoundUp;
      RangeIs(addr, len);
      BytesOnPages(addr, len);
      calls := [];
      var start, end := RoundDown(addr), RoundUp(Plus(addr, len));
      if !UserAccess(start, end) {
        return E_INVAL, [];
      }
      RoundAligned(start, end);
      ghost var v0, l0 := vmas, list;
      ret, calls := MmUnmap(start, end - start, treeOk);
      if ret != 0 {
        return;
      }
      FullAfter(v0, l0, vmas, cap, start, end);
      var vma := FindVma(start - 1);
      assert forall a, f :: start <= a < end ==> !Maps(vmas, list, a, f);
      EndsHere(vmas, list, start, end, READ_WRITE);
      if vma.Some? && vmas[vma.value].end == start && vmas[vma.value].flags == READ_WRITE {
        Grow(vma.value, start, end);
        return 0, calls;
      }
      RangeFree(vmas, list, start, end);
      assert forall a, f :: start <= a < end ==> !Maps(vmas, list, a, f);
      ret := AddArea(start, end, READ_WRITE, treeOk);
    }

    /** Growing an area over the free range behind it. */
    method Grow(x: nat, start: nat, end: nat)
      requires Whole() && x in list && x in vmas && vmas[x].end == start
      requires UserAccess(start, end) && end % PGSIZE == 0
      requires forall a, f :: start <= a < end ==> !Maps(vmas, list, a, f)
      modifies this`vmas
      ensures Whole() && x in old(vmas) && vmas == old(vmas)[x := old(vmas)[x].(end := end)]
      ensures forall a, f ::
              Maps(vmas, list, a, f) <==> Maps(old(vmas), list, a, f) || (start <= a < end && f == old(vmas)[x].flags)
    {
      hide Flat, IsRbTree, At, Ordered, Aligned, Maps;
      GrowFacts(vmas, list, x, start, end);
      vmas := vmas[x := vmas[x].(end := end)];
    }

    /** get_unmapped_area: the highest free range of that length, or 0 exactly when there is none. */
    method GetUnmappedArea(len: Word) returns (r: nat)
      requires Whole()
      ensures r != 0 ==> len > 0 && UserAccess(r, r + len) && Free(vmas, list, r, len)
      ensures r != 0 ==> forall s: nat :: r < s && s + len <= USERTOP ==> !Free(vmas, list, s, len)
      ensures r == 0 ==> len == 0 || forall s: nat :: UserAccess(s, s + len) ==> !Free(vmas, list, s, len)
    {
      hide Flat, IsRbTree, At, Free, Ordered, Aligned;
      if len == 0 || len > USERTOP {
        return 0;
      }
      var start: nat := USERTOP - len;
      var i := |list|;
      while i > 0
        invariant 0 <= i <= |list| && start + len <= USERTOP
        invariant Tried(vmas, list, i, start, len)
        decreases i
      {
        i := i - 1;
        ListedFacts(vmas, list, i);
        var vma := vmas[list[i]];
        if start >= vma.end {
          FoundFree(vmas, list, i + 1, start, len);
          return start;
        }
        SkipArea(vmas, list, i, start, len);
        if start + len > vma.start {
          if len >= vma.start {
            return 0;
          }
          start := vma.start - len;
        }
      }
      if start >= USERBASE {
        FoundFree(vmas, list, i, start, len);
        return start;
      }
      return 0;
    }

    /** user_mem_check with an address space: true exactly when every byte of the range lies in
        user space, in an area with the wanted permission, and, for a write, outside the first
        page of a stack area. */
    method UserMemCheck(addr: Word, len: Word, write: bool) returns (ok: bool)
      requires Valid()
      modifies this`cache
      ensures Valid()
      ensures ok <==>
                && addr + len < WORD && UserAccess(addr, addr + len)
                && forall a :: addr <= a < addr + len ==> Accessible(vmas, list, a, write)
    {
      hide Flat, IsRbTree, At, Ordered, First, Accessible;
      var end := Plus(addr, len);
      if !UserAccess(addr, end) {
        return false;
      }
      var start := addr;
      while start < end
        invariant Valid() && addr <= start
        invariant forall a :: addr <= a < start ==> Accessible(vmas, list, a, write)
        decreases end - start
      {
        var vma := FindVma(start);
        AccessHere(vmas, list, start, write);
        if vma.None? || start < vmas[vma.value].start {
          return false;
        }
        var v := vmas[vma.value];
        if !(if write then v.flags.write else v.flags.read) {
          return false;
        }
        if write && v.flags.stack {
          if start < v.start + PGSIZE {
            return false;
          }
        }
        start := v.end;
      }
      return true;
    }

    /** Mapping a range and unmapping it leaves every address as it was, and the unmapping never fails. */
    method MapThenUnmap(addr: Word, len: Word, flags: Flags, treeOk: bool) returns (ret: int, ret': int)
      requires Whole()
      modifies this, tree
      ensures Whole() && (ret == 0 ==> ret' == 0)
      ensures forall a, f :: Maps(vmas, list, a, f) <==> Maps(old(vmas), old(list), a, f)
    {
      hide Maps, Flat, IsRbTree, At, Ordered, Aligned, InCalls, Full, Encloses, KeysAfter, OneMore, RoundDown, RoundUp;
      ghost var v0, l0 := vmas, list;
      ret' := 0;
      ret := MmMap(addr, len, flags, treeOk);
      if ret == 0 {
        ghost var area := Vma(RoundDown(addr), RoundUp(Plus(addr, len)), flags.(share := false));
        NotEnclosed(v0, l0, vmas, list, area);
        ghost var calls;
        ret', calls := MmUnmap(addr, len, treeOk);
      }
    }

    /** Any history of map, unmap and brk calls: how each call ends is settled by the areas before it, and
        an address is mapped exactly as the calls say, in their order.  treeOk tells for each call
        whether there is memory for the tree. */
    method Run(ops: seq<VmaOp>, treeOk: nat -> bool)
        returns (ghost run: seq<(Vmas, seq<nat>)>, ghost outs: seq<VmaOutcome>)
      requires Whole()
      modifies this, tree
      ensures Whole() && |outs| == |ops| && |run| == |ops| + 1
      ensures run[0] == (old(vmas), old(list)) && run[|ops|] == (vmas, list)
      ensures forall i :: 0 <= i < |ops| ==> outs[i] == Result(run[i].0, run[i].1, cap, ops[i])
      ensures forall i, a, f :: 0 <= i <= |ops| ==>
                (Maps(run[i].0, run[i].1, a, f) <==> MapsAfter(old(vmas), old(list), ops[..i], outs[..i], a, f))
    {
      hide Maps, MapsAfter, Result;
      outs, run := [], [(vmas, list)];
      ghost var v0, l0 := vmas, list;
      HistoryEmpty(v0, l0);
      assert ops[..0] == [] && outs[..0] == [];
      for i := 0 to |ops|
        invariant Whole() && |outs| == i && |run| == i + 1 && (tree == old(tree) || (tree != null && fresh(tree)))
        invariant run[0] == (v0, l0) && run[i] == (vmas, list)
        invariant forall j :: 0 <= j < i ==> outs[j] == Result(run[j].0, run[j].1, cap, ops[j])
        invariant forall j, a, f :: 0 <= j <= i ==>
                    (Maps(run[j].0, run[j].1, a, f) <==> MapsAfter(v0, l0, ops[..j], outs[..j], a, f))
      {
        ghost var out := Step(ops[i], treeOk(i));
        forall a, f ensures Maps(vmas, list, a, f) <==> MapsAfter(v0, l0, ops[..i + 1], outs + [out], a, f) {
          HistoryNext(v0, l0, ops[..i], outs, ops[i], out, a, f);
          assert ops[..i + 1] == ops[..i] + [ops[i]] && outs[..i] == outs;
        }
        ghost var outs0 := outs;
        outs, run := outs + [out], run + [(vmas, list)];
        assert outs[..i + 1] == outs && forall j :: 0 <= j <= i ==> outs[..j] == outs0[..j];
      }
    }

    method Step(op: VmaOp, treeOk: bool) returns (ghost out: VmaOutcome)
      requires Whole()
      modifies this, tree
      ensures Whole() && (tree == old(tree) || (tree != null && fresh(tree)))
      ensures out == Result(old(vmas), old(list), cap, op)
      ensures forall a, f :: Maps(vmas, list, a, f) <==> MapsNext(op, out, a, f, Maps(old(vmas), old(list), a, f))
    {
      hide Maps, Flat, IsRbTree, At, Ordered, Aligned, InCalls, Full, LastFree, Encloses, Swallows, KeysAfter, Meets;
      out := Result(vmas, list, cap, op);
      match op {
        case OpMap(addr, len, flags) =>
          var _ := MmMap(addr, len, flags, treeOk);
        case OpUnmap(addr, len) =>
          var _, _ := MmUnmap(addr, len, treeOk);
        case OpBrk(addr, len) =>
          var _, _ := MmBrk(addr, len, treeOk);
      }
    }
  }

  const READ_ONLY := Flags(true, false, false, false, false)

  lemma {:induction false} NothingMapped(v: Vmas)
    ensures forall a, f :: !Maps(v, [], a, f)
  {
  }

  /** With one descriptor the area is known from what it maps. */
  lemma {:induction false} TheArea(v: Vmas, l: seq<nat>, start: nat, end: nat, fl: Flags)
    requires Ordered(v, l) && start < end && (forall x :: x in v ==> x == 2 && x in l)
    requires forall a, f :: Maps(v, l, a, f) <==> start <= a < end && f == fl
    ensures v == map[2 := Vma(start, end, fl)] && forall x :: x in l ==> x == 2
  {
    forall x | x in l ensures x in v && v[x].start < v[x].end {
      var i :| 0 <= i < |l| && l[i] == x;
    }
    assert Maps(v, l, start, fl) && Maps(v, l, end - 1, fl);
    assert 2 in v && 2 in l;
    assert Has(v[2], v[2].start) && Has(v[2], v[2].end - 1);
    assert Maps(v, l, v[2].start, v[2].flags) && Maps(v, l, v[2].end - 1, v[2].flags);
  }

  /** mm_brk over the second half of the only area there can be: the half is unmapped, and then there is
      no descriptor for the new area. */
  method BrkHalfDone() returns (m: Mm, ghost outs: seq<VmaOutcome>)
    ensures fresh(m) && m.Whole() && (m.tree == null || fresh(m.tree)) && m.cap == 1 && outs == [Done, HalfDone]
    ensures forall a, f :: Maps(m.vmas, m.list, a, f) <==> USERBASE <= a < USERBASE + PGSIZE && f == READ_ONLY
  {
    hide Maps, Flat, IsRbTree, At, Ordered, Aligned, InCalls, Placed, IsNeighbour;
    m := new Mm(1);
    NothingMapped(m.vmas);
    RoundAligned(USERBASE, USERBASE + 2 * PGSIZE);
    RoundAligned(USERBASE + PGSIZE, USERBASE + 3 * PGSIZE);
    assert !Meets(m.vmas, m.list, USERBASE, USERBASE + 2 * PGSIZE);
    assert 2 !in m.vmas;
    ghost var out := m.Step(OpMap(USERBASE, 2 * PGSIZE, READ_ONLY), false);
    assert out == Done;
    TheArea(m.vmas, m.list, USERBASE, USERBASE + 2 * PGSIZE, READ_ONLY);
    assert Maps(m.vmas, m.list, USERBASE + PGSIZE, READ_ONLY);
    ghost var out' := m.Step(OpBrk(USERBASE + PGSIZE, 2 * PGSIZE), false);
    outs := [out, out'];
  }

  /** Unmapping a page that is mapped, as a step of a history. */
  method UnmapLast() returns (m: Mm, ghost out: VmaOutcome)
    ensures m.Whole() && out == Done && forall a, f :: !Maps(m.vmas, m.list, a, f)
  {
    hide Maps, Flat, IsRbTree, At, Ordered, Aligned;
    ghost var outs;
    m, outs := BrkHalfDone();
    RoundAligned(USERBASE, USERBASE + PGSIZE);
    TheArea(m.vmas, m.list, USERBASE, USERBASE + PGSIZE, READ_ONLY);
    out := m.Step(OpUnmap(USERBASE, PGSIZE), false);
  }

  /** A length that wraps round: one page is mapped. */
  method HugeLength() returns (m: Mm, ret: int)
    ensures m.Whole() && ret == 0
    ensures forall a, f :: Maps(m.vmas, m.list, a, f) <==> USERBASE <= a < USERBASE + PGSIZE && f == READ_ONLY
  {
    hide Maps, Flat, IsRbTree, At, Ordered, Aligned, Placed, IsNeighbour;
    m := new Mm(1);
    NothingMapped(m.vmas);
    RangeIs(USERBASE + 0x800, WORD - 0x100);
    assert 2 !in m.vmas;
    ret := m.MmMap(USERBASE + 0x800, WORD - 0x100, READ_ONLY, false);
  }
}
