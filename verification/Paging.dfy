/** The kernel operations on private memory, statement by statement in the order of the C code.
    The kernel's global variables are the fields of the record `s`. */
module Paging {
  import opened Common
  import opened PagingState
  import opened PagingClauses
  import opened PagingSteps
  import opened PagingSpec
  import opened PagingFacts

  class Pager {
    var s: State

    /** swap_init: no process, every page free, every slot unused. */
    constructor (frames: map<nat, Data>, disk: seq<Data>)
      requires |disk| >= 2
      ensures Inv(s) && Quiet(s) && s.busy == None && s.mem == map[] && s.procs == {} && s.free == frames.Keys
      ensures s.ram == frames && s.disk == disk && s.swap == {}
    {
      s := Initial(frames, disk);
      new;
      InitialInv(frames, disk);
    }

    method AllocPage() returns (r: Option<nat>)
      modifies this
      ensures r.None? ==> old(s).free == {} && s == old(s)
      ensures r.Some? ==> r.value in old(s).free && s == Alloc(old(s), r.value)
    {
      if s.free == {} {
        return None;
      }
      var f :| f in s.free;
      s := s.(free := s.free - {f});
      s := s.(ref := s.ref[f := 0], dirty := s.dirty - {f}, hot := s.hot - {f});
      s := s.(held := s.held + {f});
      return Some(f);
    }

    method FreePage(f: nat)
      requires f in s.ref
      modifies this
      ensures s == Release(old(s), f)
    {
      s := s.(ref := s.ref - {f});
      s := s.(free := s.free + {f});
      s := s.(held := s.held - {f});
    }

    /** swap_hash_find: the page cached for the slot, if there is one. */
    method SwapHashFind(sl: nat) returns (r: Option<nat>)
      requires HashInv(s.hash, s.swap, s.index) && CacheInv(s.cache, s.swap, s.index, s.memMap)
      ensures r == if sl in s.cache then Some(s.cache[sl]) else None
    {
      var list := s.hash[HashFn(sl)];
      for i := 0 to |list|
        invariant sl in s.cache ==> s.cache[sl] in list[i..]
      {
        assert list[i] in list;
        if s.index[list[i]] == sl {
          return Some(list[i]);
        }
        assert list[i..] == [list[i]] + list[i + 1..];
      }
      return None;
    }

    method SwapListDel(f: nat)
      requires f in s.swap
      modifies this
      ensures s == ListDel(old(s), f)
    {
      if f in s.hot {
        s := s.(active := Without(s.active, f));
      } else {
        s := s.(inactive := Without(s.inactive, f));
      }
      s := s.(off := s.off + {f});
    }

    method SwapActiveListAdd(f: nat)
      requires f in s.swap
      modifies this
      ensures s == ActiveAdd(old(s), f)
    {
      s := s.(hot := s.hot + {f});
      s := s.(active := s.active + [f]);
      s := s.(off := s.off - {f});
    }

    method SwapInactiveListAdd(f: nat)
      requires f in s.swap
      modifies this
      ensures s == InactiveAdd(old(s), f)
    {
      s := s.(hot := s.hot - {f});
      s := s.(inactive := s.inactive + [f]);
      s := s.(off := s.off - {f});
    }

    /** swap_page_del: clear PG_swap and unlink from the hash list. */
    method SwapPageDel(f: nat)
      requires f in s.swap && f in s.index && f in s.ref && s.index[f] < |s.memMap| && |s.hash| == HASH_LIST_SIZE
      modifies this
      ensures s == Uncache(old(s), f, false)
    {
      s := s.(swap := s.swap - {f});
      var b := HashFn(s.index[f]);
      s := s.(hash := s.hash[b := Without(s.hash[b], f)]);
      s := s.(off := s.off - {f}, cache := s.cache - {s.index[f]},
          held := if s.ref[f] == 0 then s.held + {f} else s.held);
    }

    method SwapFreePage(f: nat)
      requires f in s.swap && f in s.index && f in s.ref && s.index[f] < |s.memMap| && |s.hash| == HASH_LIST_SIZE
      requires s.ref[f] == 0
      modifies this
      ensures s == Release(Uncache(old(s), f, false), f)
    {
      SwapPageDel(f);
      FreePage(f);
    }

    /** Take the page cached for an otherwise unused slot out of the cache and unuse the slot. */
    method EvictZero(sl: nat, f: nat)
      requires Inv(s) && OnLists(s) && sl in s.cache && s.cache[sl] == f && sl < |s.memMap| && s.memMap[sl] == 0
      modifies this
      ensures Inv(s) && Untouched(old(s), s) && s.memMap == old(s).memMap[sl := SWAP_UNUSED]
      ensures s.swap == old(s).swap - {f} && s.frameVa == old(s).frameVa && s.ram == old(s).ram
              && s.index == old(s).index
    {
      hide FrameInv, PteInv, RefInv, LiveInv, CountInv, ListInv, ExclInv, VaInv, MemInv, HashInv, CoherentInv;
      ghost var s0 := s;
      ZeroSlotPage(s, sl);
      CachedPage(s, f);
      ListDelKeeps(s, f);
      UncacheKeeps(ListDel(s, f), f, true);
      SwapListDel(f);
      if s.ref[f] == 0 {
        SwapFreePage(f);
      } else {
        SwapPageDel(f);
      }
      s := s.(memMap := s.memMap[sl := SWAP_UNUSED]);
      ghost var u := Uncache(ListDel(s0, f), f, true);
      if s0.ref[f] == 0 {
        Unreferenced(s0, f);
        ReleaseKeeps(u, f);
        assert s == Release(u, f);
      } else {
        assert s == u;
      }
    }

    /** try_alloc_swap_entry: an unused slot if there is one, else one that only a cached page
        occupies, else 0. */
    method TryAllocSwapEntry() returns (slot: nat)
      requires Inv(s) && OnLists(s)
      modifies this
      ensures Inv(s) && Untouched(old(s), s)
      ensures s.swap <= old(s).swap && s.frameVa == old(s).frameVa && s.ram == old(s).ram
      ensures slot == 0 ==> NoSlot(s.memMap)
      ensures slot != 0 ==> slot < |s.memMap| && s.memMap[slot] == SWAP_UNUSED
    {
      hide FrameInv, PteInv, RefInv, LiveInv, CountInv, CacheInv, ListInv, ExclInv, VaInv, MemInv, HashInv, CoherentInv;
      var empty: nat, zero: nat, end := 0, 0, s.next;
      while true
        invariant 1 <= s.next < |s.memMap| && empty == 0
        invariant s == old(s).(next := s.next)
        invariant zero < |s.memMap| && (zero != 0 ==> s.memMap[zero] == 0)
        invariant forall sl :: 0 < sl < |s.memMap| && Scanned(end, s.next, sl) ==>
                    s.memMap[sl] != SWAP_UNUSED && (zero == 0 ==> s.memMap[sl] != 0)
        decreases if s.next >= end then end + |s.memMap| - s.next else end - s.next
      {
        if s.memMap[s.next] == SWAP_UNUSED {
          empty := s.next;
        } else if s.memMap[s.next] == 0 {
          if zero == 0 {
            zero := s.next;
          }
        }
        s := s.(next := s.next + 1);
        if s.next == |s.memMap| {
          s := s.(next := 1);
        }
        if !(empty == 0 && s.next != end) {
          break;
        }
      }
      slot := 0;
      if empty != 0 {
        slot := empty;
      } else if zero != 0 {
        slot := zero;
        var page := SwapHashFind(zero);
        ZeroSlotPage(s, zero);
        EvictZero(zero, page.value);
      }
    }

    /** The end of swap_remove_entry: no entry names the slot any more and its page is unmapped. */
    method FreeZeroSlot(sl: nat, f: nat, ghost k: Key)
      requires Inv(Cleared(s, k)) && OnLists(s) && 0 < sl < |s.memMap| && s.memMap[sl] == 0
      requires sl in s.cache && s.cache[sl] == f && f in s.ref && s.ref[f] == 0
      modifies this
      ensures Inv(Cleared(s, k)) && s.pte == old(s).pte && s.mem == old(s).mem && SameKernel(old(s), s)
      ensures s.swap == old(s).swap - {f} && s.memMap == old(s).memMap[sl := SWAP_UNUSED]
      ensures s.ram == old(s).ram && s.index == old(s).index && s.disk == old(s).disk
      ensures s.frameVa == old(s).frameVa && s.slotVa == old(s).slotVa && s.dirty == old(s).dirty
    {
      hide FrameInv, PteInv, RefInv, LiveInv, CountInv, ListInv, ExclInv, VaInv, MemInv, HashInv, CoherentInv,
        CacheInv, OnLists;
      ghost var d := Cleared(s, k);
      FreeZeroSlotProof(s, k, sl, f);
      SwapListDel(f);
      SwapFreePage(f);
      s := s.(memMap := s.memMap[sl := SWAP_UNUSED]);
      assert Cleared(s, k) == Release(Uncache(ListDel(d, f), f, true), f);
    }

    /** swap_remove_entry, called while entry k is about to be cleared. */
    method SwapRemoveEntry(sl: nat, ghost k: Key)
      requires Inv(s) && OnLists(s) && k in s.pte && s.pte[k] == Swapped(sl)
      modifies this
      ensures Inv(Cleared(s, k)) && s.pte == old(s).pte && s.mem == old(s).mem && Dropped(old(s), s, k)
    {
      hide FrameInv, PteInv, RefInv, LiveInv, CountInv, ListInv, ExclInv, VaInv, MemInv, HashInv, CoherentInv,
        CacheInv, Dropped, OnLists;
      ghost var s0 := s;
      SwappedEntry(s, k);
      DropSwappedKeeps(s, k);
      CachedSlots(s);
      DroppedCount(s, k, s.memMap[sl] - 1);
      s := s.(memMap := s.memMap[sl := s.memMap[sl] - 1]);
      if s.memMap[sl] == 0 {
        CacheSlot(s0.cache, s0.swap, s0.index, s0.memMap, sl, 0);
        var page := SwapHashFind(sl);
        if page.Some? {
          assert Cleared(s, k) == DropSwapped(s0, k);
          CachedPage(s0, page.value);
          if s.ref[page.value] == 0 {
            ghost var s1 := s;
            OffSame(s0, s);
            FreeZeroSlot(sl, page.value, k);
            DroppedFree(s0, s1, s, k, page.value);
          }
        } else {
          s := s.(memMap := s.memMap[sl := SWAP_UNUSED]);
          DroppedCount(s0, k, SWAP_UNUSED);
          assert s.memMap == s0.memMap[sl := SWAP_UNUSED];
          assert Cleared(s, k) == DropSwapped(s0, k);
        }
      } else {
        assert Cleared(s, k) == DropSwapped(s0, k);
      }
    }

    /** page_remove_pte on a present entry whose page is not cached. */
    method RemoveAnon(k: Key)
      requires Inv(s) && k in s.pte && s.pte[k].Present? && s.pte[k].frame !in s.swap
      modifies this
      ensures Inv(s) && s.pte == old(s).pte - {k} && s.mem == old(s).mem - {k} && Dropped(old(s), s, k)
    {
      hide FrameInv, PteInv, RefInv, LiveInv, CountInv, ListInv, ExclInv, VaInv, MemInv, HashInv, CoherentInv,
        CacheInv, Dropped;
      var f := s.pte[k].frame;
      AnonGone(s, k);
      s := s.(ref := s.ref[f := s.ref[f] - 1]);
      if s.ref[f] == 0 {
        FreePage(f);
        s := s.(pte := s.pte - {k}, mem := s.mem - {k});
        assert s.held == old(s).held + {f} - {f};
      } else {
        s := s.(pte := s.pte - {k}, mem := s.mem - {k});
      }
    }

    /** page_remove_pte. */
    method PageRemovePte(k: Key)
      requires Inv(s) && OnLists(s) && k in s.pte
      modifies this
      ensures Inv(s) && s.pte == old(s).pte - {k} && s.mem == old(s).mem - {k} && Dropped(old(s), s, k)
    {
      hide FrameInv, PteInv, RefInv, LiveInv, CountInv, ListInv, ExclInv, VaInv, MemInv, HashInv, CoherentInv,
        CacheInv, Dropped;
      ghost var s0 := s;
      if s.pte[k].Present? {
        var f := s.pte[k].frame;
        if f !in s.swap {
          RemoveAnon(k);
        } else {
          MappedPage(s, k);
          if s.pte[k].d {
            MarkDirtyKeeps(s, f);
            s := s.(dirty := s.dirty + {f});
          }
          DropPresentKeeps(s, k);
          s := s.(ref := s.ref[f := s.ref[f] - 1]);
          s := s.(pte := s.pte - {k}, mem := s.mem - {k});
          DroppedPresent(s0, s, k);
        }
      } else {
        SwapRemoveEntry(s.pte[k].slot, k);
        DroppedCleared(s0, s, k);
        s := s.(pte := s.pte - {k}, mem := s.mem - {k});
      }
    }

    /** page_insert.  On the frame already mapped there it rewrites the entry with the given
        bits; otherwise it drops the old entry and maps the page. */
    method PageInsert(k: Key, f: nat, w: bool, d: bool, a: bool)
      requires Inv(s) && OnLists(s) && s.pin == None && f in s.ref && k.pid in s.procs
      requires SameFrame(s, k, f) || (!d && !a && MayInsert(s, k, f, w))
      modifies this
      ensures SameFrame(old(s), k, f) ==> s == Rebit(old(s), k, Present(f, w, d, a))
      ensures !SameFrame(old(s), k, f) ==> Inv(s) && Inserted(old(s), s, k, f, w)
    {
      hide FrameInv, PteInv, RefInv, LiveInv, CountInv, ListInv, ExclInv, VaInv, MemInv, HashInv, CoherentInv,
        CacheInv, MayMap, MayInsert, OnLists, Dropped, Inserted, OldCleared, MapPinned;
      ghost var s0 := s;
      PinKeeps(s, f);
      s := s.(ref := s.ref[f := s.ref[f] + 1], pin := Some(f));
      if k in s.pte {
        if s.pte[k].Present? && s.pte[k].frame == f {
          s := s.(ref := s.ref[f := s.ref[f] - 1], pin := None);
          s := s.(pte := s.pte[k := Present(f, w, d, a)]);
          assert s.ref == s0.ref;
          return;
        }
        ClearOld(k, f, w, s0);
        InsertedReplaced(s0, s, k, f, w);
      } else {
        InsertFresh(s0, s, k, f, w);
        InsertedFresh(s0, k, f, w);
      }
      MapPinnedPage(k, f, w);
    }

    /** The middle of page_insert: another entry there is removed while the page is pinned. */
    method ClearOld(k: Key, f: nat, w: bool, ghost s0: State)
      requires Inv(s0) && OnLists(s0) && s0.pin == None && f in s0.ref && s == PinPage(s0, f) && Core(s)
      requires k in s0.pte && k.pid in s0.procs && !SameFrame(s0, k, f) && MayInsert(s0, k, f, w)
      modifies this
      ensures Inv(s) && MayMap(s, k, f, w) && OldCleared(s0, s, k, f) && k !in s.pte && k.pid in s.procs
              && f in s.ram && s.pin == Some(f)
    {
      hide FrameInv, PteInv, RefInv, LiveInv, CountInv, ListInv, ExclInv, VaInv, MemInv, HashInv, CoherentInv,
        CacheInv, MayMap, MayInsert, OnLists, Dropped;
      OffSame(s0, s);
      ghost var s1 := s;
      SameCoherent(s0, s1);
      PageRemovePte(k);
      RefPositive(s0, f);
      KeptAfterRemove(s0, s1, s, k, f);
      InsertAfterRemove(s0, s1, s, k, f, w);
    }

    /** The end of page_insert: the entry is written. */
    method MapPinnedPage(k: Key, f: nat, w: bool)
      requires Inv(s) && s.pin == Some(f) && k !in s.pte && k.pid in s.procs && f in s.ram && MayMap(s, k, f, w)
      modifies this
      ensures Inv(s) && s == MapPinned(old(s), k, f, w)
    {
      hide FrameInv, PteInv, RefInv, LiveInv, CountInv, ListInv, ExclInv, VaInv, MemInv, HashInv, CoherentInv,
        CacheInv, MayMap;
      MapPinnedKeeps(s, k, f, w);
      s := s.(pte := s.pte[k := Present(f, w, false, false)],
              mem := s.mem[k := s.ram[f]], pin := None, held := s.held - {f}, frameVa := s.frameVa[f := k.va]);
    }

    /** swap_page_add with the entry the page was read from. */
    method SwapPageAddEntry(f: nat, sl: nat)
      requires f !in s.swap && |s.hash| == HASH_LIST_SIZE && sl in s.slotVa
      modifies this
      ensures s == CacheRead(old(s), f, sl)
    {
      s := s.(swap := s.swap + {f});
      s := s.(index := s.index[f := sl]);
      s := s.(hash := s.hash[HashFn(sl) := [f] + s.hash[HashFn(sl)]]);
      s := s.(cache := s.cache[sl := f], off := s.off + {f}, held := s.held - {f},
          frameVa := s.frameVa[f := s.slotVa[sl]]);
    }

    /** swap_in_page: the page cached for the slot, read from disk if need be. */
    method SwapInPage(sl: nat, readOk: bool) returns (r: Option<nat>)
      requires Inv(s) && OnLists(s) && Used(s.memMap, sl) && sl in s.slotVa
      modifies this
      ensures Inv(s) && Untouched(old(s), s) && s.memMap == old(s).memMap
      ensures r.Some? ==> sl in s.cache && s.cache[sl] == r.value
      ensures r.Some? <==> sl in old(s).cache || (readOk && old(s).free != {})
      ensures sl in old(s).cache ==> s == old(s)
      ensures Conserved(old(s), s)
      ensures r.Some? && sl !in old(s).cache ==> r.value !in s.dirty && r.value in s.ref && s.ref[r.value] == 0
    {
      hide FrameInv, PteInv, RefInv, LiveInv, CountInv, ListInv, ExclInv, VaInv, MemInv, HashInv, CoherentInv,
        CacheInv, OnLists, Used, Untouched, ReadIn;
      ghost var s0 := s;
      CachedSlots(s);
      UntouchedSelf(s);
      r := SwapHashFind(sl);
      if r.Some? {
        return;
      }
      var newpage := AllocPage();
      if newpage.None? {
        return None;
      }
      var f := newpage.value;
      ReadInFacts(s0, f, sl);
      if !readOk {
        FreePage(f);
        return None;
      }
      ReadSlot(f, sl, s0);
      return Some(f);
    }

    /** swapfs_read into the new page, which then joins cache and active list. */
    method ReadSlot(f: nat, sl: nat, ghost s0: State)
      requires s == Alloc(s0, f) && f !in s0.swap && sl < |s0.disk| && |s0.hash| == HASH_LIST_SIZE && sl in s0.slotVa
      modifies this
      ensures s == ReadIn(s0, f, sl)
    {
      s := s.(ram := s.ram[f := s.disk[sl]]);
      SwapPageAddEntry(f, sl);
      SwapActiveListAdd(f);
    }

    /** do_pgfault on an empty entry: pgdir_alloc_page.  The new page is not cleared: it shows what the
        frame held before. */
    method FaultEmpty(k: Key, w: bool) returns (ok: bool)
      requires Inv(s) && Quiet(s) && k.pid in s.procs && k !in s.pte
      modifies this
      ensures Inv(s) && Quiet(s) && s.procs == old(s).procs && s.busy == old(s).busy
      ensures ok ==> Mapped(s, k, w) && k in s.mem && s.mem == old(s).mem[k := s.mem[k]]
      ensures ok ==> exists f :: f in old(s).free && f in old(s).ram && s.mem[k] == old(s).ram[f]
      ensures ok <==> old(s).free != {}
      ensures !ok ==> s == old(s)
      ensures Conserved(old(s), s) && s.swap == old(s).swap
    {
      hide FrameInv, PteInv, RefInv, LiveInv, CountInv, ListInv, ExclInv, VaInv, MemInv, HashInv, CoherentInv,
        CacheInv, OnLists, MayInsert;
      ghost var s0 := s;
      var page := AllocPage();
      if page.None? {
        return false;
      }
      FreshInsert(s0, page.value, k, w);
      PageInsert(k, page.value, w, false, false);
      return true;
    }

    /** swap_page_count: the number of swap entries that name the page's slot, counting the one
        page_launder adds while it writes the page. */
    method SwapPageCount(f: nat) returns (n: nat)
      requires Core(s)
      ensures f !in s.swap ==> n == 0
      ensures f in s.swap ==> f in s.index && n == |SlotKeys(s.pte, s.index[f])| + (if s.busy == Some(f) then 1 else 0)
      ensures f in s.swap ==> s.index[f] < |s.memMap| && n == s.memMap[s.index[f]]
    {
      hide FrameInv, PteInv, RefInv, LiveInv, CountInv, ListInv, ExclInv, VaInv, MemInv, HashInv, CoherentInv,
        CacheInv, SlotKeys;
      CountOfSlot(s, f);
      if f !in s.swap {
        return 0;
      }
      return s.memMap[s.index[f]];
    }

    /** The page a write fault may need, allocated before the entry is looked at. */
    method AllocSpare(want: bool) returns (newpage: Option<nat>)
      requires Inv(s) && Quiet(s)
      modifies this
      ensures Inv(s) && OnLists(s) && s.held == (if newpage.Some? then {newpage.value} else {}) && s.pin == None
      ensures s == MaybeAlloc(old(s), newpage) && s.free == old(s).free - s.held && s.cache == old(s).cache
              && s.memMap == old(s).memMap
      ensures s.swap == old(s).swap && s.index == old(s).index && s.ram == old(s).ram && s.disk == old(s).disk
      ensures s.pte == old(s).pte && s.mem == old(s).mem && s.procs == old(s).procs && s.busy == old(s).busy
              && s.off == old(s).off
      ensures newpage.Some? <==> want && old(s).free != {}
      ensures newpage.Some? ==> newpage.value in old(s).free && newpage.value !in old(s).ref
      ensures newpage.None? ==> s == old(s)
    {
      hide FrameInv, PteInv, RefInv, LiveInv, CountInv, ListInv, ExclInv, VaInv, MemInv, HashInv, CoherentInv,
        CacheInv, OnLists;
      ghost var s0 := s;
      newpage := None;
      if want {
        newpage := AllocPage();
      }
      MaybeAllocKeeps(s0, newpage);
    }

    /** The copying half of do_pgfault: a private copy replaces the entry. */
    method InsertCopy(k: Key, page: nat, n: nat)
      requires Inv(s) && OnLists(s) && s.pin == None && s.held == {n} && page != n
      requires k in s.pte && k in s.mem && k.pid in s.procs && page in s.ram && s.mem[k] == s.ram[page]
      modifies this
      ensures Inv(s) && s.pin == None && s.held == {} && Mapped(s, k, true) && StoreReady(s, k)
      ensures s.procs == old(s).procs && s.busy == old(s).busy && s.off == old(s).off && s.mem == old(s).mem
      ensures Conserved(old(s), s)
    {
      hide FrameInv, PteInv, RefInv, LiveInv, CountInv, ListInv, ExclInv, VaInv, MemInv, HashInv, CoherentInv,
        CacheInv, OnLists, MayInsert;
      CopyInsert(s, n, page, k);
      s := s.(ram := s.ram[n := s.ram[page]]);
      PageInsert(k, n, true, false, false);
      CohDirty(s.pte, s.swap, s.dirty, s.busy, s.index, s.disk, s.ram, n);
    }

    /** do_pgfault, private branch, on a present read-only entry written to by its process. */
    method FaultPresent(k: Key) returns (ok: bool)
      requires Inv(s) && Quiet(s) && k in s.pte && s.pte[k].Present? && !s.pte[k].w
      modifies this
      ensures Core(s) && Quiet(s) && s.procs == old(s).procs && s.busy == old(s).busy && s.mem == old(s).mem
      ensures ok ==> Mapped(s, k, true) && StoreReady(s, k)
      ensures ok <==> old(s).free != {} || !SharedPage(old(s), old(s).pte[k].frame)
      ensures !ok ==> s == old(s)
      ensures Inv(s) <==> !LosesDirty(old(s), k)
      ensures Conserved(old(s), s)
      ensures !SharedPage(old(s), old(s).pte[k].frame) && old(s).free == {} ==>
                s == Rebit(old(s), k, Present(old(s).pte[k].frame, true, false, false))
    {
      hide FrameInv, PteInv, RefInv, LiveInv, CountInv, ListInv, ExclInv, VaInv, MemInv, HashInv, CoherentInv,
        CacheInv, OnLists, MayInsert, StoreReady, SharedPage, LosesDirty, MaybeAlloc;
      ghost var s0 := s;
      var newpage := AllocSpare(true);
      var page := s.pte[k].frame;
      MappedPage(s0, k);
      PresentCount(s0, k);
      var count := SwapPageCount(page);
      SharedIs(s0, newpage, page, count);
      if s.ref[page] + count > 1 {
        SharedKeeps(s0, k);
        if newpage.None? {
          return false;
        }
        InsertCopy(k, page, newpage.value);
      } else {
        RewriteEntry(k, newpage, s0);
      }
      return true;
    }

    /** The other half on a present entry: the sole reference is made writable where it is, and the
        spare page goes back. */
    method RewriteEntry(k: Key, newpage: Option<nat>, ghost s0: State)
      requires Inv(s0) && Quiet(s0) && (newpage.Some? ==> newpage.value in s0.free) && s == MaybeAlloc(s0, newpage)
      requires k in s0.pte && s0.pte[k].Present? && !s0.pte[k].w
      requires s0.pte[k].frame in s0.ref && s0.ref[s0.pte[k].frame] >= 1 && !SharedPage(s0, s0.pte[k].frame)
      modifies this
      ensures Core(s) && Quiet(s) && s.procs == s0.procs && s.busy == s0.busy && s.mem == s0.mem
      ensures Mapped(s, k, true) && StoreReady(s, k) && (Inv(s) <==> !LosesDirty(s0, k))
      ensures s == MaybeRelease(Rebit(MaybeAlloc(s0, newpage), k, Present(s0.pte[k].frame, true, false, false)),
                newpage)
    {
      hide FrameInv, PteInv, RefInv, LiveInv, CountInv, ListInv, ExclInv, VaInv, MemInv, HashInv, CoherentInv,
        CacheInv, OnLists, MayInsert, StoreReady, LosesDirty;
      var page := s.pte[k].frame;
      PresentCount(s0, k);
      MappedPage(s0, k);
      AfterRebit(s0, newpage, k);
      PageInsert(k, page, true, false, false);
      if newpage.Some? {
        FreePage(newpage.value);
      }
    }

    /** free_page of a page that was allocated in advance and not used. */
    method GiveBack(n: nat)
      requires Inv(s) && n in s.held && s.pin == None
      modifies this
      ensures Inv(s) && s == Release(old(s), n)
    {
      hide FrameInv, PteInv, RefInv, LiveInv, CountInv, ListInv, ExclInv, VaInv, MemInv, HashInv, CoherentInv, CacheInv;
      ghost var m := s;
      HeldPage(s, n);
      ReleaseKeeps(s, n);
      FreePage(n);
      SameCoherent(m, s);
    }

    /** The mapping half of do_pgfault on a swap entry; the spare page goes back. */
    method InsertCached(k: Key, page: nat, w: bool, newpage: Option<nat>)
      requires Inv(s) && OnLists(s) && s.pin == None && s.held == (if newpage.Some? then {newpage.value} else {})
      requires k in s.pte && s.pte[k].Swapped? && k in s.mem && k.pid in s.procs && page in s.ref && page in s.ram
      requires s.mem[k] == s.ram[page] && MayInsert(s, k, page, w) && page !in s.held
      modifies this
      ensures Inv(s) && s.pin == None && s.held == {} && Mapped(s, k, w)
      ensures s.procs == old(s).procs && s.busy == old(s).busy && s.off == old(s).off && s.mem == old(s).mem
      ensures s.ram == old(s).ram && s.disk == old(s).disk && s.index == old(s).index && s.dirty == old(s).dirty
      ensures s.pte == old(s).pte[k := Present(page, w, false, false)] && (page in old(s).swap ==> page in s.swap)
    {
      hide FrameInv, PteInv, RefInv, LiveInv, CountInv, ListInv, ExclInv, VaInv, MemInv, HashInv, CoherentInv,
        CacheInv, OnLists, MayInsert;
      PageInsert(k, page, w, false, false);
      if newpage.Some? {
        GiveBack(newpage.value);
      }
    }

    /** do_pgfault, private branch, on a swap entry. */
    method FaultSwapped(k: Key, write: bool, vmWrite: bool, readOk: bool) returns (ok: bool)
      requires Inv(s) && Quiet(s) && k in s.pte && s.pte[k].Swapped? && (write ==> vmWrite)
      modifies this
      ensures Inv(s) && Quiet(s) && s.procs == old(s).procs && s.busy == old(s).busy && s.mem == old(s).mem
      ensures k in s.pte && (s.pte[k].Present? ==> ok)
      ensures Mapped(s, k, write) <==> FaultMaps(old(s), k, write, true, vmWrite, readOk)
      ensures ok && !Mapped(s, k, write) <==> SilentFailure(old(s), k, write, vmWrite)
      ensures Conserved(old(s), s) && ReadBack(old(s), s, k)
    {
      hide FrameInv, PteInv, RefInv, LiveInv, CountInv, ListInv, ExclInv, VaInv, MemInv, HashInv, CoherentInv,
        CacheInv, OnLists, MayInsert, Used, SharedPage, MaybeAlloc;
      ghost var s0 := s;
      SwappedEntry(s, k);
      var newpage := AllocSpare(vmWrite);
      SpareLeft(s0.free, s.held);
      SwappedEntry(s, k);
      ghost var s1 := s;
      var r := SwapInPage(s.pte[k].slot, readOk);
      OffSame(s1, s);
      if r.None? {
        if newpage.Some? {
          GiveBack(newpage.value);
        }
        return false;
      }
      var page := r.value;
      SwappedPage(s, k);
      if s0.pte[k].slot in s0.cache { SwappedPage(s0, k); }
      if write {
        var count := SwapPageCount(page);
        if s0.pte[k].slot in s0.cache { SharedIs(s0, newpage, page, count); }
        if s.ref[page] + count > 1 {
          if newpage.None? {
            return true;
          }
          InsertCopy(k, page, newpage.value);
          return true;
        }
      }
      InsertCached(k, page, write, newpage);
      return true;
    }

    /** do_pgfault for a private mapping.  `vmRead` and `vmWrite` are the flags of the area the
        address lies in; the hardware raises no fault for a write to a writable entry. */
    method DoPgfault(k: Key, write: bool, vmRead: bool, vmWrite: bool, readOk: bool) returns (ok: bool)
      requires Inv(s) && Quiet(s) && k.pid in s.procs
      requires k in s.pte && s.pte[k].Present? ==> !(write && s.pte[k].w)
      modifies this
      ensures Core(s) && Quiet(s) && s.procs == old(s).procs && s.busy == old(s).busy
      ensures s.mem == old(s).mem || (k !in old(s).mem && k in s.mem && s.mem == old(s).mem[k := s.mem[k]])
      ensures Inv(s) <==> !(write && vmWrite && LosesDirty(old(s), k))
      ensures write && Mapped(s, k, true) ==> StoreReady(s, k)
      ensures !Mapped(s, k, write) ==> Inv(s) && s.mem == old(s).mem
      ensures Mapped(s, k, write) <==> Mapped(old(s), k, write) || FaultMaps(old(s), k, write, vmRead, vmWrite, readOk)
      ensures ok && !Mapped(s, k, write) <==> SilentFailure(old(s), k, write, vmWrite)
      ensures ok <==> FaultMaps(old(s), k, write, vmRead, vmWrite, readOk) || SilentFailure(old(s), k, write, vmWrite)
      ensures k !in old(s).mem && k in s.mem ==>
              exists f :: f in old(s).free && f in old(s).ram && s.mem[k] == old(s).ram[f]
      ensures Conserved(old(s), s) && (write ==> ReadBack(old(s), s, k)) && (k !in old(s).pte ==> s.swap == old(s).swap)
    {
      hide FrameInv, PteInv, RefInv, LiveInv, CountInv, ListInv, ExclInv, VaInv, MemInv, HashInv, CoherentInv,
        CacheInv, SharedPage;
      PteMem(s, k);
      if write {
        if !vmWrite {
          return false;
        }
      } else {
        if k in s.pte && s.pte[k].Present? {
          return false;
        }
        if !vmRead {
          return false;
        }
      }
      if k !in s.pte {
        ok := FaultEmpty(k, vmWrite);
        if ok { ReadyWhenInv(s, k); }
      } else if s.pte[k].Present? {
        ok := FaultPresent(k);
      } else {
        ok := FaultSwapped(k, write, vmWrite, readOk);
        if Mapped(s, k, true) { ReadyWhenInv(s, k); }
      }
    }

    /** The store itself, on a writable entry: the hardware sets D and A. */
    method WriteWord(k: Key, offset: nat, v: int)
      requires Core(s) && Quiet(s) && StoreReady(s, k) && Mapped(s, k, true)
      modifies this
      ensures Inv(s) && k in old(s).mem && k in s.mem && s.mem[k] == old(s).mem[k][offset := v]
              && s.mem == old(s).mem[k := s.mem[k]]
      ensures s == old(s).(ram := s.ram, pte := s.pte, mem := s.mem) && s.ram.Keys == old(s).ram.Keys
      ensures s.pte == old(s).pte[k := old(s).pte[k].(d := true, a := true)]
    {
      hide FrameInv, PteInv, RefInv, LiveInv, CountInv, ListInv, ExclInv, VaInv, MemInv, HashInv, CoherentInv,
        CacheInv, StoreReady;
      MappedPage(s, k);
      var f := s.pte[k].frame;
      var data: Data := s.ram[f][offset := v];
      ReadyCoherent(s, k);
      StoreKeeps(s, k, data);
      s := s.(ram := s.ram[f := data], pte := s.pte[k := s.pte[k].(d := true, a := true)], mem := s.mem[k := data]);
    }

    /** A store by process k.pid: the faulting access and its retry are one step. */
    method Store(k: Key, offset: nat, v: int, vmRead: bool, vmWrite: bool, readOk: bool) returns (done: bool)
      requires Inv(s) && Quiet(s) && k.pid in s.procs
      modifies this
      ensures Inv(s) && Quiet(s) && s.procs == old(s).procs && s.busy == old(s).busy
      ensures !done ==> s.mem == old(s).mem
      ensures done ==> k in s.mem && offset in s.mem[k] && s.mem[k][offset] == v && s.mem == old(s).mem[k := s.mem[k]]
      ensures done && k in old(s).mem ==> s.mem[k] == old(s).mem[k][offset := v]
      ensures done <==> Mapped(old(s), k, true) || FaultMaps(old(s), k, true, vmRead, vmWrite, readOk)
      ensures done ==> Mapped(s, k, true) && s.pte[k].d && s.pte[k].a
      ensures Conserved(old(s), s) && ReadBack(old(s), s, k) && (k !in old(s).pte ==> s.swap == old(s).swap)
    {
      hide FrameInv, PteInv, RefInv, LiveInv, CountInv, ListInv, ExclInv, VaInv, MemInv, HashInv, CoherentInv,
        CacheInv, StoreReady, FaultMaps, LosesDirty, SilentFailure, ReadBack;
      if !(k in s.pte && s.pte[k].Present? && s.pte[k].w) {
        var ok := DoPgfault(k, true, vmRead, vmWrite, readOk);
      } else {
        ReadyWhenInv(s, k);
        ReadBackNot(old(s), s, k);
      }
      ghost var s1 := s;
      if k in s.pte && s.pte[k].Present? && s.pte[k].w {
        WriteWord(k, offset, v);
        ReadBackStore(old(s), s1, s, k);
        return true;
      }
      return false;
    }

    /** A load by process k.pid returns the page of its own memory. */
    method Load(k: Key, vmRead: bool, vmWrite: bool, readOk: bool) returns (r: Option<Data>)
      requires Inv(s) && Quiet(s) && k.pid in s.procs
      modifies this
      ensures Inv(s) && Quiet(s) && s.procs == old(s).procs && s.busy == old(s).busy
      ensures r.Some? ==> k in s.mem && r.value == s.mem[k] && s.mem == old(s).mem[k := r.value]
      ensures r.Some? && k in old(s).mem ==> s.mem == old(s).mem
      ensures r.Some? && k !in old(s).mem ==>
              exists f :: f in old(s).free && f in old(s).ram && r.value == old(s).ram[f]
      ensures r.None? ==> s.mem == old(s).mem
      ensures r.Some? ==> Mapped(s, k, false) && s.pte[k].a
      ensures r.Some? <==> Mapped(old(s), k, false) || FaultMaps(old(s), k, false, vmRead, vmWrite, readOk)
      ensures Conserved(old(s), s)
    {
      hide FrameInv, PteInv, RefInv, LiveInv, CountInv, ListInv, ExclInv, VaInv, MemInv, HashInv, CoherentInv,
        CacheInv, StoreReady, FaultMaps, LosesDirty, SilentFailure;
      if !(k in s.pte && s.pte[k].Present?) {
        var ok := DoPgfault(k, false, vmRead, vmWrite, readOk);
      }
      if k in s.pte && s.pte[k].Present? {
        MappedPage(s, k);
        RebitAccessed(s, k, true);
        s := s.(pte := s.pte[k := s.pte[k].(a := true)]);
        return Some(s.ram[s.pte[k].frame]);
      }
      return None;
    }

    /** swap_page_add with no entry yet: take a slot for the page, or fail. */
    method SwapPageAddNew(f: nat) returns (ok: bool)
      requires Inv(s) && Quiet(s) && f in s.ref && f !in s.swap && RefKeys(s.pte, f) != {}
      modifies this
      ensures Inv(s) && s.procs == old(s).procs && s.pte == old(s).pte && s.mem == old(s).mem && s.busy == old(s).busy
      ensures s.held == {} && s.pin == None && s.ram == old(s).ram && s.disk == old(s).disk
      ensures !ok ==> s.off == old(s).off && NoSlot(s.memMap)
      ensures ok ==> s.off == old(s).off + {f} && f in s.swap && f in s.dirty && s.busy != Some(f) && f !in old(s).off
    {
      hide FrameInv, PteInv, RefInv, LiveInv, CountInv, ListInv, ExclInv, VaInv, MemInv, HashInv, CoherentInv,
        CacheInv, OnLists, RefKeys;
      ghost var s0 := s;
      BusyNot(s, f);
      QuietOnLists(s);
      var sl := TryAllocSwapEntry();
      if sl == 0 {
        return false;
      }
      StillMapped(s0, s, f);
      CacheNewKeeps(s, f, sl);
      s := s.(memMap := s.memMap[sl := 0]);
      s := s.(dirty := s.dirty + {f});
      s := s.(swap := s.swap + {f});
      s := s.(index := s.index[f := sl]);
      s := s.(hash := s.hash[HashFn(sl) := [f] + s.hash[HashFn(sl)]],
              cache := s.cache[sl := f], off := s.off + {f}, slotVa := s.slotVa[sl := s.frameVa[f]]);
      return true;
    }

    /** swap_duplicate: its assertion never fails. */
    method SwapDuplicate(sl: nat)
      requires sl < |s.memMap| && s.memMap[sl] < MAX_SWAP_REF
      modifies this
      ensures s == old(s).(memMap := old(s).memMap[sl := old(s).memMap[sl] + 1])
    {
      s := s.(memMap := s.memMap[sl := s.memMap[sl] + 1]);
    }

    /** The end of swap_out_vma for one page: the entry becomes the swap entry. */
    method Unmap(k: Key, f: nat)
      requires Inv(s) && k in s.pte && s.pte[k].Present? && s.pte[k].frame == f && f in s.swap
      requires s.pte[k].d ==> f in s.dirty
      modifies this
      ensures f in old(s).index && s == old(s).(pte := s.pte, ref := s.ref, memMap := s.memMap)
      ensures Inv(s) && s.pte == old(s).pte[k := Swapped(old(s).index[f])]
    {
      hide FrameInv, PteInv, RefInv, LiveInv, CountInv, ListInv, ExclInv, VaInv, MemInv, HashInv, CoherentInv, CacheInv;
      CachedPage(s, f);
      MappedPage(s, k);
      SlotRoom(s, s.index[f]);
      ToSwappedKeeps(s, k);
      var sl := s.index[f];
      SwapDuplicate(sl);
      s := s.(ref := s.ref[f := s.ref[f] - 1]);
      s := s.(pte := s.pte[k := Swapped(sl)]);
    }

    /** swap_out_vma for one page: true when the entry was replaced by a swap entry. */
    method SwapOutPte(k: Key) returns (out: bool)
      requires Inv(s) && Quiet(s)
      modifies this
      ensures Inv(s) && Quiet(s) && s.procs == old(s).procs && s.busy == old(s).busy && s.mem == old(s).mem
      ensures out <==> k in old(s).pte && old(s).pte[k].Present? && k in s.pte && s.pte[k].Swapped?
      ensures s.pte.Keys == old(s).pte.Keys && forall q :: q in s.pte && q != k ==> s.pte[q] == old(s).pte[q]
      ensures !Mapped(old(s), k, false) ==> s == old(s)
      ensures Mapped(old(s), k, false) && old(s).pte[k].a ==>
              s == old(s).(pte := old(s).pte[k := old(s).pte[k].(a := false)])
      ensures Mapped(old(s), k, false) && !old(s).pte[k].a && !out ==>
                old(s).pte[k].frame !in old(s).swap && NoSlot(s.memMap) && s.pte[k] == old(s).pte[k]
      ensures out ==> s.pte[k].slot in s.cache && s.cache[s.pte[k].slot] == old(s).pte[k].frame
      ensures s.ram == old(s).ram && s.disk == old(s).disk
    {
      hide FrameInv, PteInv, RefInv, LiveInv, CountInv, ListInv, ExclInv, VaInv, MemInv, HashInv, CoherentInv, CacheInv;
      if !(k in s.pte && s.pte[k].Present?) {
        return false;
      }
      var f := s.pte[k].frame;
      MappedPage(s, k);
      if s.pte[k].a {
        RebitAccessed(s, k, false);
        s := s.(pte := s.pte[k := s.pte[k].(a := false)]);
        return false;
      }
      if f !in s.swap {
        assert k in RefKeys(s.pte, f);
        ghost var off0 := s.off;
        var ok := SwapPageAddNew(f);
        if !ok {
          return false;
        }
        ActiveAddKeeps(s, f);
        SwapActiveListAdd(f);
        assert s.off == off0;
      } else if s.pte[k].d {
        MarkDirtyKeeps(s, f);
        s := s.(dirty := s.dirty + {f});
      }
      Unmap(k, f);
      CachedSlots(s);
      return true;
    }

    /** copy_range for a present entry: it is write-protected, keeping D and A, and shared. */
    method SharePage(from: Key, to: Key)
      requires Inv(s) && Quiet(s) && to.pid in s.procs && to.va == from.va && to !in s.pte && from in s.pte
               && s.pte[from].Present?
      modifies this
      ensures Inv(s) && Quiet(s) && s.procs == old(s).procs && s.busy == old(s).busy
      ensures from in old(s).mem && s.mem == old(s).mem[to := old(s).mem[from]]
      ensures s.pte == CopiedPte(old(s).pte, from, to) && s.ram == old(s).ram && s.disk == old(s).disk
      ensures s.swap == old(s).swap && s.index == old(s).index && s.dirty == old(s).dirty
    {
      hide FrameInv, PteInv, RefInv, LiveInv, CountInv, ListInv, ExclInv, VaInv, MemInv, HashInv, CoherentInv,
        CacheInv, OnLists, MayInsert;
      var f := s.pte[from].frame;
      MappedPage(s, from);
      QuietOnLists(s);
      if s.pte[from].w {
        WriteProtect(s, from);
        PageInsert(from, f, false, s.pte[from].d, s.pte[from].a);
      }
      QuietOnLists(s);
      ShareInsert(s, from, to);
      PageInsert(to, f, false, false, false);
    }

    /** copy_range for one page: the child shares the page read-only, or the swap entry. */
    method CopyPte(from: Key, to: Key)
      requires Inv(s) && Quiet(s) && to.pid in s.procs && to.va == from.va && to !in s.pte
      modifies this
      ensures Inv(s) && Quiet(s) && s.procs == old(s).procs && s.busy == old(s).busy
      ensures s.mem == if from in old(s).mem then old(s).mem[to := old(s).mem[from]] else old(s).mem
      ensures s.pte == CopiedPte(old(s).pte, from, to) && s.ram == old(s).ram && s.disk == old(s).disk
      ensures s.swap == old(s).swap && s.index == old(s).index && s.dirty == old(s).dirty
    {
      hide FrameInv, PteInv, RefInv, LiveInv, CountInv, ListInv, ExclInv, VaInv, MemInv, HashInv, CoherentInv,
        CacheInv, OnLists, MayInsert;
      PteMem(s, from);
      if from in s.pte {
        QuietOnLists(s);
        if s.pte[from].Present? {
          SharePage(from, to);
        } else {
          SwappedEntry(s, from);
          SlotRoom(s, s.pte[from].slot);
          CopySwappedKeeps(s, from, to);
          var sl := s.pte[from].slot;
          SwapDuplicate(sl);
          s := s.(pte := s.pte[to := Swapped(sl)], mem := s.mem[to := s.mem[from]]);
        }
      }
    }

    /** copy_range on a private area: afterwards the child's pages there read as the parent's. */
    method CopyRange(to: nat, from: nat, start: nat, end: nat)
      requires Inv(s) && Quiet(s) && to in s.procs && to != from && start < end
      requires forall k :: k in s.pte ==> !InRange(k, to, start, end)
      modifies this
      ensures Inv(s) && Quiet(s) && s.procs == old(s).procs && s.busy == old(s).busy
      ensures s.mem == ForkMemory(old(s).mem, to, from, start, end)
      ensures Conserved(old(s), s)
    {
      hide Inv, Quiet, ForkMemory, InRange;
      var va := start;
      ForkEmpty(s.mem, to, from, start);
      ghost var s0 := s;
      while va < end
        invariant start <= va <= end && Inv(s) && Quiet(s) && s.procs == s0.procs && s.busy == s0.busy
        invariant s.mem == ForkMemory(s0.mem, to, from, start, va) && Conserved(s0, s)
      {
        NotThere(s0, to, start, end, va);
        ForkStep(s0.mem, to, from, start, va);
        InvKeys(s);
        CopyPte(Key(from, va), Key(to, va));
        va := va + 1;
      }
    }

    /** unmap_range: exactly the pages in the range disappear, from this process only. */
    method UnmapRange(pid: nat, start: nat, end: nat)
      requires Inv(s) && Quiet(s) && start <= end
      modifies this
      ensures Inv(s) && Quiet(s) && s.procs == old(s).procs && s.busy == old(s).busy
      ensures s.mem == Outside(old(s).mem, pid, start, end)
      ensures Conserved(old(s), s)
    {
      hide FrameInv, PteInv, RefInv, LiveInv, CountInv, ListInv, ExclInv, VaInv, MemInv, HashInv, CoherentInv,
        CacheInv, OnLists, Dropped;
      var va := start;
      assert s.mem == Outside(s.mem, pid, start, start);
      while va < end
        invariant start <= va <= end && Inv(s) && Quiet(s) && s.procs == old(s).procs && s.busy == old(s).busy
        invariant s.mem == Outside(old(s).mem, pid, start, va) && Conserved(old(s), s)
      {
        var k := Key(pid, va);
        OutsideStep(old(s).mem, pid, start, va);
        SameKeys(s);
        if k in s.pte {
          QuietOnLists(s);
          ghost var s0 := s;
          PageRemovePte(k);
          DroppedQuiet(s0, s, k);
        } else {
          assert s.mem - {k} == s.mem;
        }
        va := va + 1;
      }
    }

    /** The end of page_launder's loop body (and try_free_swap_entry): an unreferenced page that
        is on disk, or whose slot nobody uses, is freed. */
    method FreeOff(f: nat)
      requires Inv(s) && s.pin == None && f in s.off && s.busy != Some(f) && f in s.ref && s.ref[f] == 0 && f !in s.held
      requires f in s.swap && f in s.index && s.index[f] < |s.memMap| && (s.memMap[s.index[f]] == 0 || f !in s.dirty)
      modifies this
      ensures Inv(s) && s.procs == old(s).procs && s.pte == old(s).pte && s.mem == old(s).mem && s.busy == old(s).busy
      ensures s.off == old(s).off - {f} && s.held == old(s).held && s.pin == None
      ensures s.free == old(s).free + {f} && |s.free| == |old(s).free| + 1
      ensures s.active == old(s).active && s.inactive == old(s).inactive && s.dirty == old(s).dirty
              && s.disk == old(s).disk
      ensures s.ram == old(s).ram
    {
      hide FrameInv, PteInv, RefInv, LiveInv, CountInv, ListInv, ExclInv, VaInv, MemInv, HashInv, CoherentInv, CacheInv;
      FreeOffProof(s, f);
      ghost var s0 := s;
      var sl := s.index[f];
      if s.memMap[sl] == 0 {
        s := s.(memMap := s.memMap[sl := SWAP_UNUSED]);
      }
      SwapFreePage(f);
      ghost var u := Release(Uncache(s0, f, s0.memMap[sl] == 0), f);
      assert s == u;
    }

    /** One turn of page_launder's loop up to the disk write. */
    method LaunderTake() returns (freed: bool)
      requires Inv(s) && Quiet(s) && s.busy == None && s.inactive != []
      modifies this
      ensures Inv(s) && Quiet(s) && s.procs == old(s).procs && s.mem == old(s).mem
      ensures |s.free| == |old(s).free| + (if freed then 1 else 0) && s.pte == old(s).pte && s.ram == old(s).ram
              && s.disk == old(s).disk
      ensures forall g :: g in s.active ==> g in old(s).active || RefKeys(s.pte, g) != {}
      ensures s.inactive == old(s).inactive[1..]
              && forall g :: g != old(s).inactive[0] ==> (g in s.dirty <==> g in old(s).dirty)
      ensures LaunderTaken(old(s), s, old(s).inactive[0], freed)
    {
      hide FrameInv, PteInv, RefInv, LiveInv, CountInv, ListInv, ExclInv, VaInv, MemInv, HashInv, CoherentInv,
        CacheInv, RefKeys;
      var f := s.inactive[0];
      InactiveHead(s);
      InactivePage(s, f);
      CachedPage(s, f);
      ListDelKeeps(s, f);
      SwapListDel(f);
      if s.ref[f] != 0 {
        MappedSomewhere(s, f);
        ActiveAddKeeps(s, f);
        SwapActiveListAdd(f);
        return false;
      }
      var sl := s.index[f];
      if s.memMap[sl] != 0 && f in s.dirty {
        BeginWrite(f);
        return false;
      }
      FreeOff(f);
      return true;
    }

    /** The slot is counted once more while page_launder writes it, and the page no longer dirty. */
    method BeginWrite(f: nat)
      requires Inv(s) && s.busy == None && f in s.off && f in s.swap && f in s.dirty && f in s.index
               && s.index[f] < |s.memMap|
      requires s.memMap[s.index[f]] != 0
      modifies this
      ensures Inv(s) && s == old(s).(dirty := old(s).dirty - {f}, busy := Some(f), memMap := s.memMap)
    {
      hide FrameInv, PteInv, RefInv, LiveInv, CountInv, ListInv, ExclInv, VaInv, MemInv, HashInv, CoherentInv, CacheInv;
      CachedPage(s, f);
      SlotRoom(s, s.index[f]);
      LaunderBeginKeeps(s, f);
      s := s.(dirty := s.dirty - {f});
      SwapDuplicate(s.index[f]);
      s := s.(busy := Some(f));
    }

    /** page_launder once swapfs_write has returned. */
    method LaunderDone(ok: bool) returns (freed: bool)
      requires Inv(s) && Quiet(s) && s.busy.Some?
      modifies this
      ensures Inv(s) && Quiet(s) && s.busy == None && s.procs == old(s).procs && s.mem == old(s).mem
      ensures |s.free| == |old(s).free| + (if freed then 1 else 0) && s.pte == old(s).pte && s.ram == old(s).ram
      ensures forall g :: g in s.active ==> g in old(s).active || RefKeys(s.pte, g) != {}
      ensures forall g :: g != old(s).busy.value ==> (g in s.dirty <==> g in old(s).dirty)
      ensures LaunderWritten(old(s), s, old(s).busy.value, ok, freed)
      ensures Conserved(old(s), s)
    {
      hide FrameInv, PteInv, RefInv, LiveInv, CountInv, ListInv, ExclInv, VaInv, MemInv, HashInv, CoherentInv,
        CacheInv, RefKeys;
      var f := s.busy.value;
      BusyPage(s, f);
      CachedPage(s, f);
      LaunderEndKeeps(s, f, ok);
      var sl := s.index[f];
      if ok {
        s := s.(disk := s.disk[sl := s.ram[f]]);
      } else {
        s := s.(dirty := s.dirty + {f});
      }
      s := s.(memMap := s.memMap[sl := s.memMap[sl] - 1], busy := None);
      freed := Settle(f);
    }

    /** Where page_launder puts the page after the write: it is mapped again, dirty again, or freed. */
    method Settle(f: nat) returns (freed: bool)
      requires Inv(s) && s.held == {} && s.pin == None && s.off == {f} && s.busy == None && f in s.swap && f in s.ref
               && f !in s.held
      requires f in s.index && s.index[f] < |s.memMap|
      modifies this
      ensures Inv(s) && Quiet(s) && s.busy == None && s.procs == old(s).procs && s.mem == old(s).mem
      ensures s.pte == old(s).pte && s.ram == old(s).ram && s.disk == old(s).disk && s.dirty == old(s).dirty
      ensures |s.free| == |old(s).free| + (if freed then 1 else 0) && (freed ==> f in s.free)
      ensures freed <==> old(s).ref[f] == 0 && f !in old(s).dirty
      ensures s.inactive == old(s).inactive + (if old(s).ref[f] == 0 && !freed then [f] else [])
      ensures old(s).ref[f] != 0 ==> f in s.active
      ensures forall g :: g in s.active ==> g in old(s).active || RefKeys(s.pte, g) != {}
    {
      hide FrameInv, PteInv, RefInv, LiveInv, CountInv, ListInv, ExclInv, VaInv, MemInv, HashInv, CoherentInv,
        CacheInv, RefKeys;
      if s.ref[f] != 0 {
        MappedSomewhere(s, f);
        ActiveAddKeeps(s, f);
        SwapActiveListAdd(f);
        return false;
      }
      if f in s.dirty {
        InactiveAddKeeps(s, f);
        SwapInactiveListAdd(f);
        return false;
      }
      FreeOff(f);
      return true;
    }

    /** One turn of page_launder's loop without interruption: the page goes back to the inactive list
        only if it could not be written. */
    method LaunderOne(ok: bool) returns (n: nat)
      requires Inv(s) && Quiet(s) && s.busy == None && s.inactive != []
      modifies this
      ensures Inv(s) && Quiet(s) && s.busy == None && s.procs == old(s).procs && s.mem == old(s).mem
      ensures |s.free| == |old(s).free| + n && s.pte == old(s).pte && s.ram == old(s).ram && |s.disk| == |old(s).disk|
      ensures forall g :: g in s.active ==> g in old(s).active || RefKeys(s.pte, g) != {}
      ensures forall g :: g != old(s).inactive[0] ==> (g in s.dirty <==> g in old(s).dirty)
      ensures || s.inactive == old(s).inactive[1..]
              || (!ok && s.inactive == old(s).inactive[1..] + [old(s).inactive[0]] && old(s).inactive[0] in s.dirty)
    {
      hide FrameInv, PteInv, RefInv, LiveInv, CountInv, ListInv, ExclInv, VaInv, MemInv, HashInv, CoherentInv,
        CacheInv, Quiet, RefKeys;
      var freed := LaunderTake();
      n := if freed then 1 else 0;
      if s.busy.Some? {
        freed := LaunderDone(ok);
        n := if freed then 1 else 0;
      }
    }

    /** page_launder without interruption; `ok` says which disk writes succeed. */
    method PageLaunder(ok: nat -> bool) returns (freeCount: nat)
      requires Inv(s) && Quiet(s) && s.busy == None
      modifies this
      ensures Inv(s) && Quiet(s) && s.busy == None && s.procs == old(s).procs && s.mem == old(s).mem
      ensures |s.free| == |old(s).free| + freeCount && s.pte == old(s).pte && s.ram == old(s).ram
      ensures forall f :: f in s.inactive ==> f in s.dirty
      ensures (forall i :: ok(i)) ==> s.inactive == []
      ensures forall f :: f in s.active ==> f in old(s).active || RefKeys(s.pte, f) != {}
      ensures Conserved(old(s), s)
    {
      hide FrameInv, PteInv, RefInv, LiveInv, CountInv, ListInv, ExclInv, VaInv, MemInv, HashInv, CoherentInv,
        CacheInv, Quiet, RefKeys;
      freeCount := 0;
      var maxscan := |s.inactive|;
      var i := 0;
      while i < maxscan && s.inactive != []
        invariant i <= maxscan && Inv(s) && Quiet(s) && s.busy == None && s.procs == old(s).procs && s.mem == old(s).mem
        invariant |s.free| == |old(s).free| + freeCount && s.pte == old(s).pte && s.ram == old(s).ram
                  && Conserved(old(s), s)
        invariant (forall i :: ok(i)) ==> |s.inactive| == maxscan - i
        invariant forall f :: f in s.active ==> f in old(s).active || RefKeys(s.pte, f) != {}
        invariant maxscan - i <= |s.inactive|
                  && forall j :: maxscan - i <= j < |s.inactive| ==> s.inactive[j] in s.dirty
      {
        InactiveHead(s);
        var n := LaunderOne(ok(i));
        freeCount := freeCount + n;
        i := i + 1;
      }
    }

    /** refill_inactive_scan: afterwards every active page is mapped somewhere. */
    method RefillInactiveScan()
      requires Inv(s) && Quiet(s)
      modifies this
      ensures Inv(s) && Quiet(s) && s.procs == old(s).procs && s.mem == old(s).mem && s.busy == old(s).busy
      ensures s.ref == old(s).ref && s.free == old(s).free && s.pte == old(s).pte && s.ram == old(s).ram
      ensures forall f :: f in s.active <==> f in old(s).active && f in s.ref && s.ref[f] != 0
      ensures forall f :: f in s.inactive <==>
              f in old(s).inactive || (f in old(s).active && f in s.ref && s.ref[f] == 0)
      ensures Conserved(old(s), s)
    {
      hide FrameInv, PteInv, RefInv, LiveInv, CountInv, ListInv, ExclInv, VaInv, MemInv, HashInv, CoherentInv,
        CacheInv, Quiet;
      var list := s.active;
      ActiveFacts(s);
      for i := 0 to |list|
        invariant Inv(s) && Quiet(s) && s.procs == old(s).procs && s.mem == old(s).mem && s.busy == old(s).busy
        invariant s.ref == old(s).ref && s.free == old(s).free && s.pte == old(s).pte && s.ram == old(s).ram
                  && Conserved(old(s), s)
        invariant forall j :: i <= j < |list| ==> list[j] in s.active
        invariant forall f :: f in s.active <==> f in list && (f in list[..i] ==> f in s.ref && s.ref[f] != 0)
        invariant forall f ::
                  f in s.inactive <==> f in old(s).inactive || (f in list[..i] && f in s.ref && s.ref[f] == 0)
      {
        MoveIfIdle(list[i]);
        assert list[..i + 1] == list[..i] + [list[i]];
      }
      assert list[..|list|] == list;
    }

    /** One turn of refill_inactive_scan's loop. */
    method MoveIfIdle(f: nat)
      requires Inv(s) && Quiet(s) && f in s.active
      modifies this
      ensures Inv(s) && Quiet(s) && s.procs == old(s).procs && s.mem == old(s).mem && s.busy == old(s).busy
      ensures s.ref == old(s).ref && s.free == old(s).free && f in s.ref && s.pte == old(s).pte && s.ram == old(s).ram
      ensures forall g :: g in s.active <==> g in old(s).active && (g == f ==> s.ref[f] != 0)
      ensures forall g :: g in s.inactive <==> g in old(s).inactive || (g == f && s.ref[f] == 0)
      ensures Conserved(old(s), s)
    {
      hide FrameInv, PteInv, RefInv, LiveInv, CountInv, ListInv, ExclInv, VaInv, MemInv, HashInv, CoherentInv,
        CacheInv, Quiet;
      ActiveFacts(s);
      if s.ref[f] == 0 {
        ghost var s1 := s;
        ListDelKeeps(s, f);
        SwapListDel(f);
        InactiveAddKeeps(s, f);
        SwapInactiveListAdd(f);
        QuietSame(s1, s);
      }
    }

    /** swap_out_vma over the pages of an area: no process notices. */
    method SwapOutVma(pid: nat, start: nat, end: nat, require: nat) returns (freeCount: nat)
      requires Inv(s) && Quiet(s)
      modifies this
      ensures Inv(s) && Quiet(s) && s.procs == old(s).procs && s.busy == old(s).busy && s.mem == old(s).mem
      ensures freeCount == |GoneOut(old(s).pte, s.pte)| && SweptOut(old(s).pte, s.pte, pid, start, end, require)
      ensures Conserved(old(s), s)
    {
      hide FrameInv, PteInv, RefInv, LiveInv, CountInv, ListInv, ExclInv, VaInv, MemInv, HashInv, CoherentInv,
        CacheInv, Quiet, GoneOut, Inv, Visited, NoSlot;
      NoneGone(s.pte);
      freeCount := 0;
      var va := start;
      while va < end && freeCount != require
        invariant Inv(s) && Quiet(s) && s.procs == old(s).procs && s.busy == old(s).busy && s.mem == old(s).mem
        invariant freeCount <= require && start <= va && Conserved(old(s), s)
        invariant s.pte.Keys == old(s).pte.Keys && freeCount == |GoneOut(old(s).pte, s.pte)|
                  && (va > end ==> va == start)
        invariant forall k :: k in s.pte && !InRange(k, pid, start, va) ==> s.pte[k] == old(s).pte[k]
        invariant forall k :: k in s.pte ==> Visited(old(s).pte[k], s.pte[k])
        invariant forall k :: k in s.pte && InRange(k, pid, start, va) && s.pte[k].Present? ==> !s.pte[k].a
      {
        ghost var pte := s.pte;
        var out := SwapOutPte(Key(pid, va));
        OneVisited(old(s).pte, pte, s.pte, Key(pid, va), out);
        VisitedStep(old(s).pte, pte, s.pte, Key(pid, va), out);
        if out {
          freeCount := freeCount + 1;
        }
        va := va + 1;
      }
    }

    /** A process comes into being while there are fewer than MAX_PROCESS. */
    method Spawn(pid: nat)
      requires Inv(s) && Quiet(s)
      modifies this
      ensures Inv(s) && Quiet(s) && s == old(s).(procs := s.procs)
      ensures s.procs == if |old(s).procs| < MAX_PROCESS then old(s).procs + {pid} else old(s).procs
    {
      if |s.procs| < MAX_PROCESS {
        SpawnKeeps(s, pid);
        s := s.(procs := s.procs + {pid});
      }
    }

    /** A process goes away once nothing of it is mapped any more. */
    method Exit(pid: nat)
      requires Inv(s) && Quiet(s)
      modifies this
      ensures Inv(s) && Quiet(s) && s == old(s).(procs := s.procs)
      ensures s.procs == if forall k :: k in old(s).pte ==> k.pid != pid then old(s).procs - {pid} else old(s).procs
    {
      if forall k :: k in s.pte ==> k.pid != pid {
        ExitKeeps(s, pid);
        s := s.(procs := s.procs - {pid});
      }
    }

    /** Any interleaving of accesses, forks, unmaps and the work of kswapd: every state on the way is
        sound, and the memory the processes see develops as if each had its own. */
    method Run(ops: seq<Op>) returns (ghost run: seq<State>, ghost events: seq<Event>)
      requires Inv(s) && Quiet(s)
      modifies this
      ensures |run| == |ops| + 1 && run[0] == old(s) && run[|ops|] == s && |events| == |ops|
      ensures forall i :: 0 <= i < |run| ==> Inv(run[i]) && Quiet(run[i])
      ensures forall i :: 0 <= i < |ops| ==> Stepped(run[i], ops[i], events[i], run[i + 1])
      ensures IsTrace(WorldOf(old(s)), ops, events, WorldOf(s))
    {
      hide Inv, Quiet, Stepped, WorldOf;
      run, events := [s], [];
      assert ops[..0] == [];
      for i := 0 to |ops|
        invariant |run| == i + 1 && run[0] == old(s) && run[i] == s && |events| == i
        invariant forall j :: 0 <= j <= i ==> Inv(run[j]) && Quiet(run[j])
        invariant forall j :: 0 <= j < i ==> Stepped(run[j], ops[j], events[j], run[j + 1])
        invariant IsTrace(WorldOf(old(s)), ops[..i], events, WorldOf(s))
      {
        ghost var w := WorldOf(s);
        ghost var e := Step(ops[i]);
        SteppedWorld(run[i], ops[i], e, s);
        TraceSnoc(WorldOf(old(s)), ops[..i], events, w, ops[i], e);
        run, events := run + [s], events + [e];
        assert ops[..i + 1] == ops[..i] + [ops[i]];
      }
      assert ops[..|ops|] == ops;
    }

    /** A store or load of a history, by a process or by nobody. */
    method Access(op: Op) returns (ghost e: Event)
      requires Inv(s) && Quiet(s) && (op.DoStore? || op.DoLoad?)
      modifies this
      ensures Inv(s) && Quiet(s) && Stepped(old(s), op, e, s)
    {
      hide FrameInv, PteInv, RefInv, LiveInv, CountInv, ListInv, ExclInv, VaInv, MemInv, HashInv, CoherentInv,
        CacheInv, ForkMemory, Outside, Mapped, FaultMaps, ReadBack;
      e := Nothing;
      match op {
        case DoStore(k, offset, v, vmRead, vmWrite, readOk) =>
          if k.pid in s.procs {
            var done := Store(k, offset, v, vmRead, vmWrite, readOk);
            if done {
              e := Stored(k, offset, v, s.mem[k]);
              assert s.mem[k][offset := v] == s.mem[k];
            }
          }
        case DoLoad(k, vmRead, vmWrite, readOk) =>
          if k.pid in s.procs {
            var r := Load(k, vmRead, vmWrite, readOk);
            if r.Some? {
              e := Loaded(k, r.value);
            }
          }
      }
    }

    /** The copying of a range, where the world allows it. */
    method Fork(to: nat, from: nat, start: nat, end: nat) returns (ghost e: Event)
      requires Inv(s) && Quiet(s)
      modifies this
      ensures Inv(s) && Quiet(s) && Stepped(old(s), DoFork(to, from, start, end), e, s)
    {
      hide FrameInv, PteInv, RefInv, LiveInv, CountInv, ListInv, ExclInv, VaInv, MemInv, HashInv, CoherentInv,
        CacheInv, ForkMemory;
      e := Nothing;
      SameKeys(s);
      if to in s.procs && to != from && start < end
        && forall k :: k in s.pte ==> !(k.pid == to && start <= k.va < end) {
        CopyRange(to, from, start, end);
        e := Forked(to, from, start, end);
      }
    }

    /** A step of kswapd, which no process notices. */
    method Background(op: Op)
      requires Inv(s) && Quiet(s) && (op.SwapOut? || op.LaunderPage? || op.WriteReturns? || op.Refill?)
      modifies this
      ensures Inv(s) && Quiet(s) && WorldOf(s) == WorldOf(old(s)) && Conserved(old(s), s) && Swept(old(s), op, s)
    {
      hide FrameInv, PteInv, RefInv, LiveInv, CountInv, ListInv, ExclInv, VaInv, MemInv, HashInv, CoherentInv, CacheInv;
      match op {
        case SwapOut(pid, start, end, require) => var n := SwapOutVma(pid, start, end, require);
        case LaunderPage =>
          if s.busy == None && s.inactive != [] {
            var freed := LaunderTake();
          }
        case WriteReturns(ok) =>
          if s.busy.Some? {
            var freed := LaunderDone(ok);
          }
        case Refill => RefillInactiveScan();
      }
    }

    /** A process comes or goes. */
    method Lifetime(op: Op) returns (ghost e: Event)
      requires Inv(s) && Quiet(s) && (op.DoSpawn? || op.DoExit?)
      modifies this
      ensures Inv(s) && Quiet(s) && Stepped(old(s), op, e, s)
    {
      hide FrameInv, PteInv, RefInv, LiveInv, CountInv, ListInv, ExclInv, VaInv, MemInv, HashInv, CoherentInv,
        CacheInv, ForkMemory, Outside, Mapped, FaultMaps, Accessible, SweptOut, LaunderTaken, LaunderWritten;
      SameKeys(s);
      match op {
        case DoSpawn(pid) =>
          e := if |s.procs| < MAX_PROCESS then Spawned(pid) else Nothing;
          Spawn(pid);
        case DoExit(pid) =>
          e := if forall k :: k in s.mem ==> k.pid != pid then Exited(pid) else Nothing;
          Exit(pid);
      }
    }

    /** One operation of a history. */
    method Step(op: Op) returns (ghost e: Event)
      requires Inv(s) && Quiet(s)
      modifies this
      ensures Inv(s) && Quiet(s) && Stepped(old(s), op, e, s)
    {
      hide FrameInv, PteInv, RefInv, LiveInv, CountInv, ListInv, ExclInv, VaInv, MemInv, HashInv, CoherentInv,
        CacheInv, ForkMemory, Outside, Mapped, FaultMaps, ReadBack;
      e := Nothing;
      SameKeys(s);
      match op {
        case DoStore(_, _, _, _, _, _) => e := Access(op);
        case DoLoad(_, _, _, _) => e := Access(op);
        case DoFork(to, from, start, end) =>
          e := Fork(to, from, start, end);
        case DoUnmap(pid, start, end) =>
          e := Unmapped(pid, start, end);
          if start <= end {
            UnmapRange(pid, start, end);
          } else {
            OutsideEmpty(s.mem, pid, start, end);
          }
        case SwapOut(_, _, _, _) => Background(op);
        case LaunderPage => Background(op);
        case WriteReturns(_) => Background(op);
        case Refill => Background(op);
        case DoSpawn(_) => e := Lifetime(op);
        case DoExit(_) => e := Lifetime(op);
      }
    }
  }
}
