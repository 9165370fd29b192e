/** The elementary changes of the paging state and, for each, that it keeps the invariant. */
module PagingSteps {
  import opened Common
  import opened PagingState
  import opened PagingClauses

  /** What a cached page's slot looks like. */
  lemma {:induction false} CachedPage(s: State, f: nat)
    requires Core(s) && f in s.swap
    ensures f in s.ref && f in s.ram && f in s.index && Used(s.memMap, s.index[f])
    ensures s.index[f] in s.cache && s.cache[s.index[f]] == f
    ensures f !in s.held && s.index[f] < |s.disk| && s.ref[f] >= 0
  {
  }

  /** The counts of a present entry's frame. */
  lemma {:induction false} MappedPage(s: State, k: Key)
    requires Core(s) && k in s.pte && s.pte[k].Present?
    ensures s.pte[k].frame in s.ref && s.pte[k].frame in s.ram && s.pte[k].frame !in s.held
    ensures k in s.mem && s.mem[k] == s.ram[s.pte[k].frame] && k.pid in s.procs
    ensures s.pte[k].frame in s.frameVa && s.frameVa[s.pte[k].frame] == k.va
    ensures s.ref[s.pte[k].frame] >= 1
  {
    hide CountInv, HashInv, ListInv, CacheInv, ExclInv;
    assert k in RefKeys(s.pte, s.pte[k].frame);
  }

  /** alloc_page: the page arrives with count 0 and no flags. */
  ghost function Alloc(s: State, f: nat): State {
    s.(free := s.free - {f}, ref := s.ref[f := 0], dirty := s.dirty - {f}, hot := s.hot - {f}, held := s.held + {f})
  }

  lemma {:induction false} AllocKeeps(s: State, f: nat)
    requires Inv(s) && f in s.free
    ensures Inv(Alloc(s, f))
  {
    hide FrameInv, PteInv, RefInv, LiveInv, CountInv, CacheInv, HashInv, ListInv, ExclInv, VaInv, MemInv,
      CoherentInv, RefKeys, SlotKeys, HardwareDirty;
    FreshPage(s, f);
    PteUnmapped(s.pte, s.procs, s.ref, s.held, s.memMap, f);
    FrameMove(s.free, s.ref, s.ram, f, 0);
    PteAlloc(s.pte, s.procs, s.ref, s.held, s.memMap, f);
    RefAlloc(s.pte, s.ref, s.pin, f);
    LiveAlloc(s.ref, s.swap, s.held, s.pin, f);
    ListCold(s.active, s.inactive, s.swap, s.hot, s.off, f);
    CohUnswapped(s.pte, s.swap, s.dirty, s.busy, s.index, s.disk, s.ram, f, map[]);
  }

  lemma {:induction false} FreshPage(s: State, f: nat)
    requires Core(s) && f in s.free
    ensures f !in s.ref && f !in s.swap && f !in s.held && s.pin != Some(f) && f in s.ram
  {
  }

  /** free_page of a page nothing refers to. */
  ghost function Release(s: State, f: nat): State {
    s.(free := s.free + {f}, ref := s.ref - {f}, held := s.held - {f})
  }

  lemma {:induction false} ReleaseKeeps(s: State, f: nat)
    requires Core(s) && f in s.held && s.pin != Some(f)
    ensures Core(Release(s, f))
  {
    hide FrameInv, PteInv, RefInv, LiveInv, CountInv, CacheInv, HashInv, ListInv, ExclInv, VaInv, MemInv,
      CoherentInv, RefKeys, SlotKeys, HardwareDirty;
    HeldPage(s, f);
    FrameMove(s.free, s.ref, s.ram, f, 0);
    PteRelease(s.pte, s.procs, s.ref, s.held, s.memMap, f);
    RefRelease(s.pte, s.ref, s.pin, f);
    LiveRelease(s.ref, s.swap, s.held, s.pin, f);
  }

  lemma {:induction false} HeldPage(s: State, f: nat)
    requires Core(s) && f in s.held
    ensures f in s.ref && f in s.ram && f !in s.swap && RefKeys(s.pte, f) == {}
    ensures forall x :: x in s.cache ==> s.cache[x] != f
  {
    hide CountInv, HashInv, ListInv, ExclInv, RefInv;
    PteUnmapped(s.pte, s.procs, s.ref, s.held, s.memMap, f);
  }

  /** Data copied or read into a page nobody maps yet. */
  ghost function FillHeld(s: State, f: nat, data: Data): State {
    s.(ram := s.ram[f := data])
  }

  lemma {:induction false} FillHeldKeeps(s: State, f: nat, data: Data)
    requires Inv(s) && f in s.held
    ensures Inv(FillHeld(s, f, data))
  {
    hide FrameInv, PteInv, RefInv, LiveInv, CountInv, CacheInv, HashInv, ListInv, ExclInv, VaInv, MemInv,
      CoherentInv, RefKeys, SlotKeys, HardwareDirty;
    HeldPage(s, f);
    FrameRam(s.free, s.ref, s.ram, f, data);
    MemFill(s.mem, s.pte, s.ram, s.cache, s.disk, f, data);
    CohUnswapped(s.pte, s.swap, s.dirty, s.busy, s.index, s.disk, s.ram, f, data);
  }

  /** page_ref_inc ahead of a mapping. */
  ghost function PinPage(s: State, f: nat): State
    requires f in s.ref
  {
    s.(ref := s.ref[f := s.ref[f] + 1], pin := Some(f))
  }

  lemma {:induction false} PinKeeps(s: State, f: nat)
    requires Core(s) && f in s.ref && s.pin == None
    ensures Core(PinPage(s, f))
  {
    hide FrameInv, PteInv, RefInv, LiveInv, CountInv, CacheInv, HashInv, ListInv, ExclInv, VaInv, MemInv,
      CoherentInv, RefKeys, SlotKeys, HardwareDirty;
    FrameMove(s.free, s.ref, s.ram, f, s.ref[f] + 1);
    PteCount(s.pte, s.procs, s.ref, s.held, s.memMap, f, s.ref[f] + 1);
    RefPin(s.pte, s.ref, f);
    LivePin(s.ref, s.swap, s.held, f);
  }

  /** The entry is written and takes over the raised count. */
  ghost function MapPinned(s: State, k: Key, f: nat, w: bool): State
    requires f in s.ram
  {
    s.(pte := s.pte[k := Present(f, w, false, false)], mem := s.mem[k := s.ram[f]],
       pin := None, held := s.held - {f}, frameVa := s.frameVa[f := k.va])
  }

  /** The page may be mapped here: it is new or already belongs to this page number, and a
      writable mapping would be the only reference. */
  ghost predicate MayMap(s: State, k: Key, f: nat, w: bool) {
    && ((RefKeys(s.pte, f) == {} && f !in s.swap) || (f in s.frameVa && s.frameVa[f] == k.va))
    && (if w then
          RefKeys(s.pte, f) == {} &&
          (f in s.swap ==> f in s.index && s.index[f] < |s.memMap| && s.memMap[s.index[f]] == 0)
        else forall j :: j in RefKeys(s.pte, f) ==> j in s.pte && s.pte[j].Present? && !s.pte[j].w)
  }

  lemma {:induction false} MapPinnedKeeps(s: State, k: Key, f: nat, w: bool)
    requires Inv(s) && s.pin == Some(f) && k !in s.pte && k.pid in s.procs && f in s.ram
    requires MayMap(s, k, f, w)
    ensures Inv(MapPinned(s, k, f, w))
  {
    hide FrameInv, PteInv, RefInv, LiveInv, CountInv, CacheInv, HashInv, ListInv, ExclInv, VaInv, MemInv,
      CoherentInv, RefKeys, SlotKeys, HardwareDirty;
    PinnedPage(s, f);
    var p := Present(f, w, false, false);
    PteSetPresent(s.pte, s.procs, s.ref, s.held, s.memMap, k, p);
    RefUnpin(s.pte, s.ref, f);
    RefSet(s.pte, s.ref, k, p);
    LiveUnpin(s.ref, s.swap, s.held, f, {f});
    CountSetPresent(s.pte, s.memMap, s.cache.Keys, BusySlot(s.busy, s.index), k, p);
    ExclSet(s.pte, s.swap, s.index, s.memMap, k, p);
    VaSetPresent(s.pte, s.cache, s.frameVa, s.slotVa, k, p);
    MemSetPresent(s.mem, s.pte, s.ram, s.cache, s.disk, k, p);
    CohPte(s.pte, s.pte[k := p], s.swap, s.dirty, s.busy, s.index, s.disk, s.ram, k);
  }

  lemma {:induction false} PinnedPage(s: State, f: nat)
    requires Core(s) && s.pin == Some(f)
    ensures f in s.ref && s.ref[f] >= 1
    ensures f !in s.swap ==> f !in s.cache.Values
  {
    hide CountInv, HashInv, ListInv, ExclInv;
  }

  /** SetPageDirty. */
  ghost function MarkDirty(s: State, f: nat): State {
    s.(dirty := s.dirty + {f})
  }

  lemma {:induction false} MarkDirtyKeeps(s: State, f: nat)
    requires Inv(s)
    ensures Inv(MarkDirty(s, f))
  {
    hide FrameInv, PteInv, RefInv, LiveInv, CountInv, CacheInv, HashInv, ListInv, ExclInv, VaInv, MemInv,
      CoherentInv, RefKeys, SlotKeys, HardwareDirty;
    CohDirty(s.pte, s.swap, s.dirty, s.busy, s.index, s.disk, s.ram, f);
  }

  /** page_ref_dec with the entry gone; an uncached page without references is left to free. */
  ghost function DropPresent(s: State, k: Key): State
    requires k in s.pte && s.pte[k].Present? && s.pte[k].frame in s.ref
  {
    var f := s.pte[k].frame;
    s.(pte := s.pte - {k}, mem := s.mem - {k}, ref := s.ref[f := s.ref[f] - 1],
       held := if f !in s.swap && s.ref[f] == 1 then s.held + {f} else s.held)
  }

  lemma {:induction false} DropPresentKeeps(s: State, k: Key)
    requires Inv(s) && k in s.pte && s.pte[k].Present? && s.pte[k].frame in s.ref
    requires s.pte[k].d && s.pte[k].frame in s.swap ==> s.pte[k].frame in s.dirty
    ensures Inv(DropPresent(s, k))
  {
    hide ShapeInv, FrameInv, PteInv, RefInv, LiveInv, CountInv, CacheInv, HashInv, ListInv, ExclInv, VaInv, MemInv,
      CoherentInv, RefKeys, SlotKeys, HardwareDirty;
    DropPresentCounts(s, k);
    ExclDel(s.pte, s.swap, s.index, s.memMap, k);
    VaDel(s.pte, s.cache, s.frameVa, s.slotVa, k);
    MemDel(s.mem, s.pte, s.ram, s.cache, s.disk, k);
    CohPte(s.pte, s.pte - {k}, s.swap, s.dirty, s.busy, s.index, s.disk, s.ram, k);
  }

  lemma {:induction false} DropPresentCounts(s: State, k: Key)
    requires Core(s) && k in s.pte && s.pte[k].Present? && s.pte[k].frame in s.ref
    ensures var t := DropPresent(s, k);
            && FrameInv(t.free, t.ref, t.ram) && PteInv(t.pte, t.procs, t.ref, t.held, t.memMap)
            && RefInv(t.pte, t.ref, t.pin)
            && LiveInv(t.ref, t.swap, t.held, t.pin)
            && CountInv(t.pte, t.memMap, t.cache.Keys, BusySlot(t.busy, t.index))
  {
    hide ShapeInv, FrameInv, PteInv, RefInv, LiveInv, CountInv, CacheInv, HashInv, ListInv, ExclInv, VaInv, MemInv,
      RefKeys, SlotKeys;
    MappedPage(s, k);
    var f := s.pte[k].frame;
    FrameMove(s.free, s.ref, s.ram, f, s.ref[f] - 1);
    PteCount(s.pte, s.procs, s.ref, s.held, s.memMap, f, s.ref[f] - 1);
    PteDel(s.pte, s.procs, s.ref[f := s.ref[f] - 1], s.held, s.memMap, k);
    RefDelPresent(s.pte, s.ref, s.pin, k);
    if f !in s.swap && s.ref[f] == 1 {
      PteHold(s.pte - {k}, s.procs, s.ref[f := s.ref[f] - 1], s.held, s.memMap, f);
    }
    LiveDrop(s.ref, s.swap, s.held, s.pin, f);
    CountDelPresent(s.pte, s.memMap, s.cache.Keys, BusySlot(s.busy, s.index), k);
  }

  /** mem_map goes down with the entry gone; a slot nothing uses any more becomes unused. */
  ghost function DropSwapped(s: State, k: Key): State
    requires k in s.pte && s.pte[k].Swapped? && Used(s.memMap, s.pte[k].slot) && s.memMap[s.pte[k].slot] >= 1
  {
    var sl := s.pte[k].slot;
    s.(pte := s.pte - {k}, mem := s.mem - {k},
       memMap := s.memMap[sl := if s.memMap[sl] == 1 && sl !in s.cache then SWAP_UNUSED else s.memMap[sl] - 1])
  }

  lemma {:induction false} SwappedEntry(s: State, k: Key)
    requires Core(s) && k in s.pte && s.pte[k].Swapped?
    ensures Used(s.memMap, s.pte[k].slot) && 1 <= s.memMap[s.pte[k].slot] <= MAX_SWAP_REF
    ensures s.pte[k].slot in s.slotVa && s.slotVa[s.pte[k].slot] == k.va
    ensures k in s.mem && k.pid in s.procs && s.pte[k].slot < |s.disk|
    ensures s.pte[k].slot in s.cache ==>
              s.cache[s.pte[k].slot] in s.swap && s.cache[s.pte[k].slot] in s.ram
                && s.ram[s.cache[s.pte[k].slot]] == s.mem[k]
    ensures s.pte[k].slot !in s.cache ==> s.disk[s.pte[k].slot] == s.mem[k]
  {
    hide HashInv, ListInv, ExclInv, RefInv, LiveInv;
    assert k in SlotKeys(s.pte, s.pte[k].slot);
  }

  lemma {:induction false} DropSwappedKeeps(s: State, k: Key)
    requires Inv(s) && k in s.pte && s.pte[k].Swapped? && Used(s.memMap, s.pte[k].slot) && s.memMap[s.pte[k].slot] >= 1
    ensures Inv(DropSwapped(s, k))
  {
    hide FrameInv, PteInv, RefInv, LiveInv, CountInv, CacheInv, HashInv, ListInv, ExclInv, VaInv, MemInv,
      CoherentInv, RefKeys, SlotKeys, HardwareDirty;
    SwappedEntry(s, k);
    var sl := s.pte[k].slot;
    var n := if s.memMap[sl] == 1 && sl !in s.cache then SWAP_UNUSED else s.memMap[sl] - 1;
    CountDown(s.pte, s.memMap, s.cache.Keys, BusySlot(s.busy, s.index), k);
    PteDel(s.pte, s.procs, s.ref, s.held, s.memMap, k);
    PteSlot(s.pte - {k}, s.procs, s.ref, s.held, s.memMap, sl, n);
    RefDelSwapped(s.pte, s.ref, s.pin, k);
    CacheSlot(s.cache, s.swap, s.index, s.memMap, sl, n);
    ExclDel(s.pte, s.swap, s.index, s.memMap, k);
    ExclSlot(s.pte - {k}, s.swap, s.index, s.memMap, sl, n);
    VaDel(s.pte, s.cache, s.frameVa, s.slotVa, k);
    MemDel(s.mem, s.pte, s.ram, s.cache, s.disk, k);
    CohPte(s.pte, s.pte - {k}, s.swap, s.dirty, s.busy, s.index, s.disk, s.ram, k);
  }

  /** swap_list_del. */
  ghost function ListDel(s: State, f: nat): State {
    s.(active := if f in s.hot then Without(s.active, f) else s.active,
       inactive := if f in s.hot then s.inactive else Without(s.inactive, f),
       off := s.off + {f})
  }

  lemma {:induction false} ListDelKeeps(s: State, f: nat)
    requires Inv(s) && f in s.swap && f !in s.off
    ensures Inv(ListDel(s, f))
  {
    hide FrameInv, PteInv, RefInv, LiveInv, CountInv, CacheInv, HashInv, ListInv, ExclInv, VaInv, MemInv,
      CoherentInv, RefKeys, SlotKeys, HardwareDirty;
    ListTake(s.active, s.inactive, s.swap, s.hot, s.off, f);
  }

  /** swap_active_list_add. */
  ghost function ActiveAdd(s: State, f: nat): State {
    s.(hot := s.hot + {f}, active := s.active + [f], off := s.off - {f})
  }

  lemma {:induction false} ActiveAddKeeps(s: State, f: nat)
    requires Inv(s) && f in s.off && s.busy != Some(f)
    ensures Inv(ActiveAdd(s, f))
  {
    hide FrameInv, PteInv, RefInv, LiveInv, CountInv, CacheInv, HashInv, ListInv, ExclInv, VaInv, MemInv,
      CoherentInv, RefKeys, SlotKeys, HardwareDirty;
    ListAppend(s.active, s.inactive, s.swap, s.hot, s.off, f);
  }

  /** swap_inactive_list_add. */
  ghost function InactiveAdd(s: State, f: nat): State {
    s.(hot := s.hot - {f}, inactive := s.inactive + [f], off := s.off - {f})
  }

  lemma {:induction false} InactiveAddKeeps(s: State, f: nat)
    requires Inv(s) && f in s.off && s.busy != Some(f)
    ensures Inv(InactiveAdd(s, f))
  {
    hide FrameInv, PteInv, RefInv, LiveInv, CountInv, CacheInv, HashInv, ListInv, ExclInv, VaInv, MemInv,
      CoherentInv, RefKeys, SlotKeys, HardwareDirty;
    ListAppend(s.active, s.inactive, s.swap, s.hot, s.off, f);
  }

  /** swap_page_del, the slot becoming unused or the page being dropped while clean. */
  ghost function Uncache(s: State, f: nat, unuse: bool): State
    requires f in s.index && f in s.ref && s.index[f] < |s.memMap| && HashFn(s.index[f]) < |s.hash|
  {
    var sl := s.index[f];
    s.(swap := s.swap - {f}, off := s.off - {f}, cache := s.cache - {sl},
       hash := s.hash[HashFn(sl) := Without(s.hash[HashFn(sl)], f)],
       memMap := if unuse then s.memMap[sl := SWAP_UNUSED] else s.memMap,
       held := if s.ref[f] == 0 then s.held + {f} else s.held)
  }

  lemma {:induction false} UncacheKeeps(s: State, f: nat, unuse: bool)
    requires Inv(s) && f in s.swap && f in s.off && s.busy != Some(f)
    requires f in s.index && f in s.ref && s.index[f] < |s.memMap| && s.index[f] < |s.disk| && f in s.ram
             && HashFn(s.index[f]) < |s.hash|
    requires if unuse then s.memMap[s.index[f]] == 0
             else s.memMap[s.index[f]] > 0 && s.disk[s.index[f]] == s.ram[f] && s.ref[f] == 0
    ensures Inv(Uncache(s, f, unuse))
  {
    hide FrameInv, PteInv, RefInv, LiveInv, CountInv, CacheInv, HashInv, ListInv, ExclInv, VaInv, MemInv,
      CoherentInv, RefKeys, SlotKeys, HardwareDirty;
    CachedPage(s, f);
    BusyElsewhere(s, f);
    if s.ref[f] == 0 { Unreferenced(s, f); }
    var sl := s.index[f];
    CountUncache(s.pte, s.memMap, s.cache.Keys, BusySlot(s.busy, s.index), sl);
    CacheDel(s.cache, s.swap, s.index, s.memMap, f);
    assert (s.cache - {sl}).Keys == s.cache.Keys - {sl};
    if unuse {
      PteSlot(s.pte, s.procs, s.ref, s.held, s.memMap, sl, SWAP_UNUSED);
      CacheSlot(s.cache - {sl}, s.swap - {f}, s.index, s.memMap, sl, SWAP_UNUSED);
    }
    ExclUncache(s.pte, s.swap, s.cache, s.index, s.memMap, f, if unuse then s.memMap[sl := SWAP_UNUSED] else s.memMap);
    if s.ref[f] == 0 {
      PteHold(s.pte, s.procs, s.ref, s.held, if unuse then s.memMap[sl := SWAP_UNUSED] else s.memMap, f);
    }
    LiveUncache(s.ref, s.swap, s.held, s.pin, f);
    HashDel(s.hash, s.swap, s.index, f);
    ListForget(s.active, s.inactive, s.swap, s.hot, s.off, f);
    VaUncache(s.pte, s.cache, s.frameVa, s.slotVa, sl);
    MemUncache(s.mem, s.pte, s.ram, s.cache, s.disk, sl);
    CohUncache(s.pte, s.swap, s.dirty, s.busy, s.index, s.disk, s.ram, f);
  }

  lemma {:induction false} BusyElsewhere(s: State, f: nat)
    requires Core(s) && f in s.swap && s.busy != Some(f)
    ensures f in s.index && BusySlot(s.busy, s.index) != Some(s.index[f])
  {
    hide CountInv, HashInv, ExclInv, RefInv, PteInv, MemInv, VaInv;
    if s.busy.Some? {
      assert s.cache[s.index[s.busy.value]] == s.busy.value;
    }
  }

  lemma {:induction false} Unreferenced(s: State, f: nat)
    requires Core(s) && f in s.ref && s.ref[f] == 0
    ensures RefKeys(s.pte, f) == {} && s.pin != Some(f)
  {
    hide CountInv, HashInv, ExclInv, CacheInv, PteInv, MemInv, VaInv;
  }

  /** swap_page_add with a slot found by try_alloc_swap_entry. */
  ghost function CacheNew(s: State, f: nat, sl: nat): State
    requires sl < |s.memMap| && HashFn(sl) < |s.hash| && f in s.frameVa
  {
    s.(memMap := s.memMap[sl := 0], dirty := s.dirty + {f}, swap := s.swap + {f}, index := s.index[f := sl],
       hash := s.hash[HashFn(sl) := [f] + s.hash[HashFn(sl)]],
       cache := s.cache[sl := f], off := s.off + {f}, slotVa := s.slotVa[sl := s.frameVa[f]])
  }

  lemma {:induction false} CacheNewKeeps(s: State, f: nat, sl: nat)
    requires Inv(s) && 0 < sl < |s.memMap| && s.memMap[sl] == SWAP_UNUSED && HashFn(sl) < |s.hash| && f in s.frameVa
    requires f in s.ref && f !in s.swap && f !in s.held && f in s.ram
    ensures Inv(CacheNew(s, f, sl))
  {
    hide FrameInv, PteInv, RefInv, LiveInv, CountInv, CacheInv, HashInv, ListInv, ExclInv, VaInv, MemInv,
      CoherentInv, RefKeys, SlotKeys, HardwareDirty;
    UnusedSlot(s, sl);
    BusyNot(s, f);
    CountCacheAdd(s.pte, s.memMap, s.cache.Keys, BusySlot(s.busy, s.index), sl);
    assert s.cache[sl := f].Keys == s.cache.Keys + {sl};
    assert BusySlot(s.busy, s.index[f := sl]) == BusySlot(s.busy, s.index);
    PteSlot(s.pte, s.procs, s.ref, s.held, s.memMap, sl, 0);
    CacheSlot(s.cache, s.swap, s.index, s.memMap, sl, 0);
    CacheAdd(s.cache, s.swap, s.index, s.memMap[sl := 0], f, sl);
    ExclSlot(s.pte, s.swap, s.index, s.memMap, sl, 0);
    ExclCacheAdd(s.pte, s.swap, s.index, s.memMap[sl := 0], f, sl);
    LiveCacheAdd(s.ref, s.swap, s.held, s.pin, f);
    assert s.held - {f} == s.held;
    HashAdd(s.hash, s.swap, s.index, f, sl);
    ListJoin(s.active, s.inactive, s.swap, s.hot, s.off, f);
    VaCacheNew(s.pte, s.cache, s.frameVa, s.slotVa, f, sl);
    MemCacheAdd(s.mem, s.pte, s.ram, s.cache, s.disk, f, sl);
    CohCacheAdd(s.pte, s.swap, s.dirty, s.busy, s.index, s.disk, s.ram, f, sl);
  }

  lemma {:induction false} UnusedSlot(s: State, sl: nat)
    requires Core(s) && 0 < sl < |s.memMap| && s.memMap[sl] == SWAP_UNUSED
    ensures sl !in s.cache && SlotKeys(s.pte, sl) == {}
  {
    hide HashInv, ExclInv, RefInv, PteInv, MemInv, VaInv, ListInv, LiveInv;
  }

  lemma {:induction false} BusyNot(s: State, f: nat)
    requires Core(s) && f !in s.swap
    ensures s.busy != Some(f) && f !in s.off
  {
    hide CountInv, HashInv, ExclInv, RefInv, PteInv, MemInv, VaInv;
  }

  /** swap_page_add with the slot the page was just read from. */
  ghost function CacheRead(s: State, f: nat, sl: nat): State
    requires HashFn(sl) < |s.hash| && sl in s.slotVa
  {
    s.(swap := s.swap + {f}, index := s.index[f := sl],
       hash := s.hash[HashFn(sl) := [f] + s.hash[HashFn(sl)]],
       cache := s.cache[sl := f], off := s.off + {f}, held := s.held - {f}, frameVa := s.frameVa[f := s.slotVa[sl]])
  }

  lemma {:induction false} CacheReadKeeps(s: State, f: nat, sl: nat)
    requires Inv(s) && Used(s.memMap, sl) && HashFn(sl) < |s.hash| && sl in s.slotVa && sl !in s.cache
    requires f in s.held && f in s.ram && sl < |s.disk| && s.disk[sl] == s.ram[f]
    ensures Inv(CacheRead(s, f, sl))
  {
    hide FrameInv, PteInv, RefInv, LiveInv, CountInv, CacheInv, HashInv, ListInv, ExclInv, VaInv, MemInv,
      CoherentInv, RefKeys, SlotKeys, HardwareDirty;
    HeldPage(s, f);
    BusyNot(s, f);
    CountCacheAdd(s.pte, s.memMap, s.cache.Keys, BusySlot(s.busy, s.index), sl);
    assert s.cache[sl := f].Keys == s.cache.Keys + {sl};
    assert BusySlot(s.busy, s.index[f := sl]) == BusySlot(s.busy, s.index);
    PteUnhold(s.pte, s.procs, s.ref, s.held, s.memMap, f);
    CacheAdd(s.cache, s.swap, s.index, s.memMap, f, sl);
    ExclCacheAdd(s.pte, s.swap, s.index, s.memMap, f, sl);
    LiveCacheAdd(s.ref, s.swap, s.held, s.pin, f);
    HashAdd(s.hash, s.swap, s.index, f, sl);
    ListJoin(s.active, s.inactive, s.swap, s.hot, s.off, f);
    VaCacheRead(s.pte, s.cache, s.frameVa, s.slotVa, f, sl);
    MemCacheAdd(s.mem, s.pte, s.ram, s.cache, s.disk, f, sl);
    CohCacheAdd(s.pte, s.swap, s.dirty, s.busy, s.index, s.disk, s.ram, f, sl);
  }

  /** swap_duplicate, page_ref_dec, and the entry replaced by the swap entry. */
  ghost function ToSwapped(s: State, k: Key): State
    requires k in s.pte && s.pte[k].Present? && s.pte[k].frame in s.ref && s.pte[k].frame in s.index
    requires s.index[s.pte[k].frame] < |s.memMap|
  {
    var f := s.pte[k].frame;
    var sl := s.index[f];
    s.(pte := s.pte[k := Swapped(sl)], ref := s.ref[f := s.ref[f] - 1], memMap := s.memMap[sl := s.memMap[sl] + 1])
  }

  lemma {:induction false} ToSwappedKeeps(s: State, k: Key)
    requires Inv(s) && k in s.pte && s.pte[k].Present? && s.pte[k].frame in s.swap
    requires s.pte[k].frame in s.ref && s.pte[k].frame in s.index && s.index[s.pte[k].frame] < |s.memMap|
    requires s.memMap[s.index[s.pte[k].frame]] < MAX_SWAP_REF
    requires s.pte[k].d ==> s.pte[k].frame in s.dirty
    ensures Inv(ToSwapped(s, k))
  {
    hide FrameInv, PteInv, RefInv, LiveInv, CountInv, CacheInv, HashInv, ListInv, ExclInv, VaInv, MemInv,
      CoherentInv, RefKeys, SlotKeys, HardwareDirty;
    var f := s.pte[k].frame;
    MappedPage(s, k);
    CachedPage(s, f);
    WritersAlone(s, k);
    VaOfCached(s, f);
    var sl, pte' := s.index[f], s.pte[k := Swapped(s.index[f])];
    FrameMove(s.free, s.ref, s.ram, f, s.ref[f] - 1);
    PteCount(s.pte, s.procs, s.ref, s.held, s.memMap, f, s.ref[f] - 1);
    PteSetSwapped(s.pte, s.procs, s.ref[f := s.ref[f] - 1], s.held, s.memMap, k, sl);
    PteSlot(pte', s.procs, s.ref[f := s.ref[f] - 1], s.held, s.memMap, sl, s.memMap[sl] + 1);
    RefToSwapped(s.pte, s.ref, s.pin, k, sl);
    LiveDrop(s.ref, s.swap, s.held, s.pin, f);
    CountUp(s.pte, s.memMap, s.cache.Keys, BusySlot(s.busy, s.index), k, sl);
    CacheSlot(s.cache, s.swap, s.index, s.memMap, sl, s.memMap[sl] + 1);
    ExclToSwapped(s.pte, s.swap, s.index, s.memMap, k, sl);
    ExclSlot(pte', s.swap, s.index, s.memMap, sl, s.memMap[sl] + 1);
    VaSetSwapped(s.pte, s.cache, s.frameVa, s.slotVa, k, sl);
    MemToSwapped(s.mem, s.pte, s.ram, s.cache, s.disk, k, sl);
    CohPte(s.pte, pte', s.swap, s.dirty, s.busy, s.index, s.disk, s.ram, k);
  }

  /** Entry j maps the page cached for slot sl. */
  ghost predicate Caches(s: State, j: Key, sl: nat)
    requires j in s.pte
  {
    && s.pte[j].Present? && s.pte[j].frame in s.swap
    && s.pte[j].frame in s.index && s.index[s.pte[j].frame] == sl
  }

  /** Once entry k leaves its cached frame, nobody can still write the frame. */
  lemma {:induction false} WritersAlone(s: State, k: Key)
    requires Core(s) && k in s.pte && s.pte[k].Present? && s.pte[k].frame in s.swap && s.pte[k].frame in s.index
    ensures forall j :: j in s.pte && j != k && Caches(s, j, s.index[s.pte[k].frame]) ==> !s.pte[j].w
  {
    hide CountInv, HashInv, ListInv, MemInv, VaInv, RefInv, LiveInv;
    var f := s.pte[k].frame;
    forall j | j in s.pte && j != k && Caches(s, j, s.index[f])
      ensures !s.pte[j].w
    {
      assert s.cache[s.index[f]] == f && s.cache[s.index[s.pte[j].frame]] == s.pte[j].frame;
      assert k in RefKeys(s.pte, f);
    }
  }

  lemma {:induction false} VaOfCached(s: State, f: nat)
    requires Core(s) && f in s.swap
    ensures f in s.index && s.index[f] in s.slotVa && f in s.frameVa && s.frameVa[f] == s.slotVa[s.index[f]]
  {
    hide CountInv, HashInv, ListInv, MemInv, PteInv, RefInv, LiveInv, ExclInv;
  }

  /** copy_range on a swap entry: the child gets the same entry and the slot one more count. */
  ghost function CopySwapped(s: State, from: Key, to: Key): State
    requires from in s.pte && s.pte[from].Swapped? && s.pte[from].slot < |s.memMap| && from in s.mem
  {
    var sl := s.pte[from].slot;
    s.(pte := s.pte[to := Swapped(sl)], mem := s.mem[to := s.mem[from]], memMap := s.memMap[sl := s.memMap[sl] + 1])
  }

  lemma {:induction false} CopySwappedKeeps(s: State, from: Key, to: Key)
    requires Inv(s) && from in s.pte && s.pte[from].Swapped? && s.pte[from].slot < |s.memMap| && from in s.mem
    requires to !in s.pte && to.pid in s.procs && to.va == from.va && s.memMap[s.pte[from].slot] < MAX_SWAP_REF
    ensures Inv(CopySwapped(s, from, to))
  {
    hide FrameInv, PteInv, RefInv, LiveInv, CountInv, CacheInv, HashInv, ListInv, ExclInv, VaInv, MemInv,
      CoherentInv, RefKeys, SlotKeys, HardwareDirty;
    SwappedEntry(s, from);
    var sl, pte' := s.pte[from].slot, s.pte[to := Swapped(s.pte[from].slot)];
    PteSetSwapped(s.pte, s.procs, s.ref, s.held, s.memMap, to, sl);
    PteSlot(pte', s.procs, s.ref, s.held, s.memMap, sl, s.memMap[sl] + 1);
    RefSetSwapped(s.pte, s.ref, s.pin, to, sl);
    CountUp(s.pte, s.memMap, s.cache.Keys, BusySlot(s.busy, s.index), to, sl);
    CacheSlot(s.cache, s.swap, s.index, s.memMap, sl, s.memMap[sl] + 1);
    ExclSet(s.pte, s.swap, s.index, s.memMap, to, Swapped(sl));
    ExclSlot(pte', s.swap, s.index, s.memMap, sl, s.memMap[sl] + 1);
    VaSetSwapped(s.pte, s.cache, s.frameVa, s.slotVa, to, sl);
    MemCopySwapped(s.mem, s.pte, s.ram, s.cache, s.disk, to, from);
    CohPte(s.pte, pte', s.swap, s.dirty, s.busy, s.index, s.disk, s.ram, to);
  }

  /** A present entry rewritten for the same frame. */
  ghost function Rebit(s: State, k: Key, p: Pte): State {
    s.(pte := s.pte[k := p])
  }

  lemma {:induction false} RebitKeeps(s: State, k: Key, p: Pte)
    requires Core(s) && k in s.pte && s.pte[k].Present? && p.Present? && p.frame == s.pte[k].frame
    requires p.w ==>
               RefKeys(s.pte, p.frame) == {k} &&
               (p.frame in s.swap ==>
                   p.frame in s.index && s.index[p.frame] < |s.memMap| && s.memMap[s.index[p.frame]] == 0)
    ensures Core(Rebit(s, k, p))
  {
    hide FrameInv, PteInv, RefInv, LiveInv, CountInv, CacheInv, HashInv, ListInv, ExclInv, VaInv, MemInv,
      CoherentInv, RefKeys, SlotKeys, HardwareDirty;
    MappedPage(s, k);
    PteSetPresent(s.pte, s.procs, s.ref, s.held, s.memMap, k, p);
    assert s.held - {p.frame} == s.held;
    RefBits(s.pte, s.ref, s.pin, k, p);
    CountSetPresent(s.pte, s.memMap, s.cache.Keys, BusySlot(s.busy, s.index), k, p);
    ExclBits(s.pte, s.swap, s.index, s.memMap, k, p);
    VaSetPresent(s.pte, s.cache, s.frameVa, s.slotVa, k, p);
    assert s.frameVa[p.frame := k.va] == s.frameVa;
    MemBits(s.mem, s.pte, s.ram, s.cache, s.disk, k, p);
  }

  /** A store through a writable entry: contents, D and A bits change together. */
  ghost function StoreTo(s: State, k: Key, data: Data): State
    requires k in s.pte && s.pte[k].Present?
  {
    s.(ram := s.ram[s.pte[k].frame := data], mem := s.mem[k := data],
       pte := s.pte[k := s.pte[k].(d := true, a := true)])
  }

  lemma {:induction false} StoreKeeps(s: State, k: Key, data: Data)
    requires Core(s) && k in s.pte && s.pte[k].Present? && s.pte[k].w
    requires CoherentInv(s.pte, s.swap, s.dirty + {s.pte[k].frame}, s.busy, s.index, s.disk, s.ram)
    ensures Inv(StoreTo(s, k, data))
  {
    hide FrameInv, PteInv, RefInv, LiveInv, CountInv, CacheInv, HashInv, ListInv, ExclInv, VaInv, MemInv,
      CoherentInv, RefKeys, SlotKeys, HardwareDirty;
    var f := s.pte[k].frame;
    var p := s.pte[k].(d := true, a := true);
    MappedPage(s, k);
    SoleWriter(s, k);
    RebitKeeps(s, k, p);
    FrameRam(s.free, s.ref, s.ram, f, data);
    MemStore(s.mem, s.pte, s.ram, s.cache, s.disk, k, p, data);
    CohStore(s.pte, s.swap, s.dirty, s.busy, s.index, s.disk, s.ram, k, data);
  }

  lemma {:induction false} SoleWriter(s: State, k: Key)
    requires Core(s) && k in s.pte && s.pte[k].Present? && s.pte[k].w
    ensures RefKeys(s.pte, s.pte[k].frame) == {k}
    ensures s.pte[k].frame in s.swap ==>
              s.pte[k].frame in s.index && s.index[s.pte[k].frame] < |s.memMap|
                && s.memMap[s.index[s.pte[k].frame]] == 0
    ensures forall x :: x in s.cache && s.cache[x] == s.pte[k].frame ==> SlotKeys(s.pte, x) == {}
    ensures s.busy != Some(s.pte[k].frame)
  {
    hide HashInv, VaInv, MemInv, RefInv, PteInv;
  }

  /** page_launder hands a dirty page to swapfs_write. */
  ghost function LaunderBegin(s: State, f: nat): State
    requires f in s.index && s.index[f] < |s.memMap|
  {
    s.(dirty := s.dirty - {f}, memMap := s.memMap[s.index[f] := s.memMap[s.index[f]] + 1], busy := Some(f))
  }

  lemma {:induction false} LaunderBeginKeeps(s: State, f: nat)
    requires Inv(s) && s.busy == None && f in s.off && f in s.swap && f in s.index && s.index[f] < |s.memMap|
    requires 0 < s.memMap[s.index[f]] < MAX_SWAP_REF
    ensures Inv(LaunderBegin(s, f))
  {
    hide FrameInv, PteInv, RefInv, LiveInv, CountInv, CacheInv, HashInv, ListInv, ExclInv, VaInv, MemInv,
      CoherentInv, RefKeys, SlotKeys, HardwareDirty;
    CachedPage(s, f);
    var sl := s.index[f];
    PteSlot(s.pte, s.procs, s.ref, s.held, s.memMap, sl, s.memMap[sl] + 1);
    CountBegin(s.pte, s.memMap, s.cache.Keys, sl);
    CacheSlot(s.cache, s.swap, s.index, s.memMap, sl, s.memMap[sl] + 1);
    ExclSlot(s.pte, s.swap, s.index, s.memMap, sl, s.memMap[sl] + 1);
    CohBegin(s.pte, s.swap, s.dirty, s.index, s.disk, s.ram, f);
  }

  /** swapfs_write is over. */
  ghost function LaunderEnd(s: State, f: nat, ok: bool): State
    requires f in s.index && s.index[f] < |s.memMap| && s.index[f] < |s.disk| && s.memMap[s.index[f]] >= 1 && f in s.ram
  {
    s.(disk := if ok then s.disk[s.index[f] := s.ram[f]] else s.disk,
       dirty := if ok then s.dirty else s.dirty + {f},
       memMap := s.memMap[s.index[f] := s.memMap[s.index[f]] - 1], busy := None)
  }

  lemma {:induction false} BusyPage(s: State, f: nat)
    requires Core(s) && s.busy == Some(f)
    ensures f in s.swap && f in s.off && f in s.index && 1 <= s.memMap[s.index[f]] <= MAX_SWAP_REF
    ensures forall j :: j in s.pte && Caches(s, j, s.index[f]) ==> !s.pte[j].w
  {
    hide HashInv, VaInv, MemInv, RefInv, PteInv;
  }

  lemma {:induction false} LaunderEndKeeps(s: State, f: nat, ok: bool)
    requires Inv(s) && s.busy == Some(f)
    requires f in s.index && s.index[f] < |s.memMap| && s.index[f] < |s.disk| && s.memMap[s.index[f]] >= 1 && f in s.ram
    ensures Inv(LaunderEnd(s, f, ok))
  {
    hide FrameInv, PteInv, RefInv, LiveInv, CountInv, CacheInv, HashInv, ListInv, ExclInv, VaInv, MemInv,
      CoherentInv, RefKeys, SlotKeys, HardwareDirty;
    BusyPage(s, f);
    CachedPage(s, f);
    var sl := s.index[f];
    PteSlot(s.pte, s.procs, s.ref, s.held, s.memMap, sl, s.memMap[sl] - 1);
    CountEnd(s.pte, s.memMap, s.cache.Keys, sl);
    CacheSlot(s.cache, s.swap, s.index, s.memMap, sl, s.memMap[sl] - 1);
    ExclSlot(s.pte, s.swap, s.index, s.memMap, sl, s.memMap[sl] - 1);
    MemWriteOut(s.mem, s.pte, s.ram, s.cache, s.disk, sl, s.ram[f]);
    CohEnd(s.pte, s.cache, s.swap, s.dirty, s.memMap, s.index, s.disk, s.ram, f);
  }
}
