/** How each clause of the paging invariant survives the elementary changes.  Every lemma here
    speaks only of the fields its clause reads. */
module PagingClauses {
  import opened Common
  import opened PagingState

  /** Adding an entry adds one reference and leaves every other count alone. */
  lemma {:induction false} KeysAfterSet(pte: PageTable, k: Key, p: Pte)
    requires k !in pte
    ensures forall f :: RefKeys(pte[k := p], f) ==
                        RefKeys(pte, f) + (if p.Present? && p.frame == f then {k} else {})
    ensures forall sl :: SlotKeys(pte[k := p], sl) ==
                         SlotKeys(pte, sl) + (if p.Swapped? && p.slot == sl then {k} else {})
    ensures forall f :: k !in RefKeys(pte, f)
    ensures forall sl :: k !in SlotKeys(pte, sl)
  {
  }

  /** Clearing an entry removes one reference and leaves every other count alone. */
  lemma {:induction false} KeysAfterDel(pte: PageTable, k: Key)
    requires k in pte
    ensures forall f :: RefKeys(pte - {k}, f) == RefKeys(pte, f) - {k}
    ensures forall sl :: SlotKeys(pte - {k}, sl) == SlotKeys(pte, sl) - {k}
    ensures forall f :: k in RefKeys(pte, f) <==> pte[k].Present? && pte[k].frame == f
    ensures forall sl :: k in SlotKeys(pte, sl) <==> pte[k].Swapped? && pte[k].slot == sl
  {
  }

  /** Replacing a present entry by a swap entry. */
  lemma {:induction false} KeysAfterSwapOut(pte: PageTable, k: Key, sl: nat)
    requires k in pte && pte[k].Present?
    ensures forall f :: RefKeys(pte[k := Swapped(sl)], f) == RefKeys(pte, f) - {k}
    ensures forall x :: SlotKeys(pte[k := Swapped(sl)], x) == SlotKeys(pte, x) + (if x == sl then {k} else {})
    ensures forall f :: k in RefKeys(pte, f) <==> pte[k].frame == f
    ensures forall x :: k !in SlotKeys(pte, x)
  {
  }

  /** Changing only the bits of a present entry. */
  lemma {:induction false} KeysAfterBits(pte: PageTable, k: Key, p: Pte)
    requires k in pte && pte[k].Present? && p.Present? && p.frame == pte[k].frame
    ensures forall f :: RefKeys(pte[k := p], f) == RefKeys(pte, f)
    ensures forall x :: SlotKeys(pte[k := p], x) == SlotKeys(pte, x)
  {
  }

  /** The references of a page, seen as entries. */
  lemma {:induction false} RefKeysAre(pte: PageTable, f: nat)
    ensures forall k :: k in RefKeys(pte, f) <==> k in pte && pte[k].Present? && pte[k].frame == f
  {
  }

  // ---- entries: PteInv ----

  lemma {:induction false} PteUnmapped(pte: PageTable, procs: set<nat>, ref: map<nat, int>, held: set<nat>,
      memMap: seq<nat>, f: nat)
    requires PteInv(pte, procs, ref, held, memMap) && (f !in ref || f in held)
    ensures RefKeys(pte, f) == {}
  {
  }

  lemma {:induction false} PteAlloc(pte: PageTable, procs: set<nat>, ref: map<nat, int>, held: set<nat>,
      memMap: seq<nat>, f: nat)
    requires PteInv(pte, procs, ref, held, memMap) && f !in ref
    ensures PteInv(pte, procs, ref[f := 0], held + {f}, memMap)
  {
  }

  lemma {:induction false} PteRelease(pte: PageTable, procs: set<nat>, ref: map<nat, int>, held: set<nat>,
      memMap: seq<nat>, f: nat)
    requires PteInv(pte, procs, ref, held, memMap) && f in held
    ensures PteInv(pte, procs, ref - {f}, held - {f}, memMap)
  {
  }

  lemma {:induction false} PteHold(pte: PageTable, procs: set<nat>, ref: map<nat, int>, held: set<nat>,
      memMap: seq<nat>, f: nat)
    requires PteInv(pte, procs, ref, held, memMap) && RefKeys(pte, f) == {}
    ensures PteInv(pte, procs, ref, held + {f}, memMap)
  {
    RefKeysAre(pte, f);
  }

  lemma {:induction false} PteUnhold(pte: PageTable, procs: set<nat>, ref: map<nat, int>, held: set<nat>,
      memMap: seq<nat>, f: nat)
    requires PteInv(pte, procs, ref, held, memMap)
    ensures PteInv(pte, procs, ref, held - {f}, memMap)
  {
  }

  lemma {:induction false} PteCount(pte: PageTable, procs: set<nat>, ref: map<nat, int>, held: set<nat>,
      memMap: seq<nat>, f: nat, n: int)
    requires PteInv(pte, procs, ref, held, memMap)
    ensures PteInv(pte, procs, ref[f := n], held, memMap)
  {
  }

  lemma {:induction false} PteSetPresent(pte: PageTable, procs: set<nat>, ref: map<nat, int>, held: set<nat>,
      memMap: seq<nat>, k: Key, p: Pte)
    requires PteInv(pte, procs, ref, held, memMap)
    requires k.pid in procs && p.Present? && p.frame in ref
    ensures PteInv(pte[k := p], procs, ref, held - {p.frame}, memMap)
  {
  }

  lemma {:induction false} PteSetSwapped(pte: PageTable, procs: set<nat>, ref: map<nat, int>, held: set<nat>,
      memMap: seq<nat>, k: Key, sl: nat)
    requires PteInv(pte, procs, ref, held, memMap) && k.pid in procs && Used(memMap, sl)
    ensures PteInv(pte[k := Swapped(sl)], procs, ref, held, memMap)
  {
  }

  lemma {:induction false} PteDel(pte: PageTable, procs: set<nat>, ref: map<nat, int>, held: set<nat>,
      memMap: seq<nat>, k: Key)
    requires PteInv(pte, procs, ref, held, memMap)
    ensures PteInv(pte - {k}, procs, ref, held, memMap)
  {
  }

  lemma {:induction false} PteSlot(pte: PageTable, procs: set<nat>, ref: map<nat, int>, held: set<nat>,
      memMap: seq<nat>, sl: nat, n: nat)
    requires PteInv(pte, procs, ref, held, memMap) && 0 < sl < |memMap|
    requires n != SWAP_UNUSED || SlotKeys(pte, sl) == {}
    ensures PteInv(pte, procs, ref, held, memMap[sl := n])
  {
    forall k | k in pte && pte[k].Swapped? && pte[k].slot == sl
      ensures n != SWAP_UNUSED
    {
      assert k in SlotKeys(pte, sl);
    }
  }

  // ---- counts of frames: RefInv, LiveInv ----

  lemma {:induction false} RefSet(pte: PageTable, ref: map<nat, int>, k: Key, p: Pte)
    requires RefInv(pte, ref, if p.Present? then Some(p.frame) else None) && k !in pte
    ensures RefInv(pte[k := p], ref, None)
  {
    hide RefKeys, SlotKeys;
    KeysAfterSet(pte, k, p);
  }

  lemma {:induction false} RefSetSwapped(pte: PageTable, ref: map<nat, int>, pin: Option<nat>, k: Key, sl: nat)
    requires RefInv(pte, ref, pin) && k !in pte
    ensures RefInv(pte[k := Swapped(sl)], ref, pin)
  {
    hide RefKeys, SlotKeys;
    KeysAfterSet(pte, k, Swapped(sl));
  }

  lemma {:induction false} RefDelSwapped(pte: PageTable, ref: map<nat, int>, pin: Option<nat>, k: Key)
    requires RefInv(pte, ref, pin) && k in pte && pte[k].Swapped?
    ensures RefInv(pte - {k}, ref, pin)
  {
    hide RefKeys, SlotKeys;
    KeysAfterDel(pte, k);
  }

  lemma {:induction false} RefDelPresent(pte: PageTable, ref: map<nat, int>, pin: Option<nat>, k: Key)
    requires RefInv(pte, ref, pin) && k in pte && pte[k].Present? && pte[k].frame in ref
    ensures RefInv(pte - {k}, ref[pte[k].frame := ref[pte[k].frame] - 1], pin)
    ensures ref[pte[k].frame] >= 1
    ensures ref[pte[k].frame] == 1 ==> RefKeys(pte - {k}, pte[k].frame) == {}
  {
    hide RefKeys, SlotKeys;
    KeysAfterDel(pte, k);
  }

  lemma {:induction false} RefToSwapped(pte: PageTable, ref: map<nat, int>, pin: Option<nat>, k: Key, sl: nat)
    requires RefInv(pte, ref, pin) && k in pte && pte[k].Present? && pte[k].frame in ref
    ensures RefInv(pte[k := Swapped(sl)], ref[pte[k].frame := ref[pte[k].frame] - 1], pin)
    ensures ref[pte[k].frame] >= 1
  {
    hide RefKeys, SlotKeys;
    KeysAfterSwapOut(pte, k, sl);
  }

  lemma {:induction false} RefBits(pte: PageTable, ref: map<nat, int>, pin: Option<nat>, k: Key, p: Pte)
    requires RefInv(pte, ref, pin) && k in pte && pte[k].Present? && p.Present? && p.frame == pte[k].frame
    ensures RefInv(pte[k := p], ref, pin)
  {
    hide RefKeys, SlotKeys;
    KeysAfterBits(pte, k, p);
  }

  lemma {:induction false} LiveAlloc(ref: map<nat, int>, swap: set<nat>, held: set<nat>, pin: Option<nat>, f: nat)
    requires LiveInv(ref, swap, held, pin) && f !in ref
    ensures LiveInv(ref[f := 0], swap, held + {f}, pin)
  {
  }

  lemma {:induction false} LiveRelease(ref: map<nat, int>, swap: set<nat>, held: set<nat>, pin: Option<nat>, f: nat)
    requires LiveInv(ref, swap, held, pin) && f in held && pin != Some(f)
    ensures LiveInv(ref - {f}, swap, held - {f}, pin)
  {
  }

  lemma {:induction false} LivePin(ref: map<nat, int>, swap: set<nat>, held: set<nat>, f: nat)
    requires LiveInv(ref, swap, held, None) && f in ref && ref[f] >= 0
    ensures LiveInv(ref[f := ref[f] + 1], swap, held, Some(f))
  {
  }

  lemma {:induction false} LiveUnpin(ref: map<nat, int>, swap: set<nat>, held: set<nat>, f: nat, g: set<nat>)
    requires LiveInv(ref, swap, held, Some(f)) && ref[f] >= 1 && (g == {} || g == {f})
    ensures LiveInv(ref, swap, held - g, None)
  {
  }

  lemma {:induction false} LiveDrop(ref: map<nat, int>, swap: set<nat>, held: set<nat>, pin: Option<nat>, f: nat)
    requires LiveInv(ref, swap, held, pin) && f in ref && f !in held
    ensures LiveInv(ref[f := ref[f] - 1], swap, if f !in swap && ref[f] == 1 then held + {f} else held, pin)
  {
  }

  lemma {:induction false} LiveCacheAdd(ref: map<nat, int>, swap: set<nat>, held: set<nat>, pin: Option<nat>, f: nat)
    requires LiveInv(ref, swap, held, pin) && f in ref
    ensures LiveInv(ref, swap + {f}, held - {f}, pin)
  {
  }

  lemma {:induction false} LiveUncache(ref: map<nat, int>, swap: set<nat>, held: set<nat>, pin: Option<nat>, f: nat)
    requires LiveInv(ref, swap, held, pin) && f in swap
    ensures LiveInv(ref, swap - {f}, if ref[f] == 0 then held + {f} else held, pin)
  {
  }

  lemma {:induction false} RefPin(pte: PageTable, ref: map<nat, int>, f: nat)
    requires RefInv(pte, ref, None) && f in ref
    ensures ref[f] >= 0 && RefInv(pte, ref[f := ref[f] + 1], Some(f))
  {
  }

  lemma {:induction false} RefUnpin(pte: PageTable, ref: map<nat, int>, f: nat)
    requires RefInv(pte, ref, Some(f)) && f in ref
    ensures ref[f] >= 1 && RefInv(pte, ref[f := ref[f] - 1], None)
  {
  }

  lemma {:induction false} RefAlloc(pte: PageTable, ref: map<nat, int>, pin: Option<nat>, f: nat)
    requires RefInv(pte, ref, pin) && RefKeys(pte, f) == {} && pin != Some(f)
    ensures RefInv(pte, ref[f := 0], pin)
  {
  }

  lemma {:induction false} RefRelease(pte: PageTable, ref: map<nat, int>, pin: Option<nat>, f: nat)
    requires RefInv(pte, ref, pin)
    ensures RefInv(pte, ref - {f}, pin)
  {
  }

  lemma {:induction false} FrameMove(free: set<nat>, ref: map<nat, int>, ram: map<nat, Data>, f: nat, n: int)
    requires FrameInv(free, ref, ram)
    ensures f in free ==> FrameInv(free - {f}, ref[f := n], ram)
    ensures f in ref ==> FrameInv(free + {f}, ref - {f}, ram) && FrameInv(free, ref[f := n], ram)
  {
  }

  lemma {:induction false} FrameRam(free: set<nat>, ref: map<nat, int>, ram: map<nat, Data>, f: nat, data: Data)
    requires FrameInv(free, ref, ram) && f in ram
    ensures FrameInv(free, ref, ram[f := data])
  {
  }

  // ---- counts of slots: CountInv ----

  /** A slot leaves the cache: it becomes unused when no entry names it. */
  lemma {:induction false} CountUncache(pte: PageTable, memMap: seq<nat>, slots: set<nat>, writing: Option<nat>,
      sl: nat)
    requires CountInv(pte, memMap, slots, writing) && writing != Some(sl) && Used(memMap, sl)
    ensures memMap[sl] == 0 ==>
              SlotKeys(pte, sl) == {} && CountInv(pte, memMap[sl := SWAP_UNUSED], slots - {sl}, writing)
    ensures memMap[sl] > 0 ==> CountInv(pte, memMap, slots - {sl}, writing)
  {
  }

  lemma {:induction false} CountCacheAdd(pte: PageTable, memMap: seq<nat>, slots: set<nat>, writing: Option<nat>,
      sl: nat)
    requires CountInv(pte, memMap, slots, writing) && 0 < sl < |memMap|
    ensures memMap[sl] == SWAP_UNUSED ==>
              SlotKeys(pte, sl) == {} && CountInv(pte, memMap[sl := 0], slots + {sl}, writing)
    ensures memMap[sl] != SWAP_UNUSED ==> CountInv(pte, memMap, slots + {sl}, writing)
  {
  }

  lemma {:induction false} CountBegin(pte: PageTable, memMap: seq<nat>, slots: set<nat>, sl: nat)
    requires CountInv(pte, memMap, slots, None) && Used(memMap, sl) && memMap[sl] < MAX_SWAP_REF && sl in slots
    ensures CountInv(pte, memMap[sl := memMap[sl] + 1], slots, Some(sl))
  {
  }

  lemma {:induction false} CountEnd(pte: PageTable, memMap: seq<nat>, slots: set<nat>, sl: nat)
    requires CountInv(pte, memMap, slots, Some(sl)) && Used(memMap, sl)
    ensures memMap[sl] >= 1 && CountInv(pte, memMap[sl := memMap[sl] - 1], slots, None)
  {
  }

  lemma {:induction false} CountSetPresent(pte: PageTable, memMap: seq<nat>, slots: set<nat>, writing: Option<nat>,
      k: Key, p: Pte)
    requires CountInv(pte, memMap, slots, writing) && p.Present?
             && (k in pte ==> pte[k].Present? && p.frame == pte[k].frame)
    ensures CountInv(pte[k := p], memMap, slots, writing)
  {
    hide RefKeys, SlotKeys;
    if k in pte { KeysAfterBits(pte, k, p); } else { KeysAfterSet(pte, k, p); }
  }

  lemma {:induction false} CountDelPresent(pte: PageTable, memMap: seq<nat>, slots: set<nat>, writing: Option<nat>,
      k: Key)
    requires CountInv(pte, memMap, slots, writing) && k in pte && pte[k].Present?
    ensures CountInv(pte - {k}, memMap, slots, writing)
  {
    hide RefKeys, SlotKeys;
    KeysAfterDel(pte, k);
  }

  /** swap_duplicate together with one more swap entry. */
  lemma {:induction false} CountUp(pte: PageTable, memMap: seq<nat>, slots: set<nat>, writing: Option<nat>, k: Key,
      sl: nat)
    requires CountInv(pte, memMap, slots, writing) && (k in pte ==> pte[k].Present?)
    requires Used(memMap, sl) && memMap[sl] < MAX_SWAP_REF
    ensures CountInv(pte[k := Swapped(sl)], memMap[sl := memMap[sl] + 1], slots, writing)
  {
    hide RefKeys, SlotKeys;
    if k in pte { KeysAfterSwapOut(pte, k, sl); } else { KeysAfterSet(pte, k, Swapped(sl)); }
  }

  /** One swap entry less; the slot becomes unused when nothing else refers to it. */
  lemma {:induction false} CountDown(pte: PageTable, memMap: seq<nat>, slots: set<nat>, writing: Option<nat>, k: Key)
    requires CountInv(pte, memMap, slots, writing) && k in pte && pte[k].Swapped? && Used(memMap, pte[k].slot)
    ensures memMap[pte[k].slot] >= 1
    ensures memMap[pte[k].slot] > 1 || pte[k].slot in slots ==>
              CountInv(pte - {k}, memMap[pte[k].slot := memMap[pte[k].slot] - 1], slots, writing)
    ensures memMap[pte[k].slot] == 1 ==> SlotKeys(pte - {k}, pte[k].slot) == {}
    ensures memMap[pte[k].slot] == 1 && pte[k].slot !in slots ==>
              CountInv(pte - {k}, memMap[pte[k].slot := SWAP_UNUSED], slots, writing)
  {
    hide RefKeys, SlotKeys;
    KeysAfterDel(pte, k);
    assert |SlotKeys(pte, pte[k].slot) - {k}| == |SlotKeys(pte, pte[k].slot)| - 1;
  }

  // ---- the swap cache: CacheInv, HashInv, ListInv ----

  lemma {:induction false} CacheSlot(cache: map<nat, nat>, swap: set<nat>, index: map<nat, nat>, memMap: seq<nat>,
      sl: nat, n: nat)
    requires CacheInv(cache, swap, index, memMap) && 0 < sl < |memMap|
    requires n != SWAP_UNUSED || sl !in cache
    ensures CacheInv(cache, swap, index, memMap[sl := n])
  {
  }

  lemma {:induction false} CacheAdd(cache: map<nat, nat>, swap: set<nat>, index: map<nat, nat>, memMap: seq<nat>,
      f: nat, sl: nat)
    requires CacheInv(cache, swap, index, memMap) && f !in swap && sl !in cache && Used(memMap, sl)
    ensures CacheInv(cache[sl := f], swap + {f}, index[f := sl], memMap)
  {
  }

  lemma {:induction false} CacheDel(cache: map<nat, nat>, swap: set<nat>, index: map<nat, nat>, memMap: seq<nat>,
      f: nat)
    requires CacheInv(cache, swap, index, memMap) && f in swap
    ensures f in index && index[f] in cache && cache[index[f]] == f && Used(memMap, index[f])
    ensures CacheInv(cache - {index[f]}, swap - {f}, index, memMap)
  {
  }

  lemma {:induction false} HashAdd(hash: seq<seq<nat>>, swap: set<nat>, index: map<nat, nat>, f: nat, sl: nat)
    requires HashInv(hash, swap, index) && f !in swap
    ensures HashInv(hash[HashFn(sl) := [f] + hash[HashFn(sl)]], swap + {f}, index[f := sl])
  {
    var b := HashFn(sl);
    var l := [f] + hash[b];
    assert f !in hash[b];
    assert NoDup(l);
    assert forall g :: g in l <==> g == f || g in hash[b];
  }

  lemma {:induction false} HashDel(hash: seq<seq<nat>>, swap: set<nat>, index: map<nat, nat>, f: nat)
    requires HashInv(hash, swap, index) && f in swap
    ensures f in index
    ensures HashInv(hash[HashFn(index[f]) := Without(hash[HashFn(index[f])], f)], swap - {f}, index)
  {
    WithoutNoDup(hash[HashFn(index[f])], f);
  }

  lemma {:induction false} ListAppend(active: seq<nat>, inactive: seq<nat>, swap: set<nat>, hot: set<nat>,
      off: set<nat>, f: nat)
    requires ListInv(active, inactive, swap, hot, off) && f in off
    ensures ListInv(active + [f], inactive, swap, hot + {f}, off - {f})
    ensures ListInv(active, inactive + [f], swap, hot - {f}, off - {f})
  {
    assert f !in active && f !in inactive;
    assert NoDup(active + [f]) && NoDup(inactive + [f]);
    assert forall g :: g in active + [f] <==> g in active || g == f;
    assert forall g :: g in inactive + [f] <==> g in inactive || g == f;
  }

  lemma {:induction false} ListTake(active: seq<nat>, inactive: seq<nat>, swap: set<nat>, hot: set<nat>,
      off: set<nat>, f: nat)
    requires ListInv(active, inactive, swap, hot, off) && f in swap && f !in off
    ensures ListInv(if f in hot then Without(active, f) else active,
                    if f in hot then inactive else Without(inactive, f), swap, hot, off + {f})
  {
    WithoutNoDup(active, f);
    WithoutNoDup(inactive, f);
  }

  /** A page forgets PG_active while it is not cached. */
  lemma {:induction false} ListCold(active: seq<nat>, inactive: seq<nat>, swap: set<nat>, hot: set<nat>,
      off: set<nat>, f: nat)
    requires ListInv(active, inactive, swap, hot, off) && f !in swap
    ensures ListInv(active, inactive, swap, hot - {f}, off)
  {
  }

  lemma {:induction false} ListJoin(active: seq<nat>, inactive: seq<nat>, swap: set<nat>, hot: set<nat>,
      off: set<nat>, f: nat)
    requires ListInv(active, inactive, swap, hot, off) && f !in swap
    ensures ListInv(active, inactive, swap + {f}, hot, off + {f})
  {
  }

  lemma {:induction false} ListForget(active: seq<nat>, inactive: seq<nat>, swap: set<nat>, hot: set<nat>,
      off: set<nat>, f: nat)
    requires ListInv(active, inactive, swap, hot, off) && f in off
    ensures ListInv(active, inactive, swap - {f}, hot, off - {f})
  {
  }

  // ---- ExclInv ----

  lemma {:induction false} ExclUncache(pte: PageTable, swap: set<nat>, cache: map<nat, nat>, index: map<nat, nat>,
      memMap: seq<nat>, f: nat, memMap': seq<nat>)
    requires ExclInv(pte, swap, index, memMap) && CacheInv(cache, swap, index, memMap) && f in swap
             && index[f] < |memMap|
    requires memMap' == memMap
             || (|memMap'| == |memMap| && forall i :: 0 <= i < |memMap| && i != index[f] ==> memMap'[i] == memMap[i])
    ensures ExclInv(pte, swap - {f}, index, memMap')
  {
    forall g | g in swap && g != f ensures g in index && index[g] != index[f] {
      assert cache[index[g]] == g && cache[index[f]] == f;
    }
  }

  lemma {:induction false} ExclSlot(pte: PageTable, swap: set<nat>, index: map<nat, nat>, memMap: seq<nat>, sl: nat,
      n: nat)
    requires ExclInv(pte, swap, index, memMap) && sl < |memMap|
    requires memMap[sl] != 0 || n == 0
             || forall k :: (k in pte && pte[k].Present? && pte[k].frame in swap && pte[k].frame in index
                             && index[pte[k].frame] == sl) ==> !pte[k].w
    ensures ExclInv(pte, swap, index, memMap[sl := n])
  {
  }

  lemma {:induction false} ExclSet(pte: PageTable, swap: set<nat>, index: map<nat, nat>, memMap: seq<nat>, k: Key,
      p: Pte)
    requires ExclInv(pte, swap, index, memMap) && k !in pte
    requires p.Present? ==>
               if p.w then
                 RefKeys(pte, p.frame) == {} &&
                 (p.frame in swap ==> p.frame in index && index[p.frame] < |memMap| && memMap[index[p.frame]] == 0)
               else forall j :: j in RefKeys(pte, p.frame) ==> !pte[j].w
    ensures ExclInv(pte[k := p], swap, index, memMap)
  {
    KeysAfterSet(pte, k, p);
    forall j | j in pte && pte[j].Present? && pte[j].w
      ensures !(p.Present? && p.frame == pte[j].frame)
    {
      assert j in RefKeys(pte, pte[j].frame);
    }
  }

  lemma {:induction false} ExclDel(pte: PageTable, swap: set<nat>, index: map<nat, nat>, memMap: seq<nat>, k: Key)
    requires ExclInv(pte, swap, index, memMap) && k in pte
    ensures ExclInv(pte - {k}, swap, index, memMap)
  {
    KeysAfterDel(pte, k);
  }

  lemma {:induction false} ExclBits(pte: PageTable, swap: set<nat>, index: map<nat, nat>, memMap: seq<nat>, k: Key,
      p: Pte)
    requires ExclInv(pte, swap, index, memMap) && k in pte && pte[k].Present?
    requires p.Present? && p.frame == pte[k].frame
    requires p.w ==>
               RefKeys(pte, p.frame) == {k} &&
               (p.frame in swap ==> p.frame in index && index[p.frame] < |memMap| && memMap[index[p.frame]] == 0)
    ensures ExclInv(pte[k := p], swap, index, memMap)
  {
    KeysAfterBits(pte, k, p);
  }

  lemma {:induction false} ExclToSwapped(pte: PageTable, swap: set<nat>, index: map<nat, nat>, memMap: seq<nat>,
      k: Key, sl: nat)
    requires ExclInv(pte, swap, index, memMap) && k in pte && pte[k].Present?
    ensures ExclInv(pte[k := Swapped(sl)], swap, index, memMap)
  {
    KeysAfterSwapOut(pte, k, sl);
  }

  lemma {:induction false} ExclCacheAdd(pte: PageTable, swap: set<nat>, index: map<nat, nat>, memMap: seq<nat>,
      f: nat, sl: nat)
    requires ExclInv(pte, swap, index, memMap) && f !in swap && sl < |memMap|
    requires memMap[sl] == 0 || RefKeys(pte, f) == {}
    ensures ExclInv(pte, swap + {f}, index[f := sl], memMap)
  {
    RefKeysAre(pte, f);
  }

  // ---- VaInv ----

  lemma {:induction false} VaSetPresent(pte: PageTable, cache: map<nat, nat>, frameVa: map<nat, nat>,
      slotVa: map<nat, nat>, k: Key, p: Pte)
    requires VaInv(pte, cache, frameVa, slotVa) && p.Present?
    requires (RefKeys(pte, p.frame) == {} && p.frame !in cache.Values)
             || (p.frame in frameVa && frameVa[p.frame] == k.va)
    ensures VaInv(pte[k := p], cache, frameVa[p.frame := k.va], slotVa)
  {
    RefKeysAre(pte, p.frame);
    assert forall sl :: sl in cache ==> cache[sl] in cache.Values;
  }

  lemma {:induction false} VaSetSwapped(pte: PageTable, cache: map<nat, nat>, frameVa: map<nat, nat>,
      slotVa: map<nat, nat>, k: Key, sl: nat)
    requires VaInv(pte, cache, frameVa, slotVa) && sl in slotVa && slotVa[sl] == k.va
    ensures VaInv(pte[k := Swapped(sl)], cache, frameVa, slotVa)
  {
  }

  lemma {:induction false} VaDel(pte: PageTable, cache: map<nat, nat>, frameVa: map<nat, nat>, slotVa: map<nat, nat>,
      k: Key)
    requires VaInv(pte, cache, frameVa, slotVa)
    ensures VaInv(pte - {k}, cache, frameVa, slotVa)
  {
  }

  /** A slot taken for the first time inherits the page number of its page. */
  lemma {:induction false} VaCacheNew(pte: PageTable, cache: map<nat, nat>, frameVa: map<nat, nat>,
      slotVa: map<nat, nat>, f: nat, sl: nat)
    requires VaInv(pte, cache, frameVa, slotVa) && SlotKeys(pte, sl) == {} && sl !in cache && f in frameVa
    ensures VaInv(pte, cache[sl := f], frameVa, slotVa[sl := frameVa[f]])
  {
    forall k | k in pte && pte[k].Swapped? ensures pte[k].slot != sl {
      assert k in SlotKeys(pte, pte[k].slot);
    }
  }

  /** A page read back from a slot takes the page number of the slot. */
  lemma {:induction false} VaCacheRead(pte: PageTable, cache: map<nat, nat>, frameVa: map<nat, nat>,
      slotVa: map<nat, nat>, f: nat, sl: nat)
    requires VaInv(pte, cache, frameVa, slotVa) && RefKeys(pte, f) == {} && sl !in cache && sl in slotVa
    requires forall x :: x in cache ==> cache[x] != f
    ensures VaInv(pte, cache[sl := f], frameVa[f := slotVa[sl]], slotVa)
  {
    RefKeysAre(pte, f);
  }

  lemma {:induction false} VaUncache(pte: PageTable, cache: map<nat, nat>, frameVa: map<nat, nat>,
      slotVa: map<nat, nat>, sl: nat)
    requires VaInv(pte, cache, frameVa, slotVa)
    ensures VaInv(pte, cache - {sl}, frameVa, slotVa)
  {
  }

  /** No slot and no frame is referred to more often than there are processes. */
  lemma {:induction false} SlotKeysBound(pte: PageTable, procs: set<nat>, ref: map<nat, int>, held: set<nat>,
      memMap: seq<nat>,
                      cache: map<nat, nat>, frameVa: map<nat, nat>, slotVa: map<nat, nat>, sl: nat)
    requires PteInv(pte, procs, ref, held, memMap) && VaInv(pte, cache, frameVa, slotVa)
    ensures |SlotKeys(pte, sl)| <= |procs|
  {
    var ks := SlotKeys(pte, sl);
    if ks != {} {
      PidBound(ks, procs, slotVa[sl]);
    }
  }

  lemma {:induction false} PidBound(ks: set<Key>, procs: set<nat>, va: nat)
    requires forall k :: k in ks ==> k.pid in procs && k.va == va
    ensures |ks| <= |procs|
    decreases |ks|
  {
    if ks != {} {
      var k :| k in ks;
      forall j | j in ks - {k} ensures j.pid in procs - {k.pid} && j.va == va {
        assert j == Key(j.pid, va) && k == Key(k.pid, va);
      }
      PidBound(ks - {k}, procs - {k.pid}, va);
    }
  }

  // ---- MemInv ----

  lemma {:induction false} MemSetPresent(mem: map<Key, Data>, pte: PageTable, ram: map<nat, Data>,
      cache: map<nat, nat>, disk: seq<Data>, k: Key, p: Pte)
    requires MemInv(mem, pte, ram, cache, disk) && p.Present? && p.frame in ram
    ensures MemInv(mem[k := ram[p.frame]], pte[k := p], ram, cache, disk)
  {
  }

  lemma {:induction false} MemDel(mem: map<Key, Data>, pte: PageTable, ram: map<nat, Data>, cache: map<nat, nat>,
      disk: seq<Data>, k: Key)
    requires MemInv(mem, pte, ram, cache, disk)
    ensures MemInv(mem - {k}, pte - {k}, ram, cache, disk)
  {
  }

  lemma {:induction false} MemToSwapped(mem: map<Key, Data>, pte: PageTable, ram: map<nat, Data>,
      cache: map<nat, nat>, disk: seq<Data>, k: Key, sl: nat)
    requires MemInv(mem, pte, ram, cache, disk) && k in pte && pte[k].Present? && sl in cache
             && cache[sl] == pte[k].frame
    ensures MemInv(mem, pte[k := Swapped(sl)], ram, cache, disk)
  {
  }

  lemma {:induction false} MemCopySwapped(mem: map<Key, Data>, pte: PageTable, ram: map<nat, Data>,
      cache: map<nat, nat>, disk: seq<Data>, k: Key, j: Key)
    requires MemInv(mem, pte, ram, cache, disk) && j in pte && pte[j].Swapped?
    ensures MemInv(mem[k := mem[j]], pte[k := pte[j]], ram, cache, disk)
  {
  }

  /** A page outside the page table and the cache may hold anything. */
  lemma {:induction false} MemFill(mem: map<Key, Data>, pte: PageTable, ram: map<nat, Data>, cache: map<nat, nat>,
      disk: seq<Data>, f: nat, data: Data)
    requires MemInv(mem, pte, ram, cache, disk) && RefKeys(pte, f) == {} && forall x :: x in cache ==> cache[x] != f
    ensures MemInv(mem, pte, ram[f := data], cache, disk)
  {
    RefKeysAre(pte, f);
  }

  /** A store through the only entry of a frame is seen by its process alone. */
  lemma {:induction false} MemStore(mem: map<Key, Data>, pte: PageTable, ram: map<nat, Data>, cache: map<nat, nat>,
      disk: seq<Data>, k: Key, p: Pte, data: Data)
    requires MemInv(mem, pte, ram, cache, disk) && k in pte && pte[k].Present? && p.Present? && p.frame == pte[k].frame
    requires RefKeys(pte, p.frame) == {k}
    requires forall x :: x in cache && cache[x] == p.frame ==> SlotKeys(pte, x) == {}
    ensures MemInv(mem[k := data], pte[k := p], ram[p.frame := data], cache, disk)
  {
    RefKeysAre(pte, p.frame);
    forall j | j in pte && pte[j].Swapped? && pte[j].slot in cache ensures cache[pte[j].slot] != p.frame {
      assert j in SlotKeys(pte, pte[j].slot);
    }
  }

  lemma {:induction false} MemBits(mem: map<Key, Data>, pte: PageTable, ram: map<nat, Data>, cache: map<nat, nat>,
      disk: seq<Data>, k: Key, p: Pte)
    requires MemInv(mem, pte, ram, cache, disk) && k in pte && pte[k].Present? && p.Present? && p.frame == pte[k].frame
    ensures MemInv(mem, pte[k := p], ram, cache, disk)
  {
  }

  lemma {:induction false} MemCacheAdd(mem: map<Key, Data>, pte: PageTable, ram: map<nat, Data>,
      cache: map<nat, nat>, disk: seq<Data>, f: nat, sl: nat)
    requires MemInv(mem, pte, ram, cache, disk) && sl !in cache && f in ram
    requires SlotKeys(pte, sl) == {} || (sl < |disk| && disk[sl] == ram[f])
    ensures MemInv(mem, pte, ram, cache[sl := f], disk)
  {
    forall k | k in pte && pte[k].Swapped? && pte[k].slot == sl ensures SlotKeys(pte, sl) != {} {
      assert k in SlotKeys(pte, sl);
    }
  }

  lemma {:induction false} MemUncache(mem: map<Key, Data>, pte: PageTable, ram: map<nat, Data>, cache: map<nat, nat>,
      disk: seq<Data>, sl: nat)
    requires MemInv(mem, pte, ram, cache, disk) && sl in cache
    requires SlotKeys(pte, sl) == {} || (sl < |disk| && cache[sl] in ram && disk[sl] == ram[cache[sl]])
    ensures MemInv(mem, pte, ram, cache - {sl}, disk)
  {
    forall k | k in pte && pte[k].Swapped? && pte[k].slot == sl ensures SlotKeys(pte, sl) != {} {
      assert k in SlotKeys(pte, sl);
    }
  }

  lemma {:induction false} MemWriteOut(mem: map<Key, Data>, pte: PageTable, ram: map<nat, Data>,
      cache: map<nat, nat>, disk: seq<Data>, sl: nat, data: Data)
    requires MemInv(mem, pte, ram, cache, disk) && sl in cache && sl < |disk|
    ensures MemInv(mem, pte, ram, cache, disk[sl := data])
  {
  }

  // ---- CoherentInv ----

  lemma {:induction false} CohPte(pte: PageTable, pte': PageTable, swap: set<nat>, dirty: set<nat>, busy: Option<nat>,
               index: map<nat, nat>, disk: seq<Data>, ram: map<nat, Data>, k: Key)
    requires CoherentInv(pte, swap, dirty, busy, index, disk, ram)
    requires forall j :: j != k ==> (j in pte <==> j in pte') && (j in pte ==> pte[j] == pte'[j])
    requires k in pte && pte[k].Present? && pte[k].d && pte[k].frame in swap && pte[k].frame !in dirty ==>
               k in pte' && pte'[k].Present? && pte'[k].d && pte'[k].frame == pte[k].frame
    ensures CoherentInv(pte', swap, dirty, busy, index, disk, ram)
  {
    forall f | f in swap && f !in dirty && HardwareDirty(pte, f) ensures HardwareDirty(pte', f) {
      var j :| j in RefKeys(pte, f) && pte[j].d;
      assert j in RefKeys(pte', f) && pte'[j].d;
    }
  }

  lemma {:induction false} CohUncache(pte: PageTable, swap: set<nat>, dirty: set<nat>, busy: Option<nat>,
                   index: map<nat, nat>, disk: seq<Data>, ram: map<nat, Data>, f: nat)
    requires CoherentInv(pte, swap, dirty, busy, index, disk, ram)
    ensures CoherentInv(pte, swap - {f}, dirty, busy, index, disk, ram)
  {
  }

  lemma {:induction false} CohCacheAdd(pte: PageTable, swap: set<nat>, dirty: set<nat>, busy: Option<nat>,
                    index: map<nat, nat>, disk: seq<Data>, ram: map<nat, Data>, f: nat, sl: nat)
    requires CoherentInv(pte, swap, dirty, busy, index, disk, ram) && f !in swap
    ensures CoherentInv(pte, swap + {f}, dirty + {f}, busy, index[f := sl], disk, ram)
    ensures sl < |disk| && f in ram && disk[sl] == ram[f] ==>
              CoherentInv(pte, swap + {f}, dirty, busy, index[f := sl], disk, ram)
  {
  }

  lemma {:induction false} CohUnswapped(pte: PageTable, swap: set<nat>, dirty: set<nat>, busy: Option<nat>,
                     index: map<nat, nat>, disk: seq<Data>, ram: map<nat, Data>, f: nat, data: Data)
    requires CoherentInv(pte, swap, dirty, busy, index, disk, ram) && f !in swap
    ensures CoherentInv(pte, swap, dirty - {f}, busy, index, disk, ram[f := data])
    ensures CoherentInv(pte, swap, dirty - {f}, busy, index, disk, ram)
    ensures CoherentInv(pte, swap, dirty, busy, index, disk, ram[f := data])
  {
  }

  lemma {:induction false} CohDirty(pte: PageTable, swap: set<nat>, dirty: set<nat>, busy: Option<nat>,
                 index: map<nat, nat>, disk: seq<Data>, ram: map<nat, Data>, f: nat)
    requires CoherentInv(pte, swap, dirty, busy, index, disk, ram)
    ensures CoherentInv(pte, swap, dirty + {f}, busy, index, disk, ram)
  {
  }

  /** page_launder clears PG_dirty and hands the page to the disk. */
  lemma {:induction false} CohBegin(pte: PageTable, swap: set<nat>, dirty: set<nat>,
                 index: map<nat, nat>, disk: seq<Data>, ram: map<nat, Data>, f: nat)
    requires CoherentInv(pte, swap, dirty, None, index, disk, ram)
    ensures CoherentInv(pte, swap, dirty - {f}, Some(f), index, disk, ram)
  {
  }

  /** When the write is over the page is clean and on disk, or dirty again. */
  lemma {:induction false} CohEnd(pte: PageTable, cache: map<nat, nat>, swap: set<nat>, dirty: set<nat>,
      memMap: seq<nat>,
               index: map<nat, nat>, disk: seq<Data>, ram: map<nat, Data>, f: nat)
    requires CoherentInv(pte, swap, dirty, Some(f), index, disk, ram) && CacheInv(cache, swap, index, memMap)
    requires f in swap && f in index && index[f] < |disk| && f in ram
    ensures CoherentInv(pte, swap, dirty, None, index, disk[index[f] := ram[f]], ram)
    ensures CoherentInv(pte, swap, dirty + {f}, None, index, disk, ram)
  {
    forall g | g in swap && g != f ensures g in index && index[g] != index[f] {
      assert cache[index[g]] == g && cache[index[f]] == f;
    }
  }

  /** A store sets the dirty bit, so it never makes a clean-looking page stale. */
  lemma {:induction false} CohStore(pte: PageTable, swap: set<nat>, dirty: set<nat>, busy: Option<nat>,
                 index: map<nat, nat>, disk: seq<Data>, ram: map<nat, Data>, k: Key, data: Data)
    requires k in pte && pte[k].Present?
    requires CoherentInv(pte, swap, dirty + {pte[k].frame}, busy, index, disk, ram)
    ensures CoherentInv(pte[k := pte[k].(d := true, a := true)], swap, dirty, busy, index, disk,
              ram[pte[k].frame := data])
  {
    var f := pte[k].frame;
    var pte' := pte[k := pte[k].(d := true, a := true)];
    assert k in RefKeys(pte', f) && pte'[k].d;
    assert HardwareDirty(pte', f);
    forall g | HardwareDirty(pte, g) ensures HardwareDirty(pte', g) {
      var j :| j in RefKeys(pte, g) && pte[j].d;
      assert j in RefKeys(pte', g) && pte'[j].d;
    }
  }
}
