/** What the fault handler does not promise, shown from swap_init on. */
module PagingExamples {
  import opened Common
  import opened PagingState
  import opened PagingClauses
  import opened PagingSteps
  import opened PagingSpec
  import opened PagingFacts
  import opened Paging

  /** While no entry is a swap entry some slot can be had. */
  lemma {:induction false} SlotLeft(s: State)
    requires Core(s) && s.busy == None && |s.disk| >= 2
    ensures (forall k :: k in s.pte ==> s.pte[k].Present?) ==> !NoSlot(s.memMap)
  {
    hide FrameInv, PteInv, RefInv, LiveInv, ListInv, ExclInv, VaInv, MemInv, HashInv, CoherentInv, CacheInv;
    if forall k :: k in s.pte ==> s.pte[k].Present? {
      assert SlotKeys(s.pte, 1) == {};
    }
  }

  /** A disk of two slots has one to swap to. */
  lemma {:induction false} OnlySlot(s: State, k: Key)
    requires Core(s) && |s.disk| == 2 && k in s.pte && s.pte[k].Swapped?
    ensures s.pte[k].slot == 1
  {
    hide FrameInv, RefInv, LiveInv, CountInv, ListInv, ExclInv, VaInv, MemInv, HashInv, CoherentInv, CacheInv;
  }

  /** A page cached for a slot is in use. */
  lemma {:induction false} OnlyFrame(s: State, f: nat, sl: nat)
    requires Core(s) && s.ram.Keys == {f} && sl in s.cache
    ensures s.free == {} && s.cache[sl] in s.swap && s.cache[sl] == f
  {
    hide PteInv, RefInv, CountInv, ListInv, ExclInv, VaInv, MemInv, HashInv, CoherentInv;
  }

  lemma {:induction false} TwoSharers(s: State, j: Key, k: Key, sl: nat)
    requires Core(s) && s.busy == None && s.pin == None && j != k && j in s.pte && k in s.pte
    requires s.pte[j] == Swapped(sl) && s.pte[k] == Swapped(sl) && sl in s.cache
    ensures SharedPage(s, s.cache[sl])
  {
    hide FrameInv, ListInv, ExclInv, VaInv, MemInv, HashInv, CoherentInv;
    var both, all := {j, k}, SlotKeys(s.pte, sl);
    assert all == both + (all - both);
  }

  const J: Key := Key(1, 0)
  const K: Key := Key(2, 0)

  /** A kernel with these frames and a disk of two slots, in which process 1 has stored 5. */
  method OneStore(frames: map<nat, Data>) returns (p: Pager)
    requires frames.Keys != {}
    ensures fresh(p) && Inv(p.s) && Quiet(p.s) && p.s.busy == None && p.s.procs == {1, 2}
    ensures p.s.ram.Keys == frames.Keys && |p.s.disk| == 2
    ensures p.s.mem.Keys == p.s.pte.Keys == {J} && 0 in p.s.mem[J] && p.s.mem[J][0] == 5
    ensures Mapped(p.s, J, true) && p.s.pte[J].d && p.s.pte[J].a && p.s.swap == {}
  {
    hide FrameInv, PteInv, RefInv, LiveInv, CountInv, ListInv, ExclInv, VaInv, MemInv, HashInv, CoherentInv,
      CacheInv, SharedPage, NoSlot, ReadBack;
    p := new Pager(frames, [map[], map[]]);
    p.Spawn(1);
    p.Spawn(2);
    SameKeys(p.s);
    var done := p.Store(J, 0, 5, true, true, true);
    SameKeys(p.s);
  }

  /** swap_out_vma passes a page twice: the first time it only clears the accessed bit. */
  method SwapOutTwice(p: Pager, k: Key)
    requires Inv(p.s) && Quiet(p.s) && p.s.busy == None && |p.s.disk| == 2 && Mapped(p.s, k, false)
    requires p.s.pte[k].frame in p.s.swap || forall q :: q in p.s.pte ==> p.s.pte[q].Present?
    modifies p
    ensures Inv(p.s) && Quiet(p.s) && p.s.busy == None && p.s.procs == old(p.s).procs && p.s.mem == old(p.s).mem
    ensures p.s.ram == old(p.s).ram && p.s.disk == old(p.s).disk && p.s.pte == old(p.s).pte[k := Swapped(1)]
    ensures 1 in p.s.cache && p.s.cache[1] == old(p.s).pte[k].frame && p.s.cache[1] in p.s.swap
  {
    hide FrameInv, PteInv, RefInv, LiveInv, CountInv, ListInv, ExclInv, VaInv, MemInv, HashInv, CoherentInv,
      CacheInv, SharedPage;
    var out := p.SwapOutPte(k);
    SlotLeft(p.s);
    if !out {
      assert Mapped(p.s, k, false) && !p.s.pte[k].a && p.s.pte[k].frame == old(p.s).pte[k].frame;
      out := p.SwapOutPte(k);
      SlotLeft(p.s);
    }
    OnlySlot(p.s, k);
    CachedSlots(p.s);
  }

  /** With a single frame: two processes share a page that is swapped out and still cached.  A write
      fault then reports success, and the page is not mapped. */
  method SilentSuccess() returns (p: Pager, ok: bool)
    ensures Inv(p.s) && Quiet(p.s) && 1 in p.s.procs && ok && !Mapped(p.s, J, true)
  {
    hide FrameInv, PteInv, RefInv, LiveInv, CountInv, ListInv, ExclInv, VaInv, MemInv, HashInv, CoherentInv,
      CacheInv, SharedPage, FaultMaps, ReadBack;
    var frames: map<nat, Data> := map[0 := map[]];
    assert 0 in frames.Keys;
    p := OneStore(frames);
    p.CopyPte(J, K);
    SwapOutTwice(p, J);
    SwapOutTwice(p, K);
    OnlyFrame(p.s, 0, 1);
    TwoSharers(p.s, J, K, 1);
    ok := p.DoPgfault(J, true, true, true, true);
  }

  lemma {:induction false} TheFrame(s: State, k: Key)
    requires Core(s) && s.ram.Keys == {0} && Mapped(s, k, false)
    ensures s.pte[k].frame == 0 && k in s.mem && s.mem[k] == s.ram[0]
  {
    hide RefInv, CountInv, ExclInv, VaInv, HashInv, ListInv, CacheInv;
  }

  /** A single frame that nothing maps is free, unless it is cached. */
  lemma {:induction false} NothingLeft(s: State)
    requires Core(s) && Quiet(s) && s.pte == map[] && s.swap == {}
    ensures s.free == s.ram.Keys
  {
    hide CountInv, ExclInv, VaInv, HashInv, ListInv, CacheInv;
    Unmapped(s);
    assert s.ref.Keys == {};
  }

  /** A frame is handed on as it is: process 2, touching a page for the first time, reads what process 1
      stored before it unmapped its own. */
  method StaleRead() returns (p: Pager, data: Data)
    ensures Inv(p.s) && Quiet(p.s) && K in p.s.mem && p.s.mem[K] == data && 0 in data && data[0] == 5
  {
    hide FrameInv, PteInv, RefInv, LiveInv, CountInv, ListInv, ExclInv, VaInv, MemInv, HashInv, CoherentInv,
      CacheInv, RefKeys;
    var frames: map<nat, Data> := map[0 := map[]];
    assert 0 in frames.Keys;
    p := OneStore(frames);
    TheFrame(p.s, J);
    QuietOnLists(p.s);
    ghost var s1 := p.s;
    p.PageRemovePte(J);
    DroppedQuiet(s1, p.s, J);
    assert p.s.pte == map[];
    NothingLeft(p.s);
    SameKeys(p.s);
    var r := p.Load(K, true, true, true);
    data := r.value;
  }

  /** With no entry present, a page that is on the active list is not mapped. */
  lemma {:induction false} Unmapped(s: State)
    requires Core(s) && s.pin == None && forall k :: k in s.pte ==> s.pte[k].Swapped?
    ensures forall f :: RefKeys(s.pte, f) == {}
    ensures forall f :: f in s.ref ==> s.ref[f] == 0
  {
    hide FrameInv, PteInv, LiveInv, CountInv, ListInv, ExclInv, VaInv, MemInv, HashInv, CoherentInv, CacheInv;
    forall f ensures RefKeys(s.pte, f) == {} {
    }
  }

  /** With nothing mapped and both lists empty, nothing is cached and every frame is free. */
  lemma {:induction false} AllFree(s: State)
    requires Core(s) && Quiet(s) && s.busy == None && s.inactive == [] && forall f :: f !in s.active
    requires forall k :: k in s.pte ==> s.pte[k].Swapped?
    ensures s.cache == map[] && s.free == s.ram.Keys
    ensures forall k :: k in s.pte ==> s.pte[k].slot < |s.disk| && k in s.mem && s.disk[s.pte[k].slot] == s.mem[k]
  {
    hide RefInv, CountInv, ExclInv, VaInv, HashInv;
    Unmapped(s);
    assert s.swap == {};
    assert forall sl :: sl !in s.cache;
    assert s.ref.Keys == {};
  }

  lemma {:induction false} SoleEntry(s: State, k: Key)
    requires Core(s) && s.busy == None && s.pte == map[k := Swapped(1)]
    ensures 1 < |s.memMap| && s.memMap[1] == 1 && 1 < |s.disk|
  {
    hide FrameInv, RefInv, LiveInv, ListInv, ExclInv, VaInv, MemInv, HashInv, CacheInv;
    assert SlotKeys(s.pte, 1) == {k};
  }

  /** kswapd when every entry has been swapped out: no page stays cached, and every frame is free. */
  method Reclaimed(p: Pager)
    requires Inv(p.s) && Quiet(p.s) && p.s.busy == None && forall k :: k in p.s.pte ==> p.s.pte[k].Swapped?
    modifies p
    ensures Inv(p.s) && Quiet(p.s) && p.s.busy == None && p.s.procs == old(p.s).procs && p.s.mem == old(p.s).mem
    ensures p.s.pte == old(p.s).pte && p.s.cache == map[] && p.s.free == p.s.ram.Keys == old(p.s).ram.Keys
    ensures |p.s.disk| == |old(p.s).disk|
    ensures forall k :: k in p.s.pte ==>
              p.s.pte[k].slot < |p.s.disk| && k in p.s.mem && p.s.disk[p.s.pte[k].slot] == p.s.mem[k]
  {
    hide FrameInv, PteInv, RefInv, LiveInv, CountInv, ListInv, ExclInv, VaInv, MemInv, HashInv, CoherentInv,
      CacheInv, RefKeys;
    p.RefillInactiveScan();
    Unmapped(p.s);
    assert forall f :: f !in p.s.active;
    var n := p.PageLaunder(_ => true);
    Unmapped(p.s);
    assert forall f :: f !in p.s.active;
    AllFree(p.s);
  }

  /** A page on disk only: swapped out, moved to the inactive list and laundered. */
  method OnDisk() returns (p: Pager)
    ensures fresh(p) && Inv(p.s) && Quiet(p.s) && p.s.busy == None && p.s.procs == {1, 2}
    ensures p.s.pte == map[J := Swapped(1)] && p.s.cache == map[] && |p.s.free| == 3 && |p.s.disk| == 2
    ensures J in p.s.mem && p.s.disk[1] == p.s.mem[J] && 0 in p.s.mem[J] && p.s.mem[J][0] == 5
  {
    hide FrameInv, PteInv, RefInv, LiveInv, CountInv, ListInv, ExclInv, VaInv, MemInv, HashInv, CoherentInv,
      CacheInv, RefKeys;
    var frames: map<nat, Data> := map[0 := map[], 1 := map[], 2 := map[]];
    assert frames.Keys == {0, 1, 2};
    p := OneStore(frames);
    SwapOutTwice(p, J);
    Reclaimed(p);
  }

  /** What the counts are when a single entry is left. */
  lemma {:induction false} OnlyEntry(s: State, k: Key, e: Pte)
    requires Core(s) && s.busy == None && s.pin == None && s.pte == map[k := e] && e.Present? && e.frame in s.swap
    ensures var f := e.frame;
            && f in s.ref && s.ref[f] == 1 && f in s.index && s.index[f] < |s.memMap| && s.memMap[s.index[f]] == 0
            && f in s.ram && k in s.mem && s.ram[f] == s.mem[k] && s.index[f] < |s.disk|
  {
    hide FrameInv, ListInv, VaInv, HashInv, ExclInv;
    assert RefKeys(s.pte, e.frame) == {k};
    assert Used(s.memMap, s.index[e.frame]);
    assert SlotKeys(s.pte, s.index[e.frame]) == {};
  }

  /** The page is read back and written again: it is cached, and only its D bit says that the disk copy
      is old. */
  method WrittenAgain() returns (p: Pager)
    ensures fresh(p) && Inv(p.s) && Quiet(p.s) && p.s.busy == None && p.s.procs == {1, 2}
    ensures p.s.pte.Keys == p.s.mem.Keys == {J} && Mapped(p.s, J, true) && p.s.pte[J].d
    ensures var f := p.s.pte[J].frame; f in p.s.swap && f in p.s.index && p.s.index[f] == 1 && f !in p.s.dirty
    ensures |p.s.disk| == 2 && 0 in p.s.disk[1] && p.s.disk[1][0] == 5 && 0 in p.s.mem[J] && p.s.mem[J][0] == 7
  {
    hide FrameInv, PteInv, RefInv, LiveInv, CountInv, ListInv, ExclInv, VaInv, MemInv, HashInv, CoherentInv,
      CacheInv, RefKeys, Used;
    p := OnDisk();
    SoleEntry(p.s, J);
    SameKeys(p.s);
    var done := p.Store(J, 0, 7, true, true, true);
    SameKeys(p.s);
  }

  lemma {:induction false} ChildGone(s: State, t: State, e: Pte)
    requires e.Present? && e.d && e.frame in s.swap && e.frame !in s.dirty && e.frame in s.index
             && s.index[e.frame] == 1
    requires J in s.pte && s.pte[J] == e && K in s.pte && s.pte[K] == Present(e.frame, false, false, false)
             && t.pte == map[J := e]
    requires 1 < |s.disk| && 0 in s.disk[1] && J in t.mem && 0 in t.mem[J] && s.disk[1][0] != t.mem[J][0]
    requires Core(s) && Quiet(s) && Core(t) && Quiet(t) && t.busy == None && Dropped(s, t, K)
    ensures LosesDirty(t, J)
  {
    hide FrameInv, PteInv, RefInv, LiveInv, CountInv, ListInv, ExclInv, VaInv, MemInv, HashInv, CoherentInv,
      CacheInv, RefKeys, Used;
    PresentCount(s, J);
    OnlyEntry(t, J, e);
    assert t.disk[1][0] != t.ram[e.frame][0];
  }

  /** The page is shared with a child, which unmaps it again: the entry stays write-protected. */
  method OnlyDirtyBit() returns (p: Pager)
    ensures fresh(p) && Inv(p.s) && Quiet(p.s) && 1 in p.s.procs && Mapped(p.s, J, false) && !p.s.pte[J].w
            && LosesDirty(p.s, J)
  {
    hide FrameInv, PteInv, RefInv, LiveInv, CountInv, ListInv, ExclInv, VaInv, MemInv, HashInv, CoherentInv,
      CacheInv, RefKeys, Used, Dropped, LosesDirty;
    p := WrittenAgain();
    ghost var e := p.s.pte[J].(w := false);
    assert p.s.pte == map[J := p.s.pte[J]];
    p.CopyPte(J, K);
    QuietOnLists(p.s);
    ghost var s1 := p.s;
    p.PageRemovePte(K);
    assert p.s.pte == map[J := e];
    DroppedQuiet(s1, p.s, K);
    ChildGone(s1, p.s, e);
  }

  /** A write fault without its store then breaks the agreement of cache and disk. */
  method LoseDirty() returns (p: Pager)
    ensures Core(p.s) && Quiet(p.s) && !Inv(p.s)
  {
    hide FrameInv, PteInv, RefInv, LiveInv, CountInv, ListInv, ExclInv, VaInv, MemInv, HashInv, CoherentInv,
      CacheInv, RefKeys, LosesDirty;
    p := OnlyDirtyBit();
    var ok := p.DoPgfault(J, true, true, true, true);
  }

  /** A page read back from slot 1 and written again, then write-protected by a fork whose
      child is gone: only the D bit of its one entry says that the disk copy is old. */
  function AfterFork(): State {
    State({1}, map[Key(1, 0) := Present(0, false, true, true)], {}, map[0 := map[0 := 7]], map[0 := 1],
          {0}, {}, {0}, map[0 := 1], [0, 0], seq(HASH_LIST_SIZE, b => if b == HashFn(1) then [0] else []), [0], [],
          [map[], map[0 := 5]], 1,
          map[Key(1, 0) := map[0 := 7]], map[1 := 0], {}, None, {}, None, map[0 := 0], map[1 := 0])
  }

  /** The fault without its store loses the page: the entry is rewritten without the D bit, so
      swap-out and page_launder drop the page as clean, and the process would read 5, not 7. */
  lemma {:induction false} DirtyLost()
    ensures Inv(AfterFork()) && Quiet(AfterFork()) && LosesDirty(AfterFork(), Key(1, 0))
    ensures var faulted := Rebit(AfterFork(), Key(1, 0), Present(0, true, false, false));
            var dropped := Release(Uncache(ListDel(ToSwapped(faulted, Key(1, 0)), 0), 0, false), 0);
            && dropped.pte[Key(1, 0)] == Swapped(1) && 1 !in dropped.cache
            && dropped.disk[1] == map[0 := 5] && dropped.mem[Key(1, 0)] == map[0 := 7]
            && !MemInv(dropped.mem, dropped.pte, dropped.ram, dropped.cache, dropped.disk)
  {
    AfterForkInv();
    var faulted := Rebit(AfterFork(), Key(1, 0), Present(0, true, false, false));
    var dropped := Release(Uncache(ListDel(ToSwapped(faulted, Key(1, 0)), 0), 0, false), 0);
    assert dropped.disk[1][0] != dropped.mem[Key(1, 0)][0];
  }

  lemma {:induction false} AfterForkInv()
    ensures Inv(AfterFork())
  {
    hide FrameInv, PteInv, RefInv, LiveInv, CountInv, ListInv, ExclInv, VaInv, MemInv, HashInv, CoherentInv, CacheInv;
    AfterForkCounts(map[Key(1, 0) := Present(0, false, true, true)], [0, 0], map[1 := 0], map[0 := 1]);
    AfterForkCache(AfterFork().hash, map[1 := 0], map[0 := 1]);
    AfterForkMemory(AfterFork().pte, AfterFork().ram, AfterFork().disk, map[1 := 0], map[0 := 1]);
  }

  lemma {:induction false} AfterForkCounts(pte: PageTable, memMap: seq<nat>, cache: map<nat, nat>, index: map<nat, nat>)
    requires pte == map[Key(1, 0) := Present(0, false, true, true)] && memMap == [0, 0] && cache == map[1 := 0]
             && index == map[0 := 1]
    ensures PteInv(pte, {1}, map[0 := 1], {}, memMap) && RefInv(pte, map[0 := 1], None)
    ensures LiveInv(map[0 := 1], {0}, {}, None) && CountInv(pte, memMap, cache.Keys, BusySlot(None, index))
    ensures ExclInv(pte, {0}, index, memMap) && VaInv(pte, cache, map[0 := 0], map[1 := 0])
  {
    assert RefKeys(pte, 0) == {Key(1, 0)};
    assert SlotKeys(pte, 1) == {};
  }

  lemma {:induction false} AfterForkCache(hash: seq<seq<nat>>, cache: map<nat, nat>, index: map<nat, nat>)
    requires hash == seq(HASH_LIST_SIZE, b => if b == HashFn(1) then [0] else []) && cache == map[1 := 0]
             && index == map[0 := 1]
    ensures HashInv(hash, {0}, index) && ListInv([0], [], {0}, {0}, {}) && CacheInv(cache, {0}, index, [0, 0])
  {
  }

  lemma {:induction false} AfterForkMemory(pte: PageTable, ram: map<nat, Data>, disk: seq<Data>,
      cache: map<nat, nat>, index: map<nat, nat>)
    requires pte == map[Key(1, 0) := Present(0, false, true, true)] && ram == map[0 := map[0 := 7]] && |disk| == 2
    ensures FrameInv({}, map[0 := 1], ram) && MemInv(map[Key(1, 0) := map[0 := 7]], pte, ram, cache, disk)
    ensures CoherentInv(pte, {0}, {}, None, index, disk, ram)
  {
    assert Key(1, 0) in RefKeys(pte, 0) && pte[Key(1, 0)].d;
    assert HardwareDirty(pte, 0);
  }
}
