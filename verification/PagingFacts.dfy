/** What single kernel operations need to know of the state, and what larger ones keep. */
module PagingFacts {
  import opened Common
  import opened PagingState
  import opened PagingClauses
  import opened PagingSteps
  import opened PagingSpec

  /** The slots passed when the cyclic scan that began at `end` stands at `next`. */
  ghost predicate Scanned(end: nat, next: nat, sl: nat) {
    if next >= end then end <= sl < next else sl >= end || sl < next
  }

  /** What an eviction or a page-in leaves alone. */
  ghost predicate Untouched(s: State, t: State) {
    && t.procs == s.procs && t.pte == s.pte && t.mem == s.mem
    && t.busy == s.busy && t.off == s.off && t.held == s.held && t.pin == s.pin
    && t.slotVa == s.slotVa && |t.memMap| == |s.memMap| && t.disk == s.disk
  }

  /** Frames and slots are neither made nor lost. */
  ghost predicate Conserved(s: State, t: State) {
    t.ram.Keys == s.ram.Keys && |t.disk| == |s.disk|
  }

  /** Every slot is named by some swap entry. */
  ghost predicate NoSlot(memMap: seq<nat>) {
    forall sl :: 0 < sl < |memMap| ==> memMap[sl] != SWAP_UNUSED && memMap[sl] != 0
  }

  /** The first inactive page is cached, not active, and occurs once. */
  lemma {:induction false} InactiveHead(s: State)
    requires Inv(s) && s.inactive != []
    ensures var f := s.inactive[0];
            f in s.swap && f !in s.hot && Without(s.inactive, f) == s.inactive[1..] && f !in s.inactive[1..]
  {
    hide FrameInv, PteInv, RefInv, LiveInv, CountInv, ExclInv, VaInv, MemInv, HashInv, CoherentInv, CacheInv;
    assert s.inactive[0] in s.inactive;
    WithoutFirst(s.inactive);
  }

  /** Only the page being written out is off the lists. */
  ghost predicate OnLists(s: State) {
    forall f :: f in s.off ==> s.busy == Some(f)
  }

  /** The state once entry k is cleared as well. */
  ghost function Cleared(s: State, k: Key): State {
    s.(pte := s.pte - {k}, mem := s.mem - {k})
  }

  /** Dropping a reference keeps contents and indices, and every page still referred to. */
  ghost predicate KeepsPages(s: State, t: State) {
    && t.ram == s.ram && t.index == s.index && t.frameVa == s.frameVa && t.slotVa == s.slotVa
    && t.disk == s.disk && t.swap <= s.swap && |t.memMap| == |s.memMap|
    && (forall f :: f in s.swap && f in s.ref && s.ref[f] > 0 ==> f in t.swap)
  }

  /** Slot counts of the pages still cached, after entry k is gone. */
  ghost predicate SlotsAfter(s: State, t: State, k: Key)
    requires k in s.pte
  {
    forall f :: f in t.swap && f in s.index && s.index[f] < |s.memMap| && s.index[f] < |t.memMap| ==>
      t.memMap[s.index[f]] + (if s.pte[k] == Swapped(s.index[f]) then 1 else 0) == s.memMap[s.index[f]]
  }

  ghost predicate SameKernel(s: State, t: State) {
    t.procs == s.procs && t.busy == s.busy && t.off == s.off && t.pin == s.pin && t.held == s.held
  }

  /** What removing entry k may change besides the entry. */
  ghost predicate Dropped(s: State, t: State, k: Key) {
    k in s.pte && SameKernel(s, t) && KeepsPages(s, t) && SlotsAfter(s, t, k) && t.dirty == s.dirty + DirtyBy(s, k)
  }

  /** The page page_remove_pte marks dirty. */
  ghost function DirtyBy(s: State, k: Key): set<nat>
    requires k in s.pte
  {
    if s.pte[k].Present? && s.pte[k].d && s.pte[k].frame in s.swap then {s.pte[k].frame} else {}
  }

  lemma {:induction false} DroppedCount(s: State, k: Key, n: nat)
    requires Core(s) && k in s.pte && s.pte[k].Swapped? && s.pte[k].slot < |s.memMap|
    requires n + 1 == s.memMap[s.pte[k].slot] || s.pte[k].slot !in s.cache
    ensures Dropped(s, s.(memMap := s.memMap[s.pte[k].slot := n]), k)
  {
    hide FrameInv, PteInv, RefInv, LiveInv, CountInv, ListInv, ExclInv, VaInv, MemInv, HashInv, CoherentInv;
  }

  lemma {:induction false} DroppedFree(s: State, m: State, t: State, k: Key, f: nat)
    requires Dropped(s, m, k) && f in s.ref && s.ref[f] == 0 && SameKernel(m, t) && t.swap == m.swap - {f}
    requires t.ram == m.ram && t.index == m.index && t.disk == m.disk && t.frameVa == m.frameVa && t.slotVa == m.slotVa
    requires |t.memMap| == |m.memMap| && t.dirty == m.dirty
    requires forall g ::
             g in t.swap && g in s.index && s.index[g] < |m.memMap| ==> t.memMap[s.index[g]] == m.memMap[s.index[g]]
    ensures Dropped(s, t, k)
  {
  }

  lemma {:induction false} SpawnKeeps(s: State, pid: nat)
    requires Inv(s) && |s.procs| < MAX_PROCESS
    ensures Inv(s.(procs := s.procs + {pid}))
  {
    hide FrameInv, RefInv, LiveInv, CountInv, ListInv, ExclInv, VaInv, MemInv, HashInv, CoherentInv, CacheInv;
    assert |s.procs + {pid}| <= |s.procs| + 1;
  }

  lemma {:induction false} ExitKeeps(s: State, pid: nat)
    requires Inv(s) && forall k :: k in s.pte ==> k.pid != pid
    ensures Inv(s.(procs := s.procs - {pid}))
  {
    hide FrameInv, RefInv, LiveInv, CountInv, ListInv, ExclInv, VaInv, MemInv, HashInv, CoherentInv, CacheInv;
    assert s.procs - {pid} <= s.procs;
    assert |s.procs| == |s.procs - {pid}| + |s.procs * {pid}|;
  }

  lemma {:induction false} ActiveFacts(s: State)
    requires Core(s)
    ensures forall f :: f in s.active ==> f in s.swap && f in s.hot && f !in s.off && f in s.ref
    ensures NoDup(s.active)
    ensures s.busy.Some? ==> s.busy.value in s.off
  {
    hide FrameInv, PteInv, RefInv, CountInv, ExclInv, VaInv, MemInv, HashInv, CoherentInv, CacheInv;
  }

  lemma {:induction false} QuietSame(s: State, t: State)
    requires Quiet(s) && t.off == s.off && t.busy == s.busy && t.held == s.held && t.pin == s.pin
    ensures Quiet(t)
  {
  }

  lemma {:induction false} InactivePage(s: State, f: nat)
    requires Core(s) && f in s.inactive
    ensures f in s.swap && f !in s.hot && f !in s.off
  {
    hide FrameInv, PteInv, RefInv, CountInv, ExclInv, VaInv, MemInv, HashInv, CoherentInv, CacheInv;
  }

  lemma {:induction false} FreeOffProof(s: State, f: nat)
    requires Inv(s) && s.pin == None && f in s.off && s.busy != Some(f) && f in s.ref && s.ref[f] == 0 && f !in s.held
    requires f in s.swap && f in s.index && s.index[f] < |s.memMap| && (s.memMap[s.index[f]] == 0 || f !in s.dirty)
    ensures |s.hash| == HASH_LIST_SIZE && f !in s.free
    ensures Inv(Release(Uncache(s, f, s.memMap[s.index[f]] == 0), f))
  {
    hide FrameInv, PteInv, RefInv, LiveInv, CountInv, ListInv, ExclInv, VaInv, MemInv, HashInv, CoherentInv, CacheInv;
    CachedPage(s, f);
    CachedSlots(s);
    Unreferenced(s, f);
    if s.memMap[s.index[f]] != 0 {
      CleanOnDisk(s, f);
    }
    UncacheKeeps(s, f, s.memMap[s.index[f]] == 0);
    var u := Uncache(s, f, s.memMap[s.index[f]] == 0);
    ReleaseKeeps(u, f);
    SameCoherent(u, Release(u, f));
    AllocatedNotFree(s, f);
  }

  lemma {:induction false} CleanOnDisk(s: State, f: nat)
    requires Inv(s) && f in s.swap && f !in s.dirty && s.busy != Some(f) && RefKeys(s.pte, f) == {}
    ensures f in s.index && s.index[f] < |s.disk| && f in s.ram && s.disk[s.index[f]] == s.ram[f]
  {
    hide FrameInv, PteInv, RefInv, LiveInv, CountInv, ListInv, ExclInv, VaInv, MemInv, HashInv, CacheInv;
    assert !HardwareDirty(s.pte, f);
  }

  lemma {:induction false} AllocatedNotFree(s: State, f: nat)
    requires Core(s) && f in s.ref
    ensures f !in s.free
  {
    hide PteInv, RefInv, LiveInv, CountInv, ListInv, ExclInv, VaInv, MemInv, HashInv, CacheInv;
  }

  lemma {:induction false} SameKeys(s: State)
    requires Core(s)
    ensures s.mem.Keys == s.pte.Keys
  {
    hide FrameInv, PteInv, RefInv, LiveInv, CountInv, ListInv, ExclInv, VaInv, HashInv, CoherentInv, CacheInv;
  }

  lemma {:induction false} InvKeys(s: State)
    requires Inv(s)
    ensures s.mem.Keys == s.pte.Keys
  {
    SameKeys(s);
  }

  lemma {:induction false} NotThere(s: State, pid: nat, start: nat, end: nat, va: nat)
    requires Inv(s) && start <= va < end && forall k :: k in s.pte ==> !InRange(k, pid, start, end)
    ensures Key(pid, va) !in s.mem
  {
    InvKeys(s);
    assert InRange(Key(pid, va), pid, start, end);
  }

  lemma {:induction false} DroppedQuiet(s: State, t: State, k: Key)
    requires Quiet(s) && Dropped(s, t, k)
    ensures Quiet(t) && t.procs == s.procs && t.busy == s.busy && Conserved(s, t)
  {
  }

  /** Clearing only the W bit. */
  lemma {:induction false} WriteProtect(s: State, k: Key)
    requires Inv(s) && k in s.pte && s.pte[k].Present?
    ensures Inv(Rebit(s, k, s.pte[k].(w := false)))
  {
    hide FrameInv, PteInv, RefInv, LiveInv, CountInv, ListInv, ExclInv, VaInv, MemInv, HashInv, CoherentInv, CacheInv;
    var p := s.pte[k].(w := false);
    RebitKeeps(s, k, p);
    CohPte(s.pte, s.pte[k := p], s.swap, s.dirty, s.busy, s.index, s.disk, s.ram, k);
  }

  /** A read-only page may be shared at the same page number. */
  lemma {:induction false} ShareInsert(s: State, from: Key, to: Key)
    requires Core(s) && from in s.pte && s.pte[from].Present? && !s.pte[from].w && to.va == from.va
    ensures MayInsert(s, to, s.pte[from].frame, false) && s.pte[from].frame in s.ref
  {
    hide FrameInv, RefInv, LiveInv, CountInv, ListInv, MemInv, HashInv, CoherentInv, CacheInv;
    RefKeysAre(s.pte, s.pte[from].frame);
  }

  lemma {:induction false} QuietOnLists(s: State)
    requires Quiet(s)
    ensures OnLists(s)
  {
  }

  /** A mapped page survives an eviction. */
  lemma {:induction false} StillMapped(s: State, t: State, f: nat)
    requires Core(s) && Core(t) && RefKeys(s.pte, f) != {} && t.pte == s.pte && f !in s.swap && t.swap <= s.swap
             && t.held == {}
    ensures f in t.ref && f !in t.swap && f in t.ram && f in t.frameVa && |t.hash| == HASH_LIST_SIZE
  {
    hide RefInv, LiveInv, CountInv, ListInv, ExclInv, MemInv, CoherentInv, CacheInv;
    var k :| k in RefKeys(s.pte, f);
  }

  /** No slot has as many references as swap_duplicate can count. */
  lemma {:induction false} SlotRoom(s: State, sl: nat)
    requires Core(s) && Used(s.memMap, sl)
    ensures s.memMap[sl] < MAX_SWAP_REF
  {
    hide FrameInv, RefInv, LiveInv, ListInv, ExclInv, MemInv, CoherentInv, CacheInv, HashInv, SlotKeys;
    SlotKeysBound(s.pte, s.procs, s.ref, s.held, s.memMap, s.cache, s.frameVa, s.slotVa, sl);
  }

  lemma {:induction false} PteMem(s: State, k: Key)
    requires Core(s)
    ensures k in s.pte <==> k in s.mem
  {
    hide FrameInv, PteInv, RefInv, LiveInv, CountInv, ListInv, ExclInv, VaInv, HashInv, CoherentInv, CacheInv;
  }

  lemma {:induction false} ReadyWhenInv(s: State, k: Key)
    requires Inv(s) && k in s.pte && s.pte[k].Present?
    ensures StoreReady(s, k)
  {
    hide FrameInv, PteInv, RefInv, LiveInv, CountInv, ListInv, ExclInv, VaInv, MemInv, HashInv, CoherentInv, CacheInv;
    CohDirty(s.pte, s.swap, s.dirty, s.busy, s.index, s.disk, s.ram, s.pte[k].frame);
  }

  lemma {:induction false} ReadyCoherent(s: State, k: Key)
    requires StoreReady(s, k)
    ensures k in s.pte && s.pte[k].Present?
    ensures CoherentInv(s.pte, s.swap, s.dirty + {s.pte[k].frame}, s.busy, s.index, s.disk, s.ram)
  {
  }

  /** Setting or clearing the A bit. */
  lemma {:induction false} RebitAccessed(s: State, k: Key, a: bool)
    requires Inv(s) && k in s.pte && s.pte[k].Present?
    ensures Inv(Rebit(s, k, s.pte[k].(a := a)))
  {
    hide FrameInv, PteInv, RefInv, LiveInv, CountInv, ListInv, ExclInv, VaInv, MemInv, HashInv, CoherentInv, CacheInv;
    var p := s.pte[k].(a := a);
    if p.w { SoleWriter(s, k); }
    RebitKeeps(s, k, p);
    CohPte(s.pte, s.pte[k := p], s.swap, s.dirty, s.busy, s.index, s.disk, s.ram, k);
  }

  /** What the page cached for a swap entry is, and when it may be mapped. */
  lemma {:induction false} SwappedPage(s: State, k: Key)
    requires Core(s) && s.pin == None && k in s.pte && s.pte[k].Swapped? && s.pte[k].slot in s.cache
    ensures var page := s.cache[s.pte[k].slot];
            && page in s.ref && page in s.ram && page in s.swap && page !in s.held
            && page in s.index && s.index[page] == s.pte[k].slot < |s.memMap|
            && k in s.mem && s.mem[k] == s.ram[page] && k.pid in s.procs
            && MayInsert(s, k, page, false)
            && (s.ref[page] + s.memMap[s.pte[k].slot] <= 1 ==> MayInsert(s, k, page, true))
  {
    hide FrameInv, PteInv, LiveInv, ListInv, VaInv, MemInv, HashInv, CountInv;
    var page := s.cache[s.pte[k].slot];
    SwappedEntry(s, k);
    CachedPage(s, page);
    VaOfCached(s, page);
    RefKeysAre(s.pte, page);
    assert s.ref[page] == |RefKeys(s.pte, page)|;
  }

  /** The entry is present, and writable if w. */
  ghost predicate Mapped(s: State, k: Key, w: bool) {
    k in s.pte && s.pte[k].Present? && (w ==> s.pte[k].w)
  }

  /** What page_launder does with the first inactive page f. */
  ghost predicate LaunderTaken(s: State, t: State, f: nat, freed: bool) {
    && f in s.ref && f in s.index && s.index[f] < |s.memMap|
    && (s.ref[f] != 0 ==> f in t.active && t.busy == None && !freed)
    && (s.ref[f] == 0 ==>
          if s.memMap[s.index[f]] == 0 || f !in s.dirty then freed && f in t.free && t.busy == None
          else !freed && t.busy == Some(f) && f !in t.dirty && f in t.ref && t.ref[f] == 0)
  }

  /** What it does with page f once the disk write has returned. */
  ghost predicate LaunderWritten(s: State, t: State, f: nat, ok: bool, freed: bool) {
    && f in s.ref && f in s.index && s.index[f] < |s.disk| && f in s.ram
    && t.disk == (if ok then s.disk[s.index[f] := s.ram[f]] else s.disk)
    && (freed <==> s.ref[f] == 0 && ok && f !in s.dirty) && (freed ==> f in t.free)
    && (s.ref[f] != 0 ==> f in t.active)
    && (s.ref[f] == 0 && !freed ==> f in t.dirty)
    && t.inactive == s.inactive + (if s.ref[f] == 0 && !freed then [f] else [])
  }

  lemma {:induction false} MappedSomewhere(s: State, f: nat)
    requires Core(s) && s.pin == None && f in s.ref && s.ref[f] != 0
    ensures RefKeys(s.pte, f) != {}
  {
    hide FrameInv, PteInv, LiveInv, CountInv, ListInv, ExclInv, VaInv, MemInv, HashInv, CoherentInv, CacheInv;
  }

  /** A page read back for a sole swap entry stays cached for its slot, clean, until it is written. */
  ghost predicate ReadBack(s: State, t: State, k: Key) {
    && k in s.pte && s.pte[k].Swapped? && s.pte[k].slot !in s.cache && s.pte[k].slot < |s.memMap|
    && s.memMap[s.pte[k].slot] == 1
    && Mapped(t, k, true) ==>
         var f := t.pte[k].frame;
         f in t.swap && f in t.index && t.index[f] == s.pte[k].slot && f !in t.dirty && t.disk == s.disk
  }

  lemma {:induction false} ReadBackStore(s: State, m: State, t: State, k: Key)
    requires ReadBack(s, m, k) && Mapped(m, k, true) && Mapped(t, k, true) && t.pte[k].frame == m.pte[k].frame
    requires t.swap == m.swap && t.index == m.index && t.dirty == m.dirty && t.disk == m.disk
    ensures ReadBack(s, t, k)
  {
  }

  lemma {:induction false} ReadBackNot(s: State, t: State, k: Key)
    requires (k in s.pte && s.pte[k].Present?) || !Mapped(t, k, true)
    ensures ReadBack(s, t, k)
  {
  }

  /** The page table once entry `from` is shared with `to`. */
  ghost function CopiedPte(pte: PageTable, from: Key, to: Key): PageTable {
    if from !in pte then pte
    else if pte[from].Present?
      then pte[from := pte[from].(w := false)][to := Present(pte[from].frame, false, false, false)]
    else pte[to := pte[from]]
  }

  /** Somebody else refers to the page or to its slot, so that a writer needs a copy. */
  ghost predicate SharedPage(s: State, f: nat) {
    f in s.ref && s.ref[f]
      + (if f in s.swap && f in s.index && s.index[f] < |s.memMap| then s.memMap[s.index[f]] else 0) > 1
  }

  /** When a fault at k leaves the page mapped for the access, told before the fault. */
  ghost predicate FaultMaps(s: State, k: Key, write: bool, vmRead: bool, vmWrite: bool, readOk: bool) {
    && (if write then vmWrite else vmRead)
    && if k !in s.pte then s.free != {}
       else match s.pte[k]
            case Present(f, _, _, _) => write && (s.free != {} || !SharedPage(s, f))
            case Swapped(sl) =>
              if sl in s.cache then write && SharedPage(s, s.cache[sl]) ==> s.free != {}
              else readOk && |s.free| >= if vmWrite then 2 else 1
  }

  /** When an access goes through, told before it. */
  ghost predicate Accessible(s: State, k: Key, write: bool, vmRead: bool, vmWrite: bool, readOk: bool) {
    k.pid in s.procs && (Mapped(s, k, write) || FaultMaps(s, k, write, vmRead, vmWrite, readOk))
  }

  ghost function WorldOf(s: State): World {
    World(s.procs, s.mem)
  }

  /** One operation of a history: the event is one the world allows and is what happened to it, a store
      or load goes through exactly when it can, and frames and slots are conserved. */
  /** The entries that were mapped and now name a slot. */
  ghost function GoneOut(pte: PageTable, pte': PageTable): set<Key> {
    set k | k in pte && pte[k].Present? && k in pte' && pte'[k].Swapped?
  }

  /** What one visit of swap_out_vma may do to an entry: nothing, clear A, or put it out if A is clear. */
  ghost predicate Visited(e: Pte, e': Pte) {
    || e' == e
    || (e.Present? && e.a && e' == e.(a := false))
    || (e.Present? && !e.a && e'.Swapped?)
  }

  /** swap_out_vma over a range: at most so many pages go out, and if it is fewer, every page of the range
      has been visited. */
  ghost predicate SweptOut(pte: PageTable, pte': PageTable, pid: nat, start: nat, end: nat, require: nat) {
    && pte'.Keys == pte.Keys && |GoneOut(pte, pte')| <= require
    && (forall k :: k in pte ==> Visited(pte[k], pte'[k]) && (!InRange(k, pid, start, end) ==> pte'[k] == pte[k]))
    && (|GoneOut(pte, pte')| < require ==>
          forall k :: k in pte' && InRange(k, pid, start, end) && pte'[k].Present? ==> !pte'[k].a)
  }

  /** One more entry visited. */
  lemma {:induction false} OneVisited(pte0: PageTable, pte: PageTable, pte': PageTable, k: Key, out: bool)
    requires pte.Keys == pte'.Keys == pte0.Keys && (k in pte ==> pte[k] == pte0[k])
    requires forall q :: q in pte && q != k ==> pte'[q] == pte[q]
    requires out <==> k in pte && pte[k].Present? && pte'[k].Swapped?
    ensures |GoneOut(pte0, pte')| == |GoneOut(pte0, pte)| + if out then 1 else 0
  {
    assert k !in GoneOut(pte0, pte);
    assert GoneOut(pte0, pte') == if out then GoneOut(pte0, pte) + {k} else GoneOut(pte0, pte);
  }

  lemma {:induction false} VisitedStep(pte0: PageTable, pte: PageTable, pte': PageTable, k: Key, out: bool)
    requires pte.Keys == pte'.Keys == pte0.Keys && (k in pte ==> pte[k] == pte0[k])
    requires forall q :: q in pte && q != k ==> pte'[q] == pte[q]
    requires forall q :: q in pte ==> Visited(pte0[q], pte[q])
    requires k in pte ==>
               if pte[k].Present? && pte[k].a then pte'[k] == pte[k].(a := false)
               else if pte[k].Present? && out then pte'[k].Swapped? else pte'[k] == pte[k]
    ensures forall q :: q in pte' ==> Visited(pte0[q], pte'[q])
  {
  }

  lemma {:induction false} NoneGone(pte: PageTable)
    ensures GoneOut(pte, pte) == {} && forall k :: k in pte ==> Visited(pte[k], pte[k])
  {
  }

  /** What a step of kswapd does behind the processes' backs. */
  ghost predicate Swept(s: State, op: Op, t: State) {
    match op
    case SwapOut(pid, start, end, require) => SweptOut(s.pte, t.pte, pid, start, end, require)
    case LaunderPage =>
      s.busy == None && s.inactive != [] ==> exists freed :: LaunderTaken(s, t, s.inactive[0], freed)
    case WriteReturns(ok) => s.busy.Some? ==> exists freed :: LaunderWritten(s, t, s.busy.value, ok, freed)
    case Refill =>
      forall f :: f in t.inactive <==> f in s.inactive || (f in s.active && f in s.ref && s.ref[f] == 0)
    case _ => true
  }

  ghost predicate Stepped(s: State, op: Op, e: Event, t: State) {
    && Outcome(WorldOf(s), op, e) && WorldOf(t) == Apply(WorldOf(s), e) && Conserved(s, t) && Swept(s, op, t)
    && (op.DoStore? ==> (e.Stored? <==> Accessible(s, op.k, true, op.vmRead, op.vmWrite, op.readOk)))
    && (op.DoLoad? ==> (e.Loaded? <==> Accessible(s, op.k, false, op.vmRead, op.vmWrite, op.readOk)))
  }

  /** When do_pgfault reports success and has not mapped the page: the page came from the cache, has to
      be copied, and no frame is free for the copy. */
  ghost predicate SilentFailure(s: State, k: Key, write: bool, vmWrite: bool) {
    && write && vmWrite && s.free == {} && k in s.pte && s.pte[k].Swapped? && s.pte[k].slot in s.cache
    && SharedPage(s, s.cache[s.pte[k].slot])
  }

  /** What do_pgfault computes, with a spare page allocated or not. */
  lemma {:induction false} SharedIs(s: State, n: Option<nat>, f: nat, count: nat)
    requires f in s.ref && (n.Some? ==> n.value !in s.ref)
    requires if f in s.swap then f in s.index && s.index[f] < |s.memMap| && count == s.memMap[s.index[f]]
             else count == 0
    ensures f in MaybeAlloc(s, n).ref
    ensures MaybeAlloc(s, n).ref[f] + count > 1 <==> SharedPage(s, f)
  {
  }

  lemma {:induction false} SteppedWorld(s: State, op: Op, e: Event, t: State)
    requires Stepped(s, op, e, t)
    ensures Outcome(WorldOf(s), op, e) && WorldOf(t) == Apply(WorldOf(s), e)
  {
    hide Outcome, Apply;
  }

  lemma {:induction false} SharedKeeps(s: State, k: Key)
    requires k in s.pte && s.pte[k].Present? && SharedPage(s, s.pte[k].frame)
    ensures !LosesDirty(s, k)
  {
  }

  lemma {:induction false} SpareLeft(free: set<nat>, held: set<nat>)
    requires held <= free && |held| <= 1
    ensures free - held != {} <==> |free| > |held|
  {
    assert free == held + (free - held);
    assert |free| == |held| + |free - held|;
  }

  /** Coherent except perhaps for the frame at k, which the next store marks dirty. */
  ghost predicate StoreReady(s: State, k: Key) {
    k in s.pte && s.pte[k].Present? &&
    CoherentInv(s.pte, s.swap, s.dirty + {s.pte[k].frame}, s.busy, s.index, s.disk, s.ram)
  }

  /** The entry holds the only record (its D bit) that a cached page differs from its disk
      copy, and a write fault will rewrite the entry in place without that bit. */
  ghost predicate LosesDirty(s: State, k: Key) {
    && k in s.pte && s.pte[k].Present? && s.pte[k].d
    && s.pte[k].frame in s.swap && s.pte[k].frame !in s.dirty
    && s.pte[k].frame in s.ref && s.ref[s.pte[k].frame] == 1
    && s.pte[k].frame in s.index && s.index[s.pte[k].frame] < |s.memMap| && s.memMap[s.index[s.pte[k].frame]] == 0
    && s.pte[k].frame in s.ram && s.index[s.pte[k].frame] < |s.disk|
    && s.disk[s.index[s.pte[k].frame]] != s.ram[s.pte[k].frame]
  }

  lemma {:induction false} FreshInsert(s: State, f: nat, k: Key, w: bool)
    requires Inv(s) && Quiet(s) && f in s.free
    ensures Inv(Alloc(s, f)) && OnLists(Alloc(s, f)) && MayInsert(Alloc(s, f), k, f, w) && f !in s.held
    ensures forall j :: j in s.pte ==> !SameFrame(s, j, f)
  {
    hide FrameInv, PteInv, RefInv, LiveInv, CountInv, ListInv, ExclInv, VaInv, MemInv, HashInv, CoherentInv, CacheInv;
    AllocKeeps(s, f);
    FreshPage(s, f);
    HeldPage(Alloc(s, f), f);
    RefKeysAre(s.pte, f);
  }

  /** What page_ref + swap_page_count tells about a present entry. */
  lemma {:induction false} PresentCount(s: State, k: Key)
    requires Core(s) && Quiet(s) && k in s.pte && s.pte[k].Present?
    ensures var f := s.pte[k].frame;
            && f in s.ref && s.ref[f] >= 1 && (f in s.swap ==> f in s.index && s.index[f] < |s.memMap|)
            && (s.ref[f] == 1 ==> RefKeys(s.pte, f) == {k})
            && (s.ref[f] > 1 ==> RefKeys(s.pte, f) != {k})
  {
    hide CountInv, ListInv, ExclInv, VaInv, MemInv, HashInv;
    var f := s.pte[k].frame;
    assert k in RefKeys(s.pte, f);
    if s.ref[f] == 1 {
      assert |RefKeys(s.pte, f) - {k}| == 0;
    }
  }

  lemma {:induction false} CountOfSlot(s: State, f: nat)
    requires Core(s)
    ensures f in s.swap ==>
              && f in s.index && s.index[f] < |s.memMap|
              && s.memMap[s.index[f]] == |SlotKeys(s.pte, s.index[f])| + (if s.busy == Some(f) then 1 else 0)
  {
    hide FrameInv, PteInv, RefInv, ExclInv, VaInv, MemInv, HashInv, CoherentInv, SlotKeys;
    if f in s.swap {
      assert Used(s.memMap, s.index[f]);
      if s.busy.Some? && s.busy.value != f && s.busy.value in s.index {
        assert s.busy.value in s.swap;
        assert s.cache[s.index[s.busy.value]] == s.busy.value;
      }
    }
  }

  /** The copy of the page may be mapped writable in place of the old entry. */
  lemma {:induction false} CopyInsert(s: State, n: nat, page: nat, k: Key)
    requires Inv(s) && OnLists(s) && n in s.held && page in s.ram
    ensures var t := FillHeld(s, n, s.ram[page]);
            Inv(t) && OnLists(t) && MayInsert(t, k, n, true) && !SameFrame(t, k, n) && n in t.ref && n in s.ram
  {
    hide FrameInv, PteInv, RefInv, LiveInv, CountInv, ListInv, ExclInv, VaInv, MemInv, HashInv, CoherentInv, CacheInv;
    FillHeldKeeps(s, n, s.ram[page]);
    HeldPage(s, n);
    RefKeysAre(s.pte, n);
  }

  /** With a page allocated in advance or not. */
  ghost function MaybeAlloc(s: State, n: Option<nat>): State {
    if n.Some? then Alloc(s, n.value) else s
  }

  ghost function MaybeRelease(s: State, n: Option<nat>): State {
    if n.Some? then Release(s, n.value) else s
  }

  lemma {:induction false} MaybeAllocKeeps(s: State, n: Option<nat>)
    requires Inv(s) && Quiet(s) && (n.Some? ==> n.value in s.free)
    ensures Inv(MaybeAlloc(s, n)) && OnLists(MaybeAlloc(s, n))
    ensures n.Some? ==> n.value !in s.held && n.value !in s.ref
  {
    hide FrameInv, PteInv, RefInv, LiveInv, CountInv, ListInv, ExclInv, VaInv, MemInv, HashInv, CoherentInv, CacheInv;
    if n.Some? {
      AllocKeeps(s, n.value);
      FreshPage(s, n.value);
    }
  }

  /** The write fault of a sole reference: the entry is rewritten in place. */
  lemma {:induction false} AfterRebit(s: State, n: Option<nat>, k: Key)
    requires Inv(s) && Quiet(s) && (n.Some? ==> n.value in s.free) && k in s.pte && s.pte[k].Present? && !s.pte[k].w
    requires s.pte[k].frame in s.ref && s.ref[s.pte[k].frame] == 1 && RefKeys(s.pte, s.pte[k].frame) == {k}
    requires s.pte[k].frame in s.swap ==>
             s.pte[k].frame in s.index && s.index[s.pte[k].frame] < |s.memMap| && s.memMap[s.index[s.pte[k].frame]] == 0
    ensures Inv(MaybeAlloc(s, n)) && OnLists(MaybeAlloc(s, n))
    ensures var t := MaybeRelease(Rebit(MaybeAlloc(s, n), k, Present(s.pte[k].frame, true, false, false)), n);
            Core(t) && Quiet(t) && StoreReady(t, k) && (Inv(t) <==> !LosesDirty(s, k))
  {
    hide FrameInv, PteInv, RefInv, LiveInv, CountInv, ListInv, ExclInv, VaInv, MemInv, HashInv, CoherentInv,
      CacheInv, StoreReady, LosesDirty;
    var m := MaybeAlloc(s, n);
    var p := Present(s.pte[k].frame, true, false, false);
    MaybeAllocKeeps(s, n);
    MappedPage(s, k);
    RebitKeeps(m, k, p);
    var t := MaybeRelease(Rebit(m, k, p), n);
    if n.Some? {
      ReleaseKeeps(Rebit(m, k, p), n.value);
    }
    RebitCoherence(s, m, t, k);
  }

  lemma {:induction false} RebitCoherence(s: State, m: State, t: State, k: Key)
    requires Inv(s) && Inv(m) && Quiet(s) && k in s.pte && s.pte[k].Present?
    requires s.pte[k].frame in s.ref && s.ref[s.pte[k].frame] == 1 && RefKeys(s.pte, s.pte[k].frame) == {k}
    requires s.pte[k].frame in s.swap ==>
             s.pte[k].frame in s.index && s.index[s.pte[k].frame] < |s.memMap| && s.memMap[s.index[s.pte[k].frame]] == 0
    requires m.pte == s.pte && m.swap == s.swap && m.busy == s.busy && m.index == s.index && m.disk == s.disk
             && m.ram == s.ram
    requires s.pte[k].frame in m.dirty <==> s.pte[k].frame in s.dirty
    requires Core(t) && t.pte == s.pte[k := Present(s.pte[k].frame, true, false, false)] && t.swap == m.swap
             && t.dirty == m.dirty
    requires t.busy == m.busy && t.index == m.index && t.disk == m.disk && t.ram == m.ram
    ensures StoreReady(t, k) && (Inv(t) <==> !LosesDirty(s, k))
  {
    hide FrameInv, PteInv, RefInv, LiveInv, CountInv, ListInv, ExclInv, VaInv, MemInv, HashInv, CacheInv, Quiet;
    var f := s.pte[k].frame;
    CohDirty(m.pte, m.swap, m.dirty, m.busy, m.index, m.disk, m.ram, f);
    CohPte(m.pte, t.pte, m.swap, m.dirty + {f}, m.busy, m.index, m.disk, m.ram, k);
    KeysAfterBits(s.pte, k, t.pte[k]);
    assert !HardwareDirty(t.pte, f);
    if f in s.swap {
      CachedPage(s, f);
      SoleNotBusy(s, f);
    }
    if LosesDirty(s, k) {
      assert !CoherentInv(t.pte, t.swap, t.dirty, t.busy, t.index, t.disk, t.ram);
    } else {
      if !s.pte[k].d {
        CohPte(m.pte, t.pte, m.swap, m.dirty, m.busy, m.index, m.disk, m.ram, k);
      }
    }
  }

  lemma {:induction false} SoleNotBusy(s: State, f: nat)
    requires Core(s) && f in s.swap && f in s.index && s.index[f] < |s.memMap| && s.memMap[s.index[f]] == 0
    ensures s.busy != Some(f)
  {
    hide FrameInv, PteInv, RefInv, LiveInv, ExclInv, VaInv, MemInv, HashInv;
  }

  lemma {:induction false} UntouchedSelf(s: State)
    ensures Untouched(s, s)
  {
  }

  /** The state after the slot is read into page f. */
  ghost function ReadIn(s: State, f: nat, sl: nat): State
    requires sl < |s.disk| && |s.hash| == HASH_LIST_SIZE && sl in s.slotVa
  {
    ActiveAdd(CacheRead(FillHeld(Alloc(s, f), f, s.disk[sl]), f, sl), f)
  }

  lemma {:induction false} ReadInFacts(s: State, f: nat, sl: nat)
    requires Inv(s) && f in s.free && Used(s.memMap, sl) && sl in s.slotVa && sl !in s.cache
    ensures sl < |s.disk| && |s.hash| == HASH_LIST_SIZE && f !in s.swap && f in s.ram
    ensures Inv(ReadIn(s, f, sl)) && Untouched(s, ReadIn(s, f, sl)) && ReadIn(s, f, sl).memMap == s.memMap
    ensures var t := ReadIn(s, f, sl);
            && t.disk == s.disk && t.ram.Keys == s.ram.Keys && sl in t.cache && t.cache[sl] == f
            && f !in t.dirty && f in t.ref && t.ref[f] == 0
    ensures Inv(Release(Alloc(s, f), f)) && Untouched(s, Release(Alloc(s, f), f))
  {
    hide FrameInv, PteInv, RefInv, LiveInv, CountInv, ListInv, ExclInv, VaInv, MemInv, HashInv, CoherentInv, CacheInv;
    ShapeFacts(s, sl);
    FreshPage(s, f);
    BusyNot(s, f);
    AllocKeeps(s, f);
    var a := Alloc(s, f);
    ReleaseKeeps(a, f);
    FillHeldKeeps(a, f, s.disk[sl]);
    CacheReadKeeps(FillHeld(a, f, s.disk[sl]), f, sl);
    ActiveAddKeeps(CacheRead(FillHeld(a, f, s.disk[sl]), f, sl), f);
  }

  lemma {:induction false} SameCoherent(s: State, t: State)
    requires Inv(s) && Core(t) && t.pte == s.pte && t.swap == s.swap && t.dirty == s.dirty && t.busy == s.busy
    requires t.index == s.index && t.disk == s.disk && t.ram == s.ram
    ensures Inv(t)
  {
    hide FrameInv, PteInv, RefInv, LiveInv, CountInv, ListInv, ExclInv, VaInv, MemInv, HashInv, CoherentInv, CacheInv;
  }

  lemma {:induction false} ShapeFacts(s: State, sl: nat)
    requires Core(s) && Used(s.memMap, sl)
    ensures sl < |s.disk| && |s.hash| == HASH_LIST_SIZE
  {
  }

  ghost predicate SameFrame(s: State, k: Key, f: nat) {
    k in s.pte && s.pte[k].Present? && s.pte[k].frame == f
  }

  /** MayMap, judged before the old entry k is removed. */
  ghost predicate MayInsert(s: State, k: Key, f: nat, w: bool) {
    && ((RefKeys(s.pte, f) == {} && f !in s.swap) || (f in s.frameVa && s.frameVa[f] == k.va))
    && (if w then
          RefKeys(s.pte, f) == {} &&
          (f in s.swap ==>
             f in s.index && s.index[f] < |s.memMap| &&
             s.memMap[s.index[f]] == if k in s.pte && s.pte[k] == Swapped(s.index[f]) then 1 else 0)
        else forall j :: j in RefKeys(s.pte, f) ==> j in s.pte && s.pte[j].Present? && !s.pte[j].w)
  }

  lemma {:induction false} InsertFresh(s: State, t: State, k: Key, f: nat, w: bool)
    requires Core(s) && f in s.ref && t == PinPage(s, f) && MayInsert(s, k, f, w) && k !in s.pte
    ensures MayMap(t, k, f, w) && f in t.ram
  {
    hide PteInv, RefInv, LiveInv, CountInv, ListInv, ExclInv, VaInv, MemInv, HashInv, CoherentInv, CacheInv, RefKeys;
  }

  lemma {:induction false} InsertAfterRemove(s: State, m: State, t: State, k: Key, f: nat, w: bool)
    requires Core(s) && f in s.ref && m == PinPage(s, f) && MayInsert(s, k, f, w) && k in s.pte && !SameFrame(s, k, f)
    requires Dropped(m, t, k) && t.pte == m.pte - {k}
    ensures MayMap(t, k, f, w) && f in t.ram && t.ram == s.ram && t.pin == Some(f) && t.procs == s.procs
    ensures t.busy == s.busy && t.off == s.off && t.held == s.held
  {
    hide PteInv, LiveInv, CountInv, ListInv, ExclInv, VaInv, MemInv, HashInv, CoherentInv, CacheInv;
    KeysAfterDel(s.pte, k);
    assert s.ref[f] >= 0;
  }

  /** What page_insert of another frame leaves behind, besides the invariant. */
  ghost predicate Inserted(s: State, t: State, k: Key, f: nat, w: bool) {
    && t.pte == s.pte[k := Present(f, w, false, false)] && f in s.ram && t.mem == s.mem[k := s.ram[f]]
    && t.procs == s.procs && t.busy == s.busy && t.off == s.off && t.pin == None && t.held == s.held - {f}
    && t.ram == s.ram && t.disk == s.disk && t.index == s.index && (f in s.swap ==> f in t.swap)
    && t.dirty == (if k in s.pte then s.dirty + DirtyBy(s, k) else s.dirty)
    && (k !in s.pte ==> t.swap == s.swap)
  }

  /** What removing the old entry while page f is pinned leaves behind. */
  ghost predicate OldCleared(s: State, t: State, k: Key, f: nat) {
    && k in s.pte && t.pte == s.pte - {k} && t.mem == s.mem - {k} && t.ram == s.ram && t.disk == s.disk
    && t.index == s.index
    && t.procs == s.procs && t.busy == s.busy && t.off == s.off && t.held == s.held && f in t.ram && t.pin == Some(f)
    && (f in s.swap ==> f in t.swap) && t.dirty == s.dirty + DirtyBy(s, k)
  }

  lemma {:induction false} InsertedReplaced(s: State, m: State, k: Key, f: nat, w: bool)
    requires OldCleared(s, m, k, f)
    ensures Inserted(s, MapPinned(m, k, f, w), k, f, w)
  {
    assert m.pte[k := Present(f, w, false, false)] == s.pte[k := Present(f, w, false, false)];
    assert m.mem[k := m.ram[f]] == s.mem[k := s.ram[f]];
  }

  lemma {:induction false} InsertedFresh(s: State, k: Key, f: nat, w: bool)
    requires f in s.ref && f in s.ram && k !in s.pte
    ensures Inserted(s, MapPinned(PinPage(s, f), k, f, w), k, f, w)
  {
  }

  /** The pinned page stays cached while the old entry goes. */
  lemma {:induction false} KeptAfterRemove(s: State, m: State, t: State, k: Key, f: nat)
    requires f in s.ref && s.ref[f] >= 0 && m == PinPage(s, f) && k in s.pte && Dropped(m, t, k)
    ensures t.disk == s.disk && t.index == s.index && (f in s.swap ==> f in t.swap)
            && t.dirty == s.dirty + DirtyBy(s, k)
  {
  }

  lemma {:induction false} RefPositive(s: State, f: nat)
    requires Core(s) && f in s.ref
    ensures s.ref[f] >= 0
  {
    hide FrameInv, PteInv, LiveInv, CountInv, ListInv, ExclInv, VaInv, MemInv, HashInv, CoherentInv, CacheInv, RefKeys;
  }

  lemma {:induction false} DroppedPresent(s: State, t: State, k: Key)
    requires k in s.pte && s.pte[k].Present? && SameKernel(s, t) && t.swap == s.swap && t.memMap == s.memMap
    requires t.ram == s.ram && t.index == s.index && t.disk == s.disk && t.frameVa == s.frameVa && t.slotVa == s.slotVa
    requires t.dirty == s.dirty + DirtyBy(s, k)
    ensures Dropped(s, t, k)
  {
  }

  /** A page that is not cached loses a reference, and is freed with the last one. */
  lemma {:induction false} AnonGone(s: State, k: Key)
    requires Inv(s) && k in s.pte && s.pte[k].Present? && s.pte[k].frame !in s.swap
    ensures s.pte[k].frame in s.ref && s.pte[k].frame !in s.held
    ensures var f := s.pte[k].frame; var d := DropPresent(s, k); var t := if s.ref[f] == 1 then Release(d, f) else d;
            Inv(t) && Dropped(s, t, k)
  {
    hide FrameInv, PteInv, RefInv, LiveInv, CountInv, ListInv, ExclInv, VaInv, MemInv, HashInv, CoherentInv,
      CacheInv, Dropped;
    var f := s.pte[k].frame;
    MappedPage(s, k);
    NotHeld(s, k);
    DropPresentKeeps(s, k);
    var d := DropPresent(s, k);
    if s.ref[f] == 1 {
      Unreferenced(d, f);
      ReleaseKeeps(d, f);
      SameCoherent(d, Release(d, f));
      assert Release(d, f).held == s.held;
      DroppedPresent(s, Release(d, f), k);
    } else {
      DroppedPresent(s, d, k);
    }
  }

  lemma {:induction false} NotHeld(s: State, k: Key)
    requires Core(s) && k in s.pte && s.pte[k].Present?
    ensures s.pte[k].frame !in s.held
  {
    hide FrameInv, RefInv, LiveInv, CountInv, ListInv, ExclInv, VaInv, MemInv, HashInv, CoherentInv, CacheInv;
  }

  lemma {:induction false} DroppedCleared(s: State, t: State, k: Key)
    requires Dropped(s, t, k)
    ensures Dropped(s, Cleared(t, k), k)
  {
  }

  lemma {:induction false} OffSame(s: State, t: State)
    requires OnLists(s) && t.off == s.off && t.busy == s.busy
    ensures OnLists(t)
  {
  }

  lemma {:induction false} FreeZeroSlotProof(s: State, k: Key, sl: nat, f: nat)
    requires Inv(Cleared(s, k)) && OnLists(s) && 0 < sl < |s.memMap| && s.memMap[sl] == 0
    requires sl in s.cache && s.cache[sl] == f && f in s.ref && s.ref[f] == 0
    ensures f in s.swap && f in s.index && s.index[f] == sl && |s.hash| == HASH_LIST_SIZE && f !in s.held && f !in s.off
    ensures Inv(Release(Uncache(ListDel(Cleared(s, k), f), f, true), f))
  {
    hide FrameInv, PteInv, RefInv, LiveInv, CountInv, ListInv, ExclInv, VaInv, MemInv, HashInv, CoherentInv, CacheInv;
    var d := Cleared(s, k);
    ZeroSlotPage(d, sl);
    CachedPage(d, f);
    ListDelKeeps(d, f);
    UncacheKeeps(ListDel(d, f), f, true);
    Unreferenced(d, f);
    ReleaseKeeps(Uncache(ListDel(d, f), f, true), f);
  }

  /** Every cached page has its slot, and the slot's page is that page. */
  lemma {:induction false} CachedSlots(s: State)
    requires Core(s)
    ensures forall f :: f in s.swap ==> f in s.index && s.index[f] in s.cache && s.cache[s.index[f]] == f
    ensures CacheInv(s.cache, s.swap, s.index, s.memMap) && HashInv(s.hash, s.swap, s.index)
    ensures |s.hash| == HASH_LIST_SIZE
  {
  }

  /** A slot without entries is occupied by a cached page that is not being written out. */
  lemma {:induction false} ZeroSlotPage(s: State, sl: nat)
    requires Core(s) && OnLists(s) && 0 < sl < |s.memMap| && s.memMap[sl] == 0
    ensures sl in s.cache && s.cache[sl] in s.swap && s.cache[sl] in s.index && s.index[s.cache[sl]] == sl
    ensures s.busy != Some(s.cache[sl]) && s.cache[sl] !in s.off && s.cache[sl] !in s.held && |s.hash| == HASH_LIST_SIZE
  {
    hide FrameInv, PteInv, RefInv, ListInv, ExclInv, VaInv, MemInv;
  }
}
