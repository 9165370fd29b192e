/** The state behind private virtual memory: page-table entries, page frames with their
    reference counts and flags, the swap-slot counts, the swap cache (hash lists and the two
    page lists) and the swap disk, together with the invariant every kernel operation keeps.

    The fields of `struct Page` are kept one map or set per field.  The field `mem` is not
    stored by the kernel: it is the memory each process believes it has, page by page, and
    `MemInv` ties it to what frames, cache and disk really hold. */
module PagingState {
  import opened Common

  /** A page of a process: the address space and the page number. */
  datatype Key = Key(pid: nat, va: nat)

  /** Contents of a page, by offset. */
  type Data = map<nat, int>

  /** A nonzero page-table entry: present with its W, D and A bits, or a swap entry. */
  datatype Pte = Present(frame: nat, w: bool, d: bool, a: bool) | Swapped(slot: nat)

  type PageTable = map<Key, Pte>

  const SWAP_UNUSED: nat := 0xFFFF
  const MAX_SWAP_REF: nat := 0xFFFE
  const MAX_PROCESS: nat := 4096
  const HASH_LIST_SIZE: nat := 1024

  /** entry_hashfn on the entry `slot << 8`: 32-bit multiplicative hash, top ten bits. */
  function HashFn(slot: nat): (h: nat)
    ensures h < HASH_LIST_SIZE
  {
    (((slot * 256) % 0x1_0000_0000) * 0x9e37_0001) % 0x1_0000_0000 / 0x40_0000
  }

  datatype State = State(
    procs: set<nat>,
    pte: PageTable,
    free: set<nat>,
    ram: map<nat, Data>,
    ref: map<nat, int>,      // allocated pages and their counts
    swap: set<nat>,          // PG_swap
    dirty: set<nat>,         // PG_dirty
    hot: set<nat>,           // PG_active
    index: map<nat, nat>,    // page->index, as a slot number
    memMap: seq<nat>,
    hash: seq<seq<nat>>,
    active: seq<nat>,
    inactive: seq<nat>,
    disk: seq<Data>,
    next: nat,               // where try_alloc_swap_entry resumes
    // What the proof records besides:
    mem: map<Key, Data>,     // each process's own memory
    cache: map<nat, nat>,    // slot -> the page cached for it
    off: set<nat>,           // PG_swap pages currently on neither page list
    busy: Option<nat>,       // page being written out by page_launder
    held: set<nat>,          // freshly allocated pages a kernel path holds
    pin: Option<nat>,        // page whose count page_insert has raised in advance
    frameVa: map<nat, nat>,  // the one page number a frame is mapped at
    slotVa: map<nat, nat>    // the one page number a slot belongs to
  )

  ghost function RefKeys(pte: PageTable, f: nat): set<Key> {
    set k | k in pte && pte[k].Present? && pte[k].frame == f
  }

  ghost function SlotKeys(pte: PageTable, sl: nat): set<Key> {
    set k | k in pte && pte[k].Swapped? && pte[k].slot == sl
  }

  ghost predicate Used(memMap: seq<nat>, sl: nat) {
    0 < sl < |memMap| && memMap[sl] != SWAP_UNUSED
  }

  ghost predicate FrameInv(free: set<nat>, ref: map<nat, int>, ram: map<nat, Data>) {
    free !! ref.Keys && ram.Keys == free + ref.Keys
  }

  ghost predicate ShapeInv(procs: set<nat>, memMap: seq<nat>, disk: seq<Data>, next: nat) {
    |disk| == |memMap| && 1 <= next < |memMap| && |procs| <= MAX_PROCESS
  }

  ghost predicate PteInv(pte: PageTable, procs: set<nat>, ref: map<nat, int>, held: set<nat>, memMap: seq<nat>) {
    forall k :: k in pte ==>
      && k.pid in procs
      && (pte[k].Present? ==> pte[k].frame in ref && pte[k].frame !in held)
      && (pte[k].Swapped? ==> Used(memMap, pte[k].slot))
  }

  /** One extra count where `who` is the given number. */
  ghost function Extra(who: Option<nat>, n: nat): nat {
    if who == Some(n) then 1 else 0
  }

  /** page->ref counts exactly the present entries that name the frame. */
  ghost predicate RefInv(pte: PageTable, ref: map<nat, int>, pin: Option<nat>) {
    forall f :: f in ref ==> ref[f] == |RefKeys(pte, f)| + Extra(pin, f)
  }

  /** Every allocated page is referenced, cached for a slot, or held by a kernel path. */
  ghost predicate LiveInv(ref: map<nat, int>, swap: set<nat>, held: set<nat>, pin: Option<nat>) {
    && swap <= ref.Keys && held <= ref.Keys && held !! swap
    && (pin.Some? ==> pin.value in ref)
    && (forall f :: f in ref && ref[f] == 0 && f !in swap ==> f in held)
  }

  /** The slot page_launder is writing. */
  ghost function BusySlot(busy: Option<nat>, index: map<nat, nat>): Option<nat> {
    if busy.Some? && busy.value in index then Some(index[busy.value]) else None
  }

  /** mem_map counts exactly the swap entries that name the slot (plus the one page_launder
      adds while it writes); SWAP_UNUSED means that neither an entry nor a page uses it. */
  ghost predicate CountInv(pte: PageTable, memMap: seq<nat>, slots: set<nat>, writing: Option<nat>) {
    && (writing.Some? ==> writing.value in slots)
    && (forall sl: nat :: 0 < sl < |memMap| ==>
      if memMap[sl] == SWAP_UNUSED then
        SlotKeys(pte, sl) == {} && sl !in slots
      else
        && memMap[sl] == |SlotKeys(pte, sl)| + Extra(writing, sl)
        && memMap[sl] <= MAX_SWAP_REF
        && (memMap[sl] == 0 ==> sl in slots))
  }

  /** At most one cached page per slot, and it carries the slot in its index. */
  ghost predicate CacheInv(cache: map<nat, nat>, swap: set<nat>, index: map<nat, nat>, memMap: seq<nat>) {
    && (forall sl :: sl in cache ==>
          Used(memMap, sl) && cache[sl] in swap && cache[sl] in index && index[cache[sl]] == sl)
    && (forall f :: f in swap ==> f in index && index[f] in cache && cache[index[f]] == f)
  }

  /** Each hash list holds exactly the cached pages whose entry hashes to it, once each. */
  ghost predicate HashInv(hash: seq<seq<nat>>, swap: set<nat>, index: map<nat, nat>) {
    && |hash| == HASH_LIST_SIZE
    && (forall f :: f in swap ==> f in index)
    && (forall b :: 0 <= b < HASH_LIST_SIZE ==> NoDup(hash[b]))
    && (forall b, f :: 0 <= b < HASH_LIST_SIZE ==>
          (f in hash[b] <==> f in swap && HashFn(index[f]) == b))
  }

  /** The active and inactive lists hold each cached page once, as PG_active says. */
  ghost predicate ListInv(active: seq<nat>, inactive: seq<nat>, swap: set<nat>, hot: set<nat>, off: set<nat>) {
    && NoDup(active) && NoDup(inactive) && off <= swap
    && (forall f :: f in active <==> f in swap && f in hot && f !in off)
    && (forall f :: f in inactive <==> f in swap && f !in hot && f !in off)
  }

  /** A writable entry is the only reference to its frame and to the frame's slot. */
  ghost predicate ExclInv(pte: PageTable, swap: set<nat>, index: map<nat, nat>, memMap: seq<nat>) {
    forall k :: k in pte && pte[k].Present? && pte[k].w ==>
      && RefKeys(pte, pte[k].frame) == {k}
      && (pte[k].frame in swap ==>
            && pte[k].frame in index && index[pte[k].frame] < |memMap|
            && memMap[index[pte[k].frame]] == 0)
  }

  /** All references to a frame and its slot are at the same page number. */
  ghost predicate VaInv(pte: PageTable, cache: map<nat, nat>, frameVa: map<nat, nat>, slotVa: map<nat, nat>) {
    && (forall k :: k in pte && pte[k].Present? ==>
          pte[k].frame in frameVa && frameVa[pte[k].frame] == k.va)
    && (forall k :: k in pte && pte[k].Swapped? ==>
          pte[k].slot in slotVa && slotVa[pte[k].slot] == k.va)
    && (forall sl :: sl in cache ==>
          sl in slotVa && cache[sl] in frameVa && frameVa[cache[sl]] == slotVa[sl])
  }

  /** What the processes see is what frames, cache and disk hold. */
  ghost predicate MemInv(mem: map<Key, Data>, pte: PageTable, ram: map<nat, Data>, cache: map<nat, nat>,
      disk: seq<Data>) {
    && mem.Keys == pte.Keys
    && (forall k :: k in pte && pte[k].Present? ==>
          pte[k].frame in ram && ram[pte[k].frame] == mem[k])
    && (forall k :: k in pte && pte[k].Swapped? ==>
          if pte[k].slot in cache then
            cache[pte[k].slot] in ram && ram[cache[pte[k].slot]] == mem[k]
          else
            pte[k].slot < |disk| && disk[pte[k].slot] == mem[k])
  }

  /** Some entry with the hardware dirty bit maps the frame. */
  ghost predicate HardwareDirty(pte: PageTable, f: nat) {
    exists k :: k in RefKeys(pte, f) && pte[k].d
  }

  /** A cached page that nothing marks dirty equals its copy on disk. */
  ghost predicate CoherentInv(pte: PageTable, swap: set<nat>, dirty: set<nat>, busy: Option<nat>,
                              index: map<nat, nat>, disk: seq<Data>, ram: map<nat, Data>) {
    forall f :: f in swap && f !in dirty && busy != Some(f) && !HardwareDirty(pte, f) ==>
      f in index && index[f] < |disk| && f in ram && disk[index[f]] == ram[f]
  }

  ghost predicate Core(s: State) {
    && ShapeInv(s.procs, s.memMap, s.disk, s.next)
    && FrameInv(s.free, s.ref, s.ram)
    && PteInv(s.pte, s.procs, s.ref, s.held, s.memMap)
    && RefInv(s.pte, s.ref, s.pin)
    && LiveInv(s.ref, s.swap, s.held, s.pin)
    && CountInv(s.pte, s.memMap, s.cache.Keys, BusySlot(s.busy, s.index))
    && CacheInv(s.cache, s.swap, s.index, s.memMap)
    && HashInv(s.hash, s.swap, s.index)
    && ListInv(s.active, s.inactive, s.swap, s.hot, s.off)
    && ExclInv(s.pte, s.swap, s.index, s.memMap)
    && VaInv(s.pte, s.cache, s.frameVa, s.slotVa)
    && MemInv(s.mem, s.pte, s.ram, s.cache, s.disk)
    && (s.busy.Some? ==> s.busy.value in s.off)
  }

  ghost predicate Inv(s: State) {
    Core(s) && CoherentInv(s.pte, s.swap, s.dirty, s.busy, s.index, s.disk, s.ram)
  }

  /** Between kernel operations nothing is half done. */
  ghost predicate Quiet(s: State) {
    && s.held == {} && s.pin == None
    && s.off == (if s.busy.Some? then {s.busy.value} else {})
  }
}
