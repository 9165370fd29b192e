/** What private memory is: per process a map from pages to contents, changed by operations; the
    traces that agree with it, and what that means for a process. */
module PagingSpec {
  import opened Common
  import opened PagingState

  /** What processes and the kernel may do next, in any order. */
  datatype Op =
    | DoStore(k: Key, offset: nat, v: int, vmRead: bool, vmWrite: bool, readOk: bool)
    | DoLoad(k: Key, vmRead: bool, vmWrite: bool, readOk: bool)
    | DoFork(to: nat, from: nat, start: nat, end: nat)
    | DoUnmap(pid: nat, start: nat, end: nat)
    | SwapOut(pid: nat, start: nat, end: nat, require: nat)
    | LaunderPage
    | WriteReturns(ok: bool)
    | Refill
    | DoSpawn(pid: nat)
    | DoExit(pid: nat)

  /** The processes there are and the memory each of them has, page by page. */
  datatype World = World(procs: set<nat>, mem: map<Key, Data>)

  /** What an operation did to the world.  A page touched for the first time has arbitrary
      contents. */
  datatype Event =
    | Nothing
    | Stored(k: Key, offset: nat, v: int, stale: Data)
    | Loaded(k: Key, data: Data)
    | Forked(to: nat, from: nat, start: nat, end: nat)
    | Unmapped(pid: nat, start: nat, end: nat)
    | Spawned(pid: nat)
    | Exited(pid: nat)

  ghost function Apply(w: World, e: Event): World {
    match e
    case Nothing => w
    case Stored(k, offset, v, stale) =>
      var page: Data := if k in w.mem then w.mem[k] else stale;
      w.(mem := w.mem[k := page[offset := v]])
    case Loaded(k, data) => if k in w.mem then w else w.(mem := w.mem[k := data])
    case Forked(to, from, start, end) => w.(mem := ForkMemory(w.mem, to, from, start, end))
    case Unmapped(pid, start, end) => w.(mem := Outside(w.mem, pid, start, end))
    case Spawned(pid) => w.(procs := w.procs + {pid})
    case Exited(pid) => w.(procs := w.procs - {pid})
  }

  /** A range can be copied into another process that has nothing there yet. */
  ghost predicate MayFork(w: World, to: nat, from: nat, start: nat, end: nat) {
    to in w.procs && to != from && start < end && forall k :: k in w.mem ==> !InRange(k, to, start, end)
  }

  /** Which events an operation may lead to.  An access may fail and then changes nothing; a
      load that succeeds returns the process's own page; fork, unmap, spawn and exit are
      settled by the world; the work of kswapd is invisible. */
  ghost predicate Outcome(w: World, op: Op, e: Event) {
    match op
    case DoStore(k, offset, v, _, _, _) =>
      e == Nothing || (k.pid in w.procs && e.Stored? && e.k == k && e.offset == offset && e.v == v)
    case DoLoad(k, _, _, _) =>
      || e == Nothing
      || (k.pid in w.procs && e.Loaded? && e.k == k && (k in w.mem ==> e.data == w.mem[k]))
    case DoFork(to, from, start, end) => e ==
         if MayFork(w, to, from, start, end) then Forked(to, from, start, end) else Nothing
    case DoUnmap(pid, start, end) => e == Unmapped(pid, start, end)
    case DoSpawn(pid) => e == if |w.procs| < MAX_PROCESS then Spawned(pid) else Nothing
    case DoExit(pid) => e == if forall k :: k in w.mem ==> k.pid != pid then Exited(pid) else Nothing
    case _ => e == Nothing
  }

  ghost predicate IsTrace(w: World, ops: seq<Op>, events: seq<Event>, w': World)
    decreases |ops|
  {
    |events| == |ops| &&
    if ops == [] then w' == w
    else Outcome(w, ops[0], events[0]) && IsTrace(Apply(w, events[0]), ops[1..], events[1..], w')
  }

  lemma {:induction false} TraceSnoc(w: World, ops: seq<Op>, events: seq<Event>, w': World, op: Op, e: Event)
    requires IsTrace(w, ops, events, w') && Outcome(w', op, e)
    ensures IsTrace(w, ops + [op], events + [e], Apply(w', e))
    decreases |ops|
  {
    hide Apply, Outcome;
    if ops == [] {
      assert (ops + [op])[1..] == [] && (events + [e])[1..] == [];
    } else {
      TraceSnoc(Apply(w, events[0]), ops[1..], events[1..], w', op, e);
      assert (ops + [op])[1..] == ops[1..] + [op] && (events + [e])[1..] == events[1..] + [e];
    }
  }

  /** The operation is an access or unmap by process `pid`, or a fork into it. */
  ghost predicate Involves(op: Op, pid: nat) {
    match op
    case DoStore(k, _, _, _, _, _) => k.pid == pid
    case DoLoad(k, _, _, _) => k.pid == pid
    case DoFork(to, _, _, _) => to == pid
    case DoUnmap(p, _, _) => p == pid
    case _ => false
  }

  /** Isolation: whatever the other processes and the kernel do, a process's pages keep their
      contents until it acts itself. */
  lemma {:induction false} Isolation(w: World, ops: seq<Op>, events: seq<Event>, w': World, k: Key)
    requires IsTrace(w, ops, events, w') && forall op :: op in ops ==> !Involves(op, k.pid)
    ensures k in w.mem <==> k in w'.mem
    ensures k in w.mem ==> w'.mem[k] == w.mem[k]
    decreases |ops|
  {
    if ops != [] {
      assert ops[0] in ops;
      StepIsolated(w, ops[0], events[0], k);
      Isolation(Apply(w, events[0]), ops[1..], events[1..], w', k);
    }
  }

  lemma {:induction false} StepIsolated(w: World, op: Op, e: Event, k: Key)
    requires Outcome(w, op, e) && !Involves(op, k.pid)
    ensures k in w.mem <==> k in Apply(w, e).mem
    ensures k in w.mem ==> Apply(w, e).mem[k] == w.mem[k]
  {
  }

  /** The operation stores to this very word, or unmaps its page. */
  ghost predicate Overwrites(op: Op, k: Key, offset: nat) {
    match op
    case DoStore(j, o, _, _, _, _) => j == k && o == offset
    case DoUnmap(pid, start, end) => InRange(k, pid, start, end)
    case _ => false
  }

  /** A word keeps its value until it is stored to or its page is unmapped, whatever anybody else does
      and whatever the process does elsewhere. */
  lemma {:induction false} WordKept(w: World, ops: seq<Op>, events: seq<Event>, w': World, k: Key, offset: nat)
    requires IsTrace(w, ops, events, w') && forall op :: op in ops ==> !Overwrites(op, k, offset)
    requires k in w.mem && offset in w.mem[k]
    ensures k in w'.mem && offset in w'.mem[k] && w'.mem[k][offset] == w.mem[k][offset]
    decreases |ops|
  {
    if ops != [] {
      assert ops[0] in ops;
      StepKeepsWord(w, ops[0], events[0], k, offset);
      WordKept(Apply(w, events[0]), ops[1..], events[1..], w', k, offset);
    }
  }

  lemma {:induction false} StepKeepsWord(w: World, op: Op, e: Event, k: Key, offset: nat)
    requires Outcome(w, op, e) && !Overwrites(op, k, offset) && k in w.mem && offset in w.mem[k]
    ensures var m := Apply(w, e).mem; k in m && offset in m[k] && m[k][offset] == w.mem[k][offset]
  {
    if e.Forked? {
      ForkAt(w.mem, e.to, e.from, e.start, e.end, k);
    }
  }

  /** A load after a store sees it, with anything in between that does not store to the same word or
      unmap the page. */
  lemma {:induction false} LoadSeesStore(w: World, k: Key, offset: nat, v: int, stale: Data, ops: seq<Op>,
                                         events: seq<Event>, w': World, load: Op, e: Event)
    requires IsTrace(Apply(w, Stored(k, offset, v, stale)), ops, events, w')
    requires forall op :: op in ops ==> !Overwrites(op, k, offset)
    requires load.DoLoad? && load.k == k && Outcome(w', load, e) && e.Loaded?
    ensures offset in e.data && e.data[offset] == v
  {
    WordKept(Apply(w, Stored(k, offset, v, stale)), ops, events, w', k, offset);
  }

  /** The same from the operations alone: a store that is done, anything that leaves the word alone, and a
      load that succeeds. */
  lemma {:induction false} StoreThenLoad(w: World, store: Op, ops: seq<Op>, load: Op, events: seq<Event>, w': World)
    requires store.DoStore? && load.DoLoad? && load.k == store.k
    requires IsTrace(w, [store] + ops + [load], events, w') && events[0] != Nothing && events[|events| - 1] != Nothing
    requires forall op :: op in ops ==> !Overwrites(op, store.k, store.offset)
    ensures var e := events[|events| - 1]; e.Loaded? && store.offset in e.data && e.data[store.offset] == store.v
  {
    hide IsTrace, Apply, Outcome;
    TraceHead(w, [store] + ops + [load], events, w');
    var e0, n := events[0], |events| - 1;
    assert ([store] + ops + [load])[1..] == ops + [load];
    var w1 := TraceLast(Apply(w, e0), ops, load, events[1..], w');
    StoredIs(w, store, e0);
    WordKept(Apply(w, e0), ops, events[1..][..n - 1], w1, store.k, store.offset);
    LoadedIs(w1, load, events[n]);
  }

  lemma {:induction false} TraceHead(w: World, ops: seq<Op>, events: seq<Event>, w': World)
    requires IsTrace(w, ops, events, w') && ops != []
    ensures |events| == |ops| && Outcome(w, ops[0], events[0])
    ensures IsTrace(Apply(w, events[0]), ops[1..], events[1..], w')
  {
    hide Apply, Outcome;
  }

  lemma {:induction false} TraceLast(w: World, ops: seq<Op>, op: Op, events: seq<Event>, w': World) returns (w1: World)
    requires IsTrace(w, ops + [op], events, w')
    ensures |events| == |ops| + 1 && IsTrace(w, ops, events[..|ops|], w1) && Outcome(w1, op, events[|ops|])
    decreases |ops|
  {
    hide Apply, Outcome;
    if ops == [] {
      w1 := w;
    } else {
      assert (ops + [op])[1..] == ops[1..] + [op];
      w1 := TraceLast(Apply(w, events[0]), ops[1..], op, events[1..], w');
      assert events[1..][..|ops| - 1] == events[..|ops|][1..];
    }
  }

  lemma {:induction false} StoredIs(w: World, op: Op, e: Event)
    requires op.DoStore? && Outcome(w, op, e) && e != Nothing
    ensures var m := Apply(w, e).mem; op.k in m && op.offset in m[op.k] && m[op.k][op.offset] == op.v
  {
  }

  lemma {:induction false} LoadedIs(w: World, op: Op, e: Event)
    requires op.DoLoad? && Outcome(w, op, e) && e != Nothing
    ensures e.Loaded? && (op.k in w.mem ==> e.data == w.mem[op.k])
  {
  }

  /** After a fork the child has every word of the parent's pages in the range, as it was at the fork,
      until it stores to the word itself or unmaps the page; what the parent does later does not matter. */
  lemma {:induction false} ChildHasCopy(w: World, to: nat, from: nat, start: nat, end: nat, ops: seq<Op>,
                                        events: seq<Event>, w': World, va: nat, offset: nat)
    requires to in w.procs && to != from && start <= va < end
    requires forall j :: j in w.mem && j.pid == to ==> j.va < start || end <= j.va
    requires Key(from, va) in w.mem && offset in w.mem[Key(from, va)]
    requires IsTrace(w, [DoFork(to, from, start, end)] + ops, events, w')
    requires forall op :: op in ops ==> !Overwrites(op, Key(to, va), offset)
    ensures Key(to, va) in w'.mem && offset in w'.mem[Key(to, va)]
    ensures w'.mem[Key(to, va)][offset] == w.mem[Key(from, va)][offset]
  {
    hide IsTrace, Apply;
    var fork := DoFork(to, from, start, end);
    TraceHead(w, [fork] + ops, events, w');
    assert ([fork] + ops)[1..] == ops;
    ForkedIs(w, fork, events[0], Key(to, va));
    WordKept(Apply(w, events[0]), ops, events[1..], w', Key(to, va), offset);
  }

  lemma {:induction false} ForkedIs(w: World, op: Op, e: Event, k: Key)
    requires op.DoFork? && MayFork(w, op.to, op.from, op.start, op.end) && Outcome(w, op, e)
    requires InRange(k, op.to, op.start, op.end) && Key(op.from, k.va) in w.mem
    ensures k in Apply(w, e).mem && Apply(w, e).mem[k] == w.mem[Key(op.from, k.va)]
  {
    hide ForkMemory;
    ForkAt(w.mem, op.to, op.from, op.start, op.end, k);
  }

  /** After an unmap the process has nothing in the range until it acts again, and all its other pages. */
  lemma {:induction false} UnmappedIsGone(w: World, pid: nat, start: nat, end: nat, ops: seq<Op>,
                                          events: seq<Event>, w': World, k: Key)
    requires IsTrace(w, [DoUnmap(pid, start, end)] + ops, events, w') && k.pid == pid
    requires forall op :: op in ops ==> !Involves(op, pid)
    ensures k in w'.mem <==> k in w.mem && !(start <= k.va < end)
    ensures k in w'.mem ==> w'.mem[k] == w.mem[k]
  {
    hide IsTrace;
    TraceHead(w, [DoUnmap(pid, start, end)] + ops, events, w');
    assert ([DoUnmap(pid, start, end)] + ops)[1..] == ops;
    Isolation(Apply(w, events[0]), ops, events[1..], w', k);
  }

  /** A process comes exactly if there is room for it, and goes exactly if it has given up its memory. */
  lemma {:induction false} ComesAndGoes(w: World, op: Op, e: Event, pid: nat)
    requires Outcome(w, op, e)
    ensures op == DoSpawn(pid) ==> (pid in Apply(w, e).procs <==> pid in w.procs || |w.procs| < MAX_PROCESS)
    ensures op == DoExit(pid) ==>
            (pid in Apply(w, e).procs <==> pid in w.procs && exists k :: k in w.mem && k.pid == pid)
    ensures op != DoSpawn(pid) && op != DoExit(pid) ==> (pid in Apply(w, e).procs <==> pid in w.procs)
  {
  }

  function Initial(frames: map<nat, Data>, disk: seq<Data>): State {
    State({}, map[], frames.Keys, frames, map[], {}, {}, {}, map[], seq(|disk|, _ => SWAP_UNUSED),
          seq(HASH_LIST_SIZE, _ => []), [], [], disk, 1,
          map[], map[], {}, None, {}, None, map[], map[])
  }

  lemma {:induction false} InitialInv(frames: map<nat, Data>, disk: seq<Data>)
    requires |disk| >= 2
    ensures Inv(Initial(frames, disk)) && Quiet(Initial(frames, disk))
  {
  }

  /** Between operations page counts and slot counts are exactly the entries that name the page or
      slot (one more while page_launder writes the slot); no page in use is free; a slot has at most one
      cached page. */
  lemma {:induction false} Accounting(s: State)
    requires Inv(s) && Quiet(s)
    ensures forall f :: f in s.ref ==> s.ref[f] == |RefKeys(s.pte, f)|
    ensures forall sl: nat ::
            Used(s.memMap, sl) ==> s.memMap[sl] == |SlotKeys(s.pte, sl)| + Extra(BusySlot(s.busy, s.index), sl)
    ensures forall k :: k in s.pte && s.pte[k].Present? ==> s.pte[k].frame in s.ref && s.pte[k].frame !in s.free
    ensures forall f, g :: f in s.swap && g in s.swap && s.index[f] == s.index[g] ==> f == g
  {
    hide ListInv, ExclInv, VaInv, MemInv, HashInv, CoherentInv, LiveInv;
    forall f, g | f in s.swap && g in s.swap && s.index[f] == s.index[g] ensures f == g {
      assert s.cache[s.index[f]] == f && s.cache[s.index[g]] == g;
    }
  }

  /** A writable entry shares neither its page nor the page's slot with any other entry. */
  lemma {:induction false} WritableAlone(s: State, k: Key, q: Key)
    requires Inv(s) && k in s.pte && q in s.pte && k != q && s.pte[k].Present? && s.pte[k].w
    ensures s.pte[q].Present? ==> s.pte[q].frame != s.pte[k].frame
    ensures s.pte[q].Swapped? && s.pte[k].frame in s.swap ==> s.pte[q].slot != s.index[s.pte[k].frame]
  {
    hide ListInv, VaInv, MemInv, HashInv, CoherentInv, LiveInv, FrameInv, RefInv;
    var f := s.pte[k].frame;
    assert RefKeys(s.pte, f) == {k};
    assert q !in RefKeys(s.pte, f);
    if s.pte[q].Swapped? && s.pte[k].frame in s.swap {
      var sl := s.pte[q].slot;
      assert q in SlotKeys(s.pte, sl);
      assert |SlotKeys(s.pte, sl)| > 0;
    }
  }

  /** A slot is marked unused exactly when neither an entry nor a cached page uses it. */
  lemma {:induction false} UnusedExactly(s: State, sl: nat)
    requires Inv(s) && 0 < sl < |s.memMap|
    ensures s.memMap[sl] == SWAP_UNUSED <==>
              (forall k :: k in s.pte ==> s.pte[k] != Swapped(sl))
                && (forall f :: f in s.swap ==> f in s.index && s.index[f] != sl)
  {
    hide FrameInv, PteInv, RefInv, LiveInv, ListInv, ExclInv, VaInv, MemInv, HashInv, CoherentInv;
    if s.memMap[sl] == SWAP_UNUSED {
      forall k | k in s.pte ensures s.pte[k] != Swapped(sl) {
        assert s.pte[k] == Swapped(sl) ==> k in SlotKeys(s.pte, sl);
      }
    } else {
      if forall k :: k in s.pte ==> s.pte[k] != Swapped(sl) {
        assert SlotKeys(s.pte, sl) == {};
        assert sl in s.cache;
      }
    }
  }

  /** Two readings of the same frames, entries, cache and disk agree: `mem` adds nothing. */
  lemma {:induction false} MemoryDetermined(s: State, t: State)
    requires Inv(s) && Inv(t) && t == s.(mem := t.mem)
    ensures t == s
  {
    hide FrameInv, PteInv, RefInv, LiveInv, CountInv, ListInv, ExclInv, VaInv, HashInv, CoherentInv, CacheInv;
    assert s.mem == t.mem;
  }

  ghost predicate InRange(k: Key, pid: nat, start: nat, end: nat) {
    k.pid == pid && start <= k.va < end
  }

  /** Memory once `to` has received copies of the pages of `from` in the range. */
  ghost function ForkMemory(mem: map<Key, Data>, to: nat, from: nat, start: nat, end: nat): map<Key, Data> {
    mem + map k | k in Targets(mem, to, from, start, end) :: mem[Key(from, k.va)]
  }

  ghost function Targets(mem: map<Key, Data>, to: nat, from: nat, start: nat, end: nat): set<Key>
    ensures forall k :: k in Targets(mem, to, from, start, end) <==>
            InRange(k, to, start, end) && Key(from, k.va) in mem
  {
    var t := set k | k in mem && k.pid == from && start <= k.va < end :: Key(to, k.va);
    assert forall k :: InRange(k, to, start, end) && Key(from, k.va) in mem ==> k == Key(to, Key(from, k.va).va);
    t
  }

  /** Memory without one process's pages in the range. */
  ghost function Outside(mem: map<Key, Data>, pid: nat, start: nat, end: nat): map<Key, Data> {
    map k | k in mem && !InRange(k, pid, start, end) :: mem[k]
  }

  lemma {:induction false} ForkEmpty(mem: map<Key, Data>, to: nat, from: nat, start: nat)
    ensures ForkMemory(mem, to, from, start, start) == mem
  {
  }

  lemma {:induction false} ForkStep(mem: map<Key, Data>, to: nat, from: nat, start: nat, va: nat)
    requires start <= va && to != from && Key(to, va) !in mem
    ensures var m := ForkMemory(mem, to, from, start, va);
            && Key(to, va) !in m
            && ForkMemory(mem, to, from, start, va + 1) ==
               if Key(from, va) in m then m[Key(to, va) := m[Key(from, va)]] else m
  {
    hide ForkMemory;
    var k0 := Key(to, va);
    var m, m' := ForkMemory(mem, to, from, start, va), ForkMemory(mem, to, from, start, va + 1);
    ForkAt(mem, to, from, start, va, k0);
    ForkAt(mem, to, from, start, va, Key(from, va));
    forall k ensures (k in m' <==> k in m || (k == k0 && Key(from, va) in mem))
      && (k in m ==> k in m' && m'[k] == m[k]) && (k == k0 && k in m' ==> m'[k] == m[Key(from, va)]) {
      ForkAt(mem, to, from, start, va, k);
      ForkAt(mem, to, from, start, va + 1, k);
    }
  }

  ghost predicate Copied(mem: map<Key, Data>, to: nat, from: nat, start: nat, end: nat, k: Key) {
    InRange(k, to, start, end) && Key(from, k.va) in mem
  }

  lemma {:induction false} ForkAt(mem: map<Key, Data>, to: nat, from: nat, start: nat, end: nat, k: Key)
    ensures var m := ForkMemory(mem, to, from, start, end);
            && (k in m <==> k in mem || Copied(mem, to, from, start, end, k))
            && (Copied(mem, to, from, start, end, k) ==> m[k] == mem[Key(from, k.va)])
            && (k in mem && !Copied(mem, to, from, start, end, k) ==> m[k] == mem[k])
  {
    hide Targets;
  }

  lemma {:induction false} OutsideEmpty(mem: map<Key, Data>, pid: nat, start: nat, end: nat)
    requires end < start
    ensures Outside(mem, pid, start, end) == mem
  {
  }

  lemma {:induction false} OutsideStep(mem: map<Key, Data>, pid: nat, start: nat, va: nat)
    requires start <= va
    ensures Outside(mem, pid, start, va + 1) == Outside(mem, pid, start, va) - {Key(pid, va)}
  {
  }
}
