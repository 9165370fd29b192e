/** Processes, the multilevel run queue and the CPUs of the scheduler, with what every step keeps.
    CPU c has lapic id c, and its idle process has pid c. */
module SchedState {
  import opened Common

  const LEVELS: nat := 4

  datatype PState = Runnable | Sleeping | Zombie

  /** struct proc_struct: state, address space, last run queue, time slice. */
  datatype P = P(state: PState, mm: Option<nat>, rq: Option<nat>, slice: nat)

  type Procs = map<nat, P>
  type Queues = seq<seq<nat>>

  /** lapic: the CPU an address space is loaded on, if any.  holder: the CPU in the kernel. */
  datatype Sys = Sys(procs: Procs, queues: Queues, num: seq<nat>, current: seq<nat>, lapic: map<nat, Option<nat>>,
      holder: Option<nat>)

  function MaxSlice(level: nat): (r: nat)
    ensures r > 0
  {
    if level == 0 then 8 else 2 * MaxSlice(level - 1)
  }

  ghost predicate Queued(queues: Queues, p: nat) {
    exists l :: 0 <= l < |queues| && p in queues[l]
  }

  /** A process as it sits in queue l. */
  ghost predicate Placed(procs: Procs, n: nat, p: nat, l: nat) {
    p in procs && p >= n && procs[p].state == Runnable && procs[p].rq == Some(l) && procs[p].slice > 0
  }

  lemma {:induction false} QueuedPlaced(procs: Procs, queues: Queues, num: seq<nat>, n: nat, p: nat) returns (l: nat)
    requires QueueInv(procs, queues, num, n) && Queued(queues, p)
    ensures l < LEVELS && p in queues[l] && Placed(procs, n, p, l)
  {
    l :| l < LEVELS && p in queues[l];
  }

  /** The run queues hold real runnable processes, each in the one queue it names. */
  ghost predicate QueueInv(procs: Procs, queues: Queues, num: seq<nat>, n: nat) {
    && |queues| == |num| == LEVELS
    && (forall l :: 0 <= l < LEVELS ==> num[l] == |queues[l]| && NoDup(queues[l]))
    && (forall l: nat, p: nat :: l < LEVELS && p in queues[l] ==> Placed(procs, n, p, l))
    && (forall p :: p in procs && procs[p].rq.Some? ==> procs[p].rq.value < LEVELS)
  }

  /** Every runnable process is queued or running, never both. */
  ghost predicate RunInv(procs: Procs, queues: Queues, current: seq<nat>) {
    && (forall p :: p in procs && p >= |current| && procs[p].state == Runnable && !Queued(queues, p) ==> p in current)
    && (forall c :: 0 <= c < |current| ==> !Queued(queues, current[c]))
  }

  /** CPUs run different processes; only the one in the kernel may run one that is not runnable. */
  ghost predicate CurInv(procs: Procs, current: seq<nat>, holder: Option<nat>) {
    && NoDup(current)
    && (forall c :: 0 <= c < |current| ==>
          && current[c] in procs && (current[c] == c || current[c] >= |current|)
          && (procs[current[c]].state == Runnable || holder == Some(c))
          && c in procs && procs[c].mm == None && procs[c].state == Runnable)
    && (holder.Some? ==> holder.value < |current|)
  }

  /** An address space is loaded on CPU c exactly when the process CPU c runs uses it. */
  ghost predicate MmInv(procs: Procs, current: seq<nat>, lapic: map<nat, Option<nat>>) {
    && (forall p :: p in procs && procs[p].mm.Some? ==> procs[p].mm.value in lapic)
    && (forall c: nat ::
        c < |current| && current[c] in procs && procs[current[c]].mm.Some? ==>
          lapic[procs[current[c]].mm.value] == Some(c))
    && (forall m :: m in lapic && lapic[m].Some? ==>
          lapic[m].value < |current| && current[lapic[m].value] in procs
            && procs[current[lapic[m].value]].mm == Some(m))
  }

  ghost predicate Inv(s: Sys) {
    && QueueInv(s.procs, s.queues, s.num, |s.current|) && RunInv(s.procs, s.queues, s.current)
    && CurInv(s.procs, s.current, s.holder) && MmInv(s.procs, s.current, s.lapic)
  }

  /** No address space runs on two CPUs at once. */
  lemma {:induction false} OneCpuPerSpace(s: Sys, c: nat, d: nat)
    requires Inv(s) && c < |s.current| && d < |s.current| && s.current[c] in s.procs && s.current[d] in s.procs
    requires s.procs[s.current[c]].mm.Some? && s.procs[s.current[c]].mm == s.procs[s.current[d]].mm
    ensures c == d
  {
    assert s.lapic[s.procs[s.current[c]].mm.value] == Some(c);
    assert s.lapic[s.procs[s.current[d]].mm.value] == Some(d);
  }

  /** The queues from the highest priority down. */
  ghost function All(queues: Queues): seq<nat> {
    if queues == [] then [] else queues[0] + All(queues[1..])
  }

  lemma {:induction false} AllElems(queues: Queues)
    ensures forall p :: p in All(queues) <==> Queued(queues, p)
  {
    if queues != [] {
      AllElems(queues[1..]);
      forall p ensures p in All(queues) <==> Queued(queues, p) {
        if Queued(queues, p) && p !in queues[0] {
          var l :| 0 <= l < |queues| && p in queues[l];
          assert p in queues[1..][l - 1];
        }
        if Queued(queues[1..], p) {
          var l :| 0 <= l < |queues[1..]| && p in queues[1..][l];
          assert p in queues[l + 1];
        }
      }
    }
  }

  lemma {:induction false} AllDistinct(queues: Queues)
    requires forall l :: 0 <= l < |queues| ==> NoDup(queues[l])
    requires forall l, m, p :: 0 <= l < m < |queues| && p in queues[l] ==> p !in queues[m]
    ensures NoDup(All(queues))
  {
    if queues != [] {
      var rest := queues[1..];
      assert forall l :: 0 <= l < |rest| ==> rest[l] == queues[l + 1];
      AllDistinct(rest);
      AllElems(rest);
      var all := All(queues);
      forall i, j | 0 <= i < j < |all| ensures all[i] != all[j] {
        if i < |queues[0]| <= j {
          assert All(rest)[j - |queues[0]|] in All(rest);
          assert Queued(rest, all[j]);
          assert all[i] in queues[0];
        }
      }
    }
  }

  /** A runnable process is in exactly one place: once in one queue, or on one CPU. */
  lemma {:induction false} OnePlace(s: Sys, p: nat)
    requires Inv(s) && p in s.procs && p >= |s.current| && s.procs[p].state == Runnable
    ensures NoDup(All(s.queues)) && NoDup(s.current)
    ensures p in All(s.queues) <==> p !in s.current
  {
    AllElems(s.queues);
    AllDistinct(s.queues);
  }

  /** The head of the first nonempty queue is first overall. */
  lemma {:induction false} AllFirst(queues: Queues, l: nat)
    requires l < |queues| && queues[l] != [] && forall k :: 0 <= k < l ==> queues[k] == []
    ensures All(queues) != [] && All(queues)[0] == queues[l][0]
    ensures All(queues[l := queues[l][1..]]) == All(queues)[1..]
  {
    var queues' := queues[l := queues[l][1..]];
    if l > 0 {
      AllFirst(queues[1..], l - 1);
      assert queues'[1..] == queues[1..][l - 1 := queues[l][1..]];
    } else {
      assert queues'[1..] == queues[1..];
    }
  }

  lemma {:induction false} AllNone(queues: Queues)
    requires forall k :: 0 <= k < |queues| ==> queues[k] == []
    ensures All(queues) == []
  {
    if queues != [] {
      AllNone(queues[1..]);
    }
  }

  /** Only queueing data differs. */
  ghost predicate SameCore(procs: Procs, procs': Procs) {
    procs'.Keys == procs.Keys
      && forall p :: p in procs ==> procs'[p].state == procs[p].state && procs'[p].mm == procs[p].mm
  }

  // Queueing.

  /** Where MLFQ_enqueue puts a process: at the top, or one level down if its slice is used up. */
  function Target(p: P): (l: nat)
    ensures p.rq.Some? && p.rq.value < LEVELS ==> l < LEVELS
    ensures p.rq.None? ==> l == 0
  {
    if p.rq.Some? && p.slice == 0 then
      if p.rq.value + 1 == LEVELS then p.rq.value else p.rq.value + 1
    else 0
  }

  function Sliced(p: P, l: nat): P {
    p.(rq := Some(l), slice := if p.slice == 0 || p.slice > MaxSlice(l) then MaxSlice(l) else p.slice)
  }

  lemma {:induction false} EnqueueKeeps(procs: Procs, queues: Queues, num: seq<nat>, n: nat, p: nat)
    requires QueueInv(procs, queues, num, n) && p in procs && p >= n && procs[p].state == Runnable && !Queued(queues, p)
    ensures var l := Target(procs[p]);
            && l < LEVELS && |queues| == |num| == LEVELS
            && var procs' := procs[p := Sliced(procs[p], l)];
               var queues' := queues[l := queues[l] + [p]];
               && QueueInv(procs', queues', num[l := num[l] + 1], n) && SameCore(procs, procs')
               && (forall x :: Queued(queues', x) <==> Queued(queues, x) || x == p)
  {
    var l := Target(procs[p]);
    assert procs[p].rq.Some? ==> procs[p].rq.value < LEVELS;
    var procs' := procs[p := Sliced(procs[p], l)];
    var queues' := queues[l := queues[l] + [p]];
    forall k | 0 <= k < LEVELS ensures p !in queues[k] {
    }
    forall x ensures Queued(queues', x) <==> Queued(queues, x) || x == p {
      assert p in queues'[l];
      if Queued(queues, x) {
        var k :| 0 <= k < LEVELS && x in queues[k];
        assert x in queues'[k];
      }
      if Queued(queues', x) && x != p {
        var k :| 0 <= k < LEVELS && x in queues'[k];
        assert x in queues[k];
      }
    }
    forall k: nat, x: nat | k < LEVELS && x in queues'[k] ensures Placed(procs', n, x, k) {
      if x != p {
        assert x in queues[k] && Placed(procs, n, x, k);
      } else {
        assert k == l;
      }
    }
    forall k | 0 <= k < LEVELS ensures NoDup(queues'[k]) {
      assert p !in queues[k];
    }
  }

  lemma {:induction false} DequeueKeeps(procs: Procs, queues: Queues, num: seq<nat>, n: nat, p: nat, l: nat)
    requires QueueInv(procs, queues, num, n) && l < LEVELS && p in queues[l]
    ensures |queues| == |num| == LEVELS && num[l] > 0
    ensures var queues' := queues[l := Without(queues[l], p)];
            && QueueInv(procs, queues', num[l := num[l] - 1], n)
            && (forall x :: Queued(queues', x) <==> Queued(queues, x) && x != p)
  {
    WithoutNoDup(queues[l], p);
    assert Placed(procs, n, p, l);
    var queues' := queues[l := Without(queues[l], p)];
    forall x ensures Queued(queues', x) <==> Queued(queues, x) && x != p {
      if Queued(queues, x) && x != p {
        var k :| 0 <= k < LEVELS && x in queues[k];
        assert x in queues'[k];
      }
      if Queued(queues', x) {
        var k :| 0 <= k < LEVELS && x in queues'[k];
        assert x in queues[k] && Placed(procs, n, x, k);
      }
    }
  }

  /** The idle processes. */
  function IdleProcs(n: nat): (r: Procs)
    ensures forall p: nat :: p in r <==> p < n
    ensures forall p :: p in r ==> r[p] == P(Runnable, None, None, 0)
  {
    if n == 0 then map[] else IdleProcs(n - 1)[n - 1 := P(Runnable, None, None, 0)]
  }
}
