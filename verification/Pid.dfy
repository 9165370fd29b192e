/** get_pid of process/proc.c with the process list it scans. */
module Pid {
  import opened Common

  const MAX_PROCESS: nat := 4096
  const MAX_PID: nat := 2 * MAX_PROCESS

  /** No pid of the list lies in the interval. */
  ghost predicate Clear(list: seq<nat>, from: int, to: int) {
    forall p :: p in list ==> !(from <= p < to)
  }

  /** Pids passed on the way from `from` to `to`, starting over at 1 after MAX_PID. */
  ghost function Distance(from: nat, to: nat): int {
    if from <= to then to - from else MAX_PID - from + to - 1
  }

  /** Every pid of the interval is in use. */
  ghost predicate Taken(list: seq<nat>, from: nat, to: nat) {
    forall p: nat :: from <= p < to ==> p in list
  }

  /** Going up from `from`, and at MAX_PID over to 1, only used pids lie before `to`. */
  ghost predicate Passed(list: seq<nat>, from: nat, to: nat) {
    (from <= to && Taken(list, from, to)) || (Taken(list, from, MAX_PID) && Taken(list, 1, to))
  }

  /** A pid below the number of CPUs is free where the search from `from` gets to it. */
  ghost predicate HandsOutIdle(list: seq<nat>, from: nat, cpus: nat) {
    (from < cpus && !Taken(list, from, cpus)) || (Taken(list, from, MAX_PID) && !Taken(list, 1, cpus))
  }

  class PidAllocator {
    const lcpuCount: nat
    var list: seq<nat>
    var lastPid: nat
    var nextSafe: nat

    /** Listed pids are distinct, and none lies strictly between last_pid and next_safe. */
    ghost predicate Valid()
      reads this
    {
      && 1 <= lcpuCount < MAX_PID && 1 <= lastPid <= MAX_PID && nextSafe <= MAX_PID
      && Clear(list, lastPid + 1, nextSafe)
      && NoDup(list) && forall p :: p in list ==> 1 <= p < MAX_PID
    }

    constructor (lcpus: nat)
      requires 1 <= lcpus < MAX_PID
      ensures Valid() && list == [] && lcpuCount == lcpus
    {
      lcpuCount, list := lcpus, [];
      nextSafe, lastPid := MAX_PID, MAX_PID;
    }

    /** get_pid: with fewer than MAX_PROCESS processes it returns, and the pid is the first unused
        one after the last pid handed out; past the largest pid the search begins at lcpu_count.  It is the
        pid of an idle process exactly when only such a pid is left on the way, or after going round to
        1 one of them is not listed. */
    method GetPid() returns (pid: nat)
      requires Valid() && |list| < MAX_PROCESS
      modifies this`lastPid, this`nextSafe
      ensures Valid() && pid == lastPid && 1 <= pid < MAX_PID && pid !in list
      ensures Passed(list, if old(lastPid) + 1 < MAX_PID then old(lastPid) + 1 else lcpuCount, pid)
      ensures pid < lcpuCount <==>
              HandsOutIdle(list, if old(lastPid) + 1 < MAX_PID then old(lastPid) + 1 else lcpuCount, lcpuCount)
    {
      hide Passed;
      ghost var start := if lastPid + 1 < MAX_PID then lastPid + 1 else lcpuCount;
      lastPid := lastPid + 1;
      if lastPid >= MAX_PID {
        lastPid := lcpuCount;
        Scan();
      } else if lastPid >= nextSafe {
        Scan();
      } else {
        assert Clear(list, lastPid, nextSafe);
        PassedSelf(list, lastPid);
      }
      pid := lastPid;
      IdlePid(list, start, lcpuCount, pid);
    }

    /** From the label `inside` on: scan the list until no pid of it lies in [last_pid, next_safe). */
    method Scan()
      requires |list| < MAX_PROCESS && 1 <= lastPid < MAX_PID
      modifies this`lastPid, this`nextSafe
      ensures 1 <= lastPid < nextSafe <= MAX_PID && Clear(list, lastPid, nextSafe)
              && Passed(list, old(lastPid), lastPid)
    {
      ghost var free := SomeFree(list);
      nextSafe := MAX_PID;
      var i := 0;
      while i < |list|
        invariant 0 <= i <= |list| && 1 <= lastPid < nextSafe <= MAX_PID && Clear(list[..i], lastPid, nextSafe)
        invariant Passed(list, old(lastPid), lastPid)
        decreases Distance(lastPid, free), |list| - i
      {
        var p := list[i];
        assert list[..i + 1] == list[..i] + [p];
        i := i + 1;
        if p == lastPid {
          PassOne(list, old(lastPid), lastPid);
          lastPid := lastPid + 1;
          if lastPid >= nextSafe {
            if lastPid >= MAX_PID {
              lastPid := 1;
            }
            nextSafe := MAX_PID;
            i := 0;
          }
        } else if p > lastPid && nextSafe > p {
          nextSafe := p;
        }
      }
      assert list[..i] == list;
    }

    /** set_links for the process that just got its pid. */
    method SetLinks(pid: nat)
      requires Valid() && pid == lastPid < MAX_PID && pid !in list
      modifies this`list
      ensures Valid() && list == [pid] + old(list)
    {
      list := [pid] + list;
    }

    /** remove_links. */
    method RemoveLinks(pid: nat)
      requires Valid()
      modifies this`list
      ensures Valid() && list == Without(old(list), pid)
    {
      WithoutNoDup(list, pid);
      list := Without(list, pid);
    }
  }

  lemma {:induction false} PassedSelf(list: seq<nat>, from: nat)
    ensures Passed(list, from, from)
  {
  }

  lemma {:induction false} IdlePid(list: seq<nat>, from: nat, cpus: nat, pid: nat)
    requires Passed(list, from, pid) && pid !in list && 1 <= pid < MAX_PID && cpus < MAX_PID
    ensures pid < cpus <==> HandsOutIdle(list, from, cpus)
  {
  }

  /** With the largest pid in use and the one before it handed out last, the next one is 1, which is that
      of an idle process when there are two CPUs. */
  lemma {:induction false} IdleExample()
    ensures HandsOutIdle([MAX_PID - 1], MAX_PID - 1, 2)
  {
    assert 1 !in [MAX_PID - 1];
  }

  lemma {:induction false} PassOne(list: seq<nat>, from: nat, p: nat)
    requires Passed(list, from, p) && p in list
    ensures Passed(list, from, p + 1)
    ensures p + 1 == MAX_PID ==> Passed(list, from, 1)
  {
    if from <= p && Taken(list, from, p) {
      assert Taken(list, from, p + 1) && Taken(list, 1, 1);
    } else {
      assert Taken(list, 1, p + 1);
      assert Taken(list, 1, 1);
    }
  }

  /** A short list leaves a pid free. */
  lemma {:induction false} SomeFree(list: seq<nat>) returns (f: nat)
    requires |list| < MAX_PROCESS
    ensures 1 <= f < MAX_PID && f !in list
  {
    if forall p :: 1 <= p < MAX_PID ==> p in list {
      Enough(list, MAX_PID - 1);
      assert false;
    }
    f :| 1 <= f < MAX_PID && f !in list;
  }

  lemma {:induction false} Enough(list: seq<nat>, n: nat)
    requires forall p :: 1 <= p <= n ==> p in list
    ensures |list| >= n
  {
    var all := set p: nat | 1 <= p <= n && p in list;
    RangeCard(all, 1, n);
    assert all <= Elems(list);
    SubsetCard(all, Elems(list));
    ElemsCard(list);
  }

  lemma {:induction false} ElemsCard(list: seq<nat>)
    ensures |Elems(list)| <= |list|
  {
    if list != [] {
      ElemsCard(list[1..]);
      assert Elems(list) == {list[0]} + Elems(list[1..]);
    }
  }
}
