/** schedule and wakeup_proc of schedule/sched.c over the MLFQ and RR classes, on several CPUs that
    share one run queue under the kernel lock. */
module Sched {
  import opened Common
  import opened SchedState

  datatype Op =
    | EnterKernel(c: nat)          // kern_enter
    | LeaveKernel                  // kern_leave
    | Schedule
    | Block                        // the running process goes to sleep
    | Wakeup(p: nat)
    | Exit                         // __do_exit: no address space, zombie
    | DropMm                       // do_execve gives up the old address space
    | LoadMm(m: nat)               // and load_icode installs a new one
    | Fork(p: nat, mm: Option<nat>) // a process with a new address space, or none
    | Clone(p: nat)                // or with the one of its parent
    | Tick                         // the timer charges the running process

  /** The address space of p is loaded nowhere. */
  predicate Idle(s: Sys, p: nat) {
    p in s.procs && (s.procs[p].mm.None? || (s.procs[p].mm.value in s.lapic && s.lapic[s.procs[p].mm.value].None?))
  }

  /** The first process of `order` whose address space is free, or the CPU's idle process. */
  ghost predicate Chosen(s: Sys, order: seq<nat>, c: nat, next: nat) {
    || (next == c && forall j :: 0 <= j < |order| ==> !Idle(s, order[j]))
    || exists k ::
         && 0 <= k < |order| && next == order[k] && Idle(s, next)
         && forall j :: 0 <= j < k ==> !Idle(s, order[j])
  }

  /** What schedule does first: the running process lets go of its address space and, if it can
      still run, is queued. */
  ghost function Yielded(s: Sys, c: nat): Sys
    requires c < |s.current| && s.current[c] in s.procs && |s.queues| == |s.num| == LEVELS
    requires s.procs[s.current[c]].rq.Some? ==> s.procs[s.current[c]].rq.value < LEVELS
  {
    var u := s.procs[s.current[c]];
    var t := if u.mm.Some? then s.(lapic := s.lapic[u.mm.value := None]) else s;
    if u.state == Runnable && s.current[c] >= |s.current| then Enqueued(t, s.current[c]) else t
  }

  ghost function Enqueued(s: Sys, p: nat): Sys
    requires p in s.procs && |s.queues| == |s.num| == LEVELS
    requires s.procs[p].rq.Some? ==> s.procs[p].rq.value < LEVELS
  {
    var l := Target(s.procs[p]);
    s.(procs := s.procs[p := Sliced(s.procs[p], l)], queues := s.queues[l := s.queues[l] + [p]],
        num := s.num[l := s.num[l] + 1])
  }

  /** The queues are as many as the levels, and p names one of them if it names any. */
  ghost predicate Levels(s: Sys, p: nat) {
    |s.queues| == |s.num| == LEVELS && p in s.procs && (s.procs[p].rq.Some? ==> s.procs[p].rq.value < LEVELS)
  }

  /** What wakeup_proc on CPU c makes of a process that is not runnable. */
  ghost function Awoken(s: Sys, c: nat, p: nat): Sys
    requires c < |s.current| && Levels(s, p)
  {
    var t := s.(procs := s.procs[p := s.procs[p].(state := Runnable)]);
    if s.procs[p].state == Runnable then s else if p == s.current[c] then t else Enqueued(t, p)
  }

  /** The running process of CPU c without its address space. */
  ghost function Detached(s: Sys, c: nat): Sys
    requires c < |s.current| && s.current[c] in s.procs
  {
    var u := s.procs[s.current[c]];
    if u.mm.None? then s
    else s.(procs := s.procs[s.current[c] := u.(mm := None)], lapic := s.lapic[u.mm.value := None])
  }

  /** The running process of CPU c in another state. */
  ghost function InState(s: Sys, c: nat, st: PState): Sys
    requires c < |s.current| && s.current[c] in s.procs
  {
    s.(procs := s.procs[s.current[c] := s.procs[s.current[c]].(state := st)])
  }

  /** The running process of CPU c with a new address space, loaded there. */
  ghost function Loaded(s: Sys, c: nat, m: nat): Sys
    requires c < |s.current| && s.current[c] in s.procs
  {
    s.(procs := s.procs[s.current[c] := s.procs[s.current[c]].(mm := Some(m))], lapic := s.lapic[m := Some(c)])
  }

  /** A new process, asleep, with half of its parent's time slice and an address space that may be
      new. */
  ghost function WithChild(s: Sys, c: nat, p: nat, mm: Option<nat>): Sys
    requires c < |s.current| && s.current[c] in s.procs
  {
    var u := s.procs[s.current[c]];
    s.(procs := s.procs[s.current[c] := u.(slice := u.slice - u.slice / 2)][p := P(Sleeping, mm, None, u.slice / 2)],
       lapic := if mm.Some? && mm.value !in s.lapic then s.lapic[mm.value := None] else s.lapic)
  }

  /** One tick less for the running process of CPU c, unless it is the idle process. */
  ghost function Ticked(s: Sys, c: nat): Sys
    requires c < |s.current| && s.current[c] in s.procs
  {
    var u := s.procs[s.current[c]];
    if s.current[c] >= |s.current| && u.slice > 0 then s.(procs := s.procs[s.current[c] := u.(slice := u.slice - 1)])
      else s
  }

  ghost predicate SuffixOf(a: seq<nat>, b: seq<nat>) {
    |a| <= |b| && a == b[|b| - |a|..]
  }

  /** A process set aside is queued at the top, with no more than the slice of that level. */
  ghost function Demoted(u: P): P {
    u.(rq := Some(0), slice := if u.slice > MaxSlice(0) then MaxSlice(0) else u.slice)
  }

  /** The first processes of the order, the last one first. */
  ghost predicate Backwards(aside: seq<nat>, order: seq<nat>) {
    |aside| <= |order| && forall j :: 0 <= j < |aside| ==> aside[j] == order[|aside| - 1 - j]
  }

  /** Some processes were passed over and the next one in the order taken.  `rest` is what the queues
      held then; those passed over follow in the top queue, the last one first. */
  ghost predicate Requeued(y: Sys, order: seq<nat>, aside: seq<nat>, rest: Queues, t: Sys) {
    && Backwards(aside, order) && |rest| == |y.queues| == LEVELS && y.procs.Keys == t.procs.Keys
    && All(rest) == (if |aside| < |order| then order[|aside| + 1..] else [])
    && (forall l :: 0 <= l < LEVELS ==> SuffixOf(rest[l], y.queues[l]))
    && t.queues == rest[0 := rest[0] + aside]
    && (forall p :: p in y.procs ==> t.procs[p] == if p in aside then Demoted(y.procs[p]) else y.procs[p])
  }

  ghost function LapicWith(lapic: map<nat, Option<nat>>, mm: Option<nat>, c: nat): map<nat, Option<nat>> {
    if mm.Some? then lapic[mm.value := Some(c)] else lapic
  }

  /** What schedule on CPU c does. */
  ghost predicate Rescheduled(s: Sys, c: nat, t: Sys) {
    && c < |s.current| == |t.current| && Levels(s, s.current[c]) && SameCore(s.procs, t.procs)
    && var y := Yielded(s, c);
       var next := t.current[c];
       && t.current == s.current[c := next] && t.holder == s.holder && Chosen(y, All(y.queues), c, next)
       && next in t.procs && t.lapic == LapicWith(y.lapic, t.procs[next].mm, c)
       && (forall x :: Queued(t.queues, x) <==> x in All(y.queues) && x != next)
       && (exists aside, rest :: Requeued(y, All(y.queues), aside, rest, t))
  }

  /** The effect of an operation by the CPU in the kernel; what is not possible is skipped. */
  ghost predicate Stepped(s: Sys, op: Op, t: Sys) {
    if s.holder.None? then t == if op.EnterKernel? && op.c < |s.current| then s.(holder := Some(op.c)) else s
    else
      var c := s.holder.value;
      && c < |s.current| && Levels(s, s.current[c])
      && var cur := s.current[c];
         var busy := cur >= |s.current|;
         match op
         case EnterKernel(_) => t == s
         case LeaveKernel => t == if s.procs[cur].state == Runnable then s.(holder := None) else s
         case Schedule => Rescheduled(s, c, t)
         case Block => t == if busy then InState(s, c, Sleeping) else s
         case Wakeup(p) =>
           if p in s.procs && p >= |s.current| && s.procs[p].state != Zombie
             then Levels(s, p) && t == Awoken(s, c, p) else t == s
         case Exit => t == if busy then InState(Detached(s, c), c, Zombie) else s
         case DropMm => t == Detached(s, c)
         case LoadMm(m) =>
           t == if busy && m !in s.lapic && s.procs[cur].mm == None then Loaded(s, c, m) else s
         case Fork(p, mm) =>
           t == if p !in s.procs && p >= |s.current| && (mm.Some? ==> mm.value !in s.lapic)
                then Awoken(WithChild(s, c, p, mm), c, p) else s
         case Clone(p) =>
           t == if p !in s.procs && p >= |s.current| then Awoken(WithChild(s, c, p, s.procs[cur].mm), c, p) else s
         case Tick => t == Ticked(s, c)
  }

  class Scheduler {
    var s: Sys

    constructor (n: nat)
      ensures Inv(s) && |s.current| == n && s.holder == None
    {
      s := Sys(IdleProcs(n), [[], [], [], []], [0, 0, 0, 0], seq(n, c => c), map[], None);
    }

    /** MLFQ_enqueue and RR_enqueue. */
    method Enqueue(p: nat)
      requires QueueInv(s.procs, s.queues, s.num, |s.current|) && p in s.procs && p >= |s.current|
      requires s.procs[p].state == Runnable && !Queued(s.queues, p)
      modifies this
      ensures |old(s).queues| == |old(s).num| == LEVELS
              && (old(s).procs[p].rq.Some? ==> old(s).procs[p].rq.value < LEVELS)
      ensures s == Enqueued(old(s), p)
      ensures QueueInv(s.procs, s.queues, s.num, |s.current|) && SameCore(old(s).procs, s.procs)
      ensures forall x :: Queued(s.queues, x) <==> Queued(old(s).queues, x) || x == p
      ensures var u := old(s).procs[p];
              var l := if u.rq.None? || u.slice > 0 then 0 else if u.rq.value == 3 then 3 else u.rq.value + 1;
              && s.queues == old(s).queues[l := old(s).queues[l] + [p]]
              && s.procs == old(s).procs[p := u.(rq := Some(l),
                   slice := if 0 < u.slice <= [8, 16, 32, 64][l] then u.slice else [8, 16, 32, 64][l])]
    {
      EnqueueKeeps(s.procs, s.queues, s.num, |s.current|, p);
      assert MaxSlice(1) == 16 && MaxSlice(2) == 32 && MaxSlice(3) == 64;
      var nrq := 0;
      if s.procs[p].rq.Some? && s.procs[p].slice == 0 {
        nrq := s.procs[p].rq.value + 1;
        if nrq == LEVELS {
          nrq := s.procs[p].rq.value;
        }
      }
      var u := s.procs[p];
      if u.slice == 0 || u.slice > MaxSlice(nrq) {
        u := u.(slice := MaxSlice(nrq));
      }
      s := s.(queues := s.queues[nrq := s.queues[nrq] + [p]], procs := s.procs[p := u.(rq := Some(nrq))],
          num := s.num[nrq := s.num[nrq] + 1]);
    }

    /** MLFQ_pick_next and RR_pick_next. */
    method PickNext() returns (next: Option<nat>)
      requires QueueInv(s.procs, s.queues, s.num, |s.current|)
      ensures next == if All(s.queues) == [] then None else Some(All(s.queues)[0])
      ensures next.Some? ==> Queued(s.queues, next.value)
    {
      hide All;
      for l := 0 to LEVELS
        invariant forall k :: 0 <= k < l ==> s.queues[k] == []
      {
        if s.queues[l] != [] {
          AllFirst(s.queues, l);
          assert s.queues[l][0] in s.queues[l];
          return Some(s.queues[l][0]);
        }
      }
      AllNone(s.queues);
      return None;
    }

    /** MLFQ_dequeue and RR_dequeue of the first process. */
    method Dequeue(p: nat)
      requires QueueInv(s.procs, s.queues, s.num, |s.current|) && All(s.queues) != [] && p == All(s.queues)[0]
      modifies this
      ensures s == old(s).(queues := s.queues, num := s.num) && QueueInv(s.procs, s.queues, s.num, |s.current|)
      ensures All(s.queues) == All(old(s).queues)[1..]
      ensures p in s.procs && p >= |s.current| && s.procs[p].state == Runnable && s.procs[p].slice > 0
              && s.procs[p].rq.Some?
      ensures !Queued(s.queues, p) && forall x :: Queued(s.queues, x) <==> Queued(old(s).queues, x) && x != p
      ensures |s.queues| == |old(s).queues| == LEVELS
      ensures forall l :: 0 <= l < LEVELS ==> SuffixOf(s.queues[l], old(s).queues[l])
    {
      hide All;
      FirstLevel(s.procs, s.queues, s.num, |s.current|);
      var l := s.procs[p].rq.value;
      WithoutFirst(s.queues[l]);
      DequeueKeeps(s.procs, s.queues, s.num, |s.current|, p, l);
      s := s.(queues := s.queues[l := Without(s.queues[l], p)], num := s.num[l := s.num[l] - 1]);
    }

    /** schedule on CPU c: the first queued process whose address space is loaded nowhere runs next,
        or the idle process if there is none; the processes passed over are queued again, so no
        runnable process is lost or doubled. */
    method Reschedule(c: nat) returns (next: nat, ghost order: seq<nat>, ghost aside: seq<nat>, ghost rest: Queues)
      requires Inv(s) && s.holder == Some(c)
      modifies this
      ensures Inv(s) && |old(s).current| == |s.current| && c < |s.current| && s.current == old(s).current[c := next]
              && s.holder == old(s).holder
      ensures SameCore(old(s).procs, s.procs)
      ensures old(s).current[c] in old(s).procs && |old(s).queues| == |old(s).num| == LEVELS
      ensures old(s).procs[old(s).current[c]].rq.Some? ==> old(s).procs[old(s).current[c]].rq.value < LEVELS
      ensures order == All(Yielded(old(s), c).queues) && Chosen(Yielded(old(s), c), order, c, next)
      ensures forall x :: Queued(s.queues, x) <==> x in order && x != next
      ensures next in s.procs && s.lapic == LapicWith(Yielded(old(s), c).lapic, s.procs[next].mm, c)
      ensures Requeued(Yielded(old(s), c), order, aside, rest, s)
      ensures next == if |aside| < |order| then order[|aside|] else c
    {
      hide All, Queued, MmInv, RunInv, QueueInv, CurInv, Chosen, Yielded, SameCore, SuffixOf, Demoted;
      ghost var s0 := s;
      Begin(s0, c);
      Yield(c);
      ghost var s1 := s;
      order := All(s1.queues);
      AllElems(s1.queues);
      OrderReal(s0, s1, order);
      var passed;
      next, passed := PickFree(c, order);
      aside, rest := passed, s.queues;
      ChosenIdle(s0, s1, order, c, next);
      PutBack(passed);
      SameIdle(s1, s, next);
      assert s.procs[next].mm.Some? ==> s.lapic[s.procs[next].mm.value] == None;
      if s.procs[next].mm.Some? {
        s := s.(lapic := s.lapic[s.procs[next].mm.value := Some(c)]);
      }
      s := s.(current := s.current[c := next]);
      CoreTrans(s0.procs, s1.procs, s.procs);
      SwitchedRun(s0, s, c, next, order);
      SwitchedMm(s0, s, c, next);
    }

    /** The first part of schedule: the running process gives up its place. */
    method Yield(c: nat)
      requires Inv(s) && s.holder == Some(c)
      requires c < |s.current| && s.current[c] in s.procs && |s.queues| == |s.num| == LEVELS
               && !Queued(s.queues, s.current[c])
      requires s.procs[s.current[c]].rq.Some? ==> s.procs[s.current[c]].rq.value < LEVELS
      requires s.procs[s.current[c]].mm.Some? ==>
               s.procs[s.current[c]].mm.value in s.lapic && s.lapic[s.procs[s.current[c]].mm.value] == Some(c)
      modifies this
      ensures s == Yielded(old(s), c) && QueueInv(s.procs, s.queues, s.num, |s.current|)
              && SameCore(old(s).procs, s.procs)
      ensures s == old(s).(procs := s.procs, queues := s.queues, num := s.num, lapic := s.lapic)
      ensures var cur := old(s).procs[old(s).current[c]];
              s.lapic == if cur.mm.Some? then old(s).lapic[cur.mm.value := None] else old(s).lapic
      ensures forall x :: Queued(s.queues, x) <==>
              Queued(old(s).queues, x) || (x == old(s).current[c] && Real(old(s), x))
    {
      hide Queued, MmInv, RunInv;
      var cur := s.current[c];
      if s.procs[cur].mm.Some? {
        assert s.lapic[s.procs[cur].mm.value] == Some(c);
        s := s.(lapic := s.lapic[s.procs[cur].mm.value := None]);
      }
      if s.procs[cur].state == Runnable && cur >= |s.current| {
        Enqueue(cur);
      }
    }

    /** The loop of schedule: set processes aside until one can run. */
    method PickFree(c: nat, ghost order: seq<nat>) returns (next: nat, aside: seq<nat>)
      requires QueueInv(s.procs, s.queues, s.num, |s.current|) && order == All(s.queues) && c < |s.current|
      requires forall x :: x in order <==> Queued(s.queues, x)
      modifies this
      ensures s == old(s).(queues := s.queues, num := s.num) && QueueInv(s.procs, s.queues, s.num, |s.current|)
      ensures Chosen(old(s), order, c, next) && (next == c || next in order) && !Queued(s.queues, next)
      ensures NoDup(aside) && forall x :: x in aside ==> Real(s, x) && x != next && !Queued(s.queues, x)
      ensures forall x :: x in order && x != next <==> Queued(s.queues, x) || x in aside
      ensures Backwards(aside, order) && next == (if |aside| < |order| then order[|aside|] else c)
      ensures forall x :: x in aside ==> x in s.procs && s.procs[x].slice > 0
      ensures |s.queues| == |old(s).queues| == LEVELS
      ensures All(s.queues) == if |aside| < |order| then order[|aside| + 1..] else []
      ensures forall l :: 0 <= l < LEVELS ==> SuffixOf(s.queues[l], old(s).queues[l])
    {
      hide All, Queued;
      aside := [];
      ghost var k := 0;
      assert order[0..] == order;
      while true
        invariant s == old(s).(queues := s.queues, num := s.num) && QueueInv(s.procs, s.queues, s.num, |s.current|)
        invariant 0 <= k <= |order| && All(s.queues) == order[k..] && forall j :: 0 <= j < k ==> !Idle(s, order[j])
        invariant NoDup(aside) && forall x :: x in aside ==> Real(s, x) && !Queued(s.queues, x) && s.procs[x].slice > 0
        invariant forall x :: x in order <==> Queued(s.queues, x) || x in aside
        invariant |aside| == k && Backwards(aside, order)
        invariant |s.queues| == |old(s).queues| == LEVELS
        invariant forall l :: 0 <= l < LEVELS ==> SuffixOf(s.queues[l], old(s).queues[l])
        decreases |order| - k
      {
        var pick := PickNext();
        if pick.None? {
          next := c;
          NoIdleQueued(s, c);
          return;
        }
        next := pick.value;
        ghost var queues := s.queues;
        Dequeue(next);
        assert order[k..][1..] == order[k + 1..] && next == order[k];
        if Idle(s, next) {
          assert Chosen(old(s), order, c, next);
          return;
        }
        aside := [next] + aside;
        k := k + 1;
      }
    }

    /** The inner loop of schedule: queue the processes passed over again. */
    method PutBack(aside: seq<nat>)
      requires QueueInv(s.procs, s.queues, s.num, |s.current|)
      requires NoDup(aside) && forall x :: x in aside ==> Real(s, x) && !Queued(s.queues, x) && s.procs[x].slice > 0
      modifies this
      ensures s == old(s).(procs := s.procs, queues := s.queues, num := s.num)
              && QueueInv(s.procs, s.queues, s.num, |s.current|)
      ensures SameCore(old(s).procs, s.procs)
      ensures forall x :: Queued(s.queues, x) <==> Queued(old(s).queues, x) || x in aside
      ensures |old(s).queues| == LEVELS && s.queues == old(s).queues[0 := old(s).queues[0] + aside]
      ensures s.procs.Keys == old(s).procs.Keys
      ensures forall x :: x in old(s).procs ==>
              x in s.procs && s.procs[x] == if x in aside then Demoted(old(s).procs[x]) else old(s).procs[x]
    {
      hide QueueInv, Queued;
      LevelCount(s.procs, s.queues, s.num, |s.current|);
      assert s.queues[0] + aside[..0] == s.queues[0];
      for i := 0 to |aside|
        invariant s == old(s).(procs := s.procs, queues := s.queues, num := s.num)
                  && QueueInv(s.procs, s.queues, s.num, |s.current|)
        invariant SameCore(old(s).procs, s.procs)
        invariant forall x :: Queued(s.queues, x) <==> Queued(old(s).queues, x) || x in aside[..i]
        invariant |s.queues| == LEVELS && s.queues == old(s).queues[0 := old(s).queues[0] + aside[..i]]
        invariant forall x :: x in old(s).procs ==>
                  s.procs[x] == if x in aside[..i] then Demoted(old(s).procs[x]) else old(s).procs[x]
      {
        assert aside[i] in aside && Real(old(s), aside[i]);
        assert aside[i] !in aside[..i];
        assert aside[..i + 1] == aside[..i] + [aside[i]];
        ghost var q := s.queues[0];
        Enqueue(aside[i]);
        assert old(s).queues[0] + aside[..i + 1] == q + [aside[i]];
      }
      assert aside[..|aside|] == aside;
    }

    /** wakeup_proc, called on CPU c. */
    method WakeupProc(c: nat, p: nat)
      requires Inv(s) && s.holder == Some(c) && p in s.procs && p >= |s.current| && s.procs[p].state != Zombie
      modifies this
      ensures Inv(s) && c < |old(s).current| && Levels(old(s), p) && s == Awoken(old(s), c, p)
      ensures p in s.procs && s.procs[p].state == Runnable && s.current == old(s).current
      ensures old(s).procs[p].state != Runnable ==> (Queued(s.queues, p) <==> p != old(s).current[c])
      ensures forall x :: x != p && x in old(s).procs ==> x in s.procs && s.procs[x] == old(s).procs[x]
    {
      hide MmInv, Queued;
      if s.procs[p].state != Runnable {
        ghost var s0 := s;
        AwakeFacts(s0, c, p);
        s := s.(procs := s.procs[p := s.procs[p].(state := Runnable)]);
        if p != s.current[c] {
          Enqueue(p);
        }
        AwakeKeeps(s0, s, c, p);
      }
    }

    /** The running process goes to sleep; schedule follows. */
    method GoToSleep(c: nat)
      requires Inv(s) && s.holder == Some(c) && c < |s.current| && s.current[c] >= |s.current|
      modifies this
      ensures Inv(s) && old(s).current[c] in old(s).procs && s == InState(old(s), c, Sleeping)
      ensures s.current == old(s).current && s.current[c] in s.procs && s.procs[s.current[c]].state == Sleeping
    {
      hide Queued;
      CurrentKeeps(s, c, s.procs[s.current[c]].(state := Sleeping), s.lapic);
      s := s.(procs := s.procs[s.current[c] := s.procs[s.current[c]].(state := Sleeping)]);
    }

    /** __do_exit. */
    method DoExit(c: nat)
      requires Inv(s) && s.holder == Some(c) && c < |s.current| && s.current[c] >= |s.current|
      modifies this
      ensures Inv(s) && old(s).current[c] in old(s).procs && s == InState(Detached(old(s), c), c, Zombie)
      ensures s.current == old(s).current && s.current[c] in s.procs
      ensures s.procs[s.current[c]].state == Zombie && s.procs[s.current[c]].mm == None
      ensures forall m :: m in s.lapic ==> s.lapic[m] != Some(c)
    {
      hide Queued;
      GiveUp(c);
      CurrentKeeps(s, c, s.procs[s.current[c]].(state := Zombie), s.lapic);
      s := s.(procs := s.procs[s.current[c] := s.procs[s.current[c]].(state := Zombie)]);
    }

    /** The running process gives up its address space. */
    method GiveUp(c: nat)
      requires Inv(s) && s.holder == Some(c) && c < |s.current|
      modifies this
      ensures Inv(s) && old(s).current[c] in old(s).procs && s == Detached(old(s), c)
      ensures s.current == old(s).current && s.current[c] in s.procs && s.procs[s.current[c]].mm == None
      ensures forall m :: m in s.lapic ==> s.lapic[m] != Some(c)
    {
      hide Queued;
      var u := s.procs[s.current[c]];
      if u.mm.Some? {
        CurrentKeeps(s, c, u.(mm := None), s.lapic[u.mm.value := None]);
        s := s.(lapic := s.lapic[u.mm.value := None]);
        s := s.(procs := s.procs[s.current[c] := u.(mm := None)]);
      }
    }

    /** load_icode gives the running process a new address space, loaded here. */
    method LoadSpace(c: nat, m: nat)
      requires Inv(s) && s.holder == Some(c) && c < |s.current| && s.current[c] >= |s.current| && m !in s.lapic
      requires s.current[c] in s.procs && s.procs[s.current[c]].mm == None
      modifies this
      ensures Inv(s) && s == Loaded(old(s), c, m)
      ensures s.procs[s.current[c]].mm == Some(m) && m in s.lapic && s.lapic[m] == Some(c)
    {
      hide Queued;
      var u := s.procs[s.current[c]];
      CurrentKeeps(s, c, u.(mm := Some(m)), s.lapic[m := Some(c)]);
      s := s.(procs := s.procs[s.current[c] := u.(mm := Some(m))]);
      s := s.(lapic := s.lapic[m := Some(c)]);
    }

    /** do_fork: a new process, with half of the time slice, woken at the end.  `ok` tells whether the
        assertion of wakeup_proc holds: the pid get_pid gave must not be that of an idle process. */
    method DoFork(c: nat, p: nat, mm: Option<nat>) returns (ok: bool)
      requires Inv(s) && s.holder == Some(c) && (p !in s.procs || p < |s.current|)
      modifies this
      ensures Inv(s) && c < |old(s).current| && old(s).current[c] in old(s).procs
      ensures (ok <==> p >= |old(s).current|) && (!ok ==> s == old(s))
      ensures ok ==> Levels(WithChild(old(s), c, p, mm), p) && s == Awoken(WithChild(old(s), c, p, mm), c, p)
      ensures ok ==>
              var cur := old(s).current[c]; var slice := old(s).procs[cur].slice;
              && p in s.procs && s.procs[p].state == Runnable && s.procs[p].mm == mm && Queued(s.queues, p)
              && cur in s.procs && s.procs[cur].slice == (slice + 1) / 2
              && (s.procs[p].slice == if 0 < slice / 2 <= MaxSlice(0) then slice / 2 else MaxSlice(0))
    {
      hide Inv, Levels, Queued;
      IdleFacts(s, c);
      if p < |s.current| {
        return false;
      }
      ChildKeeps(s, c, p, mm);
      var u := s.procs[s.current[c]];
      var slice := u.slice / 2;
      s := s.(procs := s.procs[s.current[c] := u.(slice := u.slice - slice)]);
      if mm.Some? && mm.value !in s.lapic {
        s := s.(lapic := s.lapic[mm.value := None]);
      }
      s := s.(procs := s.procs[p := P(Sleeping, mm, None, slice)]);
      WakeupProc(c, p);
      return true;
    }

    /** RR_proc_tick for the running process. */
    method ProcTick(c: nat) returns (resched: bool)
      requires Inv(s) && c < |s.current|
      modifies this
      ensures Inv(s) && old(s).current[c] in old(s).procs && s == Ticked(old(s), c)
      ensures s.current[c] in s.procs && resched == (s.current[c] < |s.current| || s.procs[s.current[c]].slice == 0)
      ensures s.current == old(s).current
      ensures var u := old(s).procs[s.current[c]];
              s.procs[s.current[c]].slice == if s.current[c] < |s.current| || u.slice == 0 then u.slice else u.slice - 1
    {
      hide Inv, SameCore;
      CurrentIn(s, c);
      CoreSame(s.procs);
      var u := s.procs[s.current[c]];
      if s.current[c] < |s.current| {
        return true;
      }
      if u.slice > 0 {
        TickKeeps(s, c);
        s := s.(procs := s.procs[s.current[c] := u.(slice := u.slice - 1)]);
      }
      resched := s.procs[s.current[c]].slice == 0;
    }

    /** Any history of steps by the CPUs: every state on the way is sound, and each follows from the
        one before by the operation. */
    method Run(ops: seq<Op>) returns (ghost run: seq<Sys>)
      requires Inv(s)
      modifies this
      ensures |run| == |ops| + 1 && run[0] == old(s) && run[|ops|] == s && forall i :: 0 <= i < |run| ==> Inv(run[i])
      ensures forall i :: 0 <= i < |ops| ==> Stepped(run[i], ops[i], run[i + 1])
    {
      hide Inv, Stepped;
      run := [s];
      for i := 0 to |ops|
        invariant |run| == i + 1 && run[0] == old(s) && run[i] == s && forall j :: 0 <= j <= i ==> Inv(run[j])
        invariant forall j :: 0 <= j < i ==> Stepped(run[j], ops[j], run[j + 1])
      {
        Step(ops[i]);
        run := run + [s];
      }
    }

    method Step(op: Op)
      requires Inv(s)
      modifies this
      ensures Inv(s) && Stepped(old(s), op, s)
    {
      hide QueueInv, RunInv, MmInv, Queued, All, Chosen, Yielded, SameCore, Enqueued, Idle;
      if s.holder.Some? {
        CurrentLevels(s, s.holder.value);
      }
      if s.holder.None? {
        if op.EnterKernel? && op.c < |s.current| {
          s := s.(holder := Some(op.c));
        }
        return;
      }
      var c := s.holder.value;
      var cur := s.current[c];
      match op {
        case EnterKernel(_) =>
        case LeaveKernel =>
          if s.procs[cur].state == Runnable {
            s := s.(holder := None);
          }
        case Schedule =>
          var _, _, _, _ := Reschedule(c);
        case Block =>
          if cur >= |s.current| {
            GoToSleep(c);
          }
        case Wakeup(p) =>
          if p in s.procs && p >= |s.current| && s.procs[p].state != Zombie {
            WakeupProc(c, p);
          }
        case Exit =>
          if cur >= |s.current| {
            DoExit(c);
          }
        case DropMm =>
          GiveUp(c);
        case LoadMm(m) =>
          if cur >= |s.current| && m !in s.lapic && s.procs[cur].mm == None {
            LoadSpace(c, m);
          }
        case Fork(p, mm) =>
          if p !in s.procs && (mm.Some? ==> mm.value !in s.lapic) {
            var _ := DoFork(c, p, mm);
          }
        case Clone(p) =>
          if p !in s.procs {
            var _ := DoFork(c, p, s.procs[cur].mm);
          }
        case Tick =>
          var _ := ProcTick(c);
      }
    }
  }

  // Whole runs.

  ghost predicate IsRun(run: seq<Sys>, ops: seq<Op>) {
    && |run| == |ops| + 1 && (forall i :: 0 <= i < |run| ==> Inv(run[i]))
    && forall i :: 0 <= i < |ops| ==> Stepped(run[i], ops[i], run[i + 1])
  }

  /** p itself goes to sleep or exits. */
  ghost predicate Stops(s: Sys, op: Op, p: nat) {
    (op.Block? || op.Exit?) && s.holder.Some? && s.holder.value < |s.current| && s.current[s.holder.value] == p
  }

  lemma {:induction false} StepRunnable(s: Sys, op: Op, t: Sys, p: nat)
    requires Inv(s) && Stepped(s, op, t) && p in s.procs && s.procs[p].state == Runnable && !Stops(s, op, p)
    ensures p in t.procs && t.procs[p].state == Runnable
  {
    hide QueueInv, RunInv, MmInv, Queued, All, Chosen, Yielded, Requeued;
  }

  /** What a process was woken for is not lost: over every history it stays runnable, queued once or on one
      CPU, until it goes to sleep or exits itself. */
  lemma {:induction false} StaysRunnable(run: seq<Sys>, ops: seq<Op>, p: nat, i: nat, j: nat)
    requires IsRun(run, ops) && i <= j < |run| && p in run[i].procs && run[i].procs[p].state == Runnable
    requires p >= |run[j].current| && forall k :: i <= k < j ==> !Stops(run[k], ops[k], p)
    ensures p in run[j].procs && run[j].procs[p].state == Runnable
    ensures p in All(run[j].queues) <==> p !in run[j].current
  {
    hide Inv, Stepped, All;
    RunnableUntil(run, ops, p, i, j);
    OnePlace(run[j], p);
  }

  lemma {:induction false} RunnableUntil(run: seq<Sys>, ops: seq<Op>, p: nat, i: nat, j: nat)
    requires IsRun(run, ops) && i <= j < |run| && p in run[i].procs && run[i].procs[p].state == Runnable
    requires forall k :: i <= k < j ==> !Stops(run[k], ops[k], p)
    ensures p in run[j].procs && run[j].procs[p].state == Runnable
    decreases j
  {
    hide Inv, Stepped;
    if i < j {
      RunnableUntil(run, ops, p, i, j - 1);
      StepRunnable(run[j - 1], ops[j - 1], run[j], p);
    }
  }

  /** No CPU idles past a process that can run. */
  lemma {:induction false} KeepsBusy(s: Sys, t: Sys, c: nat, p: nat)
    requires Inv(s) && s.holder == Some(c) && Stepped(s, Schedule, t) && Queued(s.queues, p)
    requires p in s.procs
             && (s.procs[p].mm.Some? ==> s.procs[p].mm.value in s.lapic && s.lapic[s.procs[p].mm.value] == None)
    ensures c < |t.current| && t.current[c] >= |t.current| && t.current[c] in t.procs
    ensures t.procs[t.current[c]].state == Runnable && !Queued(t.queues, t.current[c])
  {
    hide QueueInv, MmInv, RunInv, CurInv, Queued, All, Requeued, Yielded;
    YieldKeeps(s, c);
    var y := Yielded(s, c);
    AllElems(y.queues);
    assert p in All(y.queues) && Idle(y, p);
    var k :| 0 <= k < |All(y.queues)| && All(y.queues)[k] == p;
    var next := t.current[c];
    assert next in All(y.queues);
    var l := QueuedPlaced(y.procs, y.queues, y.num, |y.current|, next);
  }

  /** What schedule does first keeps the queues and adds at most the running process. */
  lemma {:induction false} YieldKeeps(s: Sys, c: nat)
    requires Inv(s) && s.holder == Some(c)
    ensures c < |s.current| && Levels(s, s.current[c])
    ensures var y := Yielded(s, c);
            && QueueInv(y.procs, y.queues, y.num, |y.current|) && SameCore(s.procs, y.procs) && y.current == s.current
            && (forall x :: Queued(s.queues, x) ==> Queued(y.queues, x))
            && (forall m :: m in s.lapic && s.lapic[m] == None ==> m in y.lapic && y.lapic[m] == None)
  {
    hide MmInv, RunInv, CurInv, Queued, QueueInv;
    Begin(s, c);
    if Real(s, s.current[c]) {
      EnqueueKeeps(s.procs, s.queues, s.num, |s.current|, s.current[c]);
    }
  }

  /** The running process, the kernel and the child, in plain words. */
  lemma {:induction false} StepMeans(s: Sys, op: Op, t: Sys, c: nat)
    requires Inv(s) && Stepped(s, op, t) && c < |s.current| && s.current[c] in s.procs
    ensures s.holder == None && op == EnterKernel(c) ==> t.holder == Some(c)
    ensures s.holder == Some(c) && op == LeaveKernel ==>
              (t.holder == if s.procs[s.current[c]].state == Runnable then None else Some(c))
    ensures s.holder == Some(c) && s.current[c] >= |s.current| ==>
              var cur := s.current[c];
              && (op == Block ==> cur in t.procs && t.procs[cur].state == Sleeping)
              && (op == Exit ==> cur in t.procs && t.procs[cur].state == Zombie && t.procs[cur].mm == None)
              && (op == DropMm ==> cur in t.procs && t.procs[cur].mm == None)
              && (op.LoadMm? && op.m !in s.lapic && s.procs[cur].mm == None ==>
                    cur in t.procs && t.procs[cur].mm == Some(op.m) && op.m in t.lapic && t.lapic[op.m] == Some(c))
              && (op == Tick && s.procs[cur].slice > 0 ==>
                    cur in t.procs && t.procs[cur].slice == s.procs[cur].slice - 1)
    ensures s.holder == Some(c) && op.Wakeup? && op.p in s.procs && op.p >= |s.current|
            && s.procs[op.p].state == Sleeping ==>
              op.p in t.procs && t.procs[op.p].state == Runnable
    ensures s.holder == Some(c) && (op.Fork? || op.Clone?) && op.p !in s.procs && op.p >= |s.current|
              && (op.Fork? && op.mm.Some? ==> op.mm.value !in s.lapic) ==>
              && op.p in t.procs && t.procs[op.p].state == Runnable
              && (t.procs[op.p].mm == if op.Fork? then op.mm else s.procs[s.current[c]].mm)
  {
    hide QueueInv, RunInv, MmInv, Queued, All, Chosen, Yielded, Requeued;
  }

  lemma {:induction false} AwakeFacts(s: Sys, c: nat, p: nat)
    requires Inv(s) && s.holder == Some(c) && p in s.procs && p >= |s.current| && s.procs[p].state != Runnable
    ensures c < |s.current| && !Queued(s.queues, p) && (p in s.current ==> p == s.current[c])
    ensures QueueInv(s.procs[p := s.procs[p].(state := Runnable)], s.queues, s.num, |s.current|)
  {
    hide MmInv, RunInv;
    if Queued(s.queues, p) {
      var l := QueuedPlaced(s.procs, s.queues, s.num, |s.current|, p);
      assert false;
    }
    ChangedProc(s.procs, s.queues, s.num, |s.current|, p, s.procs[p].(state := Runnable));
  }

  /** A process that is not queued may change without the queues noticing. */
  lemma {:induction false} ChangedProc(procs: Procs, queues: Queues, num: seq<nat>, n: nat, p: nat, u: P)
    requires QueueInv(procs, queues, num, n) && !Queued(queues, p) && (u.rq.Some? ==> u.rq.value < LEVELS)
    ensures QueueInv(procs[p := u], queues, num, n)
  {
    forall l: nat, x: nat | l < LEVELS && x in queues[l] ensures Placed(procs[p := u], n, x, l) {
      assert Queued(queues, x) && Placed(procs, n, x, l);
    }
  }

  lemma {:induction false} AwakeKeeps(s0: Sys, s: Sys, c: nat, p: nat)
    requires Inv(s0) && s0.holder == Some(c) && p in s0.procs && p >= |s0.current| && s0.procs[p].state != Runnable
    requires c < |s0.current| && (p in s0.current ==> p == s0.current[c])
    requires s == s0.(procs := s.procs, queues := s.queues, num := s.num)
             && QueueInv(s.procs, s.queues, s.num, |s.current|)
    requires SameCore(s0.procs[p := s0.procs[p].(state := Runnable)], s.procs)
    requires forall x :: Queued(s.queues, x) <==> Queued(s0.queues, x) || (x == p && p != s0.current[c])
    ensures Inv(s)
  {
    hide Queued, QueueInv;
    MmSame(s0.procs, s.procs, s.current, s.lapic);
  }

  lemma {:induction false} MmSame(procs: Procs, procs': Procs, current: seq<nat>, lapic: map<nat, Option<nat>>)
    requires MmInv(procs, current, lapic) && procs'.Keys == procs.Keys
             && forall p :: p in procs ==> procs'[p].mm == procs[p].mm
    ensures MmInv(procs', current, lapic)
  {
  }

  /** A change to the running process of CPU c, and to where address spaces are loaded. */
  lemma {:induction false} CurrentKeeps(s: Sys, c: nat, u: P, lapic: map<nat, Option<nat>>)
    requires Inv(s) && c < |s.current| && s.holder == Some(c) && s.current[c] in s.procs
    requires u.rq == s.procs[s.current[c]].rq && (u.state == Runnable ==> s.procs[s.current[c]].state == Runnable)
    requires s.current[c] < |s.current| ==> u.mm == None && u.state == Runnable
    requires var v := s.procs[s.current[c]];
             || (u.mm == v.mm && lapic == s.lapic)
             || (v.mm.Some? && u.mm == None && lapic == s.lapic[v.mm.value := None])
             || (v.mm == None && u.mm.Some? && u.mm.value !in s.lapic && lapic == s.lapic[u.mm.value := Some(c)])
    ensures Inv(s.(procs := s.procs[s.current[c] := u], lapic := lapic))
  {
    hide QueueInv, RunInv, CurInv, MmInv;
    CurrentQueue(s, c, u);
    CurrentRun(s, c, u);
    CurrentMm(s, c, u, lapic);
  }

  lemma {:induction false} CurrentRun(s: Sys, c: nat, u: P)
    requires RunInv(s.procs, s.queues, s.current) && CurInv(s.procs, s.current, s.holder) && c < |s.current|
             && s.holder == Some(c)
    requires s.current[c] in s.procs && (u.state == Runnable ==> s.procs[s.current[c]].state == Runnable)
    requires s.current[c] < |s.current| ==> u.mm == None && u.state == Runnable
    ensures var procs := s.procs[s.current[c] := u];
            RunInv(procs, s.queues, s.current) && CurInv(procs, s.current, s.holder)
  {
    hide Queued;
    var procs := s.procs[s.current[c] := u];
    assert forall d :: 0 <= d < |s.current| && d != c ==> s.current[d] != s.current[c];
  }

  lemma {:induction false} CurrentQueue(s: Sys, c: nat, u: P)
    requires Inv(s) && c < |s.current| && s.current[c] in s.procs && u.rq == s.procs[s.current[c]].rq
    ensures QueueInv(s.procs[s.current[c] := u], s.queues, s.num, |s.current|)
  {
    hide MmInv, CurInv, Queued;
    ChangedProc(s.procs, s.queues, s.num, |s.current|, s.current[c], u);
  }

  lemma {:induction false} CurrentMm(s: Sys, c: nat, u: P, lapic: map<nat, Option<nat>>)
    requires MmInv(s.procs, s.current, s.lapic) && CurInv(s.procs, s.current, s.holder) && c < |s.current|
             && s.current[c] in s.procs
    requires var v := s.procs[s.current[c]];
             || (u.mm == v.mm && lapic == s.lapic)
             || (v.mm.Some? && u.mm == None && lapic == s.lapic[v.mm.value := None])
             || (v.mm == None && u.mm.Some? && u.mm.value !in s.lapic && lapic == s.lapic[u.mm.value := Some(c)])
    ensures MmInv(s.procs[s.current[c] := u], s.current, lapic)
  {
    var v := s.procs[s.current[c]];
    assert forall d :: 0 <= d < |s.current| && d != c ==> s.current[d] != s.current[c];
    if u.mm == v.mm {
      MmSame(s.procs, s.procs[s.current[c] := u], s.current, s.lapic);
    } else if v.mm.Some? {
      MmDrop(s.procs, s.current, s.lapic, c, u);
    } else {
      MmLoad(s.procs, s.current, s.lapic, c, u);
    }
  }

  lemma {:induction false} MmDrop(procs: Procs, current: seq<nat>, lapic: map<nat, Option<nat>>, c: nat, u: P)
    requires MmInv(procs, current, lapic) && c < |current| && current[c] in procs && procs[current[c]].mm.Some?
             && u.mm == None
    requires forall d :: 0 <= d < |current| && d != c ==> current[d] != current[c]
    ensures MmInv(procs[current[c] := u], current, lapic[procs[current[c]].mm.value := None])
  {
    var m := procs[current[c]].mm.value;
    assert lapic[m] == Some(c);
    var procs', lapic' := procs[current[c] := u], lapic[m := None];
    forall d: nat | d < |current| && current[d] in procs' && procs'[current[d]].mm.Some?
      ensures lapic'[procs'[current[d]].mm.value] == Some(d)
    {
      assert d != c && lapic[procs[current[d]].mm.value] == Some(d);
    }
    forall x | x in lapic' && lapic'[x].Some?
      ensures lapic'[x].value < |current| && current[lapic'[x].value] in procs'
              && procs'[current[lapic'[x].value]].mm == Some(x)
    {
      assert x != m && lapic[x].value != c;
    }
  }

  lemma {:induction false} MmLoad(procs: Procs, current: seq<nat>, lapic: map<nat, Option<nat>>, c: nat, u: P)
    requires MmInv(procs, current, lapic) && c < |current| && current[c] in procs && procs[current[c]].mm == None
    requires u.mm.Some? && u.mm.value !in lapic
    requires forall d :: 0 <= d < |current| && d != c ==> current[d] != current[c]
    ensures MmInv(procs[current[c] := u], current, lapic[u.mm.value := Some(c)])
  {
    var m := u.mm.value;
    var procs', lapic' := procs[current[c] := u], lapic[m := Some(c)];
    forall d: nat | d < |current| && current[d] in procs' && procs'[current[d]].mm.Some?
      ensures lapic'[procs'[current[d]].mm.value] == Some(d)
    {
      assert d != c ==> lapic[procs[current[d]].mm.value] == Some(d);
    }
    forall x | x in lapic' && lapic'[x].Some?
      ensures lapic'[x].value < |current| && current[lapic'[x].value] in procs'
              && procs'[current[lapic'[x].value]].mm == Some(x)
    {
      assert x != m ==> lapic[x].value != c;
    }
  }

  lemma {:induction false} ChildKeeps(s: Sys, c: nat, p: nat, mm: Option<nat>)
    requires Inv(s) && s.holder == Some(c) && p !in s.procs && p >= |s.current|
    ensures c < |s.current| && s.current[c] in s.procs && Inv(WithChild(s, c, p, mm))
  {
    hide Inv;
    IdleFacts(s, c);
    var u := s.procs[s.current[c]];
    var u' := u.(slice := u.slice - u.slice / 2);
    CurrentKeeps(s, c, u', s.lapic);
    ForkKeeps(s.(procs := s.procs[s.current[c] := u']), p, mm, u.slice / 2);
  }

  lemma {:induction false} ForkKeeps(s: Sys, p: nat, mm: Option<nat>, slice: nat)
    requires Inv(s) && p !in s.procs && p >= |s.current|
    ensures var lapic := if mm.Some? && mm.value !in s.lapic then s.lapic[mm.value := None] else s.lapic;
            Inv(s.(procs := s.procs[p := P(Sleeping, mm, None, slice)], lapic := lapic))
    ensures p !in s.current
  {
    hide Queued;
    var u := P(Sleeping, mm, None, slice);
    var procs := s.procs[p := u];
    if Queued(s.queues, p) {
      var l := QueuedPlaced(s.procs, s.queues, s.num, |s.current|, p);
      assert false;
    }
    ChangedProc(s.procs, s.queues, s.num, |s.current|, p, u);
    NewRun(s.procs, s.queues, s.current, s.holder, p, u);
    var lapic := if mm.Some? && mm.value !in s.lapic then s.lapic[mm.value := None] else s.lapic;
    NewMm(s.procs, s.current, s.lapic, p, u, lapic);
  }

  lemma {:induction false} NewRun(procs: Procs, queues: Queues, current: seq<nat>, holder: Option<nat>, p: nat, u: P)
    requires RunInv(procs, queues, current) && CurInv(procs, current, holder) && p !in procs && p >= |current|
             && u.state == Sleeping
    ensures RunInv(procs[p := u], queues, current) && CurInv(procs[p := u], current, holder) && p !in current
  {
    hide Queued;
  }

  lemma {:induction false} NewMm(procs: Procs, current: seq<nat>, lapic: map<nat, Option<nat>>, p: nat, u: P,
      lapic': map<nat, Option<nat>>)
    requires MmInv(procs, current, lapic) && p !in procs && p !in current
    requires lapic' == if u.mm.Some? && u.mm.value !in lapic then lapic[u.mm.value := None] else lapic
    requires forall d :: 0 <= d < |current| ==> current[d] in procs
    ensures MmInv(procs[p := u], current, lapic')
  {
    var procs' := procs[p := u];
    forall d: nat | d < |current| && current[d] in procs' && procs'[current[d]].mm.Some?
      ensures lapic'[procs'[current[d]].mm.value] == Some(d)
    {
      assert current[d] in current && current[d] != p;
    }
  }

  lemma {:induction false} TickKeeps(s: Sys, c: nat)
    requires Inv(s) && c < |s.current| && s.current[c] in s.procs && s.procs[s.current[c]].slice > 0
    ensures var u := s.procs[s.current[c]];
            var procs := s.procs[s.current[c] := u.(slice := u.slice - 1)];
            Inv(s.(procs := procs)) && SameCore(s.procs, procs)
  {
    hide Queued, QueueInv, MmInv;
    var u := s.procs[s.current[c]];
    CurrentQueue(s, c, u.(slice := u.slice - 1));
    MmSame(s.procs, s.procs[s.current[c] := u.(slice := u.slice - 1)], s.current, s.lapic);
  }

  lemma {:induction false} IdleFacts(s: Sys, c: nat)
    requires Inv(s) && s.holder == Some(c)
    ensures c < |s.current| && s.current[c] in s.procs
    ensures s.current[c] < |s.current| ==> s.procs[s.current[c]].mm == None && s.procs[s.current[c]].state == Runnable
  {
  }

  lemma {:induction false} CurrentLevels(s: Sys, c: nat)
    requires Inv(s) && s.holder == Some(c)
    ensures c < |s.current| && Levels(s, s.current[c])
  {
  }

  lemma {:induction false} CurrentIn(s: Sys, c: nat)
    requires Inv(s) && c < |s.current|
    ensures s.current[c] in s.procs
  {
    hide QueueInv, RunInv, MmInv;
  }

  lemma {:induction false} CoreSame(procs: Procs)
    ensures SameCore(procs, procs)
  {
  }

  /** A process that may be queued. */
  lemma {:induction false} LevelCount(procs: Procs, queues: Queues, num: seq<nat>, n: nat)
    requires QueueInv(procs, queues, num, n)
    ensures |queues| == |num| == LEVELS
  {
  }

  ghost predicate Real(s: Sys, p: nat) {
    p in s.procs && p >= |s.current| && s.procs[p].state == Runnable
  }

  lemma {:induction false} NoIdleQueued(s: Sys, c: nat)
    requires QueueInv(s.procs, s.queues, s.num, |s.current|) && c < |s.current|
    ensures !Queued(s.queues, c)
  {
    forall x: nat | Queued(s.queues, x) ensures x in s.procs && x >= |s.current| {
      var l :| 0 <= l < |s.queues| && x in s.queues[l];
    }
  }

  /** What schedule finds. */
  lemma {:induction false} Begin(s: Sys, c: nat)
    requires Inv(s) && s.holder == Some(c)
    ensures c < |s.current| && s.current[c] in s.procs && |s.queues| == |s.num| == LEVELS
            && !Queued(s.queues, s.current[c])
    ensures s.procs[s.current[c]].rq.Some? ==> s.procs[s.current[c]].rq.value < LEVELS
    ensures s.procs[s.current[c]].mm.Some? ==>
            s.procs[s.current[c]].mm.value in s.lapic && s.lapic[s.procs[s.current[c]].mm.value] == Some(c)
  {
  }

  lemma {:induction false} CoreTrans(a: Procs, b: Procs, c: Procs)
    requires SameCore(a, b) && SameCore(b, c)
    ensures SameCore(a, c)
  {
  }

  lemma {:induction false} OrderReal(s0: Sys, s: Sys, order: seq<nat>)
    requires QueueInv(s.procs, s.queues, s.num, |s.current|) && forall x :: x in order <==> Queued(s.queues, x)
    requires SameCore(s0.procs, s.procs) && |s0.current| == |s.current|
    ensures forall x :: x in order ==> Real(s0, x)
  {
    forall x | x in order ensures Real(s0, x) {
      var l :| 0 <= l < |s.queues| && x in s.queues[l];
    }
  }

  lemma {:induction false} ChosenIdle(s0: Sys, s: Sys, order: seq<nat>, c: nat, next: nat)
    requires Chosen(s, order, c, next) && SameCore(s0.procs, s.procs) && CurInv(s0.procs, s0.current, s0.holder)
             && c < |s0.current|
    ensures next in s.procs && Idle(s, next)
  {
  }

  lemma {:induction false} SameIdle(s1: Sys, s: Sys, next: nat)
    requires next in s1.procs && Idle(s1, next) && SameCore(s1.procs, s.procs) && s.lapic == s1.lapic
    ensures next in s.procs && Idle(s, next)
  {
  }

  /** After the switch: queues and CPUs. */
  lemma {:induction false} SwitchedRun(s0: Sys, s: Sys, c: nat, next: nat, order: seq<nat>)
    requires RunInv(s0.procs, s0.queues, s0.current) && CurInv(s0.procs, s0.current, s0.holder) && c < |s0.current|
    requires SameCore(s0.procs, s.procs) && s.current == s0.current[c := next] && s.holder == s0.holder
    requires next == c || next in order
    requires forall x :: x in order ==> Real(s0, x)
    requires forall x :: x in order <==> Queued(s0.queues, x) || (x == s0.current[c] && Real(s0, x))
    requires forall x :: Queued(s.queues, x) <==> x in order && x != next
    ensures RunInv(s.procs, s.queues, s.current) && CurInv(s.procs, s.current, s.holder)
  {
    hide Queued, CurInv;
    OthersRun(s0, c, next, order);
    SwitchedCur(s0, s, c, next, order);
    assert RunInv(s.procs, s.queues, s.current) by {
      forall p | p in s.procs && p >= |s.current| && s.procs[p].state == Runnable && !Queued(s.queues, p)
        ensures p in s.current
      {
        if p == next {
          assert s.current[c] == next;
        } else {
          StillRuns(s0, c, p, order);
          var d :| 0 <= d < |s0.current| && d != c && s0.current[d] == p;
          assert s.current[d] == p;
        }
      }
    }
  }

  /** What the other CPUs run is neither in the order nor chosen. */
  lemma {:induction false} OthersRun(s0: Sys, c: nat, next: nat, order: seq<nat>)
    requires RunInv(s0.procs, s0.queues, s0.current) && CurInv(s0.procs, s0.current, s0.holder) && c < |s0.current|
    requires next == c || next in order
    requires forall x :: x in order <==> Queued(s0.queues, x) || (x == s0.current[c] && Real(s0, x))
    ensures forall d :: 0 <= d < |s0.current| && d != c ==> s0.current[d] !in order && s0.current[d] != next
  {
    hide Queued;
  }

  lemma {:induction false} SwitchedCur(s0: Sys, s: Sys, c: nat, next: nat, order: seq<nat>)
    requires CurInv(s0.procs, s0.current, s0.holder) && c < |s0.current|
    requires SameCore(s0.procs, s.procs) && s.current == s0.current[c := next] && s.holder == s0.holder
    requires next == c || (next in order && Real(s0, next))
    requires forall d :: 0 <= d < |s0.current| && d != c ==> s0.current[d] !in order && s0.current[d] != next
    ensures CurInv(s.procs, s.current, s.holder)
  {
  }

  /** A runnable process outside the order runs on another CPU. */
  lemma {:induction false} StillRuns(s0: Sys, c: nat, p: nat, order: seq<nat>)
    requires RunInv(s0.procs, s0.queues, s0.current) && c < |s0.current| && Real(s0, p) && p !in order
    requires forall x :: x in order <==> Queued(s0.queues, x) || (x == s0.current[c] && Real(s0, x))
    ensures exists d :: 0 <= d < |s0.current| && d != c && s0.current[d] == p
  {
    hide Queued;
  }

  /** After the switch: address spaces. */
  lemma {:induction false} SwitchedMm(s0: Sys, s: Sys, c: nat, next: nat)
    requires MmInv(s0.procs, s0.current, s0.lapic) && CurInv(s0.procs, s0.current, s0.holder) && c < |s0.current|
    requires SameCore(s0.procs, s.procs) && s.current == s0.current[c := next] && next in s.procs
    requires var cur := s0.procs[s0.current[c]];
             var lapic1 := if cur.mm.Some? then s0.lapic[cur.mm.value := None] else s0.lapic;
             && (s.procs[next].mm.Some? ==> s.procs[next].mm.value in lapic1 && lapic1[s.procs[next].mm.value] == None)
             && s.lapic == if s.procs[next].mm.Some? then lapic1[s.procs[next].mm.value := Some(c)] else lapic1
    ensures MmInv(s.procs, s.current, s.lapic)
  {
    var cur := s0.procs[s0.current[c]];
    var lapic1 := if cur.mm.Some? then s0.lapic[cur.mm.value := None] else s0.lapic;
    assert cur.mm.Some? ==> s0.lapic[cur.mm.value] == Some(c);
    forall d: nat | d < |s.current| && s.current[d] in s.procs && s.procs[s.current[d]].mm.Some?
      ensures s.lapic[s.procs[s.current[d]].mm.value] == Some(d)
    {
      if d != c {
        StaysLoaded(s0, c, d, lapic1);
      }
    }
    forall m | m in s.lapic && s.lapic[m].Some?
      ensures s.lapic[m].value < |s.current| && s.current[s.lapic[m].value] in s.procs
              && s.procs[s.current[s.lapic[m].value]].mm == Some(m)
    {
      if s.procs[next].mm != Some(m) {
        LoadedElsewhere(s0, c, m, lapic1);
      }
    }
  }

  lemma {:induction false} LoadedElsewhere(s: Sys, c: nat, m: nat, lapic1: map<nat, Option<nat>>)
    requires MmInv(s.procs, s.current, s.lapic) && c < |s.current| && s.current[c] in s.procs
    requires var cur := s.procs[s.current[c]]; lapic1 == if cur.mm.Some? then s.lapic[cur.mm.value := None] else s.lapic
    requires m in lapic1 && lapic1[m].Some?
    ensures var d := lapic1[m].value;
            d != c && d < |s.current| && s.current[d] in s.procs && s.procs[s.current[d]].mm == Some(m)
  {
    assert m in s.lapic && s.lapic[m] == lapic1[m];
  }

  /** Other CPUs keep their address spaces when CPU c gives up its own. */
  lemma {:induction false} StaysLoaded(s: Sys, c: nat, d: nat, lapic1: map<nat, Option<nat>>)
    requires MmInv(s.procs, s.current, s.lapic) && c < |s.current| && d < |s.current| && c != d
             && s.current[c] in s.procs && s.current[d] in s.procs
    requires var cur := s.procs[s.current[c]]; lapic1 == if cur.mm.Some? then s.lapic[cur.mm.value := None] else s.lapic
    ensures s.procs[s.current[d]].mm.Some? ==>
            s.procs[s.current[d]].mm.value in lapic1 && lapic1[s.procs[s.current[d]].mm.value] == Some(d)
  {
    var cur := s.procs[s.current[c]];
    assert cur.mm.Some? ==> s.lapic[cur.mm.value] == Some(c);
  }

  /** The first process overall heads the queue it names. */
  lemma {:induction false} FirstLevel(procs: Procs, queues: Queues, num: seq<nat>, n: nat)
    requires QueueInv(procs, queues, num, n) && All(queues) != []
    ensures var p := All(queues)[0];
            && p in procs && procs[p].rq.Some? && procs[p].rq.value < LEVELS
            && var l := procs[p].rq.value;
               p in queues[l] && queues[l][0] == p && All(queues[l := Without(queues[l], p)]) == All(queues)[1..]
  {
    hide All;
    if forall k :: 0 <= k < |queues| ==> queues[k] == [] {
      AllNone(queues);
      assert false;
    }
    var l := Lowest(queues);
    AllFirst(queues, l);
    assert queues[l][0] in queues[l];
    WithoutFirst(queues[l]);
  }

  lemma {:induction false} Lowest(queues: Queues) returns (l: nat)
    requires exists k :: 0 <= k < |queues| && queues[k] != []
    ensures l < |queues| && queues[l] != [] && forall k :: 0 <= k < l ==> queues[k] == []
  {
    l := 0;
    while queues[l] == []
      invariant l < |queues| && forall k :: 0 <= k < l ==> queues[k] == []
      decreases |queues| - l
    {
      l := l + 1;
    }
  }
}
