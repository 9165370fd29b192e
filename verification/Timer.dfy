/** The timer driver of drivers/timer.c over the radix heap.  A timer is a number; event_activate
    appends it to `events`. */
module Timer {
  import opened Common
  import opened Crh

  /** What the driver stands for: the current tick and the deadline of every open timer. */
  datatype Clock = Clock(now: nat, due: map<nat, nat>)

  datatype Op = Open(x: nat, t: nat) | Close(x: nat) | Tick(n: nat)

  /** The timers not yet due. */
  function Pending(due: map<nat, nat>, now: nat): map<nat, nat> {
    map x | x in due && due[x] > now :: due[x]
  }

  function Next(c: Clock, op: Op): Clock {
    match op
    case Open(x, t) => if t == c.now then c else c.(due := c.due[x := t])
    case Close(x) => c.(due := c.due - {x})
    case Tick(n) => Clock(c.now + n, Pending(c.due, c.now + n))
  }

  /** What a caller must respect: no open timer is opened again, no deadline lies in the past,
      and times stay below 2^31. */
  predicate Legal(c: Clock, op: Op) {
    match op
    case Open(x, t) => x !in c.due && c.now <= t < LIMIT
    case Close(_) => true
    case Tick(n) => c.now + n < LIMIT
  }

  /** The timers due by `limit`, each once, in the order of their deadlines. */
  ghost predicate Fired(due: map<nat, nat>, limit: nat, out: seq<nat>) {
    && NoDup(out)
    && (forall x :: x in out <==> x in due && due[x] <= limit)
    && (forall i, j :: 0 <= i < j < |out| ==> due[out[i]] <= due[out[j]])
  }

  /** The events one operation activates. */
  ghost predicate Output(c: Clock, op: Op, out: seq<nat>) {
    match op
    case Open(x, t) => out == if t == c.now then [x] else []
    case Close(_) => out == []
    case Tick(n) => Fired(c.due, c.now + n, out)
  }

  /** The clock before operation i of a run. */
  ghost function At(c: Clock, ops: seq<Op>, i: nat): Clock
    requires i <= |ops|
  {
    if i == 0 then c else Next(At(c, ops, i - 1), ops[i - 1])
  }

  ghost predicate AllLegal(c: Clock, ops: seq<Op>) {
    forall i :: 0 <= i < |ops| ==> Legal(At(c, ops, i), ops[i])
  }

  /** The place after i, and the place before it, on a ring of n. */
  function Succ(i: nat, n: nat): nat {
    if i + 1 < n then i + 1 else 0
  }

  function Pred(i: nat, n: nat): nat
    requires i < n
  {
    if i > 0 then i - 1 else n - 1
  }

  /** The links of one node of a ring. */
  ghost predicate LinksAt(next: map<nat, nat>, prev: map<nat, nat>, ring: seq<nat>, i: nat)
    requires i < |ring|
  {
    && ring[i] in next && next[ring[i]] == ring[Succ(i, |ring|)]
    && ring[i] in prev && prev[ring[i]] == ring[Pred(i, |ring|)]
  }

  /** Circular links through the nodes in this order. */
  ghost predicate IsRing(next: map<nat, nat>, prev: map<nat, nat>, ring: seq<nat>) {
    forall i: nat :: i < |ring| ==> LinksAt(next, prev, ring, i)
  }

  /** The links that hold a list of nodes as a ring. */
  method MakeRing(nodes: seq<nat>) returns (next: map<nat, nat>, prev: map<nat, nat>)
    requires NoDup(nodes)
    ensures IsRing(next, prev, nodes)
  {
    var n := |nodes|;
    next, prev := map[], map[];
    for i := 0 to n
      invariant forall j: nat :: j < i ==> nodes[j] in next && next[nodes[j]] == nodes[Succ(j, n)]
      invariant forall j: nat :: j < i ==> nodes[j] in prev && prev[nodes[j]] == nodes[Pred(j, n)]
    {
      next, prev := next[nodes[i] := nodes[Succ(i, n)]], prev[nodes[i] := nodes[Pred(i, n)]];
    }
  }

  /** The head of a ring is alone, or can be unlinked. */
  lemma {:induction false} RingHead(next: map<nat, nat>, prev: map<nat, nat>, ring: seq<nat>)
    requires ring != [] && NoDup(ring) && IsRing(next, prev, ring)
    ensures ring[0] in next && ring[0] in prev && (next[ring[0]] == ring[0] <==> |ring| == 1)
    ensures |ring| > 1 ==>
              && next[ring[0]] == ring[1] && prev[ring[0]] == ring[|ring| - 1] && NoDup(ring[1..])
              && IsRing(next[prev[ring[0]] := next[ring[0]]], prev[next[ring[0]] := prev[ring[0]]], ring[1..])
  {
    var n := |ring|;
    assert LinksAt(next, prev, ring, 0);
    if n > 1 {
      var next', prev' := next[ring[n - 1] := ring[1]], prev[ring[1] := ring[n - 1]];
      forall i: nat | i < n - 1 ensures LinksAt(next', prev', ring[1..], i) {
        Unlinked(next, prev, ring, i);
      }
    }
  }

  lemma {:induction false} Unlinked(next: map<nat, nat>, prev: map<nat, nat>, ring: seq<nat>, i: nat)
    requires i + 1 < |ring| && NoDup(ring) && LinksAt(next, prev, ring, i + 1)
    ensures LinksAt(next[ring[|ring| - 1] := ring[1]], prev[ring[1] := ring[|ring| - 1]], ring[1..], i)
  {
    assert ring[1..][i] == ring[i + 1] && ring[1..][0] == ring[1] && ring[1..][|ring| - 2] == ring[|ring| - 1];
  }

  class Driver {
    const crh: Heap
    var timerTick: nat
    var open: set<nat>
    var events: seq<nat>
    var timeSlice: nat

    /** The heap's base is the current tick, and it holds exactly the open timers. */
    ghost predicate Valid()
      reads this, crh
    {
      crh.Valid() && crh.base == timerTick && open == crh.key.Keys
    }

    ghost function View(): Clock
      reads this, crh
    {
      Clock(timerTick, crh.key)
    }

    /** timer_init. */
    constructor ()
      ensures Valid() && View() == Clock(0, map[]) && events == [] && fresh(crh)
    {
      crh := new Heap();
      timerTick, open, events, timeSlice := 0, {}, [], 0;
    }

    /** timer_queue_append: takes a ring apart from its head on; every node is closed and activated, in ring
        order. The branch for a node that is not the head is never taken. */
    method QueueAppend(nodes: seq<nat>)
      requires NoDup(nodes)
      modifies this`open, this`events
      ensures open == old(open) - (set x | x in nodes) && events == old(events) + nodes
    {
      hide IsRing;
      if nodes == [] {
        return;
      }
      var next, prev := MakeRing(nodes);
      var node := nodes[0];
      var cur := node;
      ghost var done, ring: seq<nat> := [], nodes;
      while true
        invariant nodes == done + ring && ring != [] && NoDup(ring) && cur == node == ring[0]
                  && IsRing(next, prev, ring)
        invariant open == old(open) - (set x | x in done) && events == old(events) + done
        decreases |ring|
      {
        RingHead(next, prev, ring);
        open := open - {cur};
        if next[cur] == cur {
          events := events + [cur];
          break;
        }
        next, prev := next[prev[cur] := next[cur]], prev[next[cur] := prev[cur]];
        if cur == node {
          events := events + [cur];
          node := next[cur];
          cur := node;
        } else {
          assert false;
        }
        done, ring := done + [ring[0]], ring[1..];
      }
      assert nodes == done + [cur];
    }

    /** timer_open: a deadline at the current tick fires at once. */
    method TimerOpen(x: nat, t: nat) returns (ghost out: seq<nat>)
      requires Valid() && Legal(View(), Open(x, t))
      modifies this, crh
      ensures Valid() && View() == Next(old(View()), Open(x, t))
      ensures events == old(events) + out && Output(old(View()), Open(x, t), out)
      ensures t > old(timerTick) ==> View() == Clock(old(timerTick), old(crh.key)[x := t]) && events == old(events)
      ensures t == old(timerTick) ==> View() == old(View()) && events == old(events) + [x]
    {
      open := open + {x};
      var ret := crh.Insert(x, t);
      if ret != 0 {
        QueueAppend([x]);
        return [x];
      }
      return [];
    }

    /** timer_close. */
    method TimerClose(x: nat)
      requires Valid()
      modifies this, crh
      ensures Valid() && View() == Next(old(View()), Close(x)) && events == old(events)
      ensures View() == Clock(old(timerTick), old(crh.key) - {x})
    {
      if x in open {
        crh.Remove(x);
      }
      open := open - {x};
    }

    /** tick_handler: exactly the open timers with a deadline in the elapsed time fire, in the
        order of their deadlines, however far the step reaches. */
    method TickHandler(tick: nat) returns (ghost out: seq<nat>)
      requires Valid() && Legal(View(), Tick(tick))
      modifies this, crh
      ensures Valid() && View() == Next(old(View()), Tick(tick))
      ensures events == old(events) + out && Output(old(View()), Tick(tick), out)
      ensures timeSlice == if old(timeSlice) > tick then old(timeSlice) - tick else 0
    {
      hide Linked, Mapped, Later, Fired, Pending;
      if timeSlice > tick {
        timeSlice := timeSlice - tick;
      } else {
        timeSlice := 0;
      }
      out := [];
      ghost var due, slice := crh.key, timeSlice;
      FiredNone(due, timerTick);
      var rest: nat := tick;
      while rest > 0
        invariant Valid() && timerTick == old(timerTick) + tick - rest && timeSlice == slice
        invariant crh.key == Pending(due, timerTick) && Fired(due, timerTick, out) && events == old(events) + out
      {
        var s := crh.MaxStep();
        if s == 0 {
          AllFired(due, timerTick, timerTick + rest, out);
          timerTick := timerTick + rest;
          var node := crh.SetBase(timerTick);
          assert crh.key == map[];
          break;
        }
        if rest < s {
          s := rest;
        }
        out := Advance(s, due, out);
        rest := rest - s;
      }
    }

    /** Move the clock by a step that passes no deadline, and fire what is due then. */
    method Advance(s: nat, ghost due: map<nat, nat>, ghost out: seq<nat>) returns (ghost out': seq<nat>)
      requires Valid() && timerTick + s < LIMIT && forall x :: x in crh.key ==> timerTick + s <= crh.key[x]
      requires crh.key == Pending(due, timerTick) && Fired(due, timerTick, out)
      modifies this, crh
      ensures Valid() && timerTick == old(timerTick) + s && timeSlice == old(timeSlice)
      ensures crh.key == Pending(due, timerTick) && Fired(due, timerTick, out')
      ensures out <= out' && events == old(events) + out'[|out|..]
    {
      hide Linked, Mapped, Later, Fired;
      ghost var before := timerTick;
      timerTick := timerTick + s;
      var node := crh.SetBase(timerTick);
      QueueAppend(node);
      FiredNext(due, before, timerTick, out, node);
      out' := out + node;
    }

    /** Any history of opens, closes and ticks. */
    method Run(ops: seq<Op>) returns (ghost outs: seq<seq<nat>>)
      requires Valid() && AllLegal(View(), ops)
      modifies this, crh
      ensures Valid() && View() == At(old(View()), ops, |ops|) && |outs| == |ops|
      ensures forall i :: 0 <= i < |ops| ==> Output(At(old(View()), ops, i), ops[i], outs[i])
    {
      hide Output, Legal, Next, Linked, Mapped, Later;
      outs := [];
      ghost var c := View();
      for i := 0 to |ops|
        invariant Valid() && View() == At(c, ops, i) && |outs| == i
        invariant forall j :: 0 <= j < i ==> Output(At(c, ops, j), ops[j], outs[j])
      {
        assert Legal(View(), ops[i]);
        ghost var out := [];
        match ops[i] {
          case Open(x, t) => out := TimerOpen(x, t);
          case Close(x) => TimerClose(x); CloseSilent(At(c, ops, i), x);
          case Tick(n) => out := TickHandler(n);
        }
        outs := outs + [out];
      }
    }
  }

  lemma {:induction false} FiredNone(due: map<nat, nat>, now: nat)
    requires Later(due, now)
    ensures Fired(due, now, []) && Pending(due, now) == due
  {
  }

  lemma {:induction false} CloseSilent(c: Clock, x: nat)
    ensures Output(c, Close(x), [])
  {
  }

  /** One step of the loop: everything due by the new tick is due exactly then. */
  lemma {:induction false} FiredNext(due: map<nat, nat>, before: nat, now: nat, out: seq<nat>, node: seq<nat>)
    requires Fired(due, before, out) && before <= now && NoDup(node)
    requires forall x :: x in Pending(due, before) ==> now <= due[x]
    requires forall x :: x in node <==> x in Pending(due, before) && due[x] == now
    ensures Fired(due, now, out + node)
    ensures (map x | x in Pending(due, before) && due[x] != now :: due[x]) == Pending(due, now)
  {
    var all := out + node;
    forall x ensures x in all <==> x in due && due[x] <= now {
      assert x in all <==> x in out || x in node;
    }
    forall i, j | 0 <= i < j < |all| ensures all[i] != all[j] && due[all[i]] <= due[all[j]] {
      assert i < |out| ==> all[i] in out;
      assert i >= |out| ==> all[i] in node;
      assert j < |out| ==> all[j] in out;
      assert j >= |out| ==> all[j] in node;
    }
  }

  lemma {:induction false} AllFired(due: map<nat, nat>, before: nat, now: nat, out: seq<nat>)
    requires Fired(due, before, out) && before <= now && Pending(due, before) == map[]
    ensures Fired(due, now, out) && Pending(due, now) == map[]
  {
    forall x | x in due ensures due[x] <= before {
      assert x !in Pending(due, before);
    }
  }

  // Whole runs.

  ghost predicate Mentions(op: Op, x: nat) {
    !op.Tick? && op.x == x
  }

  /** Over every run, a pending timer that nobody closes fires exactly in the operation during
      which the clock reaches its deadline, and in no other. */
  lemma {:induction false} FiresOnTime(c: Clock, ops: seq<Op>, outs: seq<seq<nat>>, x: nat, t: nat, i: nat)
    requires AllLegal(c, ops) && |outs| == |ops| && i < |ops|
    requires forall j :: 0 <= j < |ops| ==> Output(At(c, ops, j), ops[j], outs[j])
    requires x in c.due && c.due[x] == t && c.now < t
    requires forall j :: 0 <= j < |ops| ==> !Mentions(ops[j], x)
    ensures x in outs[i] <==> At(c, ops, i).now < t <= At(c, ops, i + 1).now
  {
    PendingUntil(c, ops, x, t, i);
    assert Output(At(c, ops, i), ops[i], outs[i]);
  }

  lemma {:induction false} PendingUntil(c: Clock, ops: seq<Op>, x: nat, t: nat, i: nat)
    requires i <= |ops| && x in c.due && c.due[x] == t && c.now < t
    requires forall j :: 0 <= j < |ops| ==> !Mentions(ops[j], x)
    ensures x in At(c, ops, i).due <==> At(c, ops, i).now < t
    ensures x in At(c, ops, i).due ==> At(c, ops, i).due[x] == t
  {
    if i > 0 {
      PendingUntil(c, ops, x, t, i - 1);
      assert !Mentions(ops[i - 1], x);
    }
  }

  /** After a close nothing fires until the timer is opened again. */
  lemma {:induction false} ClosedIsQuiet(c: Clock, ops: seq<Op>, outs: seq<seq<nat>>, x: nat, i: nat, j: nat)
    requires |outs| == |ops| && forall k :: 0 <= k < |ops| ==> Output(At(c, ops, k), ops[k], outs[k])
    requires i < j < |ops| && ops[i] == Close(x) && forall k :: i < k <= j ==> !(ops[k].Open? && ops[k].x == x)
    ensures x !in outs[j]
  {
    ClosedIsGone(c, ops, x, i, j);
    assert Output(At(c, ops, j), ops[j], outs[j]);
  }

  lemma {:induction false} ClosedIsGone(c: Clock, ops: seq<Op>, x: nat, i: nat, j: nat)
    requires i < j <= |ops| && ops[i] == Close(x) && forall k :: i < k < j ==> !(ops[k].Open? && ops[k].x == x)
    ensures x !in At(c, ops, j).due
    decreases j
  {
    if j > i + 1 {
      ClosedIsGone(c, ops, x, i, j - 1);
    }
  }

  // Histories from the start, without the clock.

  /** The ticks in the first i operations. */
  ghost function Time(ops: seq<Op>, i: nat): nat
    requires i <= |ops|
  {
    if i == 0 then 0 else Time(ops, i - 1) + if ops[i - 1].Tick? then ops[i - 1].n else 0
  }

  /** Operation i opened x for t, and no operation from there to j mentions x. */
  ghost predicate Armed(ops: seq<Op>, i: nat, j: nat, x: nat, t: nat) {
    i < j <= |ops| && ops[i] == Open(x, t) && forall k :: i < k < j ==> !Mentions(ops[k], x)
  }

  /** The clock of timer_init. */
  const START: Clock := Clock(0, map[])

  /** In every history a timer fires in an operation exactly if this opens it for the current tick, or
      is a tick that reaches the deadline for which it was last opened, with no close since. */
  lemma {:induction false} FiresExactly(ops: seq<Op>, outs: seq<seq<nat>>, x: nat, j: nat)
    requires AllLegal(START, ops) && |outs| == |ops| && j < |ops| && Output(At(START, ops, j), ops[j], outs[j])
    ensures x in outs[j] <==>
              || ops[j] == Open(x, Time(ops, j))
              || (ops[j].Tick? && exists i: nat, t: nat ::
                  Armed(ops, i, j, x, t) && Time(ops, j) < t <= Time(ops, j + 1))
  {
    hide AllLegal, Armed, At;
    var c := At(START, ops, j);
    TimeIs(ops, j);
    if x in c.due {
      var i, t := PendingArmed(ops, x, j);
      assert Armed(ops, i, j, x, t);
    }
    forall i: nat, t: nat | Armed(ops, i, j, x, t) && Time(ops, j) < t ensures x in c.due && c.due[x] == t {
      ArmedLater(ops, i, j, x, t);
      ArmedPending(ops, x, j, i, t);
    }
  }

  lemma {:induction false} TimeIs(ops: seq<Op>, i: nat)
    requires i <= |ops|
    ensures At(START, ops, i).now == Time(ops, i)
  {
    if i > 0 {
      TimeIs(ops, i - 1);
    }
  }

  /** What one operation does to a pending timer. */
  lemma {:induction false} DueNext(c: Clock, op: Op, x: nat)
    requires Legal(c, op)
    ensures var d := Next(c, op);
            && (op.Tick? ==> (x in d.due <==> x in c.due && c.due[x] > c.now + op.n))
            && (op.Open? && op.x == x ==> (x in d.due <==> op.t > c.now) && (x in d.due ==> d.due[x] == op.t))
            && (op.Close? && op.x == x ==> x !in d.due)
            && (!op.Tick? && !Mentions(op, x) ==> (x in d.due <==> x in c.due))
            && (x in d.due && !Mentions(op, x) ==> x in c.due && d.due[x] == c.due[x])
  {
  }

  lemma {:induction false} ArmedNext(ops: seq<Op>, i: nat, j: nat, x: nat, t: nat)
    requires j < |ops|
    ensures ops[j] == Open(x, t) ==> Armed(ops, j, j + 1, x, t)
    ensures !Mentions(ops[j], x) ==> (Armed(ops, i, j + 1, x, t) <==> Armed(ops, i, j, x, t))
    ensures Mentions(ops[j], x) && Armed(ops, i, j + 1, x, t) ==> i == j && ops[j] == Open(x, t)
  {
    if Armed(ops, i, j + 1, x, t) && i < j {
      assert !Mentions(ops[j], x);
    }
  }

  lemma {:induction false} ArmedLater(ops: seq<Op>, i: nat, j: nat, x: nat, t: nat)
    requires Armed(ops, i, j, x, t)
    ensures i < j <= |ops|
  {
  }

  lemma {:induction false} PendingArmed(ops: seq<Op>, x: nat, j: nat) returns (i: nat, t: nat)
    requires j <= |ops| && AllLegal(START, ops) && x in At(START, ops, j).due
    ensures Armed(ops, i, j, x, t) && t == At(START, ops, j).due[x] && Time(ops, j) < t
    decreases j
  {
    hide Armed, Next, Legal;
    assert j > 0;
    var c, op := At(START, ops, j - 1), ops[j - 1];
    assert Legal(c, op);
    DueNext(c, op, x);
    TimeIs(ops, j - 1);
    if Mentions(op, x) {
      i, t := j - 1, op.t;
      ArmedNext(ops, i, j - 1, x, t);
    } else {
      i, t := PendingArmed(ops, x, j - 1);
      ArmedNext(ops, i, j - 1, x, t);
    }
  }

  lemma {:induction false} ArmedPending(ops: seq<Op>, x: nat, j: nat, i: nat, t: nat)
    requires 0 < j <= |ops| && AllLegal(START, ops) && Armed(ops, i, j, x, t) && Time(ops, j) < t
    ensures x in At(START, ops, j).due && At(START, ops, j).due[x] == t
    decreases j
  {
    hide Armed, Next, Legal;
    var c, op := At(START, ops, j - 1), ops[j - 1];
    assert Legal(c, op);
    DueNext(c, op, x);
    TimeIs(ops, j - 1);
    ArmedNext(ops, i, j - 1, x, t);
    if !Mentions(op, x) {
      ArmedLater(ops, i, j - 1, x, t);
      ArmedPending(ops, x, j - 1, i, t);
    }
  }
}
