/** A mailbox of sync/mbox.c with its wait queues, the processes inside its operations, and what
    every operation keeps. */
module MboxState {
  import opened Common

  datatype BoxState = Closed | Opened | Closing
  datatype Role = Sender | Receiver
  datatype Flag = Interrupted | ForSend | ForRecv

  /** A message is one allocated object. */
  datatype Msg = Msg(id: nat, bytes: nat)

  /** A process inside send_msg or recv_msg that has slept, with its wait_t; or one that has taken
      a message in ipc_mbox_recv and is storing it. */
  datatype Proc =
    | Waiting(role: Role, msg: Msg, max: nat, flags: Flag, awake: bool)
    | Holding(msg: Msg)

  type Procs = map<nat, Proc>

  datatype Box = Box(state: BoxState, inuse: int, maxSlots: nat, slots: nat, msgs: seq<Msg>,
                     senders: seq<nat>, receivers: seq<nat>, procs: Procs,
                     next: nat, sent: set<Msg>, done: set<Msg>)

  function WakeFlag(role: Role): Flag {
    if role == Sender then ForSend else ForRecv
  }

  function Queue(s: Box, role: Role): seq<nat> {
    if role == Sender then s.senders else s.receivers
  }

  function WithQueue(s: Box, role: Role, q: seq<nat>): Box {
    if role == Sender then s.(senders := q) else s.(receivers := q)
  }

  ghost predicate IsWaiting(procs: Procs, p: nat, role: Role) {
    p in procs && procs[p].Waiting? && procs[p].role == role
  }

  /** Processes inside send_msg or recv_msg. */
  ghost function Users(procs: Procs): set<nat> {
    set p | p in procs && procs[p].Waiting?
  }

  /** Processes woken for their operation that have not run yet. */
  ghost function Woken(procs: Procs, role: Role): set<nat> {
    set p | p in procs && procs[p].Waiting? && procs[p].role == role && procs[p].flags == WakeFlag(role)
  }

  /** Queued processes wait for that operation and carry no wake-up; the others are awake. */
  ghost predicate QueueInv(q: seq<nat>, procs: Procs, role: Role) {
    && NoDup(q)
    && (forall p :: p in q ==> IsWaiting(procs, p, role) && procs[p].flags == Interrupted)
    && (forall p :: p in procs && IsWaiting(procs, p, role) && p !in q ==> procs[p].awake)
    && (forall p :: p in procs && IsWaiting(procs, p, role) ==>
        procs[p].flags == Interrupted || procs[p].flags == WakeFlag(role))
  }

  ghost predicate UseInv(inuse: int, procs: Procs) {
    inuse == |Users(procs)|
  }

  ghost predicate SlotInv(state: BoxState, inuse: int, maxSlots: nat, slots: nat, msgs: seq<Msg>, senders: seq<nat>,
      receivers: seq<nat>) {
    match state
    case Opened => slots == |msgs| && maxSlots > 0
    case Closing => msgs == [] && senders == [] && receivers == [] && inuse > 0
    case Closed => msgs == [] && senders == [] && receivers == [] && inuse == 0 && slots == 0
  }

  /** No lost wake-up on the receiving side: while a receiver sleeps, every message is already
      promised to a receiver that has been woken. */
  ghost predicate RecvOk(slots: nat, receivers: seq<nat>, procs: Procs) {
    receivers != [] ==> slots <= |Woken(procs, Receiver)|
  }

  /** And on the sending side: while a sender sleeps, the box is full once the woken senders run. */
  ghost predicate SendOk(maxSlots: nat, slots: nat, senders: seq<nat>, procs: Procs) {
    senders != [] ==> maxSlots <= slots + |Woken(procs, Sender)|
  }

  /** The message a process carries. */
  ghost predicate Carries(procs: Procs, p: nat, m: Msg) {
    p in procs && procs[p].msg == m && (procs[p].Holding? || procs[p].role == Sender)
  }

  /** Every message that was sent is in exactly one place: queued, held by one receiver, or done
      with (consumed or dropped by a close). */
  ghost predicate MsgInv(msgs: seq<Msg>, procs: Procs, sent: set<Msg>, done: set<Msg>, next: nat) {
    && NoDup(msgs)
    && (forall m :: m in msgs ==> m in sent && m !in done)
    && (forall m :: m in done ==> m in sent)
    && (forall p, m :: Carries(procs, p, m) ==>
        m !in msgs && m !in done && m.id < next && (m in sent <==> procs[p].Holding?))
    && (forall p, q, m :: Carries(procs, p, m) && Carries(procs, q, m) ==> p == q)
    && (forall m :: m in sent ==> m.id < next && (m in msgs || m in done || exists p :: Carries(procs, p, m)))
  }

  ghost predicate Inv(s: Box) {
    && QueueInv(s.senders, s.procs, Sender) && QueueInv(s.receivers, s.procs, Receiver)
    && UseInv(s.inuse, s.procs)
    && SlotInv(s.state, s.inuse, s.maxSlots, s.slots, s.msgs, s.senders, s.receivers)
    && (s.state == Opened ==> RecvOk(s.slots, s.receivers, s.procs) && SendOk(s.maxSlots, s.slots, s.senders, s.procs))
    && MsgInv(s.msgs, s.procs, s.sent, s.done, s.next)
  }

  /** wakeup_wait of a queued process. */
  function Wake(procs: Procs, p: nat, flag: Flag): Procs
    requires p in procs && procs[p].Waiting?
  {
    procs[p := procs[p].(flags := flag, awake := true)]
  }

  // Changes to the processes.

  /** A queued process is woken for its operation. */
  lemma {:induction false} WakeOne(procs: Procs, q: seq<nat>, q': seq<nat>, role: Role, other: Role, flag: Flag)
    requires q != [] && QueueInv(q, procs, role) && other != role && QueueInv(q', procs, other)
    requires flag == Interrupted || flag == WakeFlag(role)
    ensures IsWaiting(procs, q[0], role)
    ensures var procs' := Wake(procs, q[0], flag);
            && QueueInv(q[1..], procs', role) && QueueInv(q', procs', other) && Users(procs') == Users(procs)
            && Woken(procs', other) == Woken(procs, other)
            && (flag == WakeFlag(role) ==> |Woken(procs', role)| == |Woken(procs, role)| + 1)
            && (flag == Interrupted ==> Woken(procs', role) == Woken(procs, role))
            && (forall p, m :: Carries(procs', p, m) <==> Carries(procs, p, m))
            && (forall p :: p in procs' <==> p in procs)
            && (forall p :: p in procs ==> (procs'[p].Holding? <==> procs[p].Holding?))
  {
    var w := q[0];
    assert w in q && IsWaiting(procs, w, role);
    var procs' := Wake(procs, w, flag);
    assert w !in q';
    assert Users(procs') == Users(procs);
    assert Woken(procs', other) == Woken(procs, other);
    if flag == WakeFlag(role) {
      assert Woken(procs', role) == Woken(procs, role) + {w};
      assert w !in Woken(procs, role);
    } else {
      assert Woken(procs', role) == Woken(procs, role);
    }
    forall p | p in q[1..] ensures p in q && p != w {
    }
    forall p | p in q && p != w ensures p in q[1..] {
    }
  }

  /** The processes differ at p only. */
  ghost predicate OnlyAt(procs: Procs, procs': Procs, p: nat) {
    forall x :: x != p ==> (x in procs' <==> x in procs) && (x in procs && x in procs' ==> procs'[x] == procs[x])
  }

  lemma {:induction false} QueueOther(q: seq<nat>, procs: Procs, procs': Procs, role: Role, p: nat)
    requires QueueInv(q, procs, role) && OnlyAt(procs, procs', p) && !IsWaiting(procs, p, role)
             && !IsWaiting(procs', p, role)
    ensures QueueInv(q, procs', role) && Woken(procs', role) == Woken(procs, role)
  {
    assert forall x :: x != p ==> (IsWaiting(procs', x, role) <==> IsWaiting(procs, x, role));
    forall x ensures x in Woken(procs', role) <==> x in Woken(procs, role) {
      assert x in Woken(procs', role) <==> IsWaiting(procs', x, role) && procs'[x].flags == WakeFlag(role);
      assert x in Woken(procs, role) <==> IsWaiting(procs, x, role) && procs[x].flags == WakeFlag(role);
    }
  }

  /** A process leaves its operation. */
  lemma {:induction false} Gone(procs: Procs, q: seq<nat>, q': seq<nat>, role: Role, other: Role, p: nat)
    requires QueueInv(q, procs, role) && other != role && QueueInv(q', procs, other) && IsWaiting(procs, p, role)
    ensures var procs' := procs - {p};
            && QueueInv(Without(q, p), procs', role) && QueueInv(q', procs', other)
            && |Users(procs')| == |Users(procs)| - 1
            && Woken(procs', other) == Woken(procs, other)
            && |Woken(procs', role)| == |Woken(procs, role)| - (if procs[p].flags == WakeFlag(role) then 1 else 0)
            && (procs[p].flags == WakeFlag(role) ==> p !in q && Without(q, p) == q)
  {
    hide QueueInv;
    var procs' := procs - {p};
    QueueOther(q', procs, procs', other, p);
    QueueGone(q, procs, role, p);
    assert Users(procs') == Users(procs) - {p} && p in Users(procs);
    assert Woken(procs', role) == Woken(procs, role) - {p};
  }

  lemma {:induction false} QueueGone(q: seq<nat>, procs: Procs, role: Role, p: nat)
    requires QueueInv(q, procs, role) && IsWaiting(procs, p, role)
    ensures QueueInv(Without(q, p), procs - {p}, role)
    ensures procs[p].flags == WakeFlag(role) ==> p !in q && Without(q, p) == q
  {
    WithoutNoDup(q, p);
    assert forall x :: x != p ==> (IsWaiting(procs - {p}, x, role) <==> IsWaiting(procs, x, role));
    if procs[p].flags == WakeFlag(role) {
      assert p !in q;
      WithoutNone(q, p);
    }
  }

  /** A process goes to sleep at the end of the queue. */
  lemma {:induction false} Slept(procs: Procs, q: seq<nat>, q': seq<nat>, role: Role, other: Role, p: nat, w: Proc)
    requires QueueInv(q, procs, role) && other != role && QueueInv(q', procs, other) && p !in procs
    requires w.Waiting? && w.role == role && w.flags == Interrupted
    ensures var procs' := procs[p := w];
            && QueueInv(q + [p], procs', role) && QueueInv(q', procs', other) && |Users(procs')| == |Users(procs)| + 1
            && Woken(procs', Sender) == Woken(procs, Sender) && Woken(procs', Receiver) == Woken(procs, Receiver)
  {
    hide QueueInv;
    var procs' := procs[p := w];
    QueueOther(q', procs, procs', other, p);
    QueueSlept(q, procs, role, p, w);
    assert Users(procs') == Users(procs) + {p} && p !in Users(procs);
    assert Woken(procs', role) == Woken(procs, role);
  }

  lemma {:induction false} QueueSlept(q: seq<nat>, procs: Procs, role: Role, p: nat, w: Proc)
    requires QueueInv(q, procs, role) && p !in procs && w.Waiting? && w.role == role && w.flags == Interrupted
    ensures QueueInv(q + [p], procs[p := w], role)
  {
    var procs' := procs[p := w];
    assert p !in q;
    assert forall x :: x in q + [p] <==> x in q || x == p;
    assert forall x :: x != p ==> (IsWaiting(procs', x, role) <==> IsWaiting(procs, x, role));
  }

  /** Taking up or putting down a message is invisible to the queues. */
  lemma {:induction false} HoldingSame(procs: Procs, procs': Procs, q: seq<nat>, role: Role)
    requires QueueInv(q, procs, role)
    requires forall p, r :: IsWaiting(procs', p, r) <==> IsWaiting(procs, p, r)
    requires forall p, r :: IsWaiting(procs, p, r) && p in procs' ==> procs'[p] == procs[p]
    ensures QueueInv(q, procs', role) && Users(procs') == Users(procs)
    ensures Woken(procs', Sender) == Woken(procs, Sender) && Woken(procs', Receiver) == Woken(procs, Receiver)
  {
    forall p ensures p in Users(procs') <==> p in Users(procs) {
      assert p in Users(procs') <==> IsWaiting(procs', p, Sender) || IsWaiting(procs', p, Receiver);
      assert p in Users(procs) <==> IsWaiting(procs, p, Sender) || IsWaiting(procs, p, Receiver);
    }
    forall p, r ensures p in Woken(procs', r) <==> p in Woken(procs, r) {
      assert p in Woken(procs', r) <==> IsWaiting(procs', p, r) && procs'[p].flags == WakeFlag(r);
      assert p in Woken(procs, r) <==> IsWaiting(procs, p, r) && procs[p].flags == WakeFlag(r);
    }
  }

  // Changes to the messages.

  /** The same messages are carried, except that p lets go of its own. */
  ghost predicate LetGo(procs: Procs, procs': Procs, p: nat) {
    && (forall q, x :: Carries(procs', q, x) <==> Carries(procs, q, x) && q != p)
    && (forall q, x :: Carries(procs', q, x) ==> procs'[q].Holding? == procs[q].Holding?)
  }

  /** Nothing carried changes. */
  ghost predicate SameLoad(procs: Procs, procs': Procs) {
    && (forall q, x :: Carries(procs', q, x) <==> Carries(procs, q, x))
    && (forall q, x :: Carries(procs', q, x) ==> procs'[q].Holding? == procs[q].Holding?)
  }

  lemma {:induction false} MsgSame(msgs: seq<Msg>, procs: Procs, procs': Procs, sent: set<Msg>, done: set<Msg>,
      next: nat)
    requires MsgInv(msgs, procs, sent, done, next) && SameLoad(procs, procs')
    ensures MsgInv(msgs, procs', sent, done, next)
  {
    forall m | m in sent && m !in msgs && m !in done ensures exists p :: Carries(procs', p, m) {
      var p :| Carries(procs, p, m);
      assert Carries(procs', p, m);
    }
  }

  /** A message is put into the box, at either end. */
  lemma {:induction false} MsgAdded(msgs: seq<Msg>, procs: Procs, procs': Procs, sent: set<Msg>, done: set<Msg>,
      next: nat, next': nat, m: Msg, p: nat, append: bool)
    requires MsgInv(msgs, procs, sent, done, next) && LetGo(procs, procs', p) && next <= next' && m.id < next'
    requires m !in msgs && m !in done && (forall q :: Carries(procs, q, m) ==> q == p)
    requires forall x :: Carries(procs, p, x) ==> x == m
    ensures MsgInv(if append then msgs + [m] else [m] + msgs, procs', sent + {m}, done, next')
  {
    var msgs' := if append then msgs + [m] else [m] + msgs;
    assert forall x :: x in msgs' <==> x in msgs || x == m;
    forall x | x in sent + {m} && x !in msgs' && x !in done ensures exists q :: Carries(procs', q, x) {
      var q :| Carries(procs, q, x);
      assert Carries(procs', q, x);
    }
  }

  /** The first message is taken by a process that carries nothing. */
  lemma {:induction false} MsgTaken(msgs: seq<Msg>, procs: Procs, procs': Procs, sent: set<Msg>, done: set<Msg>,
      next: nat, p: nat)
    requires MsgInv(msgs, procs, sent, done, next) && msgs != []
    requires p in procs' && procs'[p] == Holding(msgs[0]) && forall x :: !Carries(procs, p, x)
    requires forall q, x :: q != p ==> (Carries(procs', q, x) <==> Carries(procs, q, x))
    requires forall q, x :: q != p && Carries(procs', q, x) ==> procs'[q].Holding? == procs[q].Holding?
    ensures MsgInv(msgs[1..], procs', sent, done, next)
  {
    var m := msgs[0];
    assert m in msgs;
    assert forall x :: x in msgs <==> x == m || x in msgs[1..];
    assert Carries(procs', p, m) && forall x :: Carries(procs', p, x) <==> x == m;
    forall x | x in sent && x !in msgs[1..] && x !in done ensures exists q :: Carries(procs', q, x) {
      if x != m {
        var q :| Carries(procs, q, x);
        assert Carries(procs', q, x);
      }
    }
  }

  /** A held message is used up. */
  lemma {:induction false} MsgUsed(msgs: seq<Msg>, procs: Procs, procs': Procs, sent: set<Msg>, done: set<Msg>,
      next: nat, p: nat, m: Msg)
    requires MsgInv(msgs, procs, sent, done, next) && LetGo(procs, procs', p) && p in procs && procs[p] == Holding(m)
    ensures MsgInv(msgs, procs', sent, done + {m}, next)
  {
    assert Carries(procs, p, m);
    forall x | x in sent && x !in msgs && x !in done + {m} ensures exists q :: Carries(procs', q, x) {
      var q :| Carries(procs, q, x);
      assert Carries(procs', q, x);
    }
  }

  /** An interrupted sender keeps its message to itself. */
  lemma {:induction false} MsgUnsent(msgs: seq<Msg>, procs: Procs, procs': Procs, sent: set<Msg>, done: set<Msg>,
      next: nat, p: nat)
    requires MsgInv(msgs, procs, sent, done, next) && LetGo(procs, procs', p) && p in procs && procs[p].Waiting?
    ensures MsgInv(msgs, procs', sent, done, next)
  {
    forall x | x in sent && x !in msgs && x !in done ensures exists q :: Carries(procs', q, x) {
      var q :| Carries(procs, q, x);
      assert Carries(procs', q, x);
    }
  }

  /** A sender goes to sleep with a new message, or with the one it had. */
  lemma {:induction false} MsgKept(msgs: seq<Msg>, procs: Procs, procs': Procs, sent: set<Msg>, done: set<Msg>,
      next: nat, next': nat, p: nat, w: Proc)
    requires MsgInv(msgs, procs, sent, done, next) && next <= next' && w.Waiting?
    requires procs' == procs[p := w] && (w.role == Sender ==> w.msg.id < next')
    requires p in procs ==> procs[p].Waiting? && procs[p].role == w.role && procs[p].msg == w.msg
    requires p !in procs && w.role == Sender ==> w.msg.id >= next
    ensures MsgInv(msgs, procs', sent, done, next')
  {
    forall q, x | q != p ensures Carries(procs', q, x) <==> Carries(procs, q, x) {
    }
    assert p in procs ==> forall x :: Carries(procs', p, x) <==> Carries(procs, p, x);
    forall x | x in sent && x !in msgs && x !in done ensures exists q :: Carries(procs', q, x) {
      var q :| Carries(procs, q, x);
      assert Carries(procs', q, x);
    }
  }

  /** Closing drops what is queued, one message at a time. */
  lemma {:induction false} MsgDropped(msgs: seq<Msg>, procs: Procs, sent: set<Msg>, done: set<Msg>, next: nat)
    requires MsgInv(msgs, procs, sent, done, next) && msgs != []
    ensures MsgInv(msgs[1..], procs, sent, done + {msgs[0]}, next)
  {
    assert msgs[0] in msgs;
    assert forall x :: x in msgs <==> x == msgs[0] || x in msgs[1..];
  }
}
