/** The operations of sync/mbox.c on one mailbox, cut where a process may sleep.  Each piece runs
    with interrupts off and so is one step.  Timeouts and kills wake a sleeping process without
    touching its wait_t. */
module Mbox {
  import opened Common
  import opened MboxState

  const MAX_MSG_SLOTS: nat := 0x1000

  /** What became of a send or a receive. */
  datatype Result = Refused | Asleep | Done | TooBig | Failed

  datatype Op =
    | Init(max: nat)
    | Send(p: nat, bytes: nat)
    | Recv(p: nat, max: nat)
    | Resume(p: nat)            // a woken process runs
    | Spurious(p: nat)          // a timeout or a kill
    | Stored(p: nat)            // the received message was copied out
    | NotStored(p: nat)         // it could not be, and goes back
    | Free

  /** wakeup_first on a queue. */
  function WokenFirst(s: Box, role: Role): Box {
    var q := Queue(s, role);
    if q == [] || q[0] !in s.procs || !s.procs[q[0]].Waiting? then s
    else WithQueue(s.(procs := Wake(s.procs, q[0], WakeFlag(role))), role, q[1..])
  }

  /** wakeup_queue with WT_INTERRUPTED. */
  ghost function WokenAll(procs: Procs, q: seq<nat>): Procs {
    if q == [] || q[0] !in procs || !procs[q[0]].Waiting? then procs
    else WokenAll(Wake(procs, q[0], Interrupted), q[1..])
  }

  /** Everybody in the queue is awake and interrupted, and nobody else is touched. */
  ghost predicate AllInterrupted(procs: Procs, q: seq<nat>, procs': Procs) {
    && procs'.Keys == procs.Keys
    && forall p :: p in procs ==>
         procs'[p] == if p in q && procs[p].Waiting? then procs[p].(flags := Interrupted, awake := true) else procs[p]
  }

  lemma {:induction false} WokenAllIs(procs: Procs, q: seq<nat>)
    requires forall p :: p in q ==> p in procs && procs[p].Waiting?
    ensures AllInterrupted(procs, q, WokenAll(procs, q))
  {
    if q != [] {
      WokenAllIs(Wake(procs, q[0], Interrupted), q[1..]);
      assert forall p :: p in q <==> p == q[0] || p in q[1..];
    }
  }

  /** The box with another message, and a receiver woken for it. */
  ghost function Arrived(s: Box, m: Msg, append: bool): Box {
    WokenFirst(s.(slots := s.slots + 1, msgs := if append then s.msgs + [m] else [m] + s.msgs, sent := s.sent + {m}),
        Receiver)
  }

  /** p asleep at the end of its queue, counted as a user. */
  ghost function Waits(s: Box, p: nat, role: Role, m: Msg, max: nat): Box {
    WithQueue(s.(procs := s.procs[p := Waiting(role, m, max, Interrupted, false)]), role, Queue(s, role) + [p])
  }

  /** One user less; the last one frees a mailbox that is being closed. */
  ghost function Left(s: Box): Box {
    if s.state != Opened && s.inuse == 1 then s.(inuse := 0, state := Closed, maxSlots := 0, slots := 0)
    else s.(inuse := s.inuse - 1)
  }

  /** The first message handed to p, if it is small enough: then a sender is woken, otherwise
      another receiver. */
  ghost function Picked(s: Box, p: nat, max: nat): Box {
    if s.msgs == [] || s.slots == 0 then s
    else if max < s.msgs[0].bytes then WokenFirst(s, Receiver)
    else WokenFirst(s.(slots := s.slots - 1, msgs := s.msgs[1..], procs := s.procs[p := Holding(s.msgs[0])]), Sender)
  }

  /** ipc_mbox_send by p, up to its end or its first sleep. */
  ghost function AfterSend(s: Box, p: nat, bytes: nat): Box {
    var m := Msg(s.next, bytes);
    if s.state != Opened then s
    else if s.maxSlots <= s.slots then Waits(s.(next := s.next + 1, inuse := s.inuse + 1), p, Sender, m, 0)
    else Arrived(s.(next := s.next + 1), m, true)
  }

  /** ipc_mbox_recv by p, up to its end or its first sleep. */
  ghost function AfterRecv(s: Box, p: nat, max: nat): Box {
    if s.state != Opened then s
    else if s.slots == 0 then Waits(s.(inuse := s.inuse + 1), p, Receiver, Msg(0, 0), max)
    else Picked(s, p, max)
  }

  /** p runs after a sleep: an interrupted process gives up, one woken for its operation tries
      again. */
  ghost function AfterResume(s: Box, p: nat): Box
    requires p in s.procs && s.procs[p].Waiting?
  {
    var w := s.procs[p];
    var t := WithQueue(s.(procs := s.procs - {p}), w.role, Without(Queue(s, w.role), p));
    if s.state != Opened || w.flags != WakeFlag(w.role) then Left(t)
    else if w.role == Sender then
      if s.maxSlots <= s.slots then Waits(t, p, Sender, w.msg, w.max) else Left(Arrived(t, w.msg, true))
    else
      if s.slots == 0 then Waits(t, p, Receiver, w.msg, w.max) else Left(Picked(t, p, w.max))
  }

  /** ipc_mbox_free. */
  ghost function AfterFree(s: Box): Box {
    var t := s.(state := Closing, msgs := [], done := s.done + Elems(s.msgs), senders := [], receivers := [],
                procs := WokenAll(WokenAll(s.procs, s.senders), s.receivers));
    if s.state != Opened then s
    else if s.inuse == 0 then t.(state := Closed, maxSlots := 0, slots := 0) else t
  }

  /** The state an operation leads to; what is not possible is skipped. */
  ghost function Next(s: Box, op: Op): Box {
    match op
    case Init(max) => if 0 < max <= MAX_MSG_SLOTS && s.state == Closed then s.(state := Opened, maxSlots := max) else s
    case Send(p, bytes) => if p in s.procs then s else AfterSend(s, p, bytes)
    case Recv(p, max) => if p in s.procs then s else AfterRecv(s, p, max)
    case Resume(p) => if p in s.procs && s.procs[p].Waiting? && s.procs[p].awake then AfterResume(s, p) else s
    case Spurious(p) =>
      if p in s.procs && s.procs[p].Waiting? then s.(procs := s.procs[p := s.procs[p].(awake := true)]) else s
    case Stored(p) =>
      if p in s.procs && s.procs[p].Holding? then s.(procs := s.procs - {p}, done := s.done + {s.procs[p].msg}) else s
    case NotStored(p) =>
      if p !in s.procs || !s.procs[p].Holding? then s
      else if s.state == Opened then Arrived(s.(procs := s.procs - {p}), s.procs[p].msg, false)
      else s.(procs := s.procs - {p}, done := s.done + {s.procs[p].msg})
    case Free => AfterFree(s)
  }

  /** The state after a history of operations. */
  ghost function After(s: Box, ops: seq<Op>): Box
    decreases |ops|
  {
    if ops == [] then s else Next(After(s, ops[..|ops| - 1]), ops[|ops| - 1])
  }

  /** Inv while the running process is still counted in `inuse` but is in no queue. */
  ghost predicate Busy(s: Box) {
    && QueueInv(s.senders, s.procs, Sender) && QueueInv(s.receivers, s.procs, Receiver)
    && UseInv(s.inuse - 1, s.procs)
    && SlotInv(s.state, s.inuse, s.maxSlots, s.slots, s.msgs, s.senders, s.receivers)
    && (s.state == Opened ==> RecvOk(s.slots, s.receivers, s.procs) && SendOk(s.maxSlots, s.slots, s.senders, s.procs))
    && MsgInv(s.msgs, s.procs, s.sent, s.done, s.next)
  }

  class Mailbox {
    var s: Box

    constructor ()
      ensures Inv(s) && s.state == Closed
    {
      s := Box(Closed, 0, 0, 0, [], [], [], map[], 0, {}, {});
      new;
      assert Users(map[]) == {};
    }

    /** wakeup_first. */
    method WakeupFirst(role: Role)
      requires QueueInv(Queue(s, role), s.procs, role)
      modifies this
      ensures Queue(old(s), role) != [] ==> IsWaiting(old(s).procs, Queue(old(s), role)[0], role)
      ensures s == WokenFirst(old(s), role)
      ensures Queue(old(s), role) != [] ==>
              var p := Queue(old(s), role)[0];
              && Queue(s, role) == Queue(old(s), role)[1..] && p in s.procs
              && s.procs[p] == old(s).procs[p].(flags := WakeFlag(role), awake := true)
    {
      var q := Queue(s, role);
      if q != [] {
        assert q[0] in q;
        s := WithQueue(s.(procs := Wake(s.procs, q[0], WakeFlag(role))), role, q[1..]);
      }
    }

    /** wakeup_queue with WT_INTERRUPTED: everybody is woken and nobody stays queued. */
    method WakeupQueue(role: Role, other: Role)
      requires other != role && QueueInv(Queue(s, role), s.procs, role) && QueueInv(Queue(s, other), s.procs, other)
      modifies this
      ensures Queue(s, role) == [] && QueueInv([], s.procs, role) && QueueInv(Queue(s, other), s.procs, other)
      ensures s == WithQueue(old(s).(procs := WokenAll(old(s).procs, Queue(old(s), role))), role, [])
      ensures Users(s.procs) == Users(old(s).procs) && SameLoad(old(s).procs, s.procs)
      ensures AllInterrupted(old(s).procs, Queue(old(s), role), s.procs)
    {
      hide QueueInv, SameLoad, AllInterrupted;
      ghost var s0 := s;
      QueuedWait(s.procs, Queue(s, role), role);
      WokenAllIs(s.procs, Queue(s, role));
      SameRefl(s.procs);
      while Queue(s, role) != []
        invariant QueueInv(Queue(s, role), s.procs, role) && QueueInv(Queue(s, other), s.procs, other)
        invariant s == WithQueue(s0.(procs := s.procs), role, Queue(s, role))
        invariant WokenAll(s.procs, Queue(s, role)) == WokenAll(s0.procs, Queue(s0, role))
        invariant Users(s.procs) == Users(s0.procs) && SameLoad(s0.procs, s.procs)
        decreases |Queue(s, role)|
      {
        var q := Queue(s, role);
        WakeOne(s.procs, q, Queue(s, other), role, other, Interrupted);
        SameWake(s0.procs, s.procs, q[0], Interrupted);
        s := WithQueue(s.(procs := Wake(s.procs, q[0], Interrupted)), role, q[1..]);
      }
    }

    /** add_msg. */
    method AddMsg(m: Msg, append: bool)
      requires s.state == Opened && QueueInv(s.receivers, s.procs, Receiver)
      modifies this
      ensures old(s).receivers != [] ==> IsWaiting(old(s).procs, old(s).receivers[0], Receiver)
      ensures s == Arrived(old(s), m, append)
    {
      s := s.(slots := s.slots + 1);
      if append {
        s := s.(msgs := s.msgs + [m]);
      } else {
        s := s.(msgs := [m] + s.msgs);
      }
      s := s.(sent := s.sent + {m});
      WakeupFirst(Receiver);
    }

    /** mbox_free, with its assertions as preconditions: a closing mailbox that nobody uses any more
        can be opened again, and nobody is left inside. */
    method MboxFree()
      requires s.state == Closing && s.inuse == 0 && s.msgs == [] && s.senders == [] && s.receivers == []
      requires QueueInv([], s.procs, Sender) && QueueInv([], s.procs, Receiver) && UseInv(0, s.procs)
      requires MsgInv([], s.procs, s.sent, s.done, s.next)
      modifies this
      ensures Inv(s) && s == old(s).(state := Closed, maxSlots := 0, slots := 0)
      ensures forall p :: p in s.procs ==> s.procs[p].Holding?
    {
      hide QueueInv, MsgInv;
      s := s.(state := Closed);
      s := s.(maxSlots := 0, slots := 0);
      forall p | p in s.procs ensures s.procs[p].Holding? {
        assert s.procs[p].Waiting? ==> p in Users(s.procs);
      }
    }

    /** The common end of send_msg and recv_msg. */
    method Leave(ghost success: bool)
      requires Busy(s) && (s.state != Opened ==> !success)
      modifies this
      ensures Inv(s)
      ensures s == Left(old(s))
    {
      hide QueueInv, UseInv, MsgInv, RecvOk, SendOk;
      NotNegative(s.inuse - 1, s.procs);
      s := s.(inuse := s.inuse - 1);
      if s.state != Opened {
        assert !success && s.state == Closing;
        if s.inuse == 0 {
          MboxFree();
        }
      }
    }

    /** wait_current_set: the process goes to sleep at the end of its queue. */
    method Sleep(p: nat, w: Proc)
      requires s.state == Opened && p !in s.procs && w.Waiting? && w.flags == Interrupted
      requires QueueInv(s.senders, s.procs, Sender) && QueueInv(s.receivers, s.procs, Receiver)
               && UseInv(s.inuse - 1, s.procs)
      requires s.slots == |s.msgs| && s.maxSlots > 0
      requires if w.role == Sender then s.maxSlots <= s.slots else s.slots == 0
      requires w.role == Sender ==> RecvOk(s.slots, s.receivers, s.procs)
      requires w.role == Receiver ==> SendOk(s.maxSlots, s.slots, s.senders, s.procs)
      requires MsgInv(s.msgs, s.procs[p := w], s.sent, s.done, s.next)
      modifies this
      ensures Inv(s) && s == WithQueue(old(s).(procs := old(s).procs[p := w]), w.role, Queue(old(s), w.role) + [p])
    {
      hide QueueInv, MsgInv;
      var other := if w.role == Sender then Receiver else Sender;
      Slept(s.procs, Queue(s, w.role), Queue(s, other), w.role, other, p, w);
      s := WithQueue(s.(procs := s.procs[p := w]), w.role, Queue(s, w.role) + [p]);
    }

    /** ipc_mbox_send up to the first sleep: get_mbox, then send_msg. */
    method SendStart(p: nat, bytes: nat) returns (r: Result)
      requires Inv(s) && p !in s.procs
      modifies this
      ensures Inv(s)
      ensures r == if old(s).state != Opened then Refused else if old(s).maxSlots <= old(s).slots then Asleep else Done
      ensures s == AfterSend(old(s), p, bytes)
      ensures r == Refused ==> s == old(s)
      ensures r == Asleep ==>
              && s.senders == old(s).senders + [p] && s.msgs == old(s).msgs
              && p in s.procs && s.procs[p] == Waiting(Sender, Msg(old(s).next, bytes), 0, Interrupted, false)
      ensures r == Done ==> p !in s.procs && s.msgs == old(s).msgs + [Msg(old(s).next, bytes)]
      ensures old(s).state == Opened ==> s.state == Opened && s.maxSlots == old(s).maxSlots
    {
      hide QueueInv, MsgInv, UseInv, RecvOk, SendOk;
      if s.state != Opened {
        return Refused;
      }
      ghost var s0 := s;
      var m := Msg(s.next, bytes);
      s := s.(next := s.next + 1);
      s := s.(inuse := s.inuse + 1);
      if s.maxSlots <= s.slots {
        var w := Waiting(Sender, m, 0, Interrupted, false);
        MsgKept(s.msgs, s.procs, s.procs[p := w], s.sent, s.done, s0.next, s.next, p, w);
        Sleep(p, w);
        return Asleep;
      }
      assert s.state == Opened && s.maxSlots > s.slots;
      AddFresh(s0, p, m);
      AddMsg(m, true);
      Leave(true);
      return Done;
    }

    /** send_msg after a sleep: on to the next turn of its loop, or out. */
    method SendResume(p: nat) returns (r: Result)
      requires Inv(s) && IsWaiting(s.procs, p, Sender) && s.procs[p].awake
      modifies this
      ensures Inv(s) && (r == Asleep || p !in s.procs)
      ensures r == if old(s).state != Opened || old(s).procs[p].flags != ForSend then Failed
                   else if old(s).maxSlots <= old(s).slots then Asleep else Done
      ensures s == AfterResume(old(s), p)
      ensures r == Failed ==> s.msgs == old(s).msgs
      ensures r == Asleep ==>
              && s.senders == Without(old(s).senders, p) + [p] && s.msgs == old(s).msgs
              && p in s.procs && s.procs[p] == old(s).procs[p].(flags := Interrupted, awake := false)
      ensures r == Done ==> s.msgs == old(s).msgs + [old(s).procs[p].msg]
      ensures old(s).state == Opened ==> s.state == Opened && s.maxSlots == old(s).maxSlots
    {
      hide QueueInv, MsgInv, UseInv, RecvOk, SendOk;
      ghost var s0 := s;
      var w := s.procs[p];
      SenderOut(s0, p);
      s := s.(senders := Without(s.senders, p), procs := s.procs - {p});
      if s.state != Opened || w.flags != ForSend {
        Leave(false);
        return Failed;
      }
      if s.maxSlots <= s.slots {
        var w' := w.(flags := Interrupted, awake := false);
        assert s.procs[p := w'] == s0.procs[p := w'];
        MsgKept(s.msgs, s0.procs, s0.procs[p := w'], s.sent, s.done, s.next, s.next, p, w');
        Sleep(p, w');
        return Asleep;
      }
      assert s.state == Opened && s.maxSlots > s.slots;
      AddWaiting(s0, p, w.msg);
      AddMsg(w.msg, true);
      Leave(true);
      return Done;
    }

    /** pick_msg, with recv_msg's wake-up of another receiver when the message is too big. */
    method PickMsg(p: nat, max: nat) returns (r: Result)
      requires Pickable(s, p)
      modifies this
      ensures Busy(s)
      ensures r == if max < old(s).msgs[0].bytes then TooBig else Done
      ensures r == Done ==> s.msgs == old(s).msgs[1..] && p in s.procs && s.procs[p] == Holding(old(s).msgs[0])
      ensures r == TooBig ==> s.msgs == old(s).msgs && p !in s.procs
      ensures s.state == Opened && s == Picked(old(s), p, max)
    {
      hide QueueInv, MsgInv, UseInv, RecvOk, SendOk;
      assert s.slots > 0 && s.msgs != [];
      var m := s.msgs[0];
      if max < m.bytes {
        TooBigKeeps(s, p);
        WakeupFirst(Receiver);
        return TooBig;
      }
      TakenKeeps(s, p);
      s := s.(slots := s.slots - 1);
      s := s.(msgs := s.msgs[1..], procs := s.procs[p := Holding(m)]);
      WakeupFirst(Sender);
      return Done;
    }

    /** ipc_mbox_recv up to the first sleep: get_mbox, then recv_msg. */
    method RecvStart(p: nat, max: nat) returns (r: Result)
      requires Inv(s) && p !in s.procs
      modifies this
      ensures Inv(s)
      ensures r == if old(s).state != Opened then Refused else if old(s).slots == 0 then Asleep
                   else if max < old(s).msgs[0].bytes then TooBig else Done
      ensures r == Done ==> p in s.procs && s.procs[p] == Holding(old(s).msgs[0]) && s.msgs == old(s).msgs[1..]
      ensures s == AfterRecv(old(s), p, max)
      ensures r == Refused ==> s == old(s)
      ensures r == Asleep ==>
              && s.receivers == old(s).receivers + [p] && s.msgs == old(s).msgs
              && p in s.procs && s.procs[p] == Waiting(Receiver, Msg(0, 0), max, Interrupted, false)
      ensures r == TooBig ==> p !in s.procs && s.msgs == old(s).msgs
      ensures old(s).state == Opened ==> s.state == Opened && s.maxSlots == old(s).maxSlots
    {
      hide QueueInv, MsgInv, UseInv, RecvOk, SendOk;
      if s.state != Opened {
        return Refused;
      }
      ghost var s0 := s;
      s := s.(inuse := s.inuse + 1);
      if s.slots == 0 {
        var w := Waiting(Receiver, Msg(0, 0), max, Interrupted, false);
        MsgKept(s.msgs, s.procs, s.procs[p := w], s.sent, s.done, s.next, s.next, p, w);
        Sleep(p, w);
        return Asleep;
      }
      PickFresh(s0, p);
      r := PickMsg(p, max);
      Leave(true);
    }

    /** recv_msg after a sleep. */
    method RecvResume(p: nat) returns (r: Result)
      requires Inv(s) && IsWaiting(s.procs, p, Receiver) && s.procs[p].awake
      modifies this
      ensures Inv(s)
      ensures r == if old(s).state != Opened || old(s).procs[p].flags != ForRecv then Failed
                   else if old(s).slots == 0 then Asleep
                   else if old(s).procs[p].max < old(s).msgs[0].bytes then TooBig else Done
      ensures r == Done ==> p in s.procs && s.procs[p] == Holding(old(s).msgs[0]) && s.msgs == old(s).msgs[1..]
      ensures s == AfterResume(old(s), p)
      ensures r == Failed || r == TooBig ==> p !in s.procs && s.msgs == old(s).msgs
      ensures r == Asleep ==>
              && s.receivers == Without(old(s).receivers, p) + [p] && s.msgs == old(s).msgs
              && p in s.procs && s.procs[p] == old(s).procs[p].(flags := Interrupted, awake := false)
      ensures old(s).state == Opened ==> s.state == Opened && s.maxSlots == old(s).maxSlots
    {
      hide QueueInv, MsgInv, UseInv, RecvOk, SendOk;
      ghost var s0 := s;
      var w := s.procs[p];
      ReceiverOut(s0, p);
      s := s.(receivers := Without(s.receivers, p), procs := s.procs - {p});
      if s.state != Opened || w.flags != ForRecv {
        Leave(false);
        return Failed;
      }
      if s.slots == 0 {
        var w' := w.(flags := Interrupted, awake := false);
        assert s.procs[p := w'] == s0.procs[p := w'];
        MsgKept(s.msgs, s0.procs, s0.procs[p := w'], s.sent, s.done, s.next, s.next, p, w');
        Sleep(p, w');
        return Asleep;
      }
      PickWaiting(s0, p);
      r := PickMsg(p, w.max);
      Leave(true);
    }

    /** A timeout or a kill makes a sleeping process run; it stays queued, unmarked. */
    method SpuriousWake(p: nat)
      requires Inv(s) && p in s.procs && s.procs[p].Waiting?
      modifies this
      ensures Inv(s) && s == old(s).(procs := old(s).procs[p := old(s).procs[p].(awake := true)])
    {
      hide MsgInv;
      AwakeKeeps(s, p);
      s := s.(procs := s.procs[p := s.procs[p].(awake := true)]);
    }

    /** The end of ipc_mbox_recv when the message could be stored, or its mailbox is gone. */
    method Consume(p: nat)
      requires Inv(s) && p in s.procs && s.procs[p].Holding?
      modifies this
      ensures Inv(s) && s == old(s).(procs := old(s).procs - {p}, done := old(s).done + {old(s).procs[p].msg})
    {
      hide QueueInv, MsgInv, UseInv, RecvOk, SendOk;
      PutDown(s, p);
      MsgUsed(s.msgs, s.procs, s.procs - {p}, s.sent, s.done, s.next, p, s.procs[p].msg);
      s := s.(procs := s.procs - {p}, done := s.done + {s.procs[p].msg});
    }

    /** The end of ipc_mbox_recv when storing failed: the message goes back to the front, if the
        mailbox is still open, even beyond max_slots. */
    method GiveBack(p: nat)
      requires Inv(s) && p in s.procs && s.procs[p].Holding?
      modifies this
      ensures Inv(s) && p !in s.procs && s == Next(old(s), NotStored(p))
      ensures old(s).state == Opened ==> s.msgs == [old(s).procs[p].msg] + old(s).msgs && s.done == old(s).done
      ensures old(s).state != Opened ==> s.msgs == [] && s.done == old(s).done + {old(s).procs[p].msg}
      ensures s.state == Opened && |s.msgs| > s.maxSlots <==>
              old(s).state == Opened && |old(s).msgs| >= old(s).maxSlots
    {
      hide QueueInv, MsgInv, UseInv, RecvOk, SendOk;
      if s.state != Opened {
        Consume(p);
        return;
      }
      var m := s.procs[p].msg;
      PutDown(s, p);
      AddHeld(s, p, m);
      s := s.(procs := s.procs - {p});
      AddMsg(m, false);
    }

    /** new_mbox on this mailbox. */
    method Open(max: nat) returns (ok: bool)
      requires Inv(s)
      modifies this
      ensures Inv(s) && ok == (s.state == Opened && old(s).state == Closed)
      ensures ok <==> 0 < max <= MAX_MSG_SLOTS && old(s).state == Closed
      ensures s == if ok then old(s).(state := Opened, maxSlots := max) else old(s)
    {
      if max == 0 || max > MAX_MSG_SLOTS || s.state != Closed {
        return false;
      }
      s := s.(state := Opened, maxSlots := max);
      return true;
    }

    /** The loop of ipc_mbox_free over the queued messages. */
    method DropMsgs()
      requires MsgInv(s.msgs, s.procs, s.sent, s.done, s.next)
      modifies this
      ensures s == old(s).(msgs := [], done := old(s).done + Elems(old(s).msgs))
              && MsgInv([], s.procs, s.sent, s.done, s.next)
    {
      hide MsgInv;
      while s.msgs != []
        invariant s == old(s).(msgs := s.msgs, done := s.done) && MsgInv(s.msgs, s.procs, s.sent, s.done, s.next)
        invariant s.done + Elems(s.msgs) == old(s).done + Elems(old(s).msgs)
        decreases |s.msgs|
      {
        MsgDropped(s.msgs, s.procs, s.sent, s.done, s.next);
        s := s.(msgs := s.msgs[1..], done := s.done + {s.msgs[0]});
      }
    }

    /** ipc_mbox_free: queued messages are dropped, everybody asleep is interrupted, and the last
        user frees the mailbox. */
    method Close() returns (ok: bool)
      requires Inv(s)
      modifies this
      ensures Inv(s) && ok == (old(s).state == Opened)
      ensures s == AfterFree(old(s))
      ensures !ok ==> s == old(s)
      ensures ok ==>
              && s.state == (if old(s).inuse == 0 then Closed else Closing)
              && s.msgs == [] && s.senders == [] && s.receivers == []
              && AllInterrupted(old(s).procs, old(s).senders + old(s).receivers, s.procs)
              && s.done == old(s).done + Elems(old(s).msgs)
    {
      hide QueueInv, MsgInv, UseInv, RecvOk, SendOk, SameLoad, AllInterrupted;
      if s.state != Opened {
        return false;
      }
      ghost var s0 := s;
      s := s.(state := Closing);
      DropMsgs();
      WakeupQueue(Sender, Receiver);
      ghost var procs1 := s.procs;
      WakeupQueue(Receiver, Sender);
      MsgSame([], s0.procs, procs1, s.sent, s.done, s.next);
      MsgSame([], procs1, s.procs, s.sent, s.done, s.next);
      NotNegative(s.inuse, s0.procs);
      UseSame(s.inuse, s0.procs, s.procs);
      BothInterrupted(s0.procs, s0.senders, procs1, s0.receivers, s.procs);
      if s.inuse == 0 {
        MboxFree();
      }
      return true;
    }

    /** Closing an open mailbox, and then letting everybody inside go on, in any order, frees it. */
    method Shutdown(order: seq<nat>)
      requires Inv(s) && s.state == Opened && NoDup(order) && forall p :: p in order <==> p in Users(s.procs)
      modifies this
      ensures Inv(s) && s.state == Closed && Users(s.procs) == {}
    {
      hide Inv, AfterFree;
      Step(Free);
      ClosedByFree(old(s));
      for i := 0 to |order|
        invariant Inv(s) && s.state != Opened && forall p :: p in Users(s.procs) <==> p in order[i..]
      {
        assert order[i] in order[i..] && order[i] !in order[i + 1..];
        assert order[i..] == [order[i]] + order[i + 1..];
        WaitsAwake(s, order[i]);
        Step(Resume(order[i]));
      }
      assert Users(s.procs) == {};
      UnusedClosed(s);
    }

    /** Any history of operations, by any processes. */
    method Run(ops: seq<Op>)
      requires Inv(s)
      modifies this
      ensures Inv(s) && s == After(old(s), ops)
    {
      hide Inv, Next;
      assert ops[..0] == [];
      for i := 0 to |ops|
        invariant Inv(s) && s == After(old(s), ops[..i])
      {
        Step(ops[i]);
        assert ops[..i + 1][..i] == ops[..i];
      }
      assert ops[..|ops|] == ops;
    }

    method Step(op: Op)
      requires Inv(s)
      modifies this
      ensures Inv(s) && s == Next(old(s), op)
    {
      hide Inv, AfterSend, AfterRecv, AfterResume, AfterFree, Arrived;
      match op {
        case Init(max) =>
          var _ := Open(max);
        case Send(p, bytes) =>
          if p !in s.procs {
            var _ := SendStart(p, bytes);
          }
        case Recv(p, max) =>
          if p !in s.procs {
            var _ := RecvStart(p, max);
          }
        case Resume(p) =>
          if p in s.procs && s.procs[p].Waiting? && s.procs[p].awake {
            if s.procs[p].role == Sender {
              var _ := SendResume(p);
            } else {
              var _ := RecvResume(p);
            }
          }
        case Spurious(p) =>
          if p in s.procs && s.procs[p].Waiting? {
            SpuriousWake(p);
          }
        case Stored(p) =>
          if p in s.procs && s.procs[p].Holding? {
            Consume(p);
          }
        case NotStored(p) =>
          if p in s.procs && s.procs[p].Holding? {
            GiveBack(p);
          }
        case Free =>
          var _ := Close();
      }
    }
  }

  /** No lost wake-up: while the box is open, a receiver does not sleep beside a message, nor a sender
      beside a free slot, unless another one has been woken for it and has yet to run. */
  lemma {:induction false} NobodyForgotten(s: Box)
    requires Inv(s) && s.state == Opened
    ensures s.receivers != [] && s.msgs != [] ==>
            exists p :: p in Woken(s.procs, Receiver) && p !in s.receivers && s.procs[p].awake
    ensures s.senders != [] && |s.msgs| < s.maxSlots ==>
            exists p :: p in Woken(s.procs, Sender) && p !in s.senders && s.procs[p].awake
  {
    if s.receivers != [] && s.msgs != [] {
      var p :| p in Woken(s.procs, Receiver);
    }
    if s.senders != [] && |s.msgs| < s.maxSlots {
      var p :| p in Woken(s.procs, Sender);
    }
  }

  /** The message an operation adds to the box, if it adds one. */
  ghost function Added(s: Box, op: Op): seq<Msg> {
    var msgs := Next(s, op).msgs;
    if |msgs| > |s.msgs| then [msgs[|msgs| - 1]] else []
  }

  /** The message an operation takes out, if it takes one. */
  ghost function Taken(s: Box, op: Op): seq<Msg> {
    if |Next(s, op).msgs| < |s.msgs| then [s.msgs[0]] else []
  }

  /** The messages added during a history, in order. */
  ghost function Arrivals(s: Box, ops: seq<Op>): seq<Msg>
    decreases |ops|
  {
    if ops == [] then [] else
      var before := ops[..|ops| - 1];
      Arrivals(s, before) + Added(After(s, before), ops[|ops| - 1])
  }

  /** The messages received during a history, in order. */
  ghost function Receipts(s: Box, ops: seq<Op>): seq<Msg>
    decreases |ops|
  {
    if ops == [] then [] else
      var before := ops[..|ops| - 1];
      Receipts(s, before) + Taken(After(s, before), ops[|ops| - 1])
  }

  /** Nothing, one message more at the end, or one less at the front. */
  ghost predicate OneMove(a: seq<Msg>, b: seq<Msg>) {
    b == a || (|b| == |a| + 1 && b[..|a|] == a) || (a != [] && b == a[1..])
  }

  /** Sending and receiving work at opposite ends of the box. */
  lemma {:induction false} BothEnds(s: Box, op: Op)
    requires !op.NotStored? && !op.Free?
    ensures s.msgs + Added(s, op) == Taken(s, op) + Next(s, op).msgs
  {
    hide AfterSend, AfterRecv, AfterResume;
    match op {
      case Send(p, bytes) => SendMoves(s, p, bytes);
      case Recv(p, max) => RecvMoves(s, p, max);
      case Resume(p) =>
        if p in s.procs && s.procs[p].Waiting? {
          ResumeMoves(s, p);
        }
      case _ =>
    }
    assert OneMove(s.msgs, Next(s, op).msgs);
  }

  lemma {:induction false} FirstKeepsMsgs(s: Box, role: Role)
    ensures WokenFirst(s, role).msgs == s.msgs
  {
  }

  lemma {:induction false} ArrivedMsgs(s: Box, m: Msg)
    ensures Arrived(s, m, true).msgs == s.msgs + [m]
  {
    hide WokenFirst;
    FirstKeepsMsgs(s.(slots := s.slots + 1, msgs := s.msgs + [m], sent := s.sent + {m}), Receiver);
  }

  lemma {:induction false} PickedMoves(s: Box, p: nat, max: nat)
    ensures OneMove(s.msgs, Picked(s, p, max).msgs)
  {
    hide WokenFirst;
    if s.msgs != [] && s.slots != 0 {
      FirstKeepsMsgs(s, Receiver);
      FirstKeepsMsgs(s.(slots := s.slots - 1, msgs := s.msgs[1..], procs := s.procs[p := Holding(s.msgs[0])]), Sender);
    }
  }

  lemma {:induction false} SendMoves(s: Box, p: nat, bytes: nat)
    ensures OneMove(s.msgs, AfterSend(s, p, bytes).msgs)
  {
    hide Arrived;
    ArrivedMsgs(s.(next := s.next + 1), Msg(s.next, bytes));
  }

  lemma {:induction false} RecvMoves(s: Box, p: nat, max: nat)
    ensures OneMove(s.msgs, AfterRecv(s, p, max).msgs)
  {
    hide Picked;
    PickedMoves(s, p, max);
  }

  lemma {:induction false} ResumeMoves(s: Box, p: nat)
    requires p in s.procs && s.procs[p].Waiting?
    ensures OneMove(s.msgs, AfterResume(s, p).msgs)
  {
    hide Picked, Arrived;
    var w := s.procs[p];
    var t := WithQueue(s.(procs := s.procs - {p}), w.role, Without(Queue(s, w.role), p));
    PickedMoves(t, p, w.max);
    ArrivedMsgs(t, w.msg);
  }

  /** First in, first out: as long as no message is given back and the box is not closed, what was
      in the box and what was added leave in that order, whoever sends and receives. */
  lemma {:induction false} FirstInFirstOut(s: Box, ops: seq<Op>)
    requires forall op :: op in ops ==> !op.NotStored? && !op.Free?
    ensures s.msgs + Arrivals(s, ops) == Receipts(s, ops) + After(s, ops).msgs
    decreases |ops|
  {
    hide Next;
    if ops != [] {
      var before, op := ops[..|ops| - 1], ops[|ops| - 1];
      FirstInFirstOut(s, before);
      BothEnds(After(s, before), op);
      var t := After(s, before);
      assert s.msgs + Arrivals(s, ops) == (s.msgs + Arrivals(s, before)) + Added(t, op);
      assert Receipts(s, before) + (t.msgs + Added(t, op)) == (Receipts(s, before) + Taken(t, op)) + After(s, ops).msgs;
    }
  }

  // The bound.

  /** Slots count the messages, and a mailbox that is not open holds none. */
  ghost predicate Counted(s: Box) {
    if s.state == Opened then s.slots == |s.msgs| else s.msgs == [] && (s.state == Closed ==> s.slots == 0)
  }

  /** An open mailbox holds at most n messages more than it has slots. */
  ghost predicate Within(s: Box, n: nat) {
    s.state == Opened ==> |s.msgs| <= s.maxSlots + n
  }

  /** A message is given back to an open mailbox. */
  ghost predicate Returns(s: Box, op: Op) {
    op.NotStored? && op.p in s.procs && s.procs[op.p].Holding? && s.state == Opened
  }

  /** How many messages a history gives back. */
  ghost function Returned(s: Box, ops: seq<Op>): nat
    decreases |ops|
  {
    if ops == [] then 0
    else
      var before := ops[..|ops| - 1];
      Returned(s, before) + if Returns(After(s, before), ops[|ops| - 1]) then 1 else 0
  }

  lemma {:induction false} InvCounted(s: Box)
    requires Inv(s)
    ensures Counted(s)
  {
  }

  /** One operation: only a returned message can pass the bound, and by one. */
  lemma {:induction false} BoundStep(s: Box, op: Op, n: nat)
    requires Counted(s) && Within(s, n)
    ensures Counted(Next(s, op)) && Within(Next(s, op), n + if Returns(s, op) then 1 else 0)
    ensures !Within(Next(s, op), n) <==> Returns(s, op) && |s.msgs| == s.maxSlots + n
  {
    hide WokenAll;
    match op {
      case Send(p, bytes) => SendCounts(s, p, bytes);
      case Recv(p, max) => RecvCounts(s, p, max);
      case Resume(p) =>
        if p in s.procs && s.procs[p].Waiting? {
          ResumeCounts(s, p);
        }
      case NotStored(p) =>
        if p in s.procs && s.procs[p].Holding? {
          ArrivedCounts(s.(procs := s.procs - {p}), s.procs[p].msg, false);
        }
      case _ =>
    }
  }

  lemma {:induction false} FirstCounts(s: Box, role: Role)
    ensures var t := WokenFirst(s, role);
            t.msgs == s.msgs && t.slots == s.slots && t.maxSlots == s.maxSlots && t.state == s.state
  {
  }

  lemma {:induction false} ArrivedCounts(s: Box, m: Msg, append: bool)
    ensures var t := Arrived(s, m, append);
            |t.msgs| == |s.msgs| + 1 && t.slots == s.slots + 1 && t.maxSlots == s.maxSlots && t.state == s.state
  {
    FirstCounts(s.(slots := s.slots + 1,
        msgs := if append then s.msgs + [m] else [m] + s.msgs, sent := s.sent + {m}), Receiver);
  }

  /** A picked message leaves, or nothing changes. */
  lemma {:induction false} PickedCounts(s: Box, p: nat, max: nat)
    ensures var t := Picked(s, p, max);
            && t.maxSlots == s.maxSlots && t.state == s.state
            && ((t.msgs == s.msgs && t.slots == s.slots) || (|t.msgs| == |s.msgs| - 1 && t.slots == s.slots - 1))
  {
    if s.msgs != [] && s.slots != 0 {
      FirstCounts(s, Receiver);
      FirstCounts(s.(slots := s.slots - 1, msgs := s.msgs[1..], procs := s.procs[p := Holding(s.msgs[0])]), Sender);
    }
  }

  lemma {:induction false} SendCounts(s: Box, p: nat, bytes: nat)
    requires Counted(s)
    ensures var t := AfterSend(s, p, bytes);
            Counted(t) && t.maxSlots == s.maxSlots && t.state == s.state
              && (|t.msgs| <= |s.msgs| || |t.msgs| <= s.maxSlots)
  {
    hide Arrived;
    ArrivedCounts(s.(next := s.next + 1), Msg(s.next, bytes), true);
  }

  lemma {:induction false} RecvCounts(s: Box, p: nat, max: nat)
    requires Counted(s)
    ensures var t := AfterRecv(s, p, max);
            Counted(t) && t.maxSlots == s.maxSlots && t.state == s.state && |t.msgs| <= |s.msgs|
  {
    hide Picked;
    PickedCounts(s, p, max);
  }

  lemma {:induction false} ResumeCounts(s: Box, p: nat)
    requires Counted(s) && p in s.procs && s.procs[p].Waiting?
    ensures var t := AfterResume(s, p);
            && Counted(t) && (t.state == Opened ==> s.state == Opened && t.maxSlots == s.maxSlots)
            && (|t.msgs| <= |s.msgs| || |t.msgs| <= s.maxSlots)
  {
    hide Picked, Arrived;
    var w := s.procs[p];
    var t := WithQueue(s.(procs := s.procs - {p}), w.role, Without(Queue(s, w.role), p));
    PickedCounts(t, p, w.max);
    ArrivedCounts(t, w.msg, true);
  }

  /** Over every history an open mailbox holds at most as many messages more than slots as were given
      back; without that it keeps its bound. */
  lemma {:induction false} BoundedHistory(s: Box, ops: seq<Op>)
    requires Inv(s) && Within(s, 0)
    ensures Counted(After(s, ops)) && Within(After(s, ops), Returned(s, ops))
    ensures (forall op :: op in ops ==> !op.NotStored?) ==> Within(After(s, ops), 0)
    decreases |ops|
  {
    hide Next;
    InvCounted(s);
    if ops != [] {
      var before := ops[..|ops| - 1];
      BoundedHistory(s, before);
      BoundStep(After(s, before), ops[|ops| - 1], Returned(s, before));
      if forall op :: op in ops ==> !op.NotStored? {
        BoundStep(After(s, before), ops[|ops| - 1], 0);
      }
    }
  }

  const FIRST: Msg := Msg(0, 7)
  const SECOND: Msg := Msg(1, 8)

  /** A new mailbox, and the same with one slot and no user: so many messages sent, some of them held. */
  ghost function NewBox(): Box {
    Box(Closed, 0, 0, 0, [], [], [], map[], 0, {}, {})
  }

  ghost function SmallBox(msgs: seq<Msg>, procs: Procs, next: nat, sent: set<Msg>): Box {
    Box(Opened, 0, 1, |msgs|, msgs, [], [], procs, next, sent, {})
  }

  lemma {:induction false} TwoSends()
    ensures Next(NewBox(), Init(1)) == SmallBox([], map[], 0, {})
    ensures Next(SmallBox([], map[], 0, {}), Send(1, 7)) == SmallBox([FIRST], map[], 1, {FIRST})
    ensures Next(SmallBox([], map[2 := Holding(FIRST)], 1, {FIRST}), Send(3, 8))
         == SmallBox([SECOND], map[2 := Holding(FIRST)], 2, {FIRST, SECOND})
  {
    assert {FIRST} + {SECOND} == {FIRST, SECOND};
  }

  lemma {:induction false} TakenAndReturned()
    ensures Next(SmallBox([FIRST], map[], 1, {FIRST}), Recv(2, 10)) ==
            SmallBox([], map[2 := Holding(FIRST)], 1, {FIRST})
    ensures Next(SmallBox([SECOND], map[2 := Holding(FIRST)], 2, {FIRST, SECOND}), NotStored(2))
         == SmallBox([FIRST, SECOND], map[], 2, {FIRST, SECOND})
  {
    var procs: Procs := map[2 := Holding(FIRST)];
    assert procs - {2} == map[];
    assert [FIRST] + [SECOND] == [FIRST, SECOND];
    assert {FIRST, SECOND} + {FIRST} == {FIRST, SECOND};
  }

  /** One slot and two messages: the second was sent while the first was out, which then came back. */
  lemma {:induction false} Overfull()
    ensures var s := After(NewBox(), [Init(1), Send(1, 7), Recv(2, 10), Send(3, 8), NotStored(2)]);
            s.state == Opened && s.maxSlots == 1 && s.msgs == [FIRST, SECOND]
  {
    hide Next;
    TwoSends();
    TakenAndReturned();
    var ops := [Init(1), Send(1, 7), Recv(2, 10), Send(3, 8), NotStored(2)];
    AfterSnoc(NewBox(), ops, 0);
    AfterSnoc(NewBox(), ops, 1);
    AfterSnoc(NewBox(), ops, 2);
    AfterSnoc(NewBox(), ops, 3);
    AfterSnoc(NewBox(), ops, 4);
    assert ops[..0] == [] && ops[..5] == ops;
  }

  lemma {:induction false} AfterSnoc(s: Box, ops: seq<Op>, i: nat)
    requires i < |ops|
    ensures After(s, ops[..i + 1]) == Next(After(s, ops[..i]), ops[i])
  {
    hide Next;
    assert ops[..i + 1][..i] == ops[..i];
  }

  /** Rendezvous: a message sent to an empty box reaches the receiver that has waited longest. */
  lemma {:induction false} Handover(s: Box, q: nat, bytes: nat)
    requires Inv(s) && s.state == Opened && s.msgs == [] && s.receivers != [] && q !in s.procs
    requires IsWaiting(s.procs, s.receivers[0], Receiver) && bytes <= s.procs[s.receivers[0]].max
    ensures var p := s.receivers[0]; var t := Next(Next(s, Send(q, bytes)), Resume(p));
            p in t.procs && t.procs[p] == Holding(Msg(s.next, bytes)) && t.msgs == [] && t.receivers == s.receivers[1..]
  {
    hide RecvOk, SendOk, MsgInv, UseInv;
    var p := s.receivers[0];
    WithoutNone(s.receivers[1..], p);
  }

  /** And the sender that has waited longest gets the slot that a receiver frees. */
  lemma {:induction false} RoomAgain(s: Box, q: nat, max: nat)
    requires Inv(s) && s.state == Opened && |s.msgs| == s.maxSlots && s.senders != [] && q !in s.procs
    requires IsWaiting(s.procs, s.senders[0], Sender) && s.msgs[0].bytes <= max
    ensures var p := s.senders[0]; var t := Next(Next(s, Recv(q, max)), Resume(p));
            && t.msgs == s.msgs[1..] + [s.procs[p].msg] && p !in t.procs && t.senders == s.senders[1..]
            && q in t.procs && t.procs[q] == Holding(s.msgs[0])
  {
    hide RecvOk, SendOk, MsgInv, UseInv, AfterResume;
    var p := s.senders[0];
    assert p != q && p in s.senders && p !in s.senders[1..];
    var t := Next(s, Recv(q, max));
    assert t.senders == s.senders[1..] && t.msgs == s.msgs[1..] && t.slots < t.maxSlots && t.state == Opened;
    assert t.procs == Wake(s.procs[q := Holding(s.msgs[0])], p, ForSend);
    WokenSends(t, p);
    WithoutNone(s.senders[1..], p);
  }

  /** A sender woken for a free slot adds its message and is gone. */
  lemma {:induction false} WokenSends(s: Box, p: nat)
    requires s.state == Opened && IsWaiting(s.procs, p, Sender) && s.procs[p].flags == ForSend && s.slots < s.maxSlots
    ensures var t := AfterResume(s, p);
            && t.msgs == s.msgs + [s.procs[p].msg] && p !in t.procs && t.senders == Without(s.senders, p)
            && forall r :: r in s.procs && s.procs[r].Holding? ==> r in t.procs && t.procs[r] == s.procs[r]
  {
  }

  /** A process that a timeout or a kill wakes gives up and takes nothing with it. */
  lemma {:induction false} GivesUp(s: Box, p: nat)
    requires Inv(s) && s.state == Opened && p in s.procs && s.procs[p].Waiting? && s.procs[p].flags == Interrupted
    ensures var t := Next(Next(s, Spurious(p)), Resume(p));
            && t.state == Opened && t.msgs == s.msgs && t.procs == s.procs - {p}
            && p !in t.senders && p !in t.receivers
            && forall r :: r != p ==> (r in t.senders <==> r in s.senders) && (r in t.receivers <==> r in s.receivers)
  {
    hide RecvOk, SendOk, MsgInv, UseInv;
  }

  /** A message that is sent, received and stored is done with. */
  lemma {:induction false} Delivered(s: Box, q: nat, bytes: nat, p: nat, max: nat)
    requires Inv(s) && s.state == Opened && s.msgs == [] && s.receivers == [] && q !in s.procs && p !in s.procs
    requires bytes <= max
    ensures var t := Next(Next(Next(s, Send(q, bytes)), Recv(p, max)), Stored(p));
            && t.msgs == [] && p !in t.procs && t.done == s.done + {Msg(s.next, bytes)} && t.state == Opened
  {
    hide RecvOk, SendOk, MsgInv, UseInv;
  }

  // What the pieces need.

  lemma {:induction false} QueuedWait(procs: Procs, q: seq<nat>, role: Role)
    requires QueueInv(q, procs, role)
    ensures forall p :: p in q ==> p in procs && procs[p].Waiting?
  {
  }

  lemma {:induction false} BothInterrupted(procs: Procs, q: seq<nat>, procs1: Procs, q': seq<nat>, procs2: Procs)
    requires AllInterrupted(procs, q, procs1) && AllInterrupted(procs1, q', procs2)
    ensures AllInterrupted(procs, q + q', procs2)
  {
    assert forall p :: p in q + q' <==> p in q || p in q';
  }

  lemma {:induction false} ClosedByFree(s: Box)
    requires Inv(s) && s.state == Opened
    ensures AfterFree(s).state != Opened && Users(AfterFree(s).procs) == Users(s.procs)
  {
    WokenAllIs(s.procs, s.senders);
    WokenAllIs(WokenAll(s.procs, s.senders), s.receivers);
  }

  /** Once a mailbox is being closed, nobody inside sleeps. */
  lemma {:induction false} WaitsAwake(s: Box, p: nat)
    requires Inv(s) && s.state != Opened && p in Users(s.procs)
    ensures p in s.procs && s.procs[p].Waiting? && s.procs[p].awake
    ensures AfterResume(s, p).state != Opened && Users(AfterResume(s, p).procs) == Users(s.procs) - {p}
  {
  }

  lemma {:induction false} UnusedClosed(s: Box)
    requires Inv(s) && s.state != Opened && Users(s.procs) == {}
    ensures s.state == Closed
  {
  }

  lemma {:induction false} SameRefl(procs: Procs)
    ensures SameLoad(procs, procs)
  {
  }

  lemma {:induction false} SameWake(procs0: Procs, procs: Procs, w: nat, flag: Flag)
    requires SameLoad(procs0, procs) && w in procs && procs[w].Waiting?
    ensures SameLoad(procs0, Wake(procs, w, flag))
  {
    var procs' := Wake(procs, w, flag);
    assert forall q, x :: Carries(procs', q, x) <==> Carries(procs, q, x);
  }

  lemma {:induction false} NotNegative(n: int, procs: Procs)
    requires UseInv(n, procs)
    ensures n >= 0
  {
  }

  lemma {:induction false} UseSame(n: int, procs: Procs, procs': Procs)
    requires UseInv(n, procs) && Users(procs') == Users(procs)
    ensures UseInv(n, procs')
  {
  }

  /** wakeup_first marks one more process and takes it off its queue. */
  lemma {:induction false} FirstWoken(s: Box, role: Role, other: Role)
    requires other != role && QueueInv(Queue(s, role), s.procs, role) && QueueInv(Queue(s, other), s.procs, other)
    ensures Queue(s, role) != [] ==> IsWaiting(s.procs, Queue(s, role)[0], role)
    ensures var t := WokenFirst(s, role);
            && t == WithQueue(s.(procs := t.procs), role, Queue(t, role))
            && QueueInv(Queue(t, role), t.procs, role) && QueueInv(Queue(t, other), t.procs, other)
            && Users(t.procs) == Users(s.procs) && Woken(t.procs, other) == Woken(s.procs, other)
            && SameLoad(s.procs, t.procs)
            && (Queue(t, role) != [] ==> |Woken(t.procs, role)| == |Woken(s.procs, role)| + 1 && Queue(s, role) != [])
  {
    hide QueueInv, SameLoad;
    SameRefl(s.procs);
    var q := Queue(s, role);
    if q != [] {
      WakeOne(s.procs, q, Queue(s, other), role, other, WakeFlag(role));
      SameWake(s.procs, s.procs, q[0], WakeFlag(role));
    }
  }

  /** Adding a message and waking a receiver keeps the promise to those asleep. */
  lemma {:induction false} AddKeeps(s: Box, m: Msg, append: bool, k: int)
    requires s.state == Opened && QueueInv(s.senders, s.procs, Sender) && QueueInv(s.receivers, s.procs, Receiver)
             && UseInv(s.inuse - k, s.procs)
    requires s.slots == |s.msgs| && s.maxSlots > 0
    requires RecvOk(s.slots, s.receivers, s.procs) && SendOk(s.maxSlots, s.slots + 1, s.senders, s.procs)
    requires MsgInv(if append then s.msgs + [m] else [m] + s.msgs, s.procs, s.sent + {m}, s.done, s.next)
    ensures s.receivers != [] ==> IsWaiting(s.procs, s.receivers[0], Receiver)
    ensures var msgs := if append then s.msgs + [m] else [m] + s.msgs;
            var t := WokenFirst(s.(slots := s.slots + 1, msgs := msgs, sent := s.sent + {m}), Receiver);
            && t.msgs == msgs && t.senders == s.senders && t.state == Opened && t.slots == |t.msgs| && t.maxSlots > 0
            && QueueInv(t.senders, t.procs, Sender) && QueueInv(t.receivers, t.procs, Receiver)
            && UseInv(t.inuse - k, t.procs)
            && RecvOk(t.slots, t.receivers, t.procs) && SendOk(t.maxSlots, t.slots, t.senders, t.procs)
            && MsgInv(t.msgs, t.procs, t.sent, t.done, t.next) && t.inuse == s.inuse && Keys(t.procs) == Keys(s.procs)
  {
    hide QueueInv, MsgInv, SameLoad;
    var msgs := if append then s.msgs + [m] else [m] + s.msgs;
    var u := s.(slots := s.slots + 1, msgs := msgs, sent := s.sent + {m});
    FirstWoken(u, Receiver, Sender);
    var t := WokenFirst(u, Receiver);
    MsgSame(msgs, s.procs, t.procs, t.sent, t.done, t.next);
  }

  ghost function Keys(procs: Procs): set<nat> {
    procs.Keys
  }

  lemma {:induction false} AddFresh(s0: Box, p: nat, m: Msg)
    requires Inv(s0) && s0.state == Opened && p !in s0.procs && m.id == s0.next
    ensures s0.receivers != [] ==> IsWaiting(s0.procs, s0.receivers[0], Receiver)
    ensures var t := WokenFirst(s0.(next := s0.next + 1, inuse := s0.inuse + 1, slots := s0.slots + 1,
              msgs := s0.msgs + [m], sent := s0.sent + {m}), Receiver);
            Busy(t) && t.msgs == s0.msgs + [m] && t.senders == s0.senders && t.state == Opened && t.inuse > 0
  {
    hide QueueInv, LetGo;
    LetGoNone(s0.procs, p);
    NewMsg(s0, m);
    MsgAdded(s0.msgs, s0.procs, s0.procs, s0.sent, s0.done, s0.next, s0.next + 1, m, p, true);
    AddKeeps(s0.(next := s0.next + 1, inuse := s0.inuse + 1), m, true, 1);
  }

  lemma {:induction false} NewMsg(s: Box, m: Msg)
    requires MsgInv(s.msgs, s.procs, s.sent, s.done, s.next) && m.id >= s.next
    ensures m !in s.msgs && m !in s.done && forall q :: !Carries(s.procs, q, m)
  {
  }

  lemma {:induction false} LetGoNone(procs: Procs, p: nat)
    requires p !in procs
    ensures LetGo(procs, procs, p) && forall x :: !Carries(procs, p, x)
  {
  }

  lemma {:induction false} LetGoDrop(procs: Procs, p: nat)
    ensures LetGo(procs, procs - {p}, p)
  {
    assert forall q, x :: Carries(procs - {p}, q, x) <==> Carries(procs, q, x) && q != p;
  }

  /** What remains when a sender is taken out. */
  lemma {:induction false} SenderOut(s: Box, p: nat)
    requires Inv(s) && IsWaiting(s.procs, p, Sender)
    ensures var t := s.(senders := Without(s.senders, p), procs := s.procs - {p});
            && QueueInv(t.senders, t.procs, Sender) && QueueInv(t.receivers, t.procs, Receiver)
            && UseInv(t.inuse - 1, t.procs)
            && SlotInv(t.state, t.inuse, t.maxSlots, t.slots, t.msgs, t.senders, t.receivers)
            && (s.state == Opened ==>
                RecvOk(t.slots, t.receivers, t.procs) && SendOk(t.maxSlots, t.slots + 1, t.senders, t.procs))
            && (s.procs[p].flags != ForSend || s.state != Opened ==> Busy(t))
            && (s.procs[p].flags == ForSend ==> t.senders == s.senders) && s.procs[p].msg.id < s.next
  {
    hide QueueInv, MsgInv, LetGo;
    CarriedId(s, p);
    Gone(s.procs, s.senders, s.receivers, Sender, Receiver, p);
    LetGoDrop(s.procs, p);
    MsgUnsent(s.msgs, s.procs, s.procs - {p}, s.sent, s.done, s.next, p);
  }

  lemma {:induction false} CarriedId(s: Box, p: nat)
    requires MsgInv(s.msgs, s.procs, s.sent, s.done, s.next) && IsWaiting(s.procs, p, Sender)
    ensures s.procs[p].msg.id < s.next
  {
    assert Carries(s.procs, p, s.procs[p].msg);
  }

  lemma {:induction false} AddWaiting(s0: Box, p: nat, m: Msg)
    requires Inv(s0) && s0.state == Opened && IsWaiting(s0.procs, p, Sender) && s0.procs[p].flags == ForSend
             && m == s0.procs[p].msg
    ensures var s := s0.(senders := Without(s0.senders, p), procs := s0.procs - {p});
            && (s.receivers != [] ==> IsWaiting(s.procs, s.receivers[0], Receiver))
            && var t := WokenFirst(s.(slots := s.slots + 1, msgs := s.msgs + [m], sent := s.sent + {m}), Receiver);
               Busy(t) && t.msgs == s0.msgs + [m] && t.state == Opened && p !in t.procs
  {
    hide QueueInv, LetGo;
    var s := s0.(senders := Without(s0.senders, p), procs := s0.procs - {p});
    SenderOut(s0, p);
    LetGoDrop(s0.procs, p);
    assert Carries(s0.procs, p, m);
    MsgAdded(s0.msgs, s0.procs, s.procs, s0.sent, s0.done, s0.next, s0.next, m, p, true);
    AddKeeps(s, m, true, 1);
    KeysOnly(s, m);
  }

  lemma {:induction false} KeysOnly(s: Box, m: Msg)
    requires s.receivers != [] ==> IsWaiting(s.procs, s.receivers[0], Receiver)
    ensures WokenFirst(s.(slots := s.slots + 1, msgs := s.msgs + [m], sent := s.sent + {m}), Receiver).procs.Keys ==
            s.procs.Keys
  {
  }

  /** A receiver may pick the first message. */
  ghost predicate Pickable(s: Box, p: nat) {
    && s.state == Opened && p !in s.procs && s.slots == |s.msgs| > 0 && s.maxSlots > 0
    && QueueInv(s.senders, s.procs, Sender) && QueueInv(s.receivers, s.procs, Receiver) && UseInv(s.inuse - 1, s.procs)
    && RecvOk(s.slots - 1, s.receivers, s.procs) && SendOk(s.maxSlots, s.slots, s.senders, s.procs)
    && MsgInv(s.msgs, s.procs, s.sent, s.done, s.next)
  }

  lemma {:induction false} PickFresh(s0: Box, p: nat)
    requires Inv(s0) && s0.state == Opened && p !in s0.procs && s0.slots > 0
    ensures Pickable(s0.(inuse := s0.inuse + 1), p)
  {
    hide QueueInv, MsgInv;
  }

  /** What remains when a receiver is taken out. */
  lemma {:induction false} ReceiverOut(s: Box, p: nat)
    requires Inv(s) && IsWaiting(s.procs, p, Receiver)
    ensures var t := s.(receivers := Without(s.receivers, p), procs := s.procs - {p});
            && QueueInv(t.senders, t.procs, Sender) && QueueInv(t.receivers, t.procs, Receiver)
            && UseInv(t.inuse - 1, t.procs)
            && SlotInv(t.state, t.inuse, t.maxSlots, t.slots, t.msgs, t.senders, t.receivers)
            && (s.state == Opened ==> SendOk(t.maxSlots, t.slots, t.senders, t.procs))
            && (s.state == Opened && t.slots > 0 ==> RecvOk(t.slots - 1, t.receivers, t.procs))
            && (s.procs[p].flags != ForRecv || s.state != Opened ==> Busy(t))
            && (s.procs[p].flags == ForRecv ==> t.receivers == s.receivers)
            && MsgInv(t.msgs, t.procs, t.sent, t.done, t.next)
  {
    hide QueueInv, MsgInv, LetGo;
    Gone(s.procs, s.receivers, s.senders, Receiver, Sender, p);
    LetGoDrop(s.procs, p);
    MsgUnsent(s.msgs, s.procs, s.procs - {p}, s.sent, s.done, s.next, p);
  }

  lemma {:induction false} PickWaiting(s0: Box, p: nat)
    requires Inv(s0) && s0.state == Opened && IsWaiting(s0.procs, p, Receiver) && s0.procs[p].flags == ForRecv
             && s0.slots > 0
    ensures Pickable(s0.(receivers := Without(s0.receivers, p), procs := s0.procs - {p}), p)
  {
    hide QueueInv, MsgInv;
    ReceiverOut(s0, p);
  }

  /** A message too big for this receiver is promised to another one. */
  lemma {:induction false} TooBigKeeps(s: Box, p: nat)
    requires Pickable(s, p)
    ensures s.receivers != [] ==> IsWaiting(s.procs, s.receivers[0], Receiver)
    ensures var t := WokenFirst(s, Receiver); Busy(t) && t.msgs == s.msgs && t.state == Opened && p !in t.procs
  {
    hide QueueInv, MsgInv, SameLoad;
    FirstWoken(s, Receiver, Sender);
    NotNegative(s.inuse - 1, s.procs);
    MsgSame(s.msgs, s.procs, WokenFirst(s, Receiver).procs, s.sent, s.done, s.next);
  }

  /** Taking a message frees a slot, which is promised to a sender. */
  lemma {:induction false} TakenKeeps(s: Box, p: nat)
    requires Pickable(s, p)
    ensures s.senders != [] ==> s.senders[0] != p && IsWaiting(s.procs, s.senders[0], Sender)
    ensures var u := s.(slots := s.slots - 1, msgs := s.msgs[1..], procs := s.procs[p := Holding(s.msgs[0])]);
            && QueueInv(u.senders, u.procs, Sender)
            && (u.senders != [] ==> IsWaiting(u.procs, u.senders[0], Sender))
            && var t := WokenFirst(u, Sender);
               Busy(t) && t.msgs == s.msgs[1..] && t.state == Opened && p in t.procs && t.procs[p] == Holding(s.msgs[0])
  {
    hide QueueInv, MsgInv, SameLoad;
    var u := s.(slots := s.slots - 1, msgs := s.msgs[1..], procs := s.procs[p := Holding(s.msgs[0])]);
    assert forall x, r :: IsWaiting(u.procs, x, r) <==> IsWaiting(s.procs, x, r);
    HoldingSame(s.procs, u.procs, s.senders, Sender);
    HoldingSame(s.procs, u.procs, s.receivers, Receiver);
    MsgTaken(s.msgs, s.procs, u.procs, s.sent, s.done, s.next, p);
    FirstWoken(u, Sender, Receiver);
    NotNegative(s.inuse - 1, s.procs);
    var t := WokenFirst(u, Sender);
    MsgSame(u.msgs, u.procs, t.procs, s.sent, s.done, s.next);
  }

  /** A process that lets go of a held message is invisible to the queues. */
  lemma {:induction false} PutDown(s: Box, p: nat)
    requires Inv(s) && p in s.procs && s.procs[p].Holding?
    ensures var procs := s.procs - {p};
            && QueueInv(s.senders, procs, Sender) && QueueInv(s.receivers, procs, Receiver) && UseInv(s.inuse, procs)
            && (s.state == Opened ==>
                RecvOk(s.slots, s.receivers, procs) && SendOk(s.maxSlots, s.slots, s.senders, procs))
            && LetGo(s.procs, procs, p)
  {
    hide QueueInv, MsgInv, LetGo;
    var procs := s.procs - {p};
    assert forall x, r :: IsWaiting(procs, x, r) <==> IsWaiting(s.procs, x, r);
    HoldingSame(s.procs, procs, s.senders, Sender);
    HoldingSame(s.procs, procs, s.receivers, Receiver);
    LetGoDrop(s.procs, p);
  }

  lemma {:induction false} AddHeld(s0: Box, p: nat, m: Msg)
    requires Inv(s0) && s0.state == Opened && p in s0.procs && s0.procs[p] == Holding(m)
    ensures var s := s0.(procs := s0.procs - {p});
            && QueueInv(s.receivers, s.procs, Receiver)
            && (s.receivers != [] ==> IsWaiting(s.procs, s.receivers[0], Receiver))
            && var t := WokenFirst(s.(slots := s.slots + 1, msgs := [m] + s.msgs, sent := s.sent + {m}), Receiver);
               Inv(t) && t.msgs == [m] + s0.msgs && p !in t.procs
  {
    hide QueueInv, LetGo;
    var s := s0.(procs := s0.procs - {p});
    PutDown(s0, p);
    assert Carries(s0.procs, p, m);
    MsgAdded(s0.msgs, s0.procs, s.procs, s0.sent, s0.done, s0.next, s0.next, m, p, false);
    AddKeeps(s, m, false, 0);
  }

  lemma {:induction false} AwakeKeeps(s: Box, p: nat)
    requires Inv(s) && p in s.procs && s.procs[p].Waiting?
    ensures Inv(s.(procs := s.procs[p := s.procs[p].(awake := true)]))
  {
    hide MsgInv;
    var procs := s.procs[p := s.procs[p].(awake := true)];
    assert forall x, r :: IsWaiting(procs, x, r) <==> IsWaiting(s.procs, x, r);
    assert Users(procs) == Users(s.procs);
    assert Woken(procs, Sender) == Woken(s.procs, Sender);
    assert Woken(procs, Receiver) == Woken(s.procs, Receiver);
    assert SameLoad(s.procs, procs) by {
      assert forall q, x :: Carries(procs, q, x) <==> Carries(s.procs, q, x);
    }
    MsgSame(s.msgs, s.procs, procs, s.sent, s.done, s.next);
  }
}
