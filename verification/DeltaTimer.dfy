/** The delta-encoded timer list of schedule/sched.c: each timer stores its distance from the one
    before it. */
module DeltaTimer {
  import opened Common

  datatype Entry = Entry(id: nat, expires: nat)

  /** Ticks until each timer expires, when `base` ticks pass before the list begins. */
  ghost function Remaining(l: seq<Entry>, base: nat): map<nat, nat> {
    if l == [] then map[] else Remaining(l[1..], base + l[0].expires)[l[0].id := base + l[0].expires]
  }

  ghost predicate Distinct(l: seq<Entry>) {
    forall i, j :: 0 <= i < j < |l| ==> l[i].id != l[j].id
  }

  ghost predicate Listed(l: seq<Entry>, id: nat) {
    exists i :: 0 <= i < |l| && l[i].id == id
  }

  datatype Op = Add(id: nat, ticks: nat) | Del(id: nat) | Tick

  /** Remaining times after one operation; a timer that is already pending is not added. */
  ghost function Next(r: map<nat, nat>, op: Op): map<nat, nat> {
    match op
    case Add(id, ticks) => if ticks > 0 && id !in r then r[id := ticks] else r
    case Del(id) => r - {id}
    case Tick => map x | x in r && r[x] > 1 :: r[x] - 1
  }

  /** Remaining times after the first i operations. */
  ghost function At(r: map<nat, nat>, ops: seq<Op>, i: nat): map<nat, nat>
    requires i <= |ops|
  {
    if i == 0 then r else Next(At(r, ops, i - 1), ops[i - 1])
  }

  /** The timers that expire in an operation. */
  ghost predicate Expires(r: map<nat, nat>, op: Op, x: nat) {
    op == Tick && x in r && r[x] == 1
  }

  class TimerList {
    var list: seq<Entry>

    /** Every timer once, and the first one not yet expired. */
    ghost predicate Valid()
      reads this
    {
      Distinct(list) && (list != [] ==> list[0].expires > 0)
    }

    /** The remaining time of every timer. */
    ghost function View(): map<nat, nat>
      reads this
    {
      Remaining(list, 0)
    }

    constructor ()
      ensures Valid() && View() == map[]
    {
      list := [];
    }

    /** add_timer: the timer gets its time and no other timer's time changes. */
    method AddTimer(id: nat, ticks: nat)
      requires Valid() && ticks > 0 && id !in View()
      modifies this
      ensures Valid() && View() == old(View())[id := ticks]
    {
      hide Remaining, Distinct, Listed, Inserted;
      InsertedView(list, Entry(id, ticks), 0);
      RemainingListed(list, 0);
      InsertedDistinct(list, Entry(id, ticks));
      var expires: nat, i := ticks, 0;
      ghost var l0, e := list, Entry(id, ticks);
      assert l0[0..] == l0 && l0[..0] + Inserted(l0, e) == Inserted(l0, e);
      while i < |list|
        invariant 0 <= i <= |list| && list == l0 && Inserted(l0, e) == l0[..i] + Inserted(l0[i..], Entry(id, expires))
      {
        InsertedAt(l0, i, e, Entry(id, expires));
        if expires < list[i].expires {
          list := list[i := list[i].(expires := list[i].expires - expires)];
          list := list[..i] + [Entry(id, expires)] + list[i..];
          return;
        }
        expires := expires - list[i].expires;
        i := i + 1;
      }
      InsertedEnd(l0, e, Entry(id, expires));
      list := list[..i] + [Entry(id, expires)] + list[i..];
    }

    /** del_timer: the timer goes, if it was there, and no other timer's time changes. */
    method DelTimer(id: nat)
      requires Valid()
      modifies this
      ensures Valid() && View() == old(View()) - {id}
      ensures old(list) != [] && old(list)[0].id != id ==> list != [] && list[0] == old(list)[0]
    {
      hide Remaining, Distinct, Listed, Deleted;
      DeletedView(list, id, 0);
      DeletedDistinct(list, id);
      var i := Find(id);
      if i < |list| {
        if list[i].expires != 0 && i + 1 < |list| {
          list := list[i + 1 := list[i + 1].(expires := list[i + 1].expires + list[i].expires)];
        }
        list := list[..i] + list[i + 1..];
      }
    }

    /** Where the timer is linked, if it is. */
    method Find(id: nat) returns (i: nat)
      ensures i <= |list| && (i == |list| ==> Deleted(list, id) == list)
      ensures i < |list| ==> list[i].id == id
      ensures i + 1 == |list| ==> Deleted(list, id) == list[..i] + list[i + 1..]
      ensures i + 1 < |list| ==>
                var l' := list[i + 1 := list[i + 1].(expires := list[i + 1].expires + list[i].expires)];
                Deleted(list, id) == l'[..i] + l'[i + 1..] && (list[i].expires == 0 ==> l' == list)
    {
      hide Deleted;
      i := 0;
      assert list[0..] == list && list[..0] + Deleted(list, id) == Deleted(list, id);
      while i < |list|
        invariant 0 <= i <= |list| && Deleted(list, id) == list[..i] + Deleted(list[i..], id)
      {
        DeletedAt(list, i, id);
        if list[i].id == id {
          return;
        }
        i := i + 1;
      }
      DeletedEnd(list, id);
    }

    /** run_timer_list: every remaining time drops by one, and exactly the timers that reach zero
        are removed and wake their processes. */
    method RunTimerList() returns (woken: seq<nat>)
      requires Valid()
      modifies this
      ensures Valid()
      ensures View() == map x | x in old(View()) && old(View())[x] > 1 :: old(View())[x] - 1
      ensures NoDup(woken) && forall x :: x in woken <==> x in old(View()) && old(View())[x] == 1
    {
      hide Remaining, Distinct, Listed;
      woken := [];
      RemainingListed(list, 0);
      if list == [] {
        EmptyView();
        return;
      }
      ghost var v := View();
      Earlier(list);
      AllPositive(list);
      list := list[0 := list[0].(expires := list[0].expires - 1)];
      ghost var w := Remaining(list, 0);
      while list != [] && list[0].expires == 0
        invariant Distinct(list) && NoDup(woken)
        invariant forall x :: x in woken ==> x in w && w[x] == 0
        invariant Remaining(list, 0) == map x | x in w && x !in woken :: w[x]
        decreases |list|
      {
        HeadOnly(list);
        woken := woken + [list[0].id];
        list := list[1..];
      }
      AllPositive(list);
      assert forall x :: x in w && x !in woken ==> x in Remaining(list, 0);
    }

    /** Any history of additions, deletions and ticks. */
    method Run(ops: seq<Op>) returns (outs: seq<seq<nat>>)
      requires Valid()
      modifies this
      ensures Valid() && View() == At(old(View()), ops, |ops|) && |outs| == |ops|
      ensures forall i :: 0 <= i < |ops| ==>
              NoDup(outs[i]) && forall x :: x in outs[i] <==> Expires(At(old(View()), ops, i), ops[i], x)
    {
      hide Remaining, Distinct, NoDup;
      outs := [];
      for i := 0 to |ops|
        invariant Valid() && View() == At(old(View()), ops, i) && |outs| == i
        invariant forall j :: 0 <= j < i ==>
                  NoDup(outs[j]) && forall x :: x in outs[j] <==> Expires(At(old(View()), ops, j), ops[j], x)
      {
        var out := Step(ops[i]);
        outs := outs + [out];
      }
    }

    method Step(op: Op) returns (out: seq<nat>)
      requires Valid()
      modifies this
      ensures Valid() && View() == Next(old(View()), op)
      ensures NoDup(out) && forall x :: x in out <==> Expires(old(View()), op, x)
    {
      hide Remaining, Distinct;
      out := [];
      match op {
        case Add(id, ticks) =>
          RemainingListed(list, 0);
          var i := Find(id);
          DeletedSame(list, id, i);
          if ticks > 0 && i == |list| {
            AddTimer(id, ticks);
          }
        case Del(id) => DelTimer(id);
        case Tick => out := RunTimerList();
      }
    }
  }

  // Whole runs.

  ghost predicate Mentions(op: Op, x: nat) {
    !op.Tick? && op.id == x
  }

  /** How many of the first i operations are ticks. */
  ghost function Ticks(ops: seq<Op>, i: nat): nat
    requires i <= |ops|
  {
    if i == 0 then 0 else Ticks(ops, i - 1) + if ops[i - 1] == Tick then 1 else 0
  }

  /** Over every history, a timer with n ticks to go that nobody deletes expires exactly at the n-th
      tick, and until then always has the right time left. */
  lemma {:induction false} ExpiresOnTime(r: map<nat, nat>, ops: seq<Op>, x: nat, i: nat)
    requires i <= |ops| && x in r && r[x] > 0 && forall j :: 0 <= j < i ==> !Mentions(ops[j], x)
    ensures Ticks(ops, i) < r[x] ==> x in At(r, ops, i) && At(r, ops, i)[x] == r[x] - Ticks(ops, i)
    ensures Ticks(ops, i) >= r[x] ==> x !in At(r, ops, i)
    ensures i < |ops| ==> (Expires(At(r, ops, i), ops[i], x) <==> ops[i] == Tick && Ticks(ops, i) + 1 == r[x])
  {
    if i > 0 {
      ExpiresOnTime(r, ops, x, i - 1);
      assert !Mentions(ops[i - 1], x);
    }
  }

  /** Operation i set x to n ticks, and nothing has deleted it before operation j. */
  ghost predicate Set(ops: seq<Op>, i: nat, j: nat, x: nat, n: nat) {
    && i < j <= |ops| && n > 0 && ops[i] == Add(x, n) && x !in At(map[], ops, i)
    && forall k :: i < k < j ==> ops[k] != Del(x)
  }

  /** In every history from the empty list a timer expires in an operation exactly if this is the n-th
      tick since it was added with n ticks, and it has not been deleted since. */
  lemma {:induction false} ExpiresExactly(ops: seq<Op>, x: nat, j: nat)
    requires j < |ops|
    ensures Expires(At(map[], ops, j), ops[j], x) <==>
            ops[j] == Tick && exists i: nat, n: nat :: Set(ops, i, j, x, n) && Ticks(ops, i) + n == Ticks(ops, j) + 1
  {
    hide Set, At;
    if x in At(map[], ops, j) {
      var i, n := PendingSet(ops, x, j);
      assert Set(ops, i, j, x, n);
    }
    forall i: nat, n: nat | Set(ops, i, j, x, n) ensures i < j {
      SetBefore(ops, i, j, x, n);
    }
    forall i: nat, n: nat | i < j && Set(ops, i, j, x, n) && Ticks(ops, i) + n == Ticks(ops, j) + 1
      ensures x in At(map[], ops, j) && At(map[], ops, j)[x] == 1
    {
      SetPending(ops, x, j, i, n);
    }
  }

  lemma {:induction false} SetBefore(ops: seq<Op>, i: nat, j: nat, x: nat, n: nat)
    requires Set(ops, i, j, x, n)
    ensures i < j <= |ops|
  {
  }

  /** What one operation does to one timer. */
  lemma {:induction false} TimerNext(r: map<nat, nat>, op: Op, x: nat)
    ensures var r' := Next(r, op);
            && (op == Tick ==> (x in r' <==> x in r && r[x] > 1) && (x in r' ==> r'[x] == r[x] - 1))
            && (op == Del(x) ==> x !in r')
            && (op.Add? && op.id == x && x !in r ==> (x in r' <==> op.ticks > 0) && (x in r' ==> r'[x] == op.ticks))
            && (op != Tick && op != Del(x) && x in r ==> x in r' && r'[x] == r[x])
            && (op != Tick && !Mentions(op, x) && x !in r ==> x !in r')
  {
  }

  lemma {:induction false} SetNext(ops: seq<Op>, i: nat, j: nat, x: nat, n: nat)
    requires j < |ops|
    ensures n > 0 && ops[j] == Add(x, n) && x !in At(map[], ops, j) ==> Set(ops, j, j + 1, x, n)
    ensures ops[j] != Del(x) && Set(ops, i, j, x, n) ==> Set(ops, i, j + 1, x, n)
    ensures Set(ops, i, j + 1, x, n) && i < j ==> Set(ops, i, j, x, n) && ops[j] != Del(x)
    ensures Set(ops, j, j + 1, x, n) ==> ops[j] == Add(x, n) && n > 0 && x !in At(map[], ops, j)
  {
  }

  lemma {:induction false} PendingSet(ops: seq<Op>, x: nat, j: nat) returns (i: nat, n: nat)
    requires j <= |ops| && x in At(map[], ops, j)
    ensures Set(ops, i, j, x, n) && At(map[], ops, j)[x] + Ticks(ops, j) == Ticks(ops, i) + n
    ensures At(map[], ops, j)[x] > 0
    decreases j
  {
    hide Set, Next;
    assert j > 0;
    var r, op := At(map[], ops, j - 1), ops[j - 1];
    TimerNext(r, op, x);
    if x in r {
      i, n := PendingSet(ops, x, j - 1);
      SetNext(ops, i, j - 1, x, n);
    } else {
      i, n := j - 1, op.ticks;
      SetNext(ops, i, j - 1, x, n);
    }
  }

  lemma {:induction false} SetPending(ops: seq<Op>, x: nat, j: nat, i: nat, n: nat)
    requires i < j <= |ops| && Set(ops, i, j, x, n) && Ticks(ops, j) < Ticks(ops, i) + n
    ensures x in At(map[], ops, j) && At(map[], ops, j)[x] + Ticks(ops, j) == Ticks(ops, i) + n
    decreases j
  {
    hide Set, Next;
    TimerNext(At(map[], ops, j - 1), ops[j - 1], x);
    SetNext(ops, i, j - 1, x, n);
    if i < j - 1 {
      SetPending(ops, x, j - 1, i, n);
    }
  }

  // What the list stands for.

  ghost function Inserted(l: seq<Entry>, e: Entry): seq<Entry> {
    if l == [] then [e]
    else if e.expires < l[0].expires then [e, l[0].(expires := l[0].expires - e.expires)] + l[1..]
    else [l[0]] + Inserted(l[1..], e.(expires := e.expires - l[0].expires))
  }

  ghost function Deleted(l: seq<Entry>, id: nat): seq<Entry> {
    if l == [] then []
    else if l[0].id != id then [l[0]] + Deleted(l[1..], id)
    else if |l| == 1 then []
    else [l[1].(expires := l[1].expires + l[0].expires)] + l[2..]
  }

  /** One turn of the loop of add_timer. */
  lemma {:induction false} InsertedAt(l: seq<Entry>, i: nat, e0: Entry, e: Entry)
    requires i < |l| && Inserted(l, e0) == l[..i] + Inserted(l[i..], e)
    ensures e.expires < l[i].expires ==>
              Inserted(l, e0) == l[i := l[i].(expires := l[i].expires - e.expires)][..i] + [e]
                + l[i := l[i].(expires := l[i].expires - e.expires)][i..]
    ensures e.expires >= l[i].expires ==>
            Inserted(l, e0) == l[..i + 1] + Inserted(l[i + 1..], e.(expires := e.expires - l[i].expires))
  {
    assert l[i..][1..] == l[i + 1..] && l[..i + 1] == l[..i] + [l[i]];
  }

  lemma {:induction false} InsertedEnd(l: seq<Entry>, e0: Entry, e: Entry)
    requires Inserted(l, e0) == l[..|l|] + Inserted(l[|l|..], e)
    ensures Inserted(l, e0) == l[..|l|] + [e] + l[|l|..]
  {
  }

  /** One turn of the search for the timer to delete. */
  lemma {:induction false} DeletedAt(l: seq<Entry>, i: nat, id: nat)
    requires i < |l| && Deleted(l, id) == l[..i] + Deleted(l[i..], id)
    ensures l[i].id != id ==> Deleted(l, id) == l[..i + 1] + Deleted(l[i + 1..], id)
    ensures l[i].id == id && i + 1 == |l| ==> Deleted(l, id) == l[..i] + l[i + 1..]
    ensures l[i].id == id && i + 1 < |l| ==>
              var l' := l[i + 1 := l[i + 1].(expires := l[i + 1].expires + l[i].expires)];
              Deleted(l, id) == l'[..i] + l'[i + 1..] && (l[i].expires == 0 ==> l' == l)
  {
    assert l[i..][1..] == l[i + 1..] && l[..i + 1] == l[..i] + [l[i]];
    assert i + 1 < |l| ==> l[i..][2..] == l[i + 2..];
  }

  /** A timer that is not found is not listed. */
  lemma {:induction false} DeletedSame(l: seq<Entry>, id: nat, i: nat)
    requires i <= |l| && (i == |l| ==> Deleted(l, id) == l) && (i < |l| ==> l[i].id == id)
    ensures i < |l| <==> Listed(l, id)
  {
    if i == |l| {
      NotListed(l, id);
    }
  }

  lemma {:induction false} NotListed(l: seq<Entry>, id: nat)
    requires Deleted(l, id) == l
    ensures !Listed(l, id)
  {
    if l != [] {
      ListedTail(l);
      assert |l| > 1 && l[0].id == id ==> |Deleted(l, id)| == |l| - 1;
      if l[0].id != id {
        assert l == [l[0]] + Deleted(l[1..], id);
        assert l[1..] == Deleted(l[1..], id);
        NotListed(l[1..], id);
      }
    }
  }

  lemma {:induction false} DeletedEnd(l: seq<Entry>, id: nat)
    requires Deleted(l, id) == l[..|l|] + Deleted(l[|l|..], id)
    ensures Deleted(l, id) == l
  {
  }

  lemma {:induction false} EmptyView()
    ensures Remaining([], 0) == map[]
  {
  }

  lemma {:induction false} RemainingListed(l: seq<Entry>, base: nat)
    ensures forall x :: x in Remaining(l, base) <==> Listed(l, x)
  {
    if l != [] {
      RemainingListed(l[1..], base + l[0].expires);
      ListedTail(l);
    }
  }

  lemma {:induction false} ListedTail(l: seq<Entry>)
    requires l != []
    ensures forall x :: Listed(l, x) <==> x == l[0].id || Listed(l[1..], x)
  {
    forall x ensures Listed(l, x) <==> x == l[0].id || Listed(l[1..], x) {
      if Listed(l[1..], x) {
        var i :| 0 <= i < |l[1..]| && l[1..][i].id == x;
        assert l[i + 1].id == x;
      }
      if Listed(l, x) && x != l[0].id {
        var i :| 0 <= i < |l| && l[i].id == x;
        assert l[1..][i - 1].id == x;
      }
    }
  }

  /** Inserting sets one time and leaves the others. */
  lemma {:induction false} InsertedView(l: seq<Entry>, e: Entry, base: nat)
    requires e.id !in Remaining(l, base)
    ensures Remaining(Inserted(l, e), base) == Remaining(l, base)[e.id := base + e.expires]
  {
    if l == [] {
      assert [e][1..] == [];
    } else if e.expires < l[0].expires {
      var h := l[0].(expires := l[0].expires - e.expires);
      var ins := [e, h] + l[1..];
      assert ins[1..] == [h] + l[1..] && ins[1..][1..] == l[1..];
    } else {
      InsertedView(l[1..], e.(expires := e.expires - l[0].expires), base + l[0].expires);
      assert Inserted(l, e)[1..] == Inserted(l[1..], e.(expires := e.expires - l[0].expires));
    }
  }

  lemma {:induction false} InsertedIds(l: seq<Entry>, e: Entry)
    ensures forall x :: Listed(Inserted(l, e), x) <==> Listed(l, x) || x == e.id
  {
    ListedTail(Inserted(l, e));
    if l == [] {
      assert Inserted(l, e)[1..] == [];
    } else {
      ListedTail(l);
      if e.expires < l[0].expires {
        var h := l[0].(expires := l[0].expires - e.expires);
        assert Inserted(l, e)[1..] == [h] + l[1..];
        ListedTail([h] + l[1..]);
        assert ([h] + l[1..])[1..] == l[1..];
      } else {
        InsertedIds(l[1..], e.(expires := e.expires - l[0].expires));
        assert Inserted(l, e)[1..] == Inserted(l[1..], e.(expires := e.expires - l[0].expires));
      }
    }
  }

  lemma {:induction false} DistinctTail(l: seq<Entry>)
    requires l != []
    ensures Distinct(l) <==> !Listed(l[1..], l[0].id) && Distinct(l[1..])
  {
    if !Listed(l[1..], l[0].id) && Distinct(l[1..]) {
      forall i, j | 0 <= i < j < |l| ensures l[i].id != l[j].id {
        assert l[j] == l[1..][j - 1];
        assert i > 0 ==> l[i] == l[1..][i - 1];
      }
    }
    if Distinct(l) {
      assert forall i :: 0 <= i < |l[1..]| ==> l[1..][i] == l[i + 1];
    }
  }

  lemma {:induction false} InsertedDistinct(l: seq<Entry>, e: Entry)
    requires Distinct(l) && !Listed(l, e.id)
    ensures Distinct(Inserted(l, e))
    ensures e.expires > 0 && (l != [] ==> l[0].expires > 0) ==> Inserted(l, e)[0].expires > 0
  {
    DistinctTail(Inserted(l, e));
    if l == [] {
      assert Inserted(l, e)[1..] == [];
    } else {
      DistinctTail(l);
      ListedTail(l);
      if e.expires < l[0].expires {
        var h := l[0].(expires := l[0].expires - e.expires);
        assert Inserted(l, e)[1..] == [h] + l[1..];
        DistinctTail([h] + l[1..]);
        ListedTail([h] + l[1..]);
        assert ([h] + l[1..])[1..] == l[1..];
      } else {
        var f := e.(expires := e.expires - l[0].expires);
        InsertedDistinct(l[1..], f);
        InsertedIds(l[1..], f);
        assert Inserted(l, e)[1..] == Inserted(l[1..], f);
      }
    }
  }

  lemma {:induction false} DeletedView(l: seq<Entry>, id: nat, base: nat)
    requires Distinct(l)
    ensures Remaining(Deleted(l, id), base) == Remaining(l, base) - {id}
  {
    hide Distinct, Listed;
    if l != [] {
      DistinctTail(l);
      RemainingListed(l[1..], base + l[0].expires);
      if l[0].id != id {
        DeletedView(l[1..], id, base + l[0].expires);
        assert Deleted(l, id)[1..] == Deleted(l[1..], id);
      } else if |l| > 1 {
        Merged(l, base);
      }
    }
  }

  lemma {:induction false} Merged(l: seq<Entry>, base: nat)
    requires |l| > 1
    ensures Remaining([l[1].(expires := l[1].expires + l[0].expires)] + l[2..], base) ==
            Remaining(l[1..], base + l[0].expires)
  {
    var m := [l[1].(expires := l[1].expires + l[0].expires)] + l[2..];
    assert m[1..] == l[2..] == l[1..][1..];
  }

  lemma {:induction false} DeletedIds(l: seq<Entry>, id: nat)
    ensures forall x :: Listed(Deleted(l, id), x) ==> Listed(l, x)
  {
    if l != [] {
      ListedTail(l);
      if l[0].id != id {
        DeletedIds(l[1..], id);
        ListedTail(Deleted(l, id));
        assert Deleted(l, id)[1..] == Deleted(l[1..], id);
      } else if |l| > 1 {
        ListedTail(l[1..]);
        ListedTail(Deleted(l, id));
        assert Deleted(l, id)[1..] == l[2..] == l[1..][1..];
      }
    }
  }

  lemma {:induction false} DeletedDistinct(l: seq<Entry>, id: nat)
    requires Distinct(l)
    ensures Distinct(Deleted(l, id))
    ensures l != [] && l[0].expires > 0 && Deleted(l, id) != [] ==> Deleted(l, id)[0].expires > 0
    ensures l != [] && l[0].id != id ==> Deleted(l, id) != [] && Deleted(l, id)[0] == l[0]
  {
    if l != [] {
      DistinctTail(l);
      if l[0].id != id {
        DeletedDistinct(l[1..], id);
        DeletedIds(l[1..], id);
        DistinctTail(Deleted(l, id));
        assert Deleted(l, id)[1..] == Deleted(l[1..], id);
      } else if |l| > 1 {
        DistinctTail(l[1..]);
        DistinctTail(Deleted(l, id));
        assert Deleted(l, id)[1..] == l[2..] == l[1..][1..];
      }
    }
  }

  lemma {:induction false} Shifted(l: seq<Entry>, base: nat)
    ensures Remaining(l, base).Keys == Remaining(l, base + 1).Keys
    ensures forall x :: x in Remaining(l, base) ==> Remaining(l, base + 1)[x] == Remaining(l, base)[x] + 1
  {
    if l != [] {
      Shifted(l[1..], base + l[0].expires);
    }
  }

  /** One tick: taking one from the first distance takes one from every time. */
  lemma {:induction false} Earlier(l: seq<Entry>)
    requires l != [] && l[0].expires > 0
    ensures var l' := l[0 := l[0].(expires := l[0].expires - 1)];
            && Remaining(l', 0).Keys == Remaining(l, 0).Keys
            && (forall x :: x in Remaining(l, 0) ==> Remaining(l, 0)[x] == Remaining(l', 0)[x] + 1)
            && (Distinct(l) ==> Distinct(l'))
            && (forall x :: Listed(l', x) <==> Listed(l, x))
  {
    var l' := l[0 := l[0].(expires := l[0].expires - 1)];
    assert l'[1..] == l[1..];
    Shifted(l[1..], l[0].expires - 1);
    RemainingListed(l, 0);
    RemainingListed(l', 0);
  }

  lemma {:induction false} LowerBound(l: seq<Entry>, base: nat)
    ensures forall x :: x in Remaining(l, base) ==>
            Remaining(l, base)[x] >= base + (if l == [] then 0 else l[0].expires)
  {
    if l != [] {
      LowerBound(l[1..], base + l[0].expires);
    }
  }

  lemma {:induction false} AllPositive(l: seq<Entry>)
    requires l != [] ==> l[0].expires > 0
    ensures forall x :: x in Remaining(l, 0) ==> Remaining(l, 0)[x] > 0
  {
    LowerBound(l, 0);
  }

  /** Dropping an expired head changes nothing else. */
  lemma {:induction false} HeadOnly(l: seq<Entry>)
    requires l != [] && l[0].expires == 0 && Distinct(l)
    ensures Remaining(l[1..], 0) == Remaining(l, 0) - {l[0].id} && Distinct(l[1..]) && l[0].id in Remaining(l, 0)
    ensures Remaining(l, 0)[l[0].id] == 0
    ensures forall x :: Listed(l[1..], x) <==> Listed(l, x) && x != l[0].id
  {
    DistinctTail(l);
    ListedTail(l);
    RemainingListed(l[1..], 0);
  }
}
