/** The physical memory map of mm/memmap.c: appended intervals become a table of boundaries at
    which the memory starts or stops being usable. */
module MemMap {

  const FLAG_FREE: int := 1
  const FLAG_RECLAIMABLE: int := 3
  const MEMMAP_SCALE: nat := 400

  datatype Interval = Interval(start: nat, end: nat, flag: int)

  /** A boundary node: where it is, and the flag of its interval, negated at the end. */
  datatype Node = Node(addr: nat, flag: int)

  /** The two counters of the sweep. */
  datatype Level = Valid | Reclaim

  /** What passing a node adds to a counter: the switch in memmap_process. */
  function Weight(k: Level, flag: int): int {
    if k == Reclaim then
      if flag == FLAG_RECLAIMABLE then 1 else if flag == -FLAG_RECLAIMABLE then -1 else 0
    else if flag == FLAG_FREE then 1
    else if flag == -FLAG_FREE then -1
    else if flag == FLAG_RECLAIMABLE || flag == -FLAG_RECLAIMABLE then 0
    else if flag > 0 then -1 else 1
  }

  /** Whether memory is usable, given the two counters. */
  function Usable(valid: int, reclaim: int): bool {
    if valid == 0 then reclaim > 0 else valid > 0
  }

  /** At address x: free intervals less blocking ones, or the reclaimable ones. */
  ghost function Cover(l: seq<Interval>, x: nat, k: Level): int {
    if l == [] then 0
    else Cover(l[..|l| - 1], x, k) +
         var i := l[|l| - 1]; if i.start <= x < i.end then Weight(k, i.flag) else 0
  }

  datatype Kind = Free | Reclaimable | Blocking

  ghost function KindOf(i: Interval): Kind {
    if i.flag == FLAG_FREE then Free else if i.flag == FLAG_RECLAIMABLE then Reclaimable else Blocking
  }

  /** How many intervals of a kind cover address x. */
  ghost function HowMany(l: seq<Interval>, x: nat, kind: Kind): nat {
    if l == [] then 0
    else HowMany(l[1..], x, kind) + if l[0].start <= x < l[0].end && KindOf(l[0]) == kind then 1 else 0
  }

  /** What the memory map is for: more free than blocking intervals cover the address, or as many, and
      a reclaimable one too. */
  ghost predicate IsUsable(l: seq<Interval>, x: nat) {
    var free, blocking := HowMany(l, x, Free), HowMany(l, x, Blocking);
    free > blocking || (free == blocking && HowMany(l, x, Reclaimable) > 0)
  }

  lemma {:induction false} HowManyLast(l: seq<Interval>, x: nat, kind: Kind)
    requires l != []
    ensures var i := l[|l| - 1];
            HowMany(l, x, kind) ==
            HowMany(l[..|l| - 1], x, kind) + if i.start <= x < i.end && KindOf(i) == kind then 1 else 0
  {
    if |l| > 1 {
      HowManyLast(l[1..], x, kind);
      assert l[1..][..|l| - 2] == l[..|l| - 1][1..];
    }
  }

  /** The two counters of the sweep are those numbers. */
  lemma {:induction false} CoverIs(l: seq<Interval>, x: nat)
    requires forall i :: i in l ==> i.flag > 0
    ensures Cover(l, x, Valid) == HowMany(l, x, Free) - HowMany(l, x, Blocking)
    ensures Cover(l, x, Reclaim) == HowMany(l, x, Reclaimable)
    ensures IsUsable(l, x) <==> Usable(Cover(l, x, Valid), Cover(l, x, Reclaim))
  {
    if l != [] {
      CoverIs(l[..|l| - 1], x);
      HowManyLast(l, x, Free);
      HowManyLast(l, x, Blocking);
      HowManyLast(l, x, Reclaimable);
      assert l[|l| - 1] in l;
    }
  }

  ghost function Term(n: Node, x: nat, k: Level): int {
    if n.addr <= x then Weight(k, n.flag) else 0
  }

  /** The counter after passing every node up to address x. */
  ghost function Sum(nodes: seq<Node>, x: nat, k: Level): int {
    if nodes == [] then 0 else Sum(nodes[..|nodes| - 1], x, k) + Term(nodes[|nodes| - 1], x, k)
  }

  /** Boundaries at or below x. */
  ghost function Below(bounds: seq<nat>, x: nat): (r: nat)
    ensures r <= |bounds|
  {
    if bounds == [] then 0 else Below(bounds[..|bounds| - 1], x) + if bounds[|bounds| - 1] <= x then 1 else 0
  }

  /** x lies in one of the ranges between an even boundary and the next. */
  ghost predicate Inside(bounds: seq<nat>, x: nat) {
    exists k :: 0 <= k && 2 * k + 1 < |bounds| && bounds[2 * k] <= x < bounds[2 * k + 1]
  }

  ghost predicate Increasing(b: seq<nat>) {
    forall i, j :: 0 <= i < j < |b| ==> b[i] < b[j]
  }

  ghost predicate Sorted(nodes: seq<Node>) {
    forall i, j :: 0 <= i < j < |nodes| ==> nodes[i].addr <= nodes[j].addr
  }

  ghost function Zip(a: seq<nat>, f: seq<int>): (r: seq<Node>)
    requires |a| == |f|
    ensures |r| == |a| && forall i :: 0 <= i < |a| ==> r[i] == Node(a[i], f[i])
  {
    seq(|a|, i requires 0 <= i < |a| => Node(a[i], f[i]))
  }

  class MemoryMap {
    const mmnodeAddr: array<nat>
    const mmnodeFlag: array<int>
    var mmnodeCount: nat
    var bounds: seq<nat>
    ghost var intervals: seq<Interval>

    ghost function Nodes(): seq<Node>
      requires mmnodeCount <= mmnodeAddr.Length && mmnodeCount <= mmnodeFlag.Length
      reads this, mmnodeAddr, mmnodeFlag
    {
      Zip(mmnodeAddr[..mmnodeCount], mmnodeFlag[..mmnodeCount])
    }

    /** The nodes count the appended intervals at every address. */
    ghost predicate Inv()
      reads this, mmnodeAddr, mmnodeFlag
    {
      && mmnodeAddr.Length == mmnodeFlag.Length == MEMMAP_SCALE && mmnodeCount <= MEMMAP_SCALE
      && mmnodeCount == 2 * |intervals| && (forall i :: i in intervals ==> i.flag > 0)
      && forall x: nat, k :: Sum(Nodes(), x, k) == Cover(intervals, x, k)
    }

    /** memmap_reset. */
    constructor ()
      ensures Inv() && intervals == [] && bounds == [] && fresh(mmnodeAddr) && fresh(mmnodeFlag)
    {
      mmnodeAddr := new nat[MEMMAP_SCALE](_ => 0);
      mmnodeFlag := new int[MEMMAP_SCALE](_ => 0);
      mmnodeCount, bounds, intervals := 0, [], [];
    }

    /** memmap_append; the table has no bounds check of its own. */
    method Append(start: nat, end: nat, flag: int)
      requires Inv() && start <= end && flag > 0 && mmnodeCount + 2 <= MEMMAP_SCALE
      modifies this, mmnodeAddr, mmnodeFlag
      ensures Inv() && intervals == old(intervals) + [Interval(start, end, flag)] && bounds == old(bounds)
    {
      hide Sum, Cover;
      ghost var nodes0 := Nodes();
      mmnodeAddr[mmnodeCount] := start;
      mmnodeFlag[mmnodeCount] := flag;
      mmnodeCount := mmnodeCount + 1;
      mmnodeAddr[mmnodeCount] := end;
      mmnodeFlag[mmnodeCount] := -flag;
      mmnodeCount := mmnodeCount + 1;
      intervals := intervals + [Interval(start, end, flag)];
      assert Nodes() == nodes0 + [Node(start, flag)] + [Node(end, -flag)];
      forall x: nat, k ensures Sum(Nodes(), x, k) == Cover(intervals, x, k) {
        BothEnds(nodes0, old(intervals), start, end, flag, x, k);
      }
    }

    /** The selection sort of memmap_process over the two parallel arrays. */
    method Sort()
      requires Inv()
      modifies mmnodeAddr, mmnodeFlag
      ensures Inv() && Sorted(Nodes())
    {
      hide Sum, Cover;
      ghost var n := mmnodeCount;
      for i := 0 to mmnodeCount
        invariant Inv()
        invariant forall p, q :: 0 <= p < i && p < q < n ==> mmnodeAddr[p] <= mmnodeAddr[q]
      {
        var j := i;
        for k := i + 1 to mmnodeCount
          invariant i <= j < n && forall q :: i <= q < k ==> mmnodeAddr[j] <= mmnodeAddr[q]
        {
          if mmnodeAddr[k] < mmnodeAddr[j] {
            j := k;
          }
        }
        ghost var nodes0 := Nodes();
        var t, f := mmnodeAddr[i], mmnodeFlag[i];
        mmnodeAddr[i] := mmnodeAddr[j];
        mmnodeAddr[j] := t;
        mmnodeFlag[i] := mmnodeFlag[j];
        mmnodeFlag[j] := f;
        assert Nodes() == nodes0[i := nodes0[j]][j := nodes0[i]];
        forall x: nat, k ensures Sum(Nodes(), x, k) == Sum(nodes0, x, k) {
          SumSwap(nodes0, i, j, x, k);
        }
      }
    }

    /** memmap_process: strictly increasing boundaries, an even number of them, and an address lies
        in one of their ranges exactly when it is usable. */
    method Process()
      requires Inv()
      modifies this`bounds, mmnodeAddr, mmnodeFlag
      ensures Inv() && Increasing(bounds) && |bounds| % 2 == 0
      ensures forall x: nat :: Inside(bounds, x) <==> IsUsable(intervals, x)
    {
      hide Sum, Cover, IsUsable, Inside, Whole, Below;
      Sort();
      ghost var nodes := Nodes();
      var valid, reclaim := 0, 0;
      var v := false;
      bounds := [];
      var i := 0;
      SweepStart(nodes);
      while i < mmnodeCount
        invariant 0 <= i <= mmnodeCount && nodes == Nodes() && Inv() && Swept(nodes, i, bounds, valid, reclaim, v)
      {
        var lastValid := v;
        ghost var i0, valid0, reclaim0 := i, valid, reclaim;
        i, valid, reclaim := Group(i, valid, reclaim, nodes);
        v := if valid == 0 then reclaim > 0 else valid > 0;
        SweepNext(nodes, i0, i, bounds, valid0, reclaim0, lastValid, valid, reclaim);
        if v != lastValid {
          bounds := bounds + [mmnodeAddr[i - 1]];
        }
      }
      SweepEnd(nodes, intervals, bounds, valid, reclaim, v);
    }

    /** The inner loop of the sweep: all nodes at one address. */
    method Group(start: nat, valid0: int, reclaim0: int, ghost nodes: seq<Node>)
        returns (i: nat, valid: int, reclaim: int)
      requires Inv() && nodes == Nodes() && Sorted(nodes) && start < mmnodeCount
      requires valid0 == Whole(nodes[..start], Valid) && reclaim0 == Whole(nodes[..start], Reclaim)
      ensures start < i <= mmnodeCount && (i < mmnodeCount ==> nodes[i - 1].addr != nodes[i].addr)
      ensures forall j :: start <= j < i ==> nodes[j].addr == nodes[start].addr
      ensures valid == Whole(nodes[..i], Valid) && reclaim == Whole(nodes[..i], Reclaim)
    {
      hide Sum, Cover, Whole;
      i, valid, reclaim := start, valid0, reclaim0;
      while true
        invariant start <= i < mmnodeCount && forall j :: start <= j <= i ==> nodes[j].addr == nodes[start].addr
        invariant valid == Whole(nodes[..i], Valid) && reclaim == Whole(nodes[..i], Reclaim)
        decreases mmnodeCount - i
      {
        WholeNext(nodes, i, Valid);
        WholeNext(nodes, i, Reclaim);
        var flag := mmnodeFlag[i];
        if flag == FLAG_FREE {
          valid := valid + 1;
        } else if flag == -FLAG_FREE {
          valid := valid - 1;
        } else if flag == FLAG_RECLAIMABLE {
          reclaim := reclaim + 1;
        } else if flag == -FLAG_RECLAIMABLE {
          reclaim := reclaim - 1;
        } else if flag > 0 {
          valid := valid - 1;
        } else {
          valid := valid + 1;
        }
        i := i + 1;
        if i >= mmnodeCount || mmnodeAddr[i - 1] != mmnodeAddr[i] {
          return;
        }
      }
    }

    /** memmap_bin_search: the first boundary past the address, or the last one if there is none. */
    method BinSearch(addr: nat) returns (l: nat)
      requires Increasing(bounds)
      ensures bounds == [] ==> l == 0
      ensures bounds != [] ==>
              l < |bounds| && (forall j :: 0 <= j < l ==> bounds[j] <= addr) && (l < |bounds| - 1 ==> addr < bounds[l])
    {
      l := 0;
      var r := |bounds| - 1;
      while l < r
        invariant 0 <= l && (bounds != [] ==> l <= r < |bounds|) && (bounds == [] ==> l == 0)
        invariant forall j :: 0 <= j < l ==> bounds[j] <= addr
        invariant bounds != [] && r < |bounds| - 1 ==> addr < bounds[r]
        decreases r - l
      {
        var m := (l + r) / 2;
        if bounds[m] > addr {
          r := m;
        } else {
          l := m + 1;
        }
      }
    }

    /** memmap_test: it answers whether the whole range is usable, except exactly for ranges that
        begin in or after the last usable range and reach past its end: those it accepts. */
    method Test(start: nat, end: nat) returns (r: bool)
      requires Increasing(bounds) && |bounds| % 2 == 0 && start < end
      ensures (r <==> forall x: nat :: start <= x < end ==> Inside(bounds, x))
         <==> !(bounds != [] && bounds[|bounds| - 2] <= start && bounds[|bounds| - 1] < end)
      ensures bounds != [] && bounds[|bounds| - 2] <= start && bounds[|bounds| - 1] < end ==> r
    {
      hide Inside;
      var i := BinSearch(start);
      var j := BinSearch(end - 1);
      r := i % 2 == 1 && i == j;
      TestRight(bounds, start, end, i, j);
    }

    /** memmap_enumerate. */
    method Enumerate(num: nat) returns (ok: bool, start: nat, end: nat)
      ensures ok <==> 2 * num + 1 < |bounds|
      ensures ok ==> start == bounds[2 * num] && end == bounds[2 * num + 1]
    {
      if (num + 1) * 2 > |bounds| {
        return false, 0, 0;
      }
      return true, bounds[2 * num], bounds[2 * num + 1];
    }
  }

  // Sums.

  lemma {:induction false} SumSnoc(nodes: seq<Node>, n: Node, x: nat, k: Level)
    ensures Sum(nodes + [n], x, k) == Sum(nodes, x, k) + Term(n, x, k)
  {
    assert (nodes + [n])[..|nodes|] == nodes;
  }

  lemma {:induction false} CoverSnoc(l: seq<Interval>, i: Interval, x: nat, k: Level)
    ensures Cover(l + [i], x, k) == Cover(l, x, k) + if i.start <= x < i.end then Weight(k, i.flag) else 0
  {
    assert (l + [i])[..|l|] == l;
  }

  /** The two nodes of an interval count it exactly where it lies. */
  lemma {:induction false} BothEnds(nodes: seq<Node>, l: seq<Interval>, start: nat, end: nat, flag: int, x: nat,
      k: Level)
    requires Sum(nodes, x, k) == Cover(l, x, k) && start <= end && flag > 0
    ensures Sum(nodes + [Node(start, flag)] + [Node(end, -flag)], x, k) == Cover(l + [Interval(start, end, flag)], x, k)
  {
    hide Sum, Cover;
    SumSnoc(nodes, Node(start, flag), x, k);
    SumSnoc(nodes + [Node(start, flag)], Node(end, -flag), x, k);
    CoverSnoc(l, Interval(start, end, flag), x, k);
  }

  lemma {:induction false} SumUpdate(nodes: seq<Node>, i: nat, n: Node, x: nat, k: Level)
    requires i < |nodes|
    ensures Sum(nodes[i := n], x, k) == Sum(nodes, x, k) - Term(nodes[i], x, k) + Term(n, x, k)
  {
    var m := |nodes| - 1;
    if i == m {
      assert nodes[i := n][..m] == nodes[..m];
    } else {
      SumUpdate(nodes[..m], i, n, x, k);
      assert nodes[i := n][..m] == nodes[..m][i := n];
    }
  }

  lemma {:induction false} SumSwap(nodes: seq<Node>, i: nat, j: nat, x: nat, k: Level)
    requires i < |nodes| && j < |nodes|
    ensures Sum(nodes[i := nodes[j]][j := nodes[i]], x, k) == Sum(nodes, x, k)
  {
    SumUpdate(nodes, i, nodes[j], x, k);
    SumUpdate(nodes[i := nodes[j]], j, nodes[i], x, k);
  }

  /** A counter after all of these nodes. */
  ghost function Whole(nodes: seq<Node>, k: Level): int {
    if nodes == [] then 0 else Whole(nodes[..|nodes| - 1], k) + Weight(k, nodes[|nodes| - 1].flag)
  }

  lemma {:induction false} WholeNext(nodes: seq<Node>, i: nat, k: Level)
    requires i < |nodes|
    ensures Whole(nodes[..i + 1], k) == Whole(nodes[..i], k) + Weight(k, nodes[i].flag)
  {
    assert nodes[..i + 1][..i] == nodes[..i];
  }

  /** Between two groups of a sorted list the sum is that of the nodes before. */
  lemma {:induction false} SumSplit(nodes: seq<Node>, i: nat, x: nat, k: Level)
    requires i <= |nodes| && (forall j :: 0 <= j < i ==> nodes[j].addr <= x)
             && (forall j :: i <= j < |nodes| ==> nodes[j].addr > x)
    ensures Sum(nodes, x, k) == Whole(nodes[..i], k)
  {
    var m := |nodes| - 1;
    if nodes == [] {
    } else if i == |nodes| {
      SumSplit(nodes[..m], m, x, k);
      assert nodes[..i] == nodes && nodes[..m][..m] == nodes[..m];
    } else {
      SumSplit(nodes[..m], i, x, k);
      assert nodes[..m][..i] == nodes[..i];
    }
  }

  // Boundaries.

  lemma {:induction false} BelowSnoc(b: seq<nat>, a: nat, x: nat)
    ensures Below(b + [a], x) == Below(b, x) + if a <= x then 1 else 0
  {
    assert (b + [a])[..|b|] == b;
  }

  /** The boundaries at or below x come first. */
  lemma {:induction false} BelowFacts(b: seq<nat>, x: nat)
    requires Increasing(b)
    ensures var c := Below(b, x);
            (forall j :: 0 <= j < c ==> b[j] <= x) && (forall j :: c <= j < |b| ==> x < b[j])
  {
    if b != [] {
      var m := |b| - 1;
      BelowFacts(b[..m], x);
      assert b[m] <= x ==> Below(b[..m], x) == m by {
        assert Below(b[..m], x) < m ==> x < b[..m][m - 1] == b[m - 1] < b[m];
      }
    }
  }

  /** Inside a range means past an odd number of boundaries. */
  lemma {:induction false} InsideOdd(b: seq<nat>, x: nat)
    requires Increasing(b) && |b| % 2 == 0
    ensures Inside(b, x) <==> Below(b, x) % 2 == 1
  {
    BelowFacts(b, x);
    var c := Below(b, x);
    if Inside(b, x) {
      var k :| 0 <= k && 2 * k + 1 < |b| && b[2 * k] <= x < b[2 * k + 1];
      assert c == 2 * k + 1;
    }
    if c % 2 == 1 {
      var k := c / 2;
      assert c == 2 * k + 1;
      assert b[2 * k] <= x < b[2 * k + 1];
    }
  }

  // The sweep.

  ghost predicate At(nodes: seq<Node>, x: nat) {
    Usable(Sum(nodes, x, Valid), Sum(nodes, x, Reclaim))
  }

  ghost predicate Upto(nodes: seq<Node>, i: nat, x: nat) {
    i < |nodes| ==> x < nodes[i].addr
  }

  /** After the nodes before i: the counters are theirs, and the boundaries are right for every
      address before the next node. */
  ghost predicate Swept(nodes: seq<Node>, i: nat, bounds: seq<nat>, valid: int, reclaim: int, v: bool) {
    && Sorted(nodes) && i <= |nodes| && (0 < i < |nodes| ==> nodes[i - 1].addr < nodes[i].addr)
    && valid == Whole(nodes[..i], Valid) && reclaim == Whole(nodes[..i], Reclaim) && v == Usable(valid, reclaim)
    && Increasing(bounds) && |bounds| % 2 == (if v then 1 else 0)
    && (bounds != [] ==> i > 0 && bounds[|bounds| - 1] <= nodes[i - 1].addr)
    && (forall x: nat :: Upto(nodes, i, x) ==> (Below(bounds, x) % 2 == 1 <==> At(nodes, x)))
  }

  lemma {:induction false} SweepStart(nodes: seq<Node>)
    requires Sorted(nodes)
    ensures Swept(nodes, 0, [], 0, 0, false)
  {
    forall x: nat | Upto(nodes, 0, x) ensures !At(nodes, x) {
      forall j | 0 <= j < |nodes| ensures nodes[j].addr > x {
        assert j > 0 ==> nodes[0].addr <= nodes[j].addr;
      }
      SumSplit(nodes, 0, x, Valid);
      SumSplit(nodes, 0, x, Reclaim);
    }
  }

  lemma {:induction false} SweepNext(nodes: seq<Node>, i0: nat, i: nat, bounds: seq<nat>, valid0: int, reclaim0: int,
      v0: bool, valid: int, reclaim: int)
    requires Swept(nodes, i0, bounds, valid0, reclaim0, v0) && i0 < i <= |nodes|
    requires (forall j :: i0 <= j < i ==> nodes[j].addr == nodes[i0].addr)
             && (i < |nodes| ==> nodes[i - 1].addr != nodes[i].addr)
    requires valid == Whole(nodes[..i], Valid) && reclaim == Whole(nodes[..i], Reclaim)
    ensures var v := Usable(valid, reclaim);
            Swept(nodes, i, if v != v0 then bounds + [nodes[i - 1].addr] else bounds, valid, reclaim, v)
  {
    hide Sum, Whole, Below, At;
    var v, a := Usable(valid, reclaim), nodes[i - 1].addr;
    var bounds' := if v != v0 then bounds + [a] else bounds;
    assert i < |nodes| ==> nodes[i - 1].addr <= nodes[i].addr;
    assert bounds != [] ==> bounds[|bounds| - 1] <= nodes[i0 - 1].addr < a;
    Growing(bounds, a);
    forall x: nat | Upto(nodes, i, x) ensures Below(bounds', x) % 2 == 1 <==> At(nodes, x) {
      if x < a {
        assert Upto(nodes, i0, x);
        BelowSnoc(bounds, a, x);
      } else {
        PastGroup(nodes, i, x);
        AllBelow(bounds', x);
      }
    }
  }

  lemma {:induction false} Growing(b: seq<nat>, a: nat)
    requires Increasing(b) && (b != [] ==> b[|b| - 1] < a)
    ensures Increasing(b + [a]) && (forall j :: 0 <= j < |b| ==> b[j] < a)
  {
    assert forall j :: 0 <= j < |b| - 1 ==> b[j] < b[|b| - 1];
  }

  lemma {:induction false} AllBelow(b: seq<nat>, x: nat)
    requires forall j :: 0 <= j < |b| ==> b[j] <= x
    ensures Below(b, x) == |b|
  {
    if b != [] {
      AllBelow(b[..|b| - 1], x);
    }
  }

  lemma {:induction false} PastGroup(nodes: seq<Node>, i: nat, x: nat)
    requires Sorted(nodes) && 0 < i <= |nodes| && nodes[i - 1].addr <= x && Upto(nodes, i, x)
    ensures Sum(nodes, x, Valid) == Whole(nodes[..i], Valid) && Sum(nodes, x, Reclaim) == Whole(nodes[..i], Reclaim)
    ensures At(nodes, x) <==> Usable(Whole(nodes[..i], Valid), Whole(nodes[..i], Reclaim))
  {
    forall j | 0 <= j < i ensures nodes[j].addr <= x {
      assert j < i - 1 ==> nodes[j].addr <= nodes[i - 1].addr;
    }
    forall j | i <= j < |nodes| ensures nodes[j].addr > x {
      assert j > i ==> nodes[i].addr <= nodes[j].addr;
    }
    SumSplit(nodes, i, x, Valid);
    SumSplit(nodes, i, x, Reclaim);
  }

  /** An address past every interval is covered by none. */
  lemma {:induction false} Beyond(l: seq<Interval>, x: nat, k: Level)
    requires forall i :: 0 <= i < |l| ==> l[i].end <= x
    ensures Cover(l, x, k) == 0
  {
    if l != [] {
      Beyond(l[..|l| - 1], x, k);
    }
  }

  lemma {:induction false} FarAway(l: seq<Interval>, n: nat) returns (x: nat)
    ensures n <= x && forall i :: 0 <= i < |l| ==> l[i].end <= x
  {
    if l == [] {
      x := n;
    } else {
      x := FarAway(l[..|l| - 1], n);
      if l[|l| - 1].end > x {
        x := l[|l| - 1].end;
      }
    }
  }

  lemma {:induction false} SweepEnd(nodes: seq<Node>, l: seq<Interval>, bounds: seq<nat>, valid: int, reclaim: int,
      v: bool)
    requires Swept(nodes, |nodes|, bounds, valid, reclaim, v)
    requires (forall x: nat, k :: Sum(nodes, x, k) == Cover(l, x, k)) && forall i :: i in l ==> i.flag > 0
    ensures |bounds| % 2 == 0 && forall x: nat :: Inside(bounds, x) <==> IsUsable(l, x)
  {
    hide Sum, Whole, Cover, Inside, IsUsable;
    if nodes != [] {
      var far := FarAway(l, nodes[|nodes| - 1].addr);
      PastGroup(nodes, |nodes|, far);
      Beyond(l, far, Valid);
      Beyond(l, far, Reclaim);
    } else {
      NoNodes(valid, reclaim);
    }
    forall x: nat ensures Inside(bounds, x) <==> IsUsable(l, x) {
      InsideOdd(bounds, x);
      CoverIs(l, x);
      assert Upto(nodes, |nodes|, x);
    }
  }

  lemma {:induction false} NoNodes(valid: int, reclaim: int)
    ensures Whole([], Valid) == 0 && Whole([], Reclaim) == 0
  {
  }

  lemma {:induction false} TestRight(b: seq<nat>, start: nat, end: nat, i: nat, j: nat)
    requires Increasing(b) && |b| % 2 == 0 && start < end && (b == [] ==> i == j == 0)
    requires b != [] ==> i < |b| && (forall k :: 0 <= k < i ==> b[k] <= start) && (i < |b| - 1 ==> start < b[i])
    requires b != [] ==> j < |b| && (forall k :: 0 <= k < j ==> b[k] <= end - 1) && (j < |b| - 1 ==> end - 1 < b[j])
    ensures var past := b != [] && b[|b| - 2] <= start && b[|b| - 1] < end;
            && (past ==> i % 2 == 1 && i == j)
            && ((i % 2 == 1 && i == j <==> forall x: nat :: start <= x < end ==> Inside(b, x)) <==> !past)
  {
    hide Inside;
    if b == [] {
      NotInside(b, start);
    } else if b[|b| - 2] <= start {
      assert i == j == |b| - 1;
      if b[|b| - 1] < end {
        PastEnd(b, end - 1);
      } else {
        forall x: nat | start <= x < end ensures Inside(b, x) {
          InRange(b, |b| / 2 - 1, x);
        }
      }
    } else {
      TestBefore(b, start, end, i, j);
    }
  }

  lemma {:induction false} NotInside(b: seq<nat>, x: nat)
    requires b == []
    ensures !Inside(b, x)
  {
  }

  lemma {:induction false} PastEnd(b: seq<nat>, x: nat)
    requires Increasing(b) && b != [] && b[|b| - 1] <= x
    ensures !Inside(b, x)
  {
  }

  lemma {:induction false} InRange(b: seq<nat>, k: nat, x: nat)
    requires 2 * k + 1 < |b| && b[2 * k] <= x < b[2 * k + 1]
    ensures Inside(b, x)
  {
  }

  lemma {:induction false} TestBefore(b: seq<nat>, start: nat, end: nat, i: nat, j: nat)
    requires Increasing(b) && |b| % 2 == 0 && b != [] && start < end && start < b[|b| - 2]
    requires i < |b| && (forall k :: 0 <= k < i ==> b[k] <= start) && (i < |b| - 1 ==> start < b[i])
    requires j < |b| && (forall k :: 0 <= k < j ==> b[k] <= end - 1) && (j < |b| - 1 ==> end - 1 < b[j])
    ensures i % 2 == 1 && i == j <==> forall x: nat :: start <= x < end ==> Inside(b, x)
  {
    hide Inside;
    assert i < |b| - 1;
    if i % 2 == 1 && i == j {
      forall x: nat | start <= x < end ensures Inside(b, x) {
        InRange(b, i / 2, x);
      }
    } else if i % 2 == 0 {
      Gap(b, i, start);
    } else {
      assert b[i] <= end - 1;
      assert start <= b[i] < end;
      Gap(b, i + 1, b[i]);
    }
  }

  /** An address between an odd boundary and the next even one is in no range. */
  lemma {:induction false} Gap(b: seq<nat>, i: nat, x: nat)
    requires Increasing(b) && |b| % 2 == 0 && i < |b| && i % 2 == 0 && x < b[i] && forall k :: 0 <= k < i ==> b[k] <= x
    ensures !Inside(b, x)
  {
    forall k | 0 <= k && 2 * k + 1 < |b| ensures !(b[2 * k] <= x < b[2 * k + 1]) {
      assert 2 * k < i ==> b[2 * k + 1] <= x;
      assert 2 * k >= i ==> b[i] <= b[2 * k];
    }
  }

  /** With the one usable range [0, 10), memmap_test accepts [20, 30), none of which is usable. */
  lemma {:induction false} TestExample()
    ensures var b := [0, 10];
            Increasing(b) && b[|b| - 2] <= 20 && b[|b| - 1] < 30 && forall x: nat :: 20 <= x < 30 ==> !Inside(b, x)
  {
    forall x: nat | 20 <= x < 30 ensures !Inside([0, 10], x) {
      PastEnd([0, 10], x);
    }
  }
}
