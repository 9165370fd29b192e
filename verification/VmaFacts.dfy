/** Proofs about ordered lists of areas that the area manager needs. */
module VmaFacts {
  import opened Common
  import opened RbShape
  import opened RbHeap
  import opened RbFacts
  import opened VmaState

  /** What a linear scan for the lowest area ending after the address would return. */
  ghost function Lowest(v: Vmas, l: seq<nat>, addr: int): Option<nat> {
    if First(v, l, addr) < |l| then Some(l[First(v, l, addr)]) else None
  }

  const READ_WRITE := Flags(true, true, false, false, false)

  /** No address of the range is mapped. */
  ghost predicate Free(v: Vmas, l: seq<nat>, start: nat, len: nat) {
    forall a, f :: start <= a < start + len ==> !Maps(v, l, a, f)
  }

  /** The address may be read, or written, by the user. */
  ghost predicate Accessible(v: Vmas, l: seq<nat>, a: int, write: bool) {
    exists x :: x in l && x in v && Has(v[x], a) &&
      if write then v[x].flags.write && (v[x].flags.stack ==> v[x].start + PGSIZE <= a) else v[x].flags.read
  }

  lemma {:induction false} AccessHere(v: Vmas, l: seq<nat>, a: nat, write: bool)
    requires Ordered(v, l)
    ensures var r := Lowest(v, l, a);
            && (r.Some? ==> r.value in v && a < v[r.value].end)
            && (Accessible(v, l, a, write) <==>
                  && r.Some? && v[r.value].start <= a
                  && if write then v[r.value].flags.write
                    && (v[r.value].flags.stack ==> v[r.value].start + PGSIZE <= a) else v[r.value].flags.read)
            && (Accessible(v, l, a, write) ==> forall b :: a <= b < v[r.value].end ==> Accessible(v, l, b, write))
  {
    hide First;
    FirstFacts(v, l, a);
    var i := First(v, l, a);
    if Accessible(v, l, a, write) {
      var x :| x in l && x in v && Has(v[x], a) &&
        if write then v[x].flags.write && (v[x].flags.stack ==> v[x].start + PGSIZE <= a) else v[x].flags.read;
      var j :| 0 <= j < |l| && l[j] == x;
      assert i == j;
      forall b | a <= b < v[x].end ensures Accessible(v, l, b, write) {
        assert Has(v[x], b);
      }
    } else if i < |l| && v[l[i]].start <= a {
      assert l[i] in l && Has(v[l[i]], a);
    }
  }

  lemma {:induction false} ListedFacts(v: Vmas, l: seq<nat>, i: nat)
    requires Ordered(v, l) && Aligned(v, l) && i < |l|
    ensures l[i] in v && USERBASE <= v[l[i]].start < v[l[i]].end
  {
  }

  /** The rounded range in plain arithmetic: the pages that the bytes asked for touch.  A length that
      wraps round is refused, unless it ends on the page on which it begins. */
  lemma {:induction false} RangeIs(addr: Word, len: Word)
    ensures var start, end := RoundDown(addr), RoundUp(Plus(addr, len));
            if addr + len < WORD then
              && (UserAccess(start, end) <==> UserRange(addr, len))
              && (UserAccess(start, end) ==> forall a :: start <= a < end <==> OnPages(addr, len, a))
            else
              && (UserAccess(start, end) <==> USERBASE <= addr < USERTOP && start < addr + len - WORD)
              && (UserAccess(start, end) ==> end == start + PGSIZE)
  {
    var start, end := RoundDown(addr), RoundUp(Plus(addr, len));
    if addr + len < WORD && UserAccess(start, end) {
      forall a: int ensures start <= a < end <==> OnPages(addr, len, a) {
        PageOf(a, start, end, addr + len);
      }
    }
  }

  lemma {:induction false} PageOf(a: int, start: int, end: int, top: int)
    requires start % PGSIZE == 0 && end % PGSIZE == 0 && top <= end < top + PGSIZE
    ensures start <= a < end <==> start <= a && a - a % PGSIZE < top
  {
  }

  /** Every byte asked for lies on a page of the range. */
  lemma {:induction false} BytesOnPages(addr: Word, len: Word)
    ensures forall a :: addr <= a < addr + len ==> OnPages(addr, len, a)
  {
  }

  lemma {:induction false} RoundAligned(start: Word, end: Word)
    requires start % PGSIZE == 0 && end % PGSIZE == 0 && start < end <= USERTOP
    ensures RoundDown(start) == start && RoundUp(Plus(start, end - start)) == end
  {
    assert Plus(start, end - start) == end;
  }

  /** Areas from index i on lie behind the candidate, and every higher start is taken. */
  ghost predicate Tried(v: Vmas, l: seq<nat>, i: nat, start: nat, len: nat) {
    && (forall j :: i <= j < |l| ==> l[j] in v && start + len <= v[l[j]].start)
    && (forall s: nat :: start < s && s + len <= USERTOP ==> !Free(v, l, s, len))
  }

  lemma {:induction false} FoundFree(v: Vmas, l: seq<nat>, i: nat, start: nat, len: nat)
    requires Ordered(v, l) && Aligned(v, l) && i <= |l|
    requires Tried(v, l, i, start, len) && (i > 0 ==> v[l[i - 1]].end <= start)
    ensures Free(v, l, start, len)
    ensures i > 0 ==> USERBASE <= start
  {
    forall j | 0 <= j < i ensures v[l[j]].end <= start {
      assert j < i - 1 ==> v[l[j]].end <= v[l[i - 1]].start < v[l[i - 1]].end;
    }
    forall a, f | start <= a < start + len ensures !Maps(v, l, a, f) {
      assert forall j :: 0 <= j < |l| ==> !Has(v[l[j]], a);
    }
  }

  lemma {:induction false} SkipArea(v: Vmas, l: seq<nat>, i: nat, start: nat, len: nat)
    requires Ordered(v, l) && i < |l| && len > 0 && Tried(v, l, i + 1, start, len) && start < v[l[i]].end
    ensures start + len <= v[l[i]].start ==> Tried(v, l, i, start, len)
    ensures start + len > v[l[i]].start > len ==> Tried(v, l, i, v[l[i]].start - len, len)
    ensures len >= v[l[i]].start ==> forall s: nat :: 0 < s && s + len <= USERTOP ==> !Free(v, l, s, len)
  {
    var z := v[l[i]];
    forall s: nat | s + len > z.start && s < z.end ensures !Free(v, l, s, len) {
      var a := if s < z.start then z.start else s;
      assert Has(z, a) && l[i] in l;
      assert Maps(v, l, a, z.flags);
    }
    assert forall j :: i < j < |l| ==> z.end <= v[l[j]].start;
  }

  lemma {:induction false} GrowFacts(v: Vmas, l: seq<nat>, x: nat, start: nat, end: nat)
    requires Ordered(v, l) && Aligned(v, l) && x in l && x in v && v[x].end == start && UserAccess(start, end)
             && end % PGSIZE == 0
    requires forall a, f :: start <= a < end ==> !Maps(v, l, a, f)
    ensures var v' := v[x := v[x].(end := end)];
            && Ordered(v', l) && Aligned(v', l)
            && forall a, f :: Maps(v', l, a, f) <==> Maps(v, l, a, f) || (start <= a < end && f == v[x].flags)
  {
    var v' := v[x := v[x].(end := end)];
    forall i, j | 0 <= i < j < |l| ensures v'[l[i]].end <= v'[l[j]].start {
      var y := v[l[j]];
      assert l[j] in l && Has(y, y.start) && Maps(v, l, y.start, y.flags);
    }
    forall a, f ensures Maps(v', l, a, f) <==> Maps(v, l, a, f) || (start <= a < end && f == v[x].flags) {
      assert Has(v'[x], a) <==> Has(v[x], a) || start <= a < end;
      assert forall y :: y in v && y != x ==> v'[y] == v[y];
    }
  }

  lemma {:induction false} NoCalls()
    ensures forall a :: !InCalls([], a)
  {
  }

  lemma {:induction false} InsideCalls(v: Vmas, l: seq<nat>, x: nat, start: nat, end: nat)
    requires x in l && x in v && v[x].start < start && end < v[x].end
    ensures forall a :: InCalls([(start, end)], a) <==> start <= a < end && exists f :: Maps(v, l, a, f)
  {
    forall a | start <= a < end ensures InCalls([(start, end)], a) && exists f :: Maps(v, l, a, f) {
      assert [(start, end)][0] == (start, end);
      assert Has(v[x], a);
      assert Maps(v, l, a, v[x].flags);
    }
  }

  lemma {:induction false} FirstIndex(v: Vmas, l: seq<nat>, start: nat) returns (i: nat)
    requires Ordered(v, l) && Lowest(v, l, start).Some?
    ensures i < |l| && i == First(v, l, start) && l[i] == Lowest(v, l, start).value
    ensures forall j :: 0 <= j < i ==> l[j] in v && v[l[j]].end <= start
    ensures forall j :: i <= j < |l| ==> l[j] in v && v[l[j]].end > start
  {
    i := First(v, l, start);
    FirstFacts(v, l, start);
  }

  /** How the areas lie before, across and after the range. */
  lemma {:induction false} Sides(v: Vmas, l0: seq<nat>, i: nat, k: nat, start: nat, end: nat)
    requires Ordered(v, l0) && i < k <= |l0| && start < end
    requires forall j :: i <= j < |l0| ==> l0[j] in v && v[l0[j]].end > start
    requires forall j :: i <= j < k ==> v[l0[j]].start < end
    requires k < |l0| ==> v[l0[k]].start >= end
    requires !(v[l0[i]].start < start && end < v[l0[i]].end)
    ensures forall j :: i <= j < k ==> Straddles(v, l0, l0[j], start, end)
    ensures forall j :: k <= j < |l0| ==> v[l0[j]].start >= end
  {
    forall j | i <= j < k ensures Straddles(v, l0, l0[j], start, end) {
      assert j > i ==> v[l0[i]].end <= v[l0[j]].start;
    }
    forall j | k <= j < |l0| ensures v[l0[j]].start >= end {
      assert j > k ==> v[l0[k]].start < v[l0[k]].end <= v[l0[j]].start;
    }
  }

  /** Members of a list with a middle part taken out. */
  lemma {:induction false} MiddleOut(l0: seq<nat>, i: nat, k: nat)
    requires i < k <= |l0| && NoDup(l0)
    ensures forall x :: x in l0[..i] + l0[k..] <==> exists j :: (0 <= j < i || k <= j < |l0|) && l0[j] == x
    ensures forall x :: x in l0[i..k] <==> exists j :: i <= j < k && l0[j] == x
    ensures forall x :: x in l0 <==> x in l0[..i] + l0[k..] || x in l0[i..k]
    ensures forall x :: x in l0[i..k] ==> x !in l0[..i] + l0[k..]
  {
    var l, m := l0[..i] + l0[k..], l0[i..k];
    forall x ensures x in l <==> exists j :: (0 <= j < i || k <= j < |l0|) && l0[j] == x {
      if j :| (0 <= j < i || k <= j < |l0|) && l0[j] == x {
        assert l[if j < i then j else j - k + i] == x;
      }
    }
    forall x ensures x in m <==> exists j :: i <= j < k && l0[j] == x {
      if j :| i <= j < k && l0[j] == x {
        assert m[j - i] == x;
      }
    }
  }

  /** What the first loop leaves for the second. */
  lemma {:induction false} DetachedFacts(v: Vmas, l0: seq<nat>, l: seq<nat>, i: nat, k: nat, freed: seq<nat>,
      start: nat, end: nat)
    requires Ordered(v, l0) && Aligned(v, l0) && i < k <= |l0| && l == l0[..i] + l0[k..]
             && freed == Reversed(l0[i..k]) && start < end
    requires forall j :: 0 <= j < i ==> l0[j] in v && v[l0[j]].end <= start
    requires forall j :: i <= j < |l0| ==> l0[j] in v && v[l0[j]].end > start
    requires forall j :: i <= j < k ==> v[l0[j]].start < end
    requires k < |l0| ==> v[l0[k]].start >= end
    requires !(v[l0[i]].start < start && end < v[l0[i]].end)
    ensures NoDup(freed) && Aligned(v, l) && CutSoFar(v, l0, v, l, freed, start, end)
    ensures forall x :: x in freed ==> Straddles(v, l0, x, start, end)
    ensures forall x :: x in l0 ==> x in l || x in freed
  {
    hide Ordered, Reversed, Straddles, NoDup, Aligned;
    OrderedNoDup(v, l0);
    ReversedElems(l0[i..k]);
    Sides(v, l0, i, k, start, end);
    MiddleOut(l0, i, k);
    NoDupSlice(l0, i, k);
    AlignedSub(v, l0, l);
    forall x | x in l ensures x in v && Kept(v[x], v[x], start, end) {
      var j :| (0 <= j < i || k <= j < |l0|) && l0[j] == x;
    }
    forall x | x in freed ensures x in v {
      var j :| i <= j < k && l0[j] == x;
    }
  }

  lemma {:induction false} NoDupSlice(l: seq<nat>, i: nat, k: nat)
    requires NoDup(l) && i <= k <= |l|
    ensures NoDup(l[i..k])
  {
  }

  lemma {:induction false} AlignedSub(v: Vmas, l: seq<nat>, l': seq<nat>)
    requires Aligned(v, l) && forall x :: x in l' ==> x in l
    ensures Aligned(v, l')
  {
    forall i | 0 <= i < |l'| ensures l'[i] in l {
    }
  }

  lemma {:induction false} RemovedAll(v: Vmas, l0: seq<nat>, i: nat, k: nat, freed: seq<nat>, start: nat, end: nat)
    requires Ordered(v, l0) && i < k <= |l0| && freed == Reversed(l0[i..k]) && start < end
    requires forall j :: 0 <= j < i ==> l0[j] in v && v[l0[j]].end <= start
    requires forall j :: k <= j < |l0| ==> l0[j] in v && v[l0[j]].start >= end
    ensures forall a :: Removed(v, freed, start, end, a) <==> start <= a < end && exists f :: Maps(v, l0, a, f)
  {
    hide Ordered, Reversed, NoDup;
    OrderedNoDup(v, l0);
    ReversedElems(l0[i..k]);
    MiddleOut(l0, i, k);
    forall a | start <= a < end ensures Removed(v, freed, start, end, a) <==> exists f :: Maps(v, l0, a, f) {
      if Removed(v, freed, start, end, a) {
        var x :| x in freed && x in v && Has(v[x], a);
        assert Maps(v, l0, a, v[x].flags);
      }
      if f :| Maps(v, l0, a, f) {
        var x :| x in l0 && x in v && Has(v[x], a) && v[x].flags == f;
        assert forall j :: 0 <= j < i || k <= j < |l0| ==> !Has(v[l0[j]], a);
        assert x in l0[i..k];
      }
    }
  }

  /** Both halves of a split area fit where the whole was. */
  lemma {:induction false} SplitFacts(v: Vmas, l: seq<nat>, x: nat, z: nat, start: nat, end: nat)
    requires Ordered(v, l) && Aligned(v, l) && x in l && z !in v && x in v && v[x].start < start < end < v[x].end
    requires start % PGSIZE == 0 && end % PGSIZE == 0 && UserAccess(start, end)
    ensures var v' := v[z := Vma(v[x].start, start, v[x].flags)][x := v[x].(start := end)];
            && Ordered(v', l) && Aligned(v', l) && z !in l && Fits(v', l, v'[z]) && z != x
            && v[x].start % PGSIZE == 0 && UserAccess(v[x].start, start)
  {
    var v' := v[z := Vma(v[x].start, start, v[x].flags)][x := v[x].(start := end)];
    var k :| 0 <= k < |l| && l[k] == x;
    assert z !in l;
    forall i | 0 <= i < |l| ensures l[i] in v' && (i != k ==> v'[l[i]] == v[l[i]]) {
      if i < k { assert v[l[i]].end <= v[l[k]].start; } else if i > k { assert v[l[k]].end <= v[l[i]].start; }
    }
  }

  lemma {:induction false} SplitMaps(v: Vmas, l: seq<nat>, x: nat, z: nat, start: nat, end: nat, a: int, f: Flags)
    requires x in l && z !in v && x in v && z !in l && v[x].start < start < end < v[x].end
    requires Ordered(v, l)
    ensures var v' := v[z := Vma(v[x].start, start, v[x].flags)][x := v[x].(start := end)];
            (Maps(v', l, a, f) || (Has(v'[z], a) && v'[z].flags == f)) <==> (Maps(v, l, a, f) && !(start <= a < end))
  {
    var v' := v[z := Vma(v[x].start, start, v[x].flags)][x := v[x].(start := end)];
    if Maps(v', l, a, f) {
      var y :| y in l && y in v' && Has(v'[y], a) && v'[y].flags == f;
      assert y in v && Has(v[y], a);
      assert start <= a < end ==> x == y by {
        SameAreaIf(v, l, x, y, a);
      }
    }
    if Has(v'[z], a) && v'[z].flags == f {
      assert Has(v[x], a);
    }
    if Maps(v, l, a, f) && !(start <= a < end) {
      var y :| y in l && y in v && Has(v[y], a) && v[y].flags == f;
      assert y == x || (y in v' && v'[y] == v[y]);
      assert y != x ==> Has(v'[y], a);
      assert y == x ==> Has(v'[x], a) || Has(v'[z], a);
    }
  }

  lemma {:induction false} SameAreaIf(v: Vmas, l: seq<nat>, x: nat, y: nat, a: int)
    requires Ordered(v, l) && x in l && y in l && x in v && y in v && Has(v[y], a)
    ensures Has(v[x], a) ==> x == y
  {
    if Has(v[x], a) { SameArea(v, l, x, y, a); }
  }

  lemma {:induction false} SameArea(v: Vmas, l: seq<nat>, x: nat, y: nat, a: int)
    requires Ordered(v, l) && x in l && y in l && x in v && y in v && Has(v[x], a) && Has(v[y], a)
    ensures x == y
  {
    var i :| 0 <= i < |l| && l[i] == x;
    var j :| 0 <= j < |l| && l[j] == y;
  }

  /** A detached area meets the range without enclosing it. */
  ghost predicate Straddles(v0: Vmas, l0: seq<nat>, x: nat, start: nat, end: nat) {
    x in l0 && x in v0 && v0[x].start < end && start < v0[x].end && !(v0[x].start < start && end < v0[x].end)
  }

  /** Cut for all areas but those in `rest`, which are detached and unchanged. */
  ghost predicate CutSoFar(v0: Vmas, l0: seq<nat>, v: Vmas, l: seq<nat>, rest: seq<nat>, start: nat, end: nat) {
    && (forall x :: x in l ==> x in l0 && x !in rest && x in v0 && x in v && Kept(v0[x], v[x], start, end))
    && (forall x :: x in rest ==> x in l0 && x in v0 && x in v && v[x] == v0[x] && x !in l)
    && (forall x :: x in l0 && x !in l && x !in rest ==> x in v0 && start <= v0[x].start && v0[x].end <= end)
  }

  ghost predicate Removed(v0: Vmas, done: seq<nat>, start: nat, end: nat, a: int) {
    start <= a < end && exists x :: x in done && x in v0 && Has(v0[x], a)
  }

  /** The range u is the part of `vma` that lies in the unmapped range. */
  ghost predicate IsPart(u: (nat, nat), vma: Vma, start: nat, end: nat) {
    forall a :: u.0 <= a < u.1 <==> Has(vma, a) && start <= a < end
  }

  lemma {:induction false} CallsNone(v0: Vmas, start: nat, end: nat)
    ensures forall a :: InCalls([], a) <==> Removed(v0, [], start, end, a)
  {
  }

  lemma {:induction false} CallsNext(v0: Vmas, calls: seq<(nat, nat)>, done: seq<nat>, x: nat, start: nat, end: nat,
      u: (nat, nat))
    requires (forall a :: InCalls(calls, a) <==> Removed(v0, done, start, end, a)) && x in v0
    requires IsPart(u, v0[x], start, end)
    ensures forall a :: InCalls(calls + [u], a) <==> Removed(v0, done + [x], start, end, a)
  {
    var calls' := calls + [u];
    forall a ensures InCalls(calls', a) <==> Removed(v0, done + [x], start, end, a) {
      assert InCalls(calls', a) <==> InCalls(calls, a) || u.0 <= a < u.1 by {
        assert calls'[|calls|] == u;
        assert forall i :: 0 <= i < |calls| ==> calls'[i] == calls[i];
      }
      assert forall y :: y in done + [x] <==> y in done || y == x;
      assert Removed(v0, done + [x], start, end, a) <==>
             Removed(v0, done, start, end, a) || (start <= a < end && Has(v0[x], a));
    }
  }

  /** What the loop needs to know of the next detached area. */
  lemma {:induction false} StraddleFacts(v0: Vmas, l0: seq<nat>, v: Vmas, l: seq<nat>, x: nat, rest: seq<nat>,
      start: nat, end: nat)
    requires Ordered(v0, l0) && Aligned(v0, l0) && CutSoFar(v0, l0, v, l, [x] + rest, start, end)
             && Straddles(v0, l0, x, start, end)
    requires Ordered(v, l) && UserAccess(start, end)
    ensures x in v && x in v0 && v[x] == v0[x] && x !in l && v[x].start % PGSIZE == 0 && v[x].end % PGSIZE == 0
    ensures UserAccess(v[x].start, v[x].end) && v[x].start < end && start < v[x].end
    ensures v[x].start < start ==> v[x].end <= end
    ensures forall s: nat, e: nat :: v[x].start <= s < e <= v[x].end ==> Fits(v, l, Vma(s, e, v[x].flags))
  {
    assert x in [x] + rest;
    var k :| 0 <= k < |l0| && l0[k] == x;
    forall s: nat, e: nat | v[x].start <= s < e <= v[x].end ensures Fits(v, l, Vma(s, e, v[x].flags)) {
      forall i | 0 <= i < |l| ensures l[i] in v && (v[l[i]].end <= s || e <= v[l[i]].start) {
        var y := l[i];
        assert y in l;
        var m :| 0 <= m < |l0| && l0[m] == y;
        assert y != x;
        assert Kept(v0[y], v[y], start, end);
        assert Has(v[y], v[y].start) && Has(v[y], v[y].end - 1);
        assert v0[y].start <= v[y].start && v[y].end <= v0[y].end;
      }
    }
  }

  lemma {:induction false} CutNext(v0: Vmas, l0: seq<nat>, v1: Vmas, l1: seq<nat>, v: Vmas, l: seq<nat>, x: nat,
      rest: seq<nat>, start: nat, end: nat)
    requires CutSoFar(v0, l0, v1, l1, [x] + rest, start, end) && x !in rest && x in v1 && start < end
    requires v1[x].start < end && start < v1[x].end && v1[x].start < v1[x].end
             && (v1[x].start < start ==> v1[x].end <= end)
    requires if v1[x].start < start then v == v1[x := v1[x].(end := start)]
             else if end < v1[x].end then v == v1[x := v1[x].(start := end)]
             else v == v1 - {x}
    requires if v1[x].start < start || end < v1[x].end then forall y :: y in l <==> y in l1 || y == x else l == l1
    ensures CutSoFar(v0, l0, v, l, rest, start, end)
  {
    assert forall y :: y in [x] + rest <==> y == x || y in rest;
    assert v1[x] == v0[x];
    if v1[x].start < start || end < v1[x].end {
      assert Kept(v0[x], v[x], start, end);
    }
    forall y | y in l ensures y in l0 && y !in rest && y in v0 && y in v && Kept(v0[y], v[y], start, end) {
      if y != x { assert y in l1; }
    }
  }

  lemma {:induction false} CutDone(v0: Vmas, l0: seq<nat>, v: Vmas, l: seq<nat>, start: nat, end: nat)
    requires CutSoFar(v0, l0, v, l, [], start, end)
    ensures Cut(v0, l0, v, l, start, end)
  {
  }

  lemma {:induction false} DropVma(v: Vmas, v': Vmas, l: seq<nat>, x: nat)
    requires v' == v - {x} && x !in l && Ordered(v, l) && Aligned(v, l)
    ensures Ordered(v', l) && Aligned(v', l)
  {
    assert forall i :: 0 <= i < |l| ==> l[i] != x;
  }

  /** The element after x in the list, or nil. */
  function Next(l: seq<nat>, x: nat): nat {
    if |l| < 2 then NIL else if l[0] == x then l[1] else Next(l[1..], x)
  }

  lemma {:induction false} NextAt(l: seq<nat>, i: nat)
    requires NoDup(l) && i < |l|
    ensures Next(l, l[i]) == if i + 1 < |l| then l[i + 1] else NIL
  {
    if i > 0 { NextAt(l[1..], i - 1); }
  }

  lemma {:induction false} WithoutAt(l: seq<nat>, i: nat)
    requires NoDup(l) && i < |l|
    ensures Without(l, l[i]) == l[..i] + l[i + 1..]
  {
    assert l == l[..i] + [l[i]] + l[i + 1..];
    NoDupMiddle(l[..i], l[i], l[i + 1..]);
    WithoutMiddle(l[..i], l[i], l[i + 1..]);
  }

  lemma {:induction false} OrderedFacts(v: Vmas, l: seq<nat>)
    requires Ordered(v, l)
    ensures NoDup(l) && forall i :: 0 <= i < |l| ==> l[i] in v && v[l[i]].start < v[l[i]].end
  {
  }

  lemma {:induction false} NextListed(l0: seq<nat>, l: seq<nat>, i: nat, k: nat)
    requires NoDup(l0) && i <= k < |l0| && l == l0[..i] + l0[k..]
    ensures l0[k] in l && Next(l, l0[k]) == (if k + 1 < |l0| then l0[k + 1] else NIL)
    ensures Without(l, l0[k]) == l0[..i] + l0[k + 1..]
  {
    assert l[i] == l0[k];
    assert NoDup(l);
    NextAt(l, i);
    WithoutAt(l, i);
    assert l[..i] == l0[..i] && l[i + 1..] == l0[k + 1..];
  }

  lemma {:induction false} DetachNone(l: seq<nat>, i: nat)
    requires i <= |l|
    ensures l == l[..i] + l[i..] && l[i..i] == [] && Reversed([]) == []
  {
  }

  lemma {:induction false} DetachMore(l: seq<nat>, i: nat, k: nat)
    requires i <= k < |l|
    ensures Reversed(l[i..k + 1]) == [l[k]] + Reversed(l[i..k])
  {
    ReversedSnoc(l[i..k], l[k]);
    assert l[i..k + 1] == l[i..k] + [l[k]];
  }

  function Reversed(s: seq<nat>): seq<nat> {
    if s == [] then [] else Reversed(s[1..]) + [s[0]]
  }

  lemma {:induction false} ReversedSnoc(s: seq<nat>, x: nat)
    ensures Reversed(s + [x]) == [x] + Reversed(s)
  {
    if s == [] {
      assert s + [x] == [x];
      assert Reversed([x]) == Reversed([]) + [x];
    } else {
      assert (s + [x])[1..] == s[1..] + [x];
      ReversedSnoc(s[1..], x);
    }
  }

  lemma {:induction false} ReversedElems(s: seq<nat>)
    ensures |Reversed(s)| == |s| && (forall x :: x in Reversed(s) <==> x in s) && (NoDup(s) ==> NoDup(Reversed(s)))
  {
    if s != [] {
      ReversedElems(s[1..]);
      assert forall x :: x in s <==> x == s[0] || x in s[1..];
      if NoDup(s) {
        assert s[0] !in s[1..];
      }
    }
  }

  ghost predicate InCalls(calls: seq<(nat, nat)>, a: int) {
    exists i :: 0 <= i < |calls| && calls[i].0 <= a < calls[i].1
  }

  /** The area after the range is cut out of it. */
  ghost predicate Kept(v: Vma, w: Vma, start: nat, end: nat) {
    w.flags == v.flags && forall a :: Has(w, a) <==> Has(v, a) && !(start <= a < end)
  }

  /** Every area of l0 is listed with the range cut out, or lay inside the range. */
  ghost predicate Cut(v0: Vmas, l0: seq<nat>, v: Vmas, l: seq<nat>, start: nat, end: nat) {
    && (forall x :: x in l ==> x in l0 && x in v0 && x in v && Kept(v0[x], v[x], start, end))
    && (forall x :: x in l0 && x !in l ==> x in v0 && start <= v0[x].start && v0[x].end <= end)
  }

  lemma {:induction false} CutMaps(v0: Vmas, l0: seq<nat>, v: Vmas, l: seq<nat>, start: nat, end: nat, a: int, f: Flags)
    requires Cut(v0, l0, v, l, start, end)
    ensures Maps(v, l, a, f) <==> Maps(v0, l0, a, f) && !(start <= a < end)
  {
    if Maps(v0, l0, a, f) && !(start <= a < end) {
      var x :| x in l0 && x in v0 && Has(v0[x], a) && v0[x].flags == f;
      assert x in l;
      assert Has(v[x], a);
    }
  }

  const E_INVAL: int := -3
  const E_NO_MEM: int := -4

  /** The areas seen by find_vma(start) decide whether the range is free. */
  lemma {:induction false} RangeFree(v: Vmas, l: seq<nat>, start: nat, end: nat)
    requires Ordered(v, l) && start < end
    ensures var r := Lowest(v, l, start);
            && (r.Some? ==> r.value in l && r.value in v)
            && ((r.None? || end <= v[r.value].start) <==>
                forall i :: 0 <= i < |l| ==> v[l[i]].end <= start || end <= v[l[i]].start)
            && ((r.None? || end <= v[r.value].start) <==> forall a, f :: start <= a < end ==> !Maps(v, l, a, f))
            && ((r.None? || end <= v[r.value].start) ==> forall fl :: Fits(v, l, Vma(start, end, fl)))
  {
    FirstFacts(v, l, start);
    var i := First(v, l, start);
    if i < |l| && v[l[i]].start < end {
      var a := if v[l[i]].start <= start then start else v[l[i]].start;
      MapsFirst(v, l, a, v[l[i]].flags);
      assert Has(v[l[i]], a) && l[i] in l;
      assert Maps(v, l, a, v[l[i]].flags);
    } else {
      forall j | 0 <= j < |l| ensures v[l[j]].end <= start || end <= v[l[j]].start {
        assert j > i ==> v[l[i]].end <= v[l[j]].start;
      }
    }
  }

  /** An area that is not listed changes nothing for those that are. */
  lemma {:induction false} OtherVma(v: Vmas, v': Vmas, l: seq<nat>, z: nat)
    requires z !in l && z in v' && v' == v[z := v'[z]]
    ensures Ordered(v, l) <==> Ordered(v', l)
    ensures Aligned(v, l) <==> Aligned(v', l)
    ensures Fits(v, l, v'[z]) <==> Fits(v', l, v'[z])
  {
    assert forall i :: 0 <= i < |l| ==> l[i] != z;
  }

  lemma {:induction false} MapsOther(v: Vmas, v': Vmas, l: seq<nat>, z: nat, a: int, f: Flags)
    requires z !in l && z in v' && v' == v[z := v'[z]]
    ensures Maps(v', l, a, f) <==> Maps(v, l, a, f)
  {
  }

  lemma {:induction false} AlignedInsert(v: Vmas, l: seq<nat>, l': seq<nat>, z: nat)
    requires Aligned(v, l) && z in v && v[z].start % PGSIZE == 0 && v[z].end % PGSIZE == 0
             && UserAccess(v[z].start, v[z].end)
    requires forall x :: x in l' <==> x in l || x == z
    ensures Aligned(v, l')
  {
    forall i | 0 <= i < |l'| ensures l'[i] in l || l'[i] == z {
    }
  }

  lemma {:induction false} LeafFlat()
    ensures Flat(Leaf) == []
  {
  }

  /** A list with z linked in after `prev`, or first when `prev` is nil. */
  function AddAfter(l: seq<nat>, prev: nat, z: nat): seq<nat> {
    if prev == NIL || l == [] then [z] + l
    else if l[0] == prev then [l[0], z] + l[1..]
    else [l[0]] + AddAfter(l[1..], prev, z)
  }

  lemma {:induction false} AddAfterIs(a: seq<nat>, z: nat, b: seq<nat>)
    requires NoDup(a) && NIL !in a
    ensures AddAfter(a + b, if a == [] then NIL else a[|a| - 1], z) == a + [z] + b
  {
    if a == [] {
      assert a + b == b;
    } else if |a| == 1 {
      assert (a + b)[0] == a[0] && (a + b)[1..] == b;
    } else {
      assert (a + b)[0] == a[0] && (a + b)[1..] == a[1..] + b;
      AddAfterIs(a[1..], z, b);
    }
  }

  /** Linking the area in after its predecessor puts it where its start belongs. */
  lemma {:induction false} InsertedHere(v: Vmas, l: seq<nat>, z: nat, prev: nat)
    requires Ordered(v, l) && (forall x :: x in v ==> 2 <= x) && z in v && z !in l
    requires IsNeighbour(Placed(Key(v), l, z), z, prev, false)
    ensures AddAfter(l, prev, z) == Placed(Key(v), l, z)
  {
    hide Rank, Ordered, Sorted, IsNeighbour;
    OrderedFacts(v, l);
    var r := Rank(Key(v), l, z);
    var a, b := l[..r], l[r..];
    assert l == a + b && Placed(Key(v), l, z) == a + [z] + b;
    NeighbourBetween(a, z, b, prev);
    assert NIL !in a by {
      assert forall x :: x in a ==> x in l && x in v;
    }
    AddAfterIs(a, z, b);
  }

  lemma {:induction false} NeighbourBetween(a: seq<nat>, z: nat, b: seq<nat>, prev: nat)
    requires z !in a && z !in b && IsNeighbour(a + [z] + b, z, prev, false)
    ensures prev == if a == [] then NIL else a[|a| - 1]
  {
    var p := a + [z] + b;
    var i :| NeighbourAt(p, i, z, prev, false);
    assert forall j :: 0 <= j < |p| && j != |a| ==> p[j] in a || p[j] in b;
  }

  lemma {:induction false} RankIs(key: nat -> int, s: seq<nat>, z: nat, r: nat)
    requires r <= |s| && (forall j :: 0 <= j < r ==> key(s[j]) <= key(z)) && (r < |s| ==> key(s[r]) > key(z))
    ensures Rank(key, s, z) == r
  {
    if r > 0 { RankIs(key, s[1..], z, r - 1); }
  }

  /** The next area of an ordered list goes to the end of the tree built so far. */
  lemma {:induction false} OrderedPrefix(v: Vmas, l: seq<nat>, i: nat)
    requires Ordered(v, l) && i < |l|
    ensures Sorted(Key(v), l[..i]) && l[i] in v && Placed(Key(v), l[..i], l[i]) == l[..i + 1]
  {
    OrderedNoDup(v, l);
    RankIs(Key(v), l[..i], l[i], i);
  }

  ghost predicate EndBy(v: Vmas, s: seq<nat>, addr: int) {
    forall i :: 0 <= i < |s| ==> s[i] in v && v[s[i]].end <= addr
  }

  ghost predicate EndAfter(v: Vmas, s: seq<nat>, addr: int) {
    forall i :: 0 <= i < |s| ==> s[i] in v && v[s[i]].end > addr
  }

  /** One step of the search in the tree. */
  lemma {:induction false} AreaStep(v: Vmas, l: seq<nat>, ctx: Ctx, t: Tree, addr: int)
    requires Ordered(v, l) && t.Node? && l == Before(ctx) + Flat(t) + After(ctx)
    requires EndBy(v, Before(ctx), addr) && EndAfter(v, After(ctx), addr)
    ensures t.x in v
    ensures var left := v[t.x].end > addr;
            var ctx' := In(ctx, left, t.red, t.x, Sub(t, !left));
            EndBy(v, Before(ctx'), addr) && EndAfter(v, After(ctx'), addr)
    ensures v[t.x].start <= addr < v[t.x].end ==> Lowest(v, l, addr) == Some(t.x)
  {
    hide Before, After, First, Ordered;
    AroundNode(v, Before(ctx), Flat(t.l), t.x, Flat(t.r), After(ctx), addr);
    BeforeAfter(ctx, true, t.red, t.x, t.r);
    BeforeAfter(ctx, false, t.red, t.x, t.l);
  }

  lemma {:induction false} AroundNode(v: Vmas, pre: seq<nat>, a: seq<nat>, x: nat, c: seq<nat>, post: seq<nat>,
      addr: int)
    requires Ordered(v, pre + (a + [x] + c) + post) && EndBy(v, pre, addr)
    ensures x in v && v[x].start < v[x].end
    ensures forall i :: 0 <= i < |a| ==> a[i] in v && v[a[i]].end <= v[x].start
    ensures forall i :: 0 <= i < |c| ==> c[i] in v && v[c[i]].end > v[x].end
    ensures v[x].start <= addr < v[x].end ==> Lowest(v, pre + (a + [x] + c) + post, addr) == Some(x)
  {
    hide First;
    var l, m := pre + (a + [x] + c) + post, |pre| + |a|;
    assert l[m] == x;
    forall i | 0 <= i < |a| ensures a[i] in v && v[a[i]].end <= v[x].start {
      assert l[|pre| + i] == a[i];
    }
    forall i | 0 <= i < |c| ensures c[i] in v && v[c[i]].end > v[x].end {
      assert l[m + 1 + i] == c[i];
    }
    if v[x].start <= addr < v[x].end {
      assert forall j :: 0 <= j < m ==> l[j] == if j < |pre| then pre[j] else a[j - |pre|];
      FirstIs(v, l, addr, m);
    }
  }

  lemma {:induction false} AreaEnd(v: Vmas, l: seq<nat>, ctx: Ctx, h: Heap, t: Tree, addr: int)
    requires RootOf(t) == NIL && At(h, ctx, t) && l == Before(ctx) + Flat(t) + After(ctx)
    requires EndBy(v, Before(ctx), addr) && EndAfter(v, After(ctx), addr)
    ensures Lowest(v, l, addr) == if After(ctx) == [] then None else Some(After(ctx)[0])
  {
    hide Before, After, First;
    assert t == Leaf;
    assert l == Before(ctx) + After(ctx);
    FirstIs(v, l, addr, |Before(ctx)|);
  }

  lemma {:induction false} CacheHit(v: Vmas, l: seq<nat>, cache: Option<nat>, addr: int)
    requires Ordered(v, l) && (cache.Some? ==> cache.value in l)
    ensures cache.Some? ==> cache.value in v
    ensures cache.Some? && v[cache.value].start <= addr < v[cache.value].end ==> Lowest(v, l, addr) == cache
  {
    hide First;
    if cache.Some? && v[cache.value].start <= addr < v[cache.value].end {
      var i :| 0 <= i < |l| && l[i] == cache.value;
      FirstIs(v, l, addr, i);
    }
  }

  lemma {:induction false} LowestListed(v: Vmas, l: seq<nat>, addr: int)
    ensures Lowest(v, l, addr).Some? ==> Lowest(v, l, addr).value in l
  {
  }
}
