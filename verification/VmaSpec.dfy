/** When map, unmap and brk fail, told before the call, and what histories of them do. */
module VmaSpec {
  import opened Common
  import opened VmaState
  import opened VmaFacts

  /** Every descriptor is in use. */
  ghost predicate Full(v: Vmas, cap: nat) {
    forall x: nat :: 2 <= x < cap + 2 ==> x in v
  }

  /** Exactly one descriptor is left. */
  ghost predicate LastFree(v: Vmas, cap: nat) {
    exists z: nat :: 2 <= z < cap + 2 && z !in v && Full(v[z := Vma(0, 0, READ_WRITE)], cap)
  }

  /** Some address of the range is mapped. */
  ghost predicate Meets(v: Vmas, l: seq<nat>, start: nat, end: nat) {
    exists a, f :: start <= a < end && Maps(v, l, a, f)
  }

  /** The range lies strictly inside an area, which has to be split. */
  ghost predicate Encloses(v: Vmas, l: seq<nat>, start: nat, end: nat) {
    exists x :: x in l && x in v && v[x].start < start && end < v[x].end
  }

  /** The area lies in the range. */
  ghost predicate Swallowed(a: Vma, start: nat, end: nat) {
    start <= a.start && a.end <= end
  }

  /** Some area lies in the range, so that unmapping gives back a descriptor. */
  ghost predicate Swallows(v: Vmas, l: seq<nat>, start: nat, end: nat) {
    exists x :: x in l && x in v && Swallowed(v[x], start, end)
  }

  /** The descriptors in use once the range is unmapped: one more after a split, otherwise those of the
      areas that do not lie in the range. */
  ghost predicate KeysAfter(v: Vmas, l: seq<nat>, v': Vmas, start: nat, end: nat) {
    if Encloses(v, l, start, end) then exists z :: z !in v && v'.Keys == v.Keys + {z}
    else forall x :: x in v' <==> x in v && !Swallowed(v[x], start, end)
  }

  /** One area more, with a descriptor of its own. */
  ghost predicate OneMore(v: Vmas, v': Vmas, area: Vma) {
    exists z: nat :: z !in v && v' == v[z := area]
  }

  /** An area of its own can be unmapped without splitting one. */
  lemma {:induction false} NotEnclosed(v: Vmas, l: seq<nat>, v': Vmas, l': seq<nat>, area: Vma)
    requires OneMore(v, v', area) && area.start < area.end && (forall x :: x in v ==> x in l)
    requires !Meets(v, l, area.start, area.end)
    ensures !Encloses(v', l', area.start, area.end)
  {
    forall x | x in v ensures !(v[x].start < area.start && area.end < v[x].end) {
      assert Has(v[x], area.start) ==> Maps(v, l, area.start, v[x].flags);
    }
  }

  /** mm_unmap cannot split an area. */
  ghost predicate UnmapFails(v: Vmas, l: seq<nat>, cap: nat, start: nat, end: nat) {
    Encloses(v, l, start, end) && Full(v, cap)
  }

  /** mm_brk has no area to grow and, with the range unmapped, no descriptor for a new one. */
  ghost predicate BrkStuck(v: Vmas, l: seq<nat>, cap: nat, start: nat, end: nat) {
    && !Maps(v, l, start - 1, READ_WRITE)
    && if Encloses(v, l, start, end) then LastFree(v, cap) else Full(v, cap) && !Swallows(v, l, start, end)
  }

  lemma {:induction false} FullAfter(v: Vmas, l: seq<nat>, v': Vmas, cap: nat, start: nat, end: nat)
    requires KeysAfter(v, l, v', start, end) && (forall x :: x in v' ==> 2 <= x < cap + 2)
             && (forall x :: x in v ==> 2 <= x < cap + 2)
    requires forall x :: x in v ==> x in l
    ensures Full(v', cap) <==>
            if Encloses(v, l, start, end) then LastFree(v, cap) else Full(v, cap) && !Swallows(v, l, start, end)
  {
    if Encloses(v, l, start, end) {
      var z :| z !in v && v'.Keys == v.Keys + {z};
      assert z in v'.Keys;
      assert v[z := Vma(0, 0, READ_WRITE)].Keys == v'.Keys;
      assert Full(v', cap) <==> Full(v[z := Vma(0, 0, READ_WRITE)], cap);
      if LastFree(v, cap) {
        var y: nat :| 2 <= y < cap + 2 && y !in v && Full(v[y := Vma(0, 0, READ_WRITE)], cap);
        assert z in v[y := Vma(0, 0, READ_WRITE)];
      }
    } else {
      if Swallows(v, l, start, end) {
        var x :| x in l && x in v && Swallowed(v[x], start, end);
        assert x !in v';
      }
    }
  }

  /** Cutting keeps the areas that do not lie in the range. */
  lemma {:induction false} CutKeys(v0: Vmas, l0: seq<nat>, v: Vmas, l: seq<nat>, start: nat, end: nat)
    requires Cut(v0, l0, v, l, start, end) && Ordered(v, l) && Ordered(v0, l0)
    requires (forall x :: x in v0 ==> x in l0) && (forall x :: x in v ==> x in l)
    ensures forall x :: x in v <==> x in v0 && !Swallowed(v0[x], start, end)
  {
    forall x ensures x in v <==> x in v0 && !Swallowed(v0[x], start, end) {
      if x in v {
        var i :| 0 <= i < |l| && l[i] == x;
        assert Kept(v0[x], v[x], start, end);
        assert Has(v[x], v[x].start);
      } else if x in v0 {
        assert x in l0 && x !in l;
      }
    }
  }

  /** Only the first area that ends after the start can enclose the range. */
  lemma {:induction false} OneEncloser(v: Vmas, l: seq<nat>, start: nat, end: nat)
    requires Ordered(v, l) && Lowest(v, l, start).Some? && start < end
    ensures Lowest(v, l, start).value in l && Lowest(v, l, start).value in v
    ensures var x := Lowest(v, l, start).value; Encloses(v, l, start, end) <==> v[x].start < start && end < v[x].end
  {
    FirstFacts(v, l, start);
    var i := First(v, l, start);
    if Encloses(v, l, start, end) {
      var y :| y in l && y in v && v[y].start < start && end < v[y].end;
      var j :| 0 <= j < |l| && l[j] == y;
      assert j == i;
    } else {
      assert l[i] in l;
    }
  }

  /** A range that meets no area leaves all areas alone. */
  lemma {:induction false} NothingMet(v: Vmas, l: seq<nat>, start: nat, end: nat)
    requires Ordered(v, l) && start < end && (forall x :: x in v ==> x in l)
    requires forall i :: 0 <= i < |l| ==> v[l[i]].end <= start || end <= v[l[i]].start
    ensures !Encloses(v, l, start, end) && !Swallows(v, l, start, end) && KeysAfter(v, l, v, start, end)
  {
    forall x | x in l ensures x in v && v[x].start < v[x].end && (v[x].end <= start || end <= v[x].start) {
      var i :| 0 <= i < |l| && l[i] == x;
    }
  }

  /** The area find_vma(start - 1) gives ends at a free range exactly when it maps the address before. */
  lemma {:induction false} EndsHere(v: Vmas, l: seq<nat>, start: nat, end: nat, f: Flags)
    requires Ordered(v, l) && 0 < start < end && forall a, g :: start <= a < end ==> !Maps(v, l, a, g)
    ensures var r := Lowest(v, l, start - 1);
            && (r.Some? ==> r.value in l && r.value in v)
            && (r.Some? && v[r.value].end == start && v[r.value].flags == f <==> Maps(v, l, start - 1, f))
  {
    FirstFacts(v, l, start - 1);
    MapsFirst(v, l, start - 1, f);
    var i := First(v, l, start - 1);
    if i < |l| {
      var x := l[i];
      assert x in l && !Maps(v, l, start, v[x].flags);
      assert !Has(v[x], start);
    }
  }

  datatype VmaOp = OpMap(addr: Word, len: Word, flags: Flags) | OpUnmap(addr: Word, len: Word) | OpBrk(addr: Word,
      len: Word)

  /** How a call ended; mm_brk may fail after it has unmapped its range. */
  datatype VmaOutcome = Failed | Done | HalfDone

  ghost predicate Within(addr: Word, len: Word, a: int) {
    RoundDown(addr) <= a < RoundUp(Plus(addr, len))
  }

  /** How a call ends is settled before it. */
  ghost function Result(v: Vmas, l: seq<nat>, cap: nat, op: VmaOp): VmaOutcome {
    var start, end := RoundDown(op.addr), RoundUp(Plus(op.addr, op.len));
    if !UserAccess(start, end) then Failed
    else match op
         case OpMap(_, _, _) => if Meets(v, l, start, end) || Full(v, cap) then Failed else Done
         case OpUnmap(_, _) => if UnmapFails(v, l, cap, start, end) then Failed else Done
         case OpBrk(_, _) =>
           if UnmapFails(v, l, cap, start, end) then Failed
           else if BrkStuck(v, l, cap, start, end) then (if Meets(v, l, start, end) then HalfDone else Failed)
           else Done
  }

  /** Whether a is mapped with f after a call, given whether it was before. */
  ghost predicate MapsNext(op: VmaOp, out: VmaOutcome, a: int, f: Flags, before: bool) {
    if out == Failed then before
    else match op
         case OpMap(addr, len, flags) => before || (Within(addr, len, a) && f == flags.(share := false))
         case OpUnmap(addr, len) => before && !Within(addr, len, a)
         case OpBrk(addr, len) =>
           if Within(addr, len, a) then out == Done && f == READ_WRITE else before
  }

  /** Whether a is mapped with f after a history of calls. */
  ghost predicate MapsAfter(v: Vmas, l: seq<nat>, ops: seq<VmaOp>, outs: seq<VmaOutcome>, a: int, f: Flags)
    decreases |ops|
  {
    if ops == [] || outs == [] then Maps(v, l, a, f)
    else MapsNext(ops[|ops| - 1], outs[|outs| - 1], a, f, MapsAfter(v, l, ops[..|ops| - 1], outs[..|outs| - 1], a, f))
  }

  lemma {:induction false} HistoryEmpty(v: Vmas, l: seq<nat>)
    ensures forall a, f :: MapsAfter(v, l, [], [], a, f) <==> Maps(v, l, a, f)
  {
  }

  lemma {:induction false} HistoryNext(v: Vmas, l: seq<nat>, ops: seq<VmaOp>, outs: seq<VmaOutcome>, op: VmaOp,
      out: VmaOutcome, a: int, f: Flags)
    requires |ops| == |outs|
    ensures MapsAfter(v, l, ops + [op], outs + [out], a, f) <==>
            MapsNext(op, out, a, f, MapsAfter(v, l, ops, outs, a, f))
  {
    assert (ops + [op])[..|ops|] == ops && (outs + [out])[..|outs|] == outs;
  }
}
