/** The areas of an address space as values: which addresses they map, and what inserting,
    removing and trimming an area does to that. */
module VmaState {
  import opened Common
  import opened RbFacts

  const WORD: nat := 0x1_0000_0000_0000_0000
  const PGSIZE: nat := 4096
  const USERBASE: nat := 0x0000_0000_0100_0000
  const USERTOP: nat := 0x0000_1000_0000_0000
  const RB_MIN_MAP_COUNT: nat := 32

  /** A 64-bit machine word. */
  type Word = x: int | 0 <= x < 0x1_0000_0000_0000_0000

  datatype Flags = Flags(read: bool, write: bool, exec: bool, stack: bool, share: bool)

  datatype Vma = Vma(start: nat, end: nat, flags: Flags)

  type Vmas = map<nat, Vma>

  function RoundDown(a: Word): (r: Word)
    ensures r <= a < r + PGSIZE && r % PGSIZE == 0
  {
    a - a % PGSIZE
  }

  /** ROUNDUP in 64-bit arithmetic. */
  function RoundUp(a: Word): (r: Word)
    ensures r % PGSIZE == 0
    ensures if a + PGSIZE - 1 < WORD then a <= r < a + PGSIZE else r == 0
  {
    RoundDown((a + PGSIZE - 1) % WORD)
  }

  /** Addition in 64-bit arithmetic. */
  function Plus(a: Word, b: Word): (r: Word)
    ensures r == if a + b < WORD then a + b else a + b - WORD
  {
    (a + b) % WORD
  }

  predicate UserAccess(start: nat, end: nat) {
    USERBASE <= start < end <= USERTOP
  }

  /** What a call may ask for: a range in user memory that touches a page. */
  predicate UserRange(addr: Word, len: Word) {
    USERBASE <= addr && addr + len <= USERTOP && (len > 0 || addr % PGSIZE != 0)
  }

  /** a lies on a page that the range touches. */
  predicate OnPages(addr: Word, len: Word, a: int) {
    addr - addr % PGSIZE <= a && a - a % PGSIZE < addr + len
  }

  /** Address a lies in the area. */
  ghost predicate Has(v: Vma, a: int) {
    v.start <= a < v.end
  }

  /** The listed areas are nonempty, disjoint and in address order. */
  ghost predicate Ordered(v: Vmas, l: seq<nat>) {
    && (forall i :: 0 <= i < |l| ==> l[i] in v && v[l[i]].start < v[l[i]].end)
    && (forall i, j :: 0 <= i < j < |l| ==> v[l[i]].end <= v[l[j]].start)
  }

  /** Every listed area is page-aligned and in user space. */
  ghost predicate Aligned(v: Vmas, l: seq<nat>) {
    forall i :: 0 <= i < |l| ==>
      l[i] in v && v[l[i]].start % PGSIZE == 0 && v[l[i]].end % PGSIZE == 0 && UserAccess(v[l[i]].start, v[l[i]].end)
  }

  /** Address a is mapped with these flags. */
  ghost predicate Maps(v: Vmas, l: seq<nat>, a: int, f: Flags) {
    exists x :: x in l && x in v && Has(v[x], a) && v[x].flags == f
  }

  /** vma_compare orders areas by their start. */
  function Key(v: Vmas): nat -> int {
    (x: nat) => if x in v then v[x].start else 0
  }

  lemma {:induction false} OrderedNoDup(v: Vmas, l: seq<nat>)
    requires Ordered(v, l)
    ensures NoDup(l) && Sorted(Key(v), l)
  {
  }

  /** Index of the lowest area that ends after a: what find_vma is for. */
  ghost function First(v: Vmas, l: seq<nat>, a: int): (i: nat)
    ensures i <= |l|
  {
    if l == [] then 0 else if l[0] in v && v[l[0]].end > a then 0 else 1 + First(v, l[1..], a)
  }

  lemma {:induction false} FirstIs(v: Vmas, l: seq<nat>, a: int, i: nat)
    requires i <= |l| && (forall j :: 0 <= j < i ==> l[j] in v && v[l[j]].end <= a)
    requires i < |l| ==> l[i] in v && v[l[i]].end > a
    ensures First(v, l, a) == i
  {
    if i > 0 {
      FirstIs(v, l[1..], a, i - 1);
    }
  }

  lemma {:induction false} FirstFacts(v: Vmas, l: seq<nat>, a: int)
    requires Ordered(v, l)
    ensures var i := First(v, l, a);
            && (forall j :: 0 <= j < i ==> v[l[j]].end <= a)
            && (forall j :: i <= j < |l| ==> v[l[j]].end > a)
            && (i < |l| ==> l[i] in v && v[l[i]].end > a)
  {
    if l != [] && v[l[0]].end <= a {
      FirstFacts(v, l[1..], a);
      var i := First(v, l[1..], a);
      assert forall j :: 1 <= j < |l| ==> l[j] == l[1..][j - 1];
    } else if l != [] {
      forall j | 0 <= j < |l| ensures v[l[j]].end > a {
        assert j > 0 ==> v[l[0]].end <= v[l[j]].start;
      }
    }
  }

  /** An address is mapped exactly when the first area ending after it begins at or before it. */
  lemma {:induction false} MapsFirst(v: Vmas, l: seq<nat>, a: int, f: Flags)
    requires Ordered(v, l)
    ensures var i := First(v, l, a);
            Maps(v, l, a, f) <==> i < |l| && v[l[i]].start <= a && v[l[i]].flags == f
  {
    FirstFacts(v, l, a);
    var i := First(v, l, a);
    if Maps(v, l, a, f) {
      var x :| x in l && x in v && Has(v[x], a) && v[x].flags == f;
      var j :| 0 <= j < |l| && l[j] == x;
      assert i <= j;
    } else if i < |l| && v[l[i]].start <= a && v[l[i]].flags == f {
      assert l[i] in l && Has(v[l[i]], a);
    }
  }

  /** z would not overlap any listed area. */
  ghost predicate Fits(v: Vmas, l: seq<nat>, z: Vma) {
    z.start < z.end && forall i :: 0 <= i < |l| ==> l[i] in v && (v[l[i]].end <= z.start || z.end <= v[l[i]].start)
  }

  lemma {:induction false} RankFacts(key: nat -> int, s: seq<nat>, z: nat)
    requires Sorted(key, s)
    ensures forall i :: 0 <= i < Rank(key, s, z) ==> key(s[i]) <= key(z)
    ensures forall i :: Rank(key, s, z) <= i < |s| ==> key(s[i]) > key(z)
  {
    if s == [] {
    } else if key(s[0]) > key(z) {
      forall i | 0 <= i < |s| ensures key(s[i]) > key(z) {
        assert i > 0 ==> key(s[0]) <= key(s[i]);
      }
    } else {
      RankFacts(key, s[1..], z);
      assert forall i :: 1 <= i < |s| ==> s[i] == s[1..][i - 1];
    }
  }

  lemma {:induction false} InsertAt(v: Vmas, l: seq<nat>, z: nat, r: nat)
    requires Ordered(v, l) && r <= |l| && z in v && v[z].start < v[z].end
    requires forall i :: 0 <= i < r ==> v[l[i]].end <= v[z].start
    requires forall i :: r <= i < |l| ==> v[z].end <= v[l[i]].start
    ensures Ordered(v, l[..r] + [z] + l[r..])
  {
    var p := l[..r] + [z] + l[r..];
    forall i | 0 <= i < |p| ensures p[i] == if i < r then l[i] else if i == r then z else l[i - 1] {
    }
  }

  lemma {:induction false} InsertElems(l: seq<nat>, z: nat, r: nat)
    requires r <= |l|
    ensures forall x :: x in l[..r] + [z] + l[r..] <==> x in l || x == z
  {
    assert l == l[..r] + l[r..];
  }

  /** Inserting an area that fits keeps the list ordered and adds exactly that area. */
  lemma {:induction false} InsertFits(v: Vmas, l: seq<nat>, z: nat)
    requires Ordered(v, l) && z in v && z !in l && Fits(v, l, v[z])
    ensures Ordered(v, Placed(Key(v), l, z))
    ensures forall x :: x in Placed(Key(v), l, z) <==> x in l || x == z
    ensures |Placed(Key(v), l, z)| == |l| + 1
  {
    hide Sorted, Rank;
    OrderedNoDup(v, l);
    RankFacts(Key(v), l, z);
    var r := Rank(Key(v), l, z);
    forall i | 0 <= i < r ensures v[l[i]].end <= v[z].start {
      assert Key(v)(l[i]) <= Key(v)(z);
    }
    forall i | r <= i < |l| ensures v[z].end <= v[l[i]].start {
      assert Key(v)(l[i]) > Key(v)(z);
    }
    InsertAt(v, l, z, r);
    InsertElems(l, z, r);
  }

  lemma {:induction false} MapsInsert(v: Vmas, l: seq<nat>, l': seq<nat>, z: nat, a: int, f: Flags)
    requires z in v && forall x :: x in l' <==> x in l || x == z
    ensures Maps(v, l', a, f) <==> Maps(v, l, a, f) || (Has(v[z], a) && v[z].flags == f)
  {
  }

  /** Removing an area keeps the list ordered. */
  lemma {:induction false} RemoveOrdered(v: Vmas, l: seq<nat>, x: nat)
    requires Ordered(v, l)
    ensures Ordered(v, Without(l, x))
  {
    hide Ordered;
    if l == [] {
      assert Without(l, x) == l;
    } else {
      OrderedTail(v, l);
      RemoveOrdered(v, l[1..], x);
      if l[0] != x {
        OrderedCons(v, l[0], Without(l[1..], x));
      }
    }
  }

  lemma {:induction false} OrderedTail(v: Vmas, l: seq<nat>)
    requires Ordered(v, l) && l != []
    ensures Ordered(v, l[1..]) && l[0] in v && v[l[0]].start < v[l[0]].end
    ensures forall y :: y in l[1..] ==> y in v && v[l[0]].end <= v[y].start
  {
    assert forall i :: 0 <= i < |l[1..]| ==> l[1..][i] == l[i + 1];
  }

  lemma {:induction false} OrderedCons(v: Vmas, h: nat, w: seq<nat>)
    requires Ordered(v, w) && h in v && v[h].start < v[h].end && forall y :: y in w ==> y in v && v[h].end <= v[y].start
    ensures Ordered(v, [h] + w)
  {
    assert forall j :: 0 <= j < |w| ==> w[j] in w;
  }
}
