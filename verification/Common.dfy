/** Small helpers shared by the models: optional values and duplicate-free lists. */
module Common {

  datatype Option<+T> = None | Some(value: T)

  /** No element occurs twice. */
  ghost predicate NoDup<T>(s: seq<T>) {
    forall i, j :: 0 <= i < j < |s| ==> s[i] != s[j]
  }

  /** The list after unlinking `x`; the other elements keep their order. */
  function Without<T(==,!new)>(s: seq<T>, x: T): (r: seq<T>)
    ensures forall y :: y in r <==> y in s && y != x
    ensures |r| <= |s|
  {
    if s == [] then []
    else if s[0] == x then Without(s[1..], x)
    else [s[0]] + Without(s[1..], x)
  }

  /** Unlinking keeps a list duplicate-free. */
  lemma {:induction false} WithoutNoDup<T(!new)>(s: seq<T>, x: T)
    requires NoDup(s)
    ensures NoDup(Without(s, x))
    ensures |Without(s, x)| == if x in s then |s| - 1 else |s|
  {
    if s != [] {
      var t := s[1..];
      WithoutNoDup(t, x);
      assert forall y :: y in s <==> y == s[0] || y in t;
      if s[0] == x {
        assert x !in t;
      } else {
        var w := Without(t, x);
        forall i, j | 0 <= i < j < |[s[0]] + w| ensures ([s[0]] + w)[i] != ([s[0]] + w)[j] {
          if i == 0 {
            assert w[j - 1] in w;
            assert w[j - 1] in t;
          }
        }
      }
    }
  }

  /** Unlinking what is not there changes nothing. */
  lemma {:induction false} WithoutNone<T(!new)>(s: seq<T>, x: T)
    requires x !in s
    ensures Without(s, x) == s
  {
    if s != [] {
      WithoutNone(s[1..], x);
    }
  }

  /** Unlinking the first element. */
  lemma {:induction false} WithoutFirst<T(!new)>(s: seq<T>)
    requires s != [] && NoDup(s)
    ensures Without(s, s[0]) == s[1..]
  {
    WithoutNone(s[1..], s[0]);
  }

  /** A duplicate-free list is as long as its set of elements. */
  lemma {:induction false} NoDupCard<T>(s: seq<T>)
    requires NoDup(s)
    ensures |set x | x in s| == |s|
  {
    if s == [] {
      assert (set x | x in s) == {};
    } else {
      NoDupCard(s[1..]);
      assert (set x | x in s) == {s[0]} + (set x | x in s[1..]);
      assert s[0] !in s[1..];
    }
  }

  ghost function Elems<T>(s: seq<T>): set<T> {
    set x | x in s
  }

  lemma {:induction false} SubsetCard(a: set<nat>, b: set<nat>)
    requires a <= b
    ensures |a| <= |b|
  {
    assert b == a + (b - a);
  }

  /** An interval has as many elements as its length. */
  lemma {:induction false} RangeCard(s: set<nat>, from: nat, n: nat)
    requires forall x: nat :: x in s <==> from <= x < from + n
    ensures |s| == n
  {
    if n == 0 {
      assert s == {};
    } else {
      RangeCard(s - {from + n - 1}, from, n - 1);
    }
  }

  /** Numbers below n are at most n many. */
  lemma {:induction false} BoundedCard(s: set<nat>, n: nat)
    requires forall x :: x in s ==> x < n
    ensures |s| <= n
  {
    if n == 0 {
      assert s == {};
    } else {
      BoundedCard(s - {n - 1}, n - 1);
    }
  }
}
