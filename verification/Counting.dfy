/** Sizes of sets: distinct sequences, intervals, injective images. */
module Counting {

  function Elements(s: seq<nat>): (r: set<nat>)
    ensures forall x :: x in r <==> x in s
  {
    if s == [] then {} else Elements(s[..|s| - 1]) + {s[|s| - 1]}
  }

  lemma {:induction false} DistinctSize(s: seq<nat>)
    requires forall i, j | 0 <= i < j < |s| :: s[i] != s[j]
    ensures |Elements(s)| == |s|
  {
    if s != [] {
      DistinctSize(s[..|s| - 1]);
    }
  }

  function Interval(lo: nat, hi: nat): (s: set<nat>)
    requires lo <= hi
    ensures |s| == hi - lo
    ensures forall x: nat :: x in s <==> lo <= x < hi
    decreases hi - lo
  {
    if lo == hi then {} else Interval(lo, hi - 1) + {hi - 1}
  }

  lemma {:induction false} SubsetSize<T>(a: set<T>, b: set<T>)
    requires a <= b
    ensures |a| <= |b|
    ensures |a| == |b| ==> a == b
  {
    assert b == a + (b - a);
  }

  /** An injective image has as many elements. */
  lemma {:induction false} InjectiveBound(s: set<nat>, f: nat -> nat, n: nat)
    requires forall x | x in s :: f(x) < n
    requires forall x, y | x in s && y in s && f(x) == f(y) :: x == y
    ensures |s| <= n
  {
    InjectsInto(s, f, Interval(0, n));
  }

  /** A set that maps injectively into u is no larger than u. */
  lemma {:induction false} InjectsInto<A, B>(s: set<A>, f: A -> B, u: set<B>)
    requires forall x | x in s :: f(x) in u
    requires forall x, y | x in s && y in s && f(x) == f(y) :: x == y
    ensures |s| <= |u|
  {
    if a :| a in s {
      InjectsInto(s - {a}, f, u - {f(a)});
    }
  }
}
