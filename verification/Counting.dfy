/** Counting facts about finite sets of numbers, shared by the other modules. */
module Counting {

  /** The numbers below `n`. */
  function Below(n: nat): (s: set<nat>)
    ensures |s| == n
    ensures forall i: nat :: i in s <==> i < n
  {
    if n == 0 then {} else Below(n - 1) + {n - 1}
  }

  ghost predicate Distinct<T>(xs: seq<T>) {
    forall i, j | 0 <= i < j < |xs| :: xs[i] != xs[j]
  }

  /** Distinct elements drawn from a set are no more than the set has. */
  lemma {:induction false} Pigeonhole<T>(xs: seq<T>, s: set<T>)
    requires Distinct(xs)
    requires forall i | 0 <= i < |xs| :: xs[i] in s
    ensures |xs| <= |s|
  {
    if xs != [] {
      var init := xs[..|xs| - 1];
      var last := xs[|xs| - 1];
      forall i | 0 <= i < |init| ensures init[i] in s - {last} {
        assert xs[i] != last;
      }
      Pigeonhole(init, s - {last});
    }
  }

  /** A set has no more elements than a set that contains it. */
  lemma {:induction false} SubsetSize<T>(a: set<T>, b: set<T>)
    requires a <= b
    ensures |a| <= |b|
    decreases a
  {
    if a != {} {
      var x :| x in a;
      SubsetSize(a - {x}, b - {x});
    }
  }

  /** The numbers below `n` that are not in `held`. */
  lemma Others(n: nat, held: set<nat>) returns (others: set<nat>)
    requires forall i | i in held :: i < n
    ensures |others| == n - |held|
    ensures forall i | i in others :: i < n && i !in held
  {
    others := Below(n) - held;
    assert Below(n) == others + held;
  }

  /** As many numbers below `n` as there are, are all of them. */
  lemma AllBelow(n: nat, s: set<nat>, i: nat)
    requires (forall k | k in s :: k < n) && |s| >= n && i < n
    ensures i in s
  {
    SubsetSize(s, Below(n) - (if i in s then {} else {i}));
  }

  lemma UnionSize<T>(a: set<T>, b: set<T>)
    ensures |a + b| == |a| + |b - a| <= |a| + |b|
  {
    assert a + b == a + (b - a);
    SubsetSize(b - a, b);
  }

  lemma DifferenceSize<T>(a: set<T>, b: set<T>, c: set<T>)
    ensures |b + c - a| == |b - a| + |c - (a + b)|
  {
    assert b + c - a == (b - a) + (c - (a + b));
  }

  /** A sequence has no more elements than its length. */
  lemma {:induction false} ElementsSize<T>(xs: seq<T>)
    ensures |set x | x in xs| <= |xs|
  {
    if xs == [] {
      assert (set x | x in xs) == {};
    } else {
      ElementsSize(xs[1..]);
      assert (set x | x in xs) == (set x | x in xs[1..]) + {xs[0]};
    }
  }
}
