/**
 * Counting occurrences, the `acc[k] = (acc[k] || 0) + 1` reduce that builds a count object,
 * the key order of such an object, and sums over its values.
 */
module Counting {

  /** No element occurs twice. */
  predicate NoDuplicates<T(==)>(xs: seq<T>) {
    forall i, j :: 0 <= i < j < |xs| ==> xs[i] != xs[j]
  }

  /** Number of occurrences of `x` in `xs`. */
  function Count<T(==)>(xs: seq<T>, x: T): (n: nat)
    ensures n <= |xs|
    ensures n > 0 <==> x in xs
  {
    if xs == [] then 0 else (if xs[0] == x then 1 else 0) + Count(xs[1..], x)
  }

  lemma {:induction false} CountAppend<T>(a: seq<T>, b: seq<T>, x: T)
    ensures Count(a + b, x) == Count(a, x) + Count(b, x)
  {
    if a == [] {
      assert a + b == b;
    } else {
      assert (a + b)[1..] == a[1..] + b;
      CountAppend(a[1..], b, x);
    }
  }

  /** A sequence without duplicates holds each of its elements exactly once. */
  lemma {:induction false} CountInDistinct<T>(xs: seq<T>, x: T)
    requires NoDuplicates(xs)
    ensures Count(xs, x) == if x in xs then 1 else 0
  {
    if xs != [] {
      CountInDistinct(xs[1..], x);
      if xs[0] == x {
        assert x !in xs[1..] by {
          forall i | 0 <= i < |xs[1..]| ensures xs[1..][i] != x {
            assert xs[0] != xs[i + 1];
          }
        }
      }
    }
  }

  /**
   * The count object built by the reduce `acc[k] = (acc[k] || 0) + 1` over `xs`,
   * left to right: each key present in `xs` maps to its number of occurrences.
   */
  function Tally<T(==)>(xs: seq<T>): (m: map<T, nat>)
    ensures m.Keys == set x | x in xs
    ensures forall x :: x in m ==> m[x] == Count(xs, x)
    decreases |xs|
  {
    if xs == [] then map[]
    else
      var init, k := xs[..|xs| - 1], xs[|xs| - 1];
      var acc := Tally(init);
      assert xs == init + [k];
      assert forall x :: x in xs ==> Count(xs, x) == Count(init, x) + Count([k], x) by {
        forall x | x in xs ensures Count(xs, x) == Count(init, x) + Count([k], x) {
          CountAppend(init, [k], x);
        }
      }
      acc[k := (if k in acc then acc[k] else 0) + 1]
  }

  /**
   * The keys of the count object in JavaScript's property order, which for keys that are not
   * array indices (as day strings and statuses are not) is the order in which they were first
   * inserted, that is, the order of first occurrence in `xs`.
   */
  function KeysInOrder<T(==)>(xs: seq<T>): (ks: seq<T>)
    ensures NoDuplicates(ks)
    ensures forall x :: x in ks ==> x in xs
    ensures forall x :: x in xs ==> x in ks
    decreases |xs|
  {
    if xs == [] then []
    else
      var init, k := xs[..|xs| - 1], xs[|xs| - 1];
      var ks := KeysInOrder(init);
      assert xs == init + [k];
      if k in ks then ks else ks + [k]
  }

  /** The value at `k`, or 0 when `k` is absent (JavaScript's `m[k] || 0`). */
  function ValueOr0<T>(m: map<T, nat>, k: T): nat {
    if k in m then m[k] else 0
  }

  /** Sum of the values of `m` at the keys `ks`, missing keys counting 0. */
  function SumAt<T>(m: map<T, nat>, ks: seq<T>): nat {
    if ks == [] then 0 else ValueOr0(m, ks[0]) + SumAt(m, ks[1..])
  }

  /** Sum of the occurrence counts in `xs` of the keys `ks`. */
  function CountsAt<T(==)>(xs: seq<T>, ks: seq<T>): nat {
    if ks == [] then 0 else Count(xs, ks[0]) + CountsAt(xs, ks[1..])
  }

  lemma {:induction false} CountsAtCons<T>(y: T, rest: seq<T>, ks: seq<T>)
    ensures CountsAt([y] + rest, ks) == Count(ks, y) + CountsAt(rest, ks)
  {
    if ks != [] {
      assert ([y] + rest)[1..] == rest;
      CountsAtCons(y, rest, ks[1..]);
    }
  }

  lemma {:induction false} CountsAtEmpty<T>(ks: seq<T>)
    ensures CountsAt([], ks) == 0
  {
    if ks != [] {
      CountsAtEmpty(ks[1..]);
    }
  }

  /**
   * When `ks` lists every element of `xs` exactly once, the counts of the keys add up to the
   * length of `xs`: every element is counted under exactly one key.
   */
  lemma {:induction false} CountsAtCoverAll<T>(xs: seq<T>, ks: seq<T>)
    requires NoDuplicates(ks)
    requires forall x :: x in xs ==> x in ks
    ensures CountsAt(xs, ks) == |xs|
  {
    if xs == [] {
      CountsAtEmpty(ks);
    } else {
      var y, rest := xs[0], xs[1..];
      assert xs == [y] + rest;
      CountsAtCons(y, rest, ks);
      CountInDistinct(ks, y);
      CountsAtCoverAll(rest, ks);
    }
  }

  lemma {:induction false} SumAtTally<T>(xs: seq<T>, ks: seq<T>)
    ensures SumAt(Tally(xs), ks) == CountsAt(xs, ks)
  {
    if ks != [] {
      SumAtTally(xs, ks[1..]);
    }
  }

  /**
   * The values of the count object add up to the number of counted elements, summed over
   * any list of distinct keys that names every element (keys it lacks count 0).
   */
  lemma TallyTotal<T>(xs: seq<T>, ks: seq<T>)
    requires NoDuplicates(ks)
    requires forall x :: x in xs ==> x in ks
    ensures SumAt(Tally(xs), ks) == |xs|
  {
    SumAtTally(xs, ks);
    CountsAtCoverAll(xs, ks);
  }

  /** In particular, summed in property order. */
  lemma TallyTotalInOrder<T>(xs: seq<T>)
    ensures SumAt(Tally(xs), KeysInOrder(xs)) == |xs|
  {
    TallyTotal(xs, KeysInOrder(xs));
  }

  /** A set without members is the empty set. */
  lemma NoMembersEmpty<T>(s: set<T>)
    ensures (forall z :: z !in s) ==> s == {}
  {
    if forall z :: z !in s {
      assert forall z :: z in s <==> z in {};
    }
  }

  /** A member of a set that is not empty. */
  lemma Member<T>(s: set<T>) returns (y: T)
    requires s != {}
    ensures y in s
  {
    NoMembersEmpty(s);
    y :| y in s;
  }
}
