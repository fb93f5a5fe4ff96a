/**
 * `Array.prototype.sort()` without a comparator on strings: ascending code point order,
 * compared position by position, a proper prefix sorting first. This matches the UTF-16 code
 * unit order that JavaScript uses on the keys sorted here.
 */
module Sorting {

  /** `a` sorts no later than `b`. */
  predicate Below(a: string, b: string) {
    |a| == 0 || (|b| > 0 && (a[0] < b[0] || (a[0] == b[0] && Below(a[1..], b[1..]))))
  }

  lemma {:induction false} BelowTotal(a: string, b: string)
    ensures Below(a, b) || Below(b, a)
  {
    if |a| > 0 && |b| > 0 && a[0] == b[0] {
      BelowTotal(a[1..], b[1..]);
    }
  }

  lemma {:induction false} BelowTransitive(a: string, b: string, c: string)
    requires Below(a, b) && Below(b, c)
    ensures Below(a, c)
  {
    if |a| > 0 && a[0] == b[0] && b[0] == c[0] {
      BelowTransitive(a[1..], b[1..], c[1..]);
    }
  }

  predicate Ascending(xs: seq<string>) {
    forall i, j :: 0 <= i < j < |xs| ==> Below(xs[i], xs[j])
  }

  predicate StrictlyAscending(xs: seq<string>) {
    forall i, j :: 0 <= i < j < |xs| ==> Below(xs[i], xs[j]) && xs[i] != xs[j]
  }

  /** Putting `x` in front of an ascending sequence whose first element it precedes. */
  lemma PrependAscending(x: string, xs: seq<string>)
    requires Ascending(xs)
    requires xs != [] ==> Below(x, xs[0])
    ensures Ascending([x] + xs)
  {
    var r := [x] + xs;
    forall i, j | 0 <= i < j < |r| ensures Below(r[i], r[j]) {
      if i == 0 && j > 1 {
        BelowTransitive(x, xs[0], xs[j - 1]);
      }
    }
  }

  /** Inserts `x` into an ascending sequence, keeping it ascending. */
  function Insert(x: string, xs: seq<string>): (r: seq<string>)
    requires Ascending(xs)
    ensures Ascending(r)
    ensures multiset(r) == multiset(xs) + multiset{x}
    ensures |r| == |xs| + 1
    ensures r[0] == x || (xs != [] && r[0] == xs[0])
  {
    if xs == [] || Below(x, xs[0]) then
      PrependAscending(x, xs);
      [x] + xs
    else
      var tail := Insert(x, xs[1..]);
      assert xs == [xs[0]] + xs[1..];
      BelowTotal(x, xs[0]);
      assert Below(xs[0], tail[0]);
      PrependAscending(xs[0], tail);
      [xs[0]] + tail
  }

  /** An ascending permutation of `xs`. */
  function Sort(xs: seq<string>): (r: seq<string>)
    ensures Ascending(r)
    ensures multiset(r) == multiset(xs)
  {
    if xs == [] then []
    else
      assert xs == [xs[0]] + xs[1..];
      Insert(xs[0], Sort(xs[1..]))
  }

  /** Sorting strings that are pairwise distinct gives a strictly ascending sequence. */
  lemma SortDistinct(xs: seq<string>)
    requires forall i, j :: 0 <= i < j < |xs| ==> xs[i] != xs[j]
    ensures StrictlyAscending(Sort(xs))
  {
    var r := Sort(xs);
    forall i, j | 0 <= i < j < |r| ensures r[i] != r[j] {
      if r[i] == r[j] {
        RepeatedMultiplicity(r, i, j);
        MultiplicityInDistinct(xs, r[i]);
        assert false;
      }
    }
  }

  lemma RepeatedMultiplicity(r: seq<string>, i: nat, j: nat)
    requires i < j < |r| && r[i] == r[j]
    ensures multiset(r)[r[i]] >= 2
  {
    var a, b := r[..j], r[j..];
    assert r == a + b;
    assert r[i] == a[i];
    assert r[j] == b[0];
    assert multiset(a)[r[i]] >= 1;
    assert multiset(b)[r[i]] >= 1;
  }

  lemma {:induction false} MultiplicityInDistinct(xs: seq<string>, x: string)
    requires forall i, j :: 0 <= i < j < |xs| ==> xs[i] != xs[j]
    ensures multiset(xs)[x] <= 1
  {
    if xs != [] {
      assert xs == [xs[0]] + xs[1..];
      MultiplicityInDistinct(xs[1..], x);
      if xs[0] == x {
        assert x !in xs[1..] by {
          forall i | 0 <= i < |xs[1..]| ensures xs[1..][i] != x {
            assert xs[0] != xs[i + 1];
          }
        }
      }
    }
  }
}
