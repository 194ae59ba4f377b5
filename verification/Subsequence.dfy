/** Sequences that arise from others by leaving elements out. */
module Subsequence {

  predicate Distinct<T(==)>(s: seq<T>) {
    forall i, k :: 0 <= i < k < |s| ==> s[i] != s[k]
  }

  /** `a` is `b` with some elements left out, in the order of `b`. */
  predicate Sub<T(==)>(a: seq<T>, b: seq<T>) {
    a == [] ||
    (b != [] &&
     ((a[|a| - 1] == b[|b| - 1] && Sub(a[..|a| - 1], b[..|b| - 1])) || Sub(a, b[..|b| - 1])))
  }

  lemma SubBoth<T>(a: seq<T>, b: seq<T>, x: T)
    requires Sub(a, b)
    ensures Sub(a + [x], b + [x])
  {
    assert (a + [x])[..|a|] == a && (b + [x])[..|b|] == b;
  }

  lemma SubRight<T>(a: seq<T>, b: seq<T>, x: T)
    requires Sub(a, b)
    ensures Sub(a, b + [x])
  {
    assert (b + [x])[..|b|] == b;
  }

  /** Two elements of a subsequence come from the original in the same order. */
  lemma {:induction false} SubOrder<T>(a: seq<T>, b: seq<T>, i: nat, k: nat) returns (p: nat, q: nat)
    requires Sub(a, b) && i < k < |a|
    ensures p < q < |b| && b[p] == a[i] && b[q] == a[k]
  {
    var m, n := |a| - 1, |b| - 1;
    if a[m] == b[n] && Sub(a[..m], b[..n]) {
      if k == m {
        p := SubMember(a[..m], b[..n], i);
        q := n;
      } else {
        p, q := SubOrder(a[..m], b[..n], i, k);
      }
    } else {
      p, q := SubOrder(a, b[..n], i, k);
    }
  }

  lemma {:induction false} SubMember<T>(a: seq<T>, b: seq<T>, i: nat) returns (p: nat)
    requires Sub(a, b) && i < |a|
    ensures p < |b| && b[p] == a[i]
  {
    var m, n := |a| - 1, |b| - 1;
    if a[m] == b[n] && Sub(a[..m], b[..n]) {
      if i == m {
        p := n;
      } else {
        p := SubMember(a[..m], b[..n], i);
      }
    } else {
      p := SubMember(a, b[..n], i);
    }
  }

  lemma {:induction false} SubLength<T>(a: seq<T>, b: seq<T>)
    requires Sub(a, b)
    ensures |a| <= |b|
  {
    if a != [] {
      if a[|a| - 1] == b[|b| - 1] && Sub(a[..|a| - 1], b[..|b| - 1]) {
        SubLength(a[..|a| - 1], b[..|b| - 1]);
      } else {
        SubLength(a, b[..|b| - 1]);
      }
    }
  }
}
