/** Counting the elements of a sequence that satisfy a predicate. */
module Counting {

  function Count<T>(s: seq<T>, p: T -> bool): (n: nat)
    ensures n <= |s|
  {
    if s == [] then 0
    else Count(s[..|s| - 1], p) + (if p(s[|s| - 1]) then 1 else 0)
  }

  lemma CountAppend<T>(s: seq<T>, x: T, p: T -> bool)
    ensures Count(s + [x], p) == Count(s, p) + (if p(x) then 1 else 0)
  {
    assert (s + [x])[..|s|] == s;
  }

  lemma {:induction false} CountUpdate<T>(s: seq<T>, i: nat, x: T, p: T -> bool)
    requires i < |s|
    ensures Count(s[i := x], p) + (if p(s[i]) then 1 else 0) == Count(s, p) + (if p(x) then 1 else 0)
  {
    var n := |s| - 1;
    if i == n {
      assert s[i := x][..n] == s[..n];
    } else {
      assert s[i := x][..n] == s[..n][i := x];
      CountUpdate(s[..n], i, x, p);
    }
  }

  /** A predicate that splits into two exclusive ones splits its count. */
  lemma {:induction false} CountSplit<T>(s: seq<T>, p: T -> bool, q: T -> bool, r: T -> bool)
    requires forall i :: 0 <= i < |s| ==> (p(s[i]) <==> q(s[i]) || r(s[i])) && !(q(s[i]) && r(s[i]))
    ensures Count(s, p) == Count(s, q) + Count(s, r)
  {
    if s != [] {
      var t := s[..|s| - 1];
      assert forall i :: 0 <= i < |t| ==> t[i] == s[i];
      CountSplit(t, p, q, r);
    }
  }

  lemma {:induction false} CountNone<T>(s: seq<T>, p: T -> bool)
    requires forall i :: 0 <= i < |s| ==> !p(s[i])
    ensures Count(s, p) == 0
  {
    if s != [] {
      CountNone(s[..|s| - 1], p);
    }
  }

  /** The sum of the bags that the elements contribute. */
  function Gather<T, V>(s: seq<T>, f: T -> multiset<V>): multiset<V> {
    if s == [] then multiset{} else Gather(s[..|s| - 1], f) + f(s[|s| - 1])
  }

  lemma Exchange<V>(before: multiset<V>, after: multiset<V>, rest: multiset<V>, removed: multiset<V>, added: multiset<V>)
    requires after + removed == before + added
    ensures (after + rest) + removed == (before + rest) + added
  {
    assert (after + rest) + removed == (after + removed) + rest;
    assert (before + rest) + added == (before + added) + rest;
  }

  lemma {:induction false} GatherUpdate<T, V>(s: seq<T>, i: nat, x: T, f: T -> multiset<V>)
    requires i < |s|
    ensures Gather(s[i := x], f) + f(s[i]) == Gather(s, f) + f(x)
  {
    var n := |s| - 1;
    if i == n {
      assert s[i := x][..n] == s[..n];
    } else {
      assert s[i := x][..n] == s[..n][i := x];
      GatherUpdate(s[..n], i, x, f);
      Exchange(Gather(s[..n], f), Gather(s[..n][i := x], f), f(s[n]), f(s[i]), f(x));
    }
  }

  lemma {:induction false} GatherContains<T, V>(s: seq<T>, i: nat, f: T -> multiset<V>)
    requires i < |s|
    ensures f(s[i]) <= Gather(s, f)
  {
    if i < |s| - 1 {
      GatherContains(s[..|s| - 1], i, f);
    }
  }

  lemma {:induction false} GatherNothing<T, V>(s: seq<T>, f: T -> multiset<V>)
    requires forall i :: 0 <= i < |s| ==> f(s[i]) == multiset{}
    ensures Gather(s, f) == multiset{}
  {
    if s != [] {
      GatherNothing(s[..|s| - 1], f);
    }
  }
}
