/** Sums of a weight over a sequence, and how they react to appending, updating and removing an
    element. Counting is summing a weight that is 0 or 1. */
module Sums {

  ghost function Sum<T>(s: seq<T>, f: T -> nat): nat {
    if s == [] then 0 else Sum(s[..|s| - 1], f) + f(s[|s| - 1])
  }

  lemma SumAppend<T>(s: seq<T>, x: T, f: T -> nat)
    ensures Sum(s + [x], f) == Sum(s, f) + f(x)
  {
    assert (s + [x])[..|s|] == s;
  }

  lemma {:induction false} SumUpdate<T>(s: seq<T>, i: nat, x: T, f: T -> nat)
    requires i < |s|
    ensures Sum(s[i := x], f) + f(s[i]) == Sum(s, f) + f(x)
  {
    var n := |s| - 1;
    if i == n {
      assert s[i := x][..n] == s[..n];
    } else {
      assert s[i := x][..n] == s[..n][i := x];
      SumUpdate(s[..n], i, x, f);
    }
  }

  lemma {:induction false} SumRemove<T>(s: seq<T>, i: nat, f: T -> nat)
    requires i < |s|
    ensures Sum(s[..i] + s[i + 1..], f) + f(s[i]) == Sum(s, f)
  {
    var n := |s| - 1;
    if i == n {
      assert s[..i] + s[i + 1..] == s[..n];
    } else {
      SumRemove(s[..n], i, f);
      var t := s[..n][..i] + s[..n][i + 1..];
      assert s[..i] + s[i + 1..] == t + [s[n]];
      SumAppend(t, s[n], f);
    }
  }

  lemma {:induction false} SumMember<T>(s: seq<T>, i: nat, f: T -> nat)
    requires i < |s|
    ensures f(s[i]) <= Sum(s, f)
  {
    SumRemove(s, i, f);
  }

  lemma {:induction false} SumTwoMembers<T>(s: seq<T>, i: nat, j: nat, f: T -> nat)
    requires i < |s| && j < |s| && i != j
    ensures f(s[i]) + f(s[j]) <= Sum(s, f)
  {
    SumRemove(s, i, f);
    var t := s[..i] + s[i + 1..];
    var k := if j < i then j else j - 1;
    assert t[k] == s[j];
    SumMember(t, k, f);
  }

  lemma {:induction false} SumWitness<T>(s: seq<T>, f: T -> nat) returns (i: nat)
    requires 0 < Sum(s, f)
    ensures i < |s| && 0 < f(s[i])
  {
    var n := |s| - 1;
    if 0 < f(s[n]) {
      i := n;
    } else {
      i := SumWitness(s[..n], f);
    }
  }

  lemma {:induction false} SumMonotone<T>(s: seq<T>, f: T -> nat, g: T -> nat)
    requires forall i | 0 <= i < |s| :: f(s[i]) <= g(s[i])
    ensures Sum(s, f) <= Sum(s, g)
  {
    if s != [] {
      var n := |s| - 1;
      forall i | 0 <= i < n ensures f(s[..n][i]) <= g(s[..n][i]) { assert s[..n][i] == s[i]; }
      SumMonotone(s[..n], f, g);
    }
  }
}
