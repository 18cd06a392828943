/**
 * Sums over sequences, used as step counters and permit counters: appending an element, and replacing one, changes a
 * sum by the weights of the elements concerned.
 */
module Counting {
  function Total<T>(s: seq<T>, weight: T -> nat): nat {
    if s == [] then 0 else Total(s[..|s| - 1], weight) + weight(s[|s| - 1])
  }

  lemma TotalOfAppend<T>(s: seq<T>, x: T, weight: T -> nat)
    ensures Total(s + [x], weight) == Total(s, weight) + weight(x)
  {
    assert (s + [x])[..|s|] == s;
  }

  lemma {:induction false} TotalOfUpdate<T>(s: seq<T>, i: nat, x: T, weight: T -> nat)
    requires i < |s|
    ensures Total(s[i := x], weight) == Total(s, weight) - weight(s[i]) + weight(x)
  {
    var n := |s| - 1;
    if i == n {
      assert s[i := x][..n] == s[..n];
    } else {
      assert s[i := x][..n] == s[..n][i := x];
      TotalOfUpdate(s[..n], i, x, weight);
    }
  }

  lemma {:induction false} TotalIsZero<T>(s: seq<T>, weight: T -> nat)
    requires forall x | x in s :: weight(x) == 0
    ensures Total(s, weight) == 0
  {
    if s != [] { TotalIsZero(s[..|s| - 1], weight); }
  }
}
