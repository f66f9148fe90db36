/** Sums of integer sequences: window sums and per-thread sample totals. */
module Sums {

  function Sum(s: seq<int>): int
  {
    if s == [] then 0 else s[0] + Sum(s[1..])
  }

  lemma SumSingleton(x: int)
    ensures Sum([x]) == x
  {
    assert [x][1..] == [];
  }

  /** A sum is bounded by its length times any upper bound of its elements. */
  lemma {:induction false} SumAtMost(s: seq<int>, m: int)
    requires forall k :: 0 <= k < |s| ==> s[k] <= m
    ensures Sum(s) <= |s| * m
  {
    if s != [] {
      SumAtMost(s[1..], m);
    }
  }

  /** The sum of `|s|` copies of `c`. */
  lemma {:induction false} SumConstant(s: seq<int>, c: int)
    requires forall k :: 0 <= k < |s| ==> s[k] == c
    ensures Sum(s) == |s| * c
  {
    if s != [] {
      SumConstant(s[1..], c);
    }
  }
}
