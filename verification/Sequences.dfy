/** Facts about lists that several models share. */
module Sequences {

  function Elements<T>(xs: seq<T>): set<T> {
    set x | x in xs
  }

  /** The duplicate test of the scripts: as many distinct values as values. */
  predicate Distinct<T(==)>(xs: seq<T>) {
    |Elements(xs)| == |xs|
  }

  predicate NoRepeat<T(==)>(xs: seq<T>) {
    forall i, j :: 0 <= i < j < |xs| ==> xs[i] != xs[j]
  }

  /** The duplicate test accepts exactly the lists with no repeated entry. */
  lemma {:induction false} DistinctIffNoRepeat<T>(xs: seq<T>)
    ensures |Elements(xs)| <= |xs|
    ensures Distinct(xs) <==> NoRepeat(xs)
    decreases |xs|
  {
    if xs != [] {
      var last := |xs| - 1;
      DistinctIffNoRepeat(xs[..last]);
      assert xs == xs[..last] + [xs[last]];
      assert Elements(xs) == Elements(xs[..last]) + {xs[last]};
      if xs[last] in xs[..last] {
        assert Elements(xs) == Elements(xs[..last]);
        var k :| 0 <= k < last && xs[k] == xs[last];
      } else {
        assert |Elements(xs)| == |Elements(xs[..last])| + 1;
        assert forall i :: 0 <= i < last ==> xs[i] in xs[..last];
        assert NoRepeat(xs) <==> NoRepeat(xs[..last]);
      }
    }
  }

  lemma Assoc<T>(a: seq<T>, b: seq<T>, c: seq<T>)
    ensures a + (b + c) == (a + b) + c
  {
  }

  lemma Around<T>(ys: seq<T>, k: nat)
    requires k < |ys|
    ensures ys == ys[..k] + [ys[k]] + ys[k + 1..] && ys == ys[..k] + ([ys[k]] + ys[k + 1..])
  {
  }

  /** Taking equal elements out of two permutations leaves permutations. */
  lemma OneRemoved<T>(xs: seq<T>, i: nat, ys: seq<T>, k: nat)
    requires i < |xs| && k < |ys| && xs[i] == ys[k] && multiset(xs) == multiset(ys)
    ensures multiset(xs[..i] + xs[i + 1..]) == multiset(ys[..k] + ys[k + 1..])
  {
    Around(xs, i);
    Around(ys, k);
    assert multiset(xs[..i] + xs[i + 1..]) == multiset(xs) - multiset{xs[i]};
    assert multiset(ys[..k] + ys[k + 1..]) == multiset(ys) - multiset{ys[k]};
  }

  lemma HeadRemoved<T>(xs: seq<T>, ys: seq<T>, k: nat)
    requires xs != [] && k < |ys| && xs[0] == ys[k] && multiset(xs) == multiset(ys)
    ensures multiset(xs[1..]) == multiset(ys[..k] + ys[k + 1..])
    ensures ys == ys[..k] + ([ys[k]] + ys[k + 1..])
  {
    OneRemoved(xs, 0, ys, k);
    Around(ys, k);
    assert xs[..0] + xs[1..] == xs[1..];
  }

  lemma LastRemoved<T>(xs: seq<T>, ys: seq<T>, k: nat)
    requires xs != [] && k < |ys| && xs[|xs| - 1] == ys[k] && multiset(xs) == multiset(ys)
    ensures multiset(xs[..|xs| - 1]) == multiset(ys[..k] + ys[k + 1..])
  {
    OneRemoved(xs, |xs| - 1, ys, k);
    assert xs[..|xs| - 1] + xs[|xs|..] == xs[..|xs| - 1];
  }
}
