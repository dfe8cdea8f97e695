/** Facts about sequences of numbers: distinctness, the set and multiset they
    hold, ascending order, and the ascending listing of a bounded set. */
module SeqFacts {

  predicate Distinct(xs: seq<int>) {
    forall i, j :: 0 <= i < j < |xs| ==> xs[i] != xs[j]
  }

  predicate Sorted(xs: seq<int>) {
    forall i, j :: 0 <= i < j < |xs| ==> xs[i] <= xs[j]
  }

  predicate StrictlyIncreasing(xs: seq<int>) {
    forall i, j :: 0 <= i < j < |xs| ==> xs[i] < xs[j]
  }

  /** The elements of xs with repetitions collapsed (`collect(toSet())`). */
  function SetOf(xs: seq<int>): set<int> {
    set x | x in xs
  }

  /** Collapsing to a set never grows the count, and keeps it exactly when
      there were no repetitions. */
  lemma {:induction false} SetOfCard(xs: seq<int>)
    ensures |SetOf(xs)| <= |xs|
    ensures |SetOf(xs)| == |xs| <==> Distinct(xs)
  {
    if |xs| > 0 {
      var init, last := xs[..|xs| - 1], xs[|xs| - 1];
      SetOfCard(init);
      assert xs == init + [last];
      assert SetOf(xs) == SetOf(init) + {last};
      if last in init {
        assert SetOf(xs) == SetOf(init);
        var i :| 0 <= i < |init| && init[i] == last;
        assert xs[i] == xs[|xs| - 1];
      } else {
        assert |SetOf(xs)| == |SetOf(init)| + 1;
        assert Distinct(xs) <==> Distinct(init);
      }
    }
  }

  /** A sequence without repetitions holds each value at most once. */
  lemma {:induction false} DistinctMultiplicity(xs: seq<int>, x: int)
    requires Distinct(xs)
    ensures multiset(xs)[x] <= 1
  {
    if |xs| > 0 {
      var init, last := xs[..|xs| - 1], xs[|xs| - 1];
      assert xs == init + [last];
      DistinctMultiplicity(init, x);
      if x == last {
        assert x !in init;
      }
    }
  }

  /** A repeated value occurs at least twice in the multiset. */
  lemma RepeatMultiplicity(xs: seq<int>, i: int, j: int)
    requires 0 <= i < j < |xs| && xs[i] == xs[j]
    ensures multiset(xs)[xs[i]] >= 2
  {
    assert xs == xs[..j] + xs[j..];
    assert xs[i] in xs[..j];
    assert xs[j] in xs[j..];
  }

  /** A permutation of a sequence without repetitions has none either. */
  lemma PermutationDistinct(xs: seq<int>, ys: seq<int>)
    requires multiset(xs) == multiset(ys) && Distinct(ys)
    ensures Distinct(xs)
  {
    forall i, j | 0 <= i < j < |xs| ensures xs[i] != xs[j] {
      if xs[i] == xs[j] {
        RepeatMultiplicity(xs, i, j);
        DistinctMultiplicity(ys, xs[i]);
      }
    }
  }

  /** Two ascending sequences holding the same values are the same sequence. */
  lemma {:induction false} StrictlyIncreasingUnique(xs: seq<int>, ys: seq<int>)
    requires StrictlyIncreasing(xs) && StrictlyIncreasing(ys)
    requires forall x :: x in xs <==> x in ys
    ensures xs == ys
  {
    assert |xs| > 0 ==> xs[0] in xs && xs[0] in ys;
    assert |ys| > 0 ==> ys[0] in ys && ys[0] in xs;
    if |xs| > 0 && |ys| > 0 {
      assert xs[0] == ys[0];
      forall x ensures x in xs[1..] <==> x in ys[1..] {
        if x in xs[1..] { assert x != xs[0]; assert x in ys; }
        if x in ys[1..] { assert x != ys[0]; assert x in xs; }
      }
      StrictlyIncreasingUnique(xs[1..], ys[1..]);
      assert xs == [xs[0]] + xs[1..] && ys == [ys[0]] + ys[1..];
    }
  }

  /** The members of s within [lo, hi], in ascending order: how a TreeSet of
      bounded numbers is iterated. */
  function AscendingWithin(s: set<int>, lo: int, hi: int): (r: seq<int>)
    ensures StrictlyIncreasing(r)
    ensures forall x :: x in r <==> x in s && lo <= x <= hi
    decreases hi - lo
  {
    if lo > hi then []
    else
      var rest := AscendingWithin(s, lo + 1, hi);
      if lo in s then
        assert forall k :: 0 <= k < |rest| ==> lo < rest[k] by {
          forall k | 0 <= k < |rest| ensures lo < rest[k] {
            assert rest[k] in rest;
          }
        }
        [lo] + rest
      else rest
  }
}
