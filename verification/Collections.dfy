/** Sequences without repetition and the finite sets that bound them. */
module Collections {

  ghost predicate Distinct<T>(s: seq<T>) {
    forall i, j | 0 <= i < j < |s| :: s[i] != s[j]
  }

  /** In strictly ascending order, and below n. */
  ghost predicate Ascending(s: seq<nat>, n: nat) {
    (forall i | 0 <= i < |s| :: s[i] < n) && (forall i, j | 0 <= i < j < |s| :: s[i] < s[j])
  }

  lemma BelowFits(s: seq<nat>, n: nat)
    requires Distinct(s) && forall x | x in s :: x < n
    ensures |s| <= n
  {
    NumbersBelowMeaning(n);
    DistinctInSet(s, NumbersBelow(n));
  }

  function NumbersBelow(n: nat): set<nat> {
    if n == 0 then {} else NumbersBelow(n - 1) + {n - 1}
  }

  lemma {:induction false} NumbersBelowMeaning(n: nat)
    ensures |NumbersBelow(n)| == n
    ensures forall x: nat :: x in NumbersBelow(n) <==> x < n
  {
    if n > 0 {
      NumbersBelowMeaning(n - 1);
    }
  }

  lemma {:induction false} DistinctInSet<T>(s: seq<T>, bound: set<T>)
    requires Distinct(s) && forall x | x in s :: x in bound
    ensures |s| <= |bound|
    ensures (forall x | x in bound :: x in s) ==> |s| == |bound|
  {
    if s != [] {
      var x := s[0];
      assert forall y | y in s[1..] :: y != x;
      DistinctInSet(s[1..], bound - {x});
      assert |bound - {x}| == |bound| - 1;
      if forall y | y in bound :: y in s {
        forall y | y in bound - {x}
          ensures y in s[1..]
        {
        }
      }
    }
  }

  lemma DistinctConcat<T>(a: seq<T>, b: seq<T>)
    requires Distinct(a) && Distinct(b) && forall x | x in a :: x !in b
    ensures Distinct(a + b)
  {
    forall i, j | 0 <= i < j < |a + b|
      ensures (a + b)[i] != (a + b)[j]
    {
      if i < |a| <= j {
        assert a[i] in a && b[j - |a|] in b;
      }
    }
  }

  lemma {:induction false} SubsetSize<T>(small: set<T>, large: set<T>)
    requires small <= large
    ensures |small| <= |large|
  {
    assert large == small + (large - small);
  }
}
