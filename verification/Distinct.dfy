/** Sequences without repetition, and the pigeonhole principle for them. */
module Distinct {
  predicate AllDifferent<T(==)>(s: seq<T>) {
    forall i, j :: 0 <= i < j < |s| ==> s[i] != s[j]
  }

  function Elements<T(==)>(s: seq<T>): set<T> {
    set x | x in s
  }

  lemma NoElements<T>(s: seq<T>)
    ensures Elements(s) == {} <==> s == []
  {
    if s != [] {
      assert s[0] in Elements(s);
    }
  }

  lemma {:induction false} SizeOfElements<T>(s: seq<T>)
    requires AllDifferent(s)
    ensures |Elements(s)| == |s|
  {
    if s != [] {
      var n := |s| - 1;
      SizeOfElements(s[..n]);
      assert s[n] !in s[..n];
      assert Elements(s) == Elements(s[..n]) + {s[n]};
    }
  }

  lemma {:induction false} SizeBelow(a: set<nat>, n: nat)
    requires forall x :: x in a ==> x < n
    ensures |a| <= n
  {
    if n == 0 {
      assert a == {};
    } else {
      SizeBelow(a - {n - 1}, n - 1);
      if n - 1 in a {
        assert a == (a - {n - 1}) + {n - 1};
      } else {
        assert a - {n - 1} == a;
      }
    }
  }

  lemma {:induction false} SizeAbove(a: set<nat>, n: nat)
    requires forall x: nat :: x < n ==> x in a
    ensures |a| >= n
  {
    if n > 0 {
      SizeAbove(a - {n - 1}, n - 1);
      assert a == (a - {n - 1}) + {n - 1};
    }
  }

  /** Different numbers below n: at most n of them. */
  lemma Pigeonhole(s: seq<nat>, n: nat)
    requires AllDifferent(s) && forall x :: x in s ==> x < n
    ensures |s| <= n
  {
    SizeOfElements(s);
    SizeBelow(Elements(s), n);
  }
}
