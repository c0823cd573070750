/** Sums over sequences, and sequences without repetition.  Every conservation law of the
    project is an equation between two of these sums. */
module Sums {

  function SumBy<T>(s: seq<T>, f: T -> int): int {
    if s == [] then 0 else SumBy(s[..|s| - 1], f) + f(s[|s| - 1])
  }

  ghost predicate Distinct<T>(s: seq<T>) {
    forall i, j :: 0 <= i < j < |s| ==> s[i] != s[j]
  }

  lemma SumAppend<T>(s: seq<T>, x: T, f: T -> int)
    ensures SumBy(s + [x], f) == SumBy(s, f) + f(x)
  {
    assert (s + [x])[..|s|] == s;
  }

  lemma {:induction false} SumConcat<T>(s: seq<T>, t: seq<T>, f: T -> int)
    ensures SumBy(s + t, f) == SumBy(s, f) + SumBy(t, f)
  {
    if t == [] {
      assert s + t == s;
    } else {
      var u := t[..|t| - 1];
      assert s + t == (s + u) + [t[|t| - 1]];
      SumAppend(s + u, t[|t| - 1], f);
      SumConcat(s, u, f);
    }
  }

  lemma SumPrefix<T>(s: seq<T>, i: nat, f: T -> int)
    requires i < |s|
    ensures SumBy(s[..i + 1], f) == SumBy(s[..i], f) + f(s[i])
  {
    assert s[..i + 1] == s[..i] + [s[i]];
    SumAppend(s[..i], s[i], f);
  }

  lemma {:induction false} SumCongruent<T, U>(s: seq<T>, f: T -> int, t: seq<U>, g: U -> int)
    requires |s| == |t| && forall i :: 0 <= i < |s| ==> f(s[i]) == g(t[i])
    ensures SumBy(s, f) == SumBy(t, g)
  {
    if s == [] {
    } else {
      SumCongruent(s[..|s| - 1], f, t[..|t| - 1], g);
    }
  }

  lemma {:induction false} SumAtMost<T>(s: seq<T>, f: T -> int, g: T -> int)
    requires forall x :: x in s ==> f(x) <= g(x)
    ensures SumBy(s, f) <= SumBy(s, g)
  {
    if s == [] {
    } else {
      SumAtMost(s[..|s| - 1], f, g);
    }
  }

  lemma {:induction false} SumZero<T>(s: seq<T>, f: T -> int)
    requires forall x :: x in s ==> f(x) == 0
    ensures SumBy(s, f) == 0
  {
    if s == [] {
    } else {
      SumZero(s[..|s| - 1], f);
    }
  }

  /** The order of the summands is irrelevant. */
  lemma {:induction false} SumPermuted<T>(s: seq<T>, t: seq<T>, f: T -> int)
    requires multiset(s) == multiset(t)
    ensures SumBy(s, f) == SumBy(t, f)
  {
    if s == [] {
      assert |t| == |multiset(t)| == |multiset(s)| == 0;
    } else {
      var x := s[|s| - 1];
      assert x in multiset(s);
      var i :| 0 <= i < |t| && t[i] == x;
      var u, v := t[..i], t[i + 1..];
      assert t == u + [x] + v;
      assert s == s[..|s| - 1] + [x];
      assert multiset(s[..|s| - 1]) == multiset(s) - multiset{x} == multiset(u + v);
      SumPermuted(s[..|s| - 1], u + v, f);
      SumConcat(u, v, f);
      SumConcat(u + [x], v, f);
      SumAppend(u, x, f);
    }
  }

  /** Two repetition-free sequences with the same elements are permutations of each other. */
  lemma DistinctSameElements<T>(s: seq<T>, t: seq<T>)
    requires Distinct(s) && Distinct(t)
    requires forall x :: x in s <==> x in t
    ensures multiset(s) == multiset(t)
  {
    forall x
      ensures multiset(s)[x] == multiset(t)[x]
    {
      DistinctCount(s, x);
      DistinctCount(t, x);
    }
  }

  lemma {:induction false} DistinctCount<T>(s: seq<T>, x: T)
    requires Distinct(s)
    ensures multiset(s)[x] == if x in s then 1 else 0
  {
    if s == [] {
    } else {
      assert s == s[..|s| - 1] + [s[|s| - 1]];
      DistinctCount(s[..|s| - 1], x);
    }
  }

  lemma NoElements<T>(s: seq<T>)
    ensures s == [] <==> forall x :: x !in s
  {
    assert s != [] ==> s[0] in s;
  }

  lemma DistinctConcat<T>(s: seq<T>, t: seq<T>)
    ensures Distinct(s + t) <==>
            Distinct(s) && Distinct(t) && forall x :: x in s ==> x !in t
  {
    var u := s + t;
    if Distinct(u) {
      forall i, j | 0 <= i < j < |s|
        ensures s[i] != s[j]
      {
        assert u[i] == s[i] && u[j] == s[j];
      }
      forall i, j | 0 <= i < j < |t|
        ensures t[i] != t[j]
      {
        assert u[|s| + i] == t[i] && u[|s| + j] == t[j];
      }
      forall i, j | 0 <= i < |s| && 0 <= j < |t|
        ensures s[i] != t[j]
      {
        assert u[i] == s[i] && u[|s| + j] == t[j];
      }
    } else {
      var i, j :| 0 <= i < j < |u| && u[i] == u[j];
      if i < |s| <= j {
        assert s[i] in s && t[j - |s|] in t;
      } else if |s| <= i {
        assert t[i - |s|] == t[j - |s|];
      } else {
        assert s[i] == s[j];
      }
    }
  }
}
