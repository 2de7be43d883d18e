// Counting with finite sets.
module Counting {
  // Sets that a map pairs off one to one have the same size.
  lemma {:induction false} ImageSize<S, T>(s: set<S>, f: S -> T, t: set<T>)
    requires forall x :: x in s ==> f(x) in t
    requires forall x, y :: x in s && y in s && f(x) == f(y) ==> x == y
    requires forall n :: n in t ==> exists x :: x in s && f(x) == n
    ensures |t| == |s|
  {
    if s == {} {
      assert t == {};
    } else {
      var a :| a in s;
      ImageSize(s - {a}, f, t - {f(a)});
      assert t == t - {f(a)} + {f(a)};
    }
  }

  // the numbers below n
  ghost function Range(n: nat): (s: set<int>)
    ensures |s| == n && forall x :: x in s <==> 0 <= x < n
  { if n == 0 then {} else Range(n - 1) + {n - 1} }

  lemma SubsetSize(a: set<int>, b: set<int>)
    requires a <= b && |a| == |b|
    ensures a == b
  {
    assert b == a + (b - a);
    assert |b| == |a| + |b - a|;
  }

  lemma SubsetAtMost<T>(a: set<T>, b: set<T>)
    requires a <= b
    ensures |a| <= |b|
  { assert b == a + (b - a); }

  // n numbers, of which two are missing, or all but at most one present
  lemma TwoMissing(u: set<int>, n: nat, f: int, g: int)
    requires 0 <= f < g < n && forall x :: x in u ==> 0 <= x < n && x != f && x != g
    ensures |u| <= n - 2
  {
    SubsetAtMost(u, Range(n) - {f} - {g});
    assert |Range(n) - {f}| == n - 1;
  }

  lemma OneMissing(u: set<int>, n: nat, f: int)
    requires forall x :: 0 <= x < n && x != f ==> x in u
    ensures |u| >= n - 1
  {
    SubsetAtMost(Range(n) - {f}, u);
    assert |Range(n) - {f}| >= n - 1;
  }
}
