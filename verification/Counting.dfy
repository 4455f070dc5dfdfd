/** Facts about quotients and finite sets that several modules count with. */
module Counting {

  lemma Multiples(n: nat, small: int, large: int)
    requires small < large
    ensures n * small + n <= n * large
  {
    assert n * large == n * small + n * (large - small);
    assert n * (large - small - 1) >= 0;
  }

  lemma QuotientIs(d: nat, n: nat, k: int, r: nat)
    requires n > 0 && r < n && d == n * k + r
    ensures d / n == k && d % n == r
  {
    var k', r' := d / n, d % n;
    if k > k' { Multiples(n, k', k); }
    if k < k' { Multiples(n, k, k'); }
  }

  lemma MultiplesDiffer(a: nat, b: nat, n: nat)
    requires n > 0 && b <= a && a % n == 0 && b % n == 0
    ensures (a - b) % n == 0
  {
    assert a - b == n * (a / n - b / n);
    QuotientIs(a - b, n, a / n - b / n, 0);
  }

  lemma MultiplesAdd(a: nat, b: nat, n: nat)
    requires n > 0 && a % n == 0 && b % n == 0
    ensures (a + b) % n == 0
  {
    assert a + b == n * (a / n + b / n);
    QuotientIs(a + b, n, a / n + b / n, 0);
  }

  lemma NextQuotient(d: nat, n: nat)
    requires n > 0
    ensures (d + 1) / n == d / n + if (d + 1) % n == 0 then 1 else 0
    ensures d % n + 1 < n ==> (d + 1) % n == d % n + 1
    ensures d % n + 1 >= n ==> (d + 1) % n == 0
  {
    var k, r := d / n, d % n;
    assert d == n * k + r;
    if r == n - 1 {
      assert d + 1 == n * (k + 1);
      QuotientIs(d + 1, n, k + 1, 0);
    } else {
      QuotientIs(d + 1, n, k, r + 1);
    }
  }

  lemma {:induction false} SubsetIsSmaller<T>(a: set<T>, b: set<T>)
    requires a <= b
    ensures |a| <= |b|
  {
    if a != {} {
      var x :| x in a;
      SubsetIsSmaller(a - {x}, b - {x});
    }
  }

  /** A set of numbers below n has at most n members, and fewer when one number is left out. */
  lemma {:induction false} NumbersBelow(s: set<nat>, n: nat)
    requires forall t | t in s :: t < n
    ensures |s| <= n
    ensures (exists t :: 0 <= t < n && t !in s) ==> |s| < n
  {
    if n == 0 {
      assert s == {};
    } else {
      NumbersBelow(s - {n - 1}, n - 1);
      if n - 1 in s { assert |s| == |s - {n - 1}| + 1; } else { assert s - {n - 1} == s; }
    }
  }

  /** Indexes whose elements are distinct members of a set are no more than the set's members. */
  lemma {:induction false} InjectionIsSmaller<T>(indexes: set<nat>, s: seq<T>, values: set<T>)
    requires forall p | p in indexes :: p < |s| && s[p] in values
    requires forall p, r | p in indexes && r in indexes && p != r :: s[p] != s[r]
    ensures |indexes| <= |values|
  {
    if indexes != {} {
      var p :| p in indexes;
      InjectionIsSmaller(indexes - {p}, s, values - {s[p]});
    }
  }

  function Above(low: nat, high: nat): (s: set<nat>)
    requires low <= high
    ensures forall k :: k in s <==> low < k <= high
    ensures |s| == high - low
  {
    if low == high then {} else Above(low, high - 1) + {high}
  }

  function Interval(low: nat, high: nat): (s: set<nat>)
    requires low <= high
    ensures forall p :: p in s <==> low <= p < high
    ensures |s| == high - low
  {
    if low == high then {} else Interval(low, high - 1) + {high - 1}
  }
}
