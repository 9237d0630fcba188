/** Options, and filtering of sequences in the order a loop that appends would build them. */
module Sequences {

  datatype Option<+T> = None | Some(value: T)

  function Filter<T>(s: seq<T>, p: T -> bool): (r: seq<T>)
    ensures |r| <= |s|
  {
    if s == [] then []
    else
      var n := |s| - 1;
      Filter(s[..n], p) + if p(s[n]) then [s[n]] else []
  }

  lemma {:induction false} InFilter<T>(s: seq<T>, p: T -> bool, x: T)
    ensures x in Filter(s, p) <==> x in s && p(x)
  {
    if s != [] {
      var n := |s| - 1;
      InFilter(s[..n], p, x);
      assert s == s[..n] + [s[n]];
    }
  }

  lemma {:induction false} FilterAppend<T>(s: seq<T>, t: seq<T>, p: T -> bool)
    ensures Filter(s + t, p) == Filter(s, p) + Filter(t, p)
  {
    if t == [] {
      assert s + t == s;
    } else {
      var n := |t| - 1;
      assert (s + t)[..|s| + n] == s + t[..n];
      FilterAppend(s, t[..n], p);
    }
  }

  /** One more step of a loop over `s`. */
  lemma FilterStep<T>(s: seq<T>, i: nat, p: T -> bool)
    requires i < |s|
    ensures Filter(s[..i + 1], p) == Filter(s[..i], p) + if p(s[i]) then [s[i]] else []
  {
    assert s[..i + 1][..i] == s[..i];
  }

  /** `at` places the elements of `r` in `s` from left to right. */
  ghost predicate Embeds<T>(r: seq<T>, s: seq<T>, at: seq<nat>) {
    && |at| == |r|
    && (forall i :: 0 <= i < |at| ==> at[i] < |s| && s[at[i]] == r[i])
    && forall i, j :: 0 <= i < j < |at| ==> at[i] < at[j]
  }

  /** Filtering keeps the order. */
  lemma {:induction false} FilterEmbeds<T>(s: seq<T>, p: T -> bool) returns (at: seq<nat>)
    ensures Embeds(Filter(s, p), s, at)
  {
    if s == [] {
      at := [];
    } else {
      var n := |s| - 1;
      at := FilterEmbeds(s[..n], p);
      assert forall i :: 0 <= i < n ==> s[..n][i] == s[i];
      if p(s[n]) {
        at := at + [n];
      }
    }
  }

  ghost predicate Distinct<T>(s: seq<T>) {
    forall i, j :: 0 <= i < j < |s| ==> s[i] != s[j]
  }

  /** Keys of the elements of a sequence, pairwise different. */
  ghost predicate DistinctBy<T, K>(s: seq<T>, key: T -> K) {
    forall i, j :: 0 <= i < j < |s| ==> key(s[i]) != key(s[j])
  }

  lemma FilterDistinctBy<T, K>(s: seq<T>, p: T -> bool, key: T -> K)
    requires DistinctBy(s, key)
    ensures DistinctBy(Filter(s, p), key)
  {
    var at := FilterEmbeds(s, p);
    var r := Filter(s, p);
    forall i, j | 0 <= i < j < |r|
      ensures key(r[i]) != key(r[j])
    {
      assert s[at[i]] == r[i] && s[at[j]] == r[j];
    }
  }

  /** A filter and its complement split a sequence, keeping both orders. */
  lemma {:induction false} FilterSplits<T>(s: seq<T>, p: T -> bool, q: T -> bool)
    requires forall x <- s :: q(x) == !p(x)
    ensures |Filter(s, p)| + |Filter(s, q)| == |s|
    ensures multiset(Filter(s, p)) + multiset(Filter(s, q)) == multiset(s)
  {
    if s != [] {
      var n := |s| - 1;
      FilterSplits(s[..n], p, q);
      assert s == s[..n] + [s[n]];
      SplitStep(Filter(s[..n], p), Filter(s[..n], q), s[..n], s[n], p(s[n]), q(s[n]));
    }
  }

  lemma SplitStep<T>(a: seq<T>, b: seq<T>, s: seq<T>, x: T, inA: bool, inB: bool)
    requires inA == !inB && |a| + |b| == |s| && multiset(a) + multiset(b) == multiset(s)
    ensures multiset(a + if inA then [x] else []) + multiset(b + if inB then [x] else []) == multiset(s + [x])
  {
    assert a + [] == a && b + [] == b;
  }

  function Count<T>(s: seq<T>, p: T -> bool): nat {
    |Filter(s, p)|
  }

  lemma {:induction false} FilterSame<T>(s: seq<T>, p: T -> bool, q: T -> bool)
    requires forall x <- s :: p(x) == q(x)
    ensures Filter(s, p) == Filter(s, q)
  {
    if s != [] {
      FilterSame(s[..|s| - 1], p, q);
      assert s[|s| - 1] in s;
    }
  }

  lemma {:induction false} FilterAll<T>(s: seq<T>, p: T -> bool)
    requires forall x <- s :: p(x)
    ensures Filter(s, p) == s
  {
    if s != [] {
      FilterAll(s[..|s| - 1], p);
      assert s[|s| - 1] in s;
    }
  }

  /** Counting sees only where the predicate holds. */
  lemma {:induction false} CountPointwise<T>(s: seq<T>, t: seq<T>, p: T -> bool, q: T -> bool)
    requires |s| == |t| && forall k :: 0 <= k < |s| ==> p(s[k]) == q(t[k])
    ensures Count(s, p) == Count(t, q)
  {
    if s != [] {
      CountPointwise(s[..|s| - 1], t[..|s| - 1], p, q);
    }
  }

  lemma {:induction false} CountAtMost<T>(s: seq<T>, t: seq<T>, p: T -> bool, q: T -> bool)
    requires |s| == |t| && forall k :: 0 <= k < |s| ==> p(s[k]) ==> q(t[k])
    ensures Count(s, p) <= Count(t, q)
  {
    if s != [] {
      CountAtMost(s[..|s| - 1], t[..|s| - 1], p, q);
    }
  }

  /** Counting in a filtered sequence is counting with both predicates. */
  lemma {:induction false} CountFilter<T>(s: seq<T>, p: T -> bool, q: T -> bool, both: T -> bool)
    requires forall x <- s :: both(x) == (p(x) && q(x))
    ensures Count(Filter(s, p), q) == Count(s, both)
  {
    if s != [] {
      var n := |s| - 1;
      CountFilter(s[..n], p, q, both);
      assert s[n] in s;
      FilterAppend(Filter(s[..n], p), if p(s[n]) then [s[n]] else [], q);
    }
  }

  /** How often `x` occurs. */
  function Times<T(==)>(s: seq<T>, x: T): nat {
    if s == [] then 0 else (if s[0] == x then 1 else 0) + Times(s[1..], x)
  }

  lemma {:induction false} TimesAppend<T>(a: seq<T>, b: seq<T>, x: T)
    ensures Times(a + b, x) == Times(a, x) + Times(b, x)
  {
    if a == [] {
      assert a + b == b;
    } else {
      assert (a + b)[1..] == a[1..] + b;
      TimesAppend(a[1..], b, x);
    }
  }

  lemma {:induction false} InTimes<T>(s: seq<T>, x: T)
    ensures x in s <==> Times(s, x) > 0
  {
    if s != [] {
      InTimes(s[1..], x);
      assert s == [s[0]] + s[1..];
    }
  }

  function Min(a: int, b: int): int { if a < b then a else b }

  function Max(a: int, b: int): int { if a < b then b else a }

  function Elements<T>(s: seq<T>): set<T> {
    set x <- s
  }

  lemma {:induction false} ElementsOfDistinct<T>(s: seq<T>)
    requires Distinct(s)
    ensures |Elements(s)| == |s|
  {
    if s != [] {
      var n := |s| - 1;
      ElementsOfDistinct(s[..n]);
      assert Elements(s) == Elements(s[..n]) + {s[n]};
    }
  }

  lemma {:induction false} FewElements<T>(s: seq<T>)
    ensures |Elements(s)| <= |s|
  {
    if s != [] {
      var n := |s| - 1;
      FewElements(s[..n]);
      assert Elements(s) == Elements(s[..n]) + {s[n]};
    }
  }

  lemma SubsetSize<T>(a: set<T>, b: set<T>)
    requires a <= b
    ensures |a| <= |b|
  {
    assert b == a + (b - a);
  }

  /** Distinct elements drawn from a sequence are no more than the sequence is long. */
  lemma DistinctBound<T>(s: seq<T>, t: seq<T>)
    requires Distinct(s) && forall x <- s :: x in t
    ensures |s| <= |t|
  {
    ElementsOfDistinct(s);
    FewElements(t);
    SubsetSize(Elements(s), Elements(t));
  }
}
