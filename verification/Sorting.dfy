/** The stable sort of the database's and of the language's library, by insertion. */
module Sorting {
  import opened Sequences

  function Insert<T(!new)>(s: seq<T>, x: T, le: (T, T) -> bool): (r: seq<T>)
    ensures |r| == |s| + 1
    decreases |s|
  {
    if s == [] || le(s[|s| - 1], x) then s + [x] else Insert(s[..|s| - 1], x, le) + [s[|s| - 1]]
  }

  /** Equal elements keep their order. */
  function StableSort<T(!new)>(s: seq<T>, le: (T, T) -> bool): (r: seq<T>)
    ensures |r| == |s|
    decreases |s|
  {
    if s == [] then [] else Insert(StableSort(s[..|s| - 1], le), s[|s| - 1], le)
  }

  ghost predicate TotalOrder<T(!new)>(le: (T, T) -> bool) {
    && (forall x, y :: le(x, y) || le(y, x))
    && (forall x, y, z :: le(x, y) && le(y, z) ==> le(x, z))
  }

  ghost predicate Ordered<T(!new)>(s: seq<T>, le: (T, T) -> bool) {
    forall i, j :: 0 <= i < j < |s| ==> le(s[i], s[j])
  }

  lemma {:induction false} InInsert<T(!new)>(s: seq<T>, x: T, le: (T, T) -> bool)
    ensures forall y :: y in Insert(s, x, le) <==> y in s || y == x
    ensures x !in s && Distinct(s) ==> Distinct(Insert(s, x, le))
    decreases |s|
  {
    if s != [] {
      var n := |s| - 1;
      assert s == s[..n] + [s[n]];
      InInsert(s[..n], x, le);
      if x !in s && Distinct(s) {
        assert s[n] !in s[..n];
      }
    }
  }

  lemma {:induction false} InSort<T(!new)>(s: seq<T>, le: (T, T) -> bool)
    ensures forall y :: y in StableSort(s, le) <==> y in s
    ensures Distinct(s) ==> Distinct(StableSort(s, le))
    decreases |s|
  {
    if s != [] {
      var n := |s| - 1;
      assert s == s[..n] + [s[n]];
      InSort(s[..n], le);
      InInsert(StableSort(s[..n], le), s[n], le);
      assert Distinct(s) ==> s[n] !in s[..n];
    }
  }

  lemma {:induction false} InsertOrdered<T(!new)>(s: seq<T>, x: T, le: (T, T) -> bool)
    requires TotalOrder(le) && Ordered(s, le)
    ensures Ordered(Insert(s, x, le), le)
    decreases |s|
  {
    if s != [] {
      var n := |s| - 1;
      InsertOrdered(s[..n], x, le);
      if le(s[n], x) {
        forall i | 0 <= i <= n
          ensures le(s[i], x)
        {
          assert le(s[i], s[n]) || i == n;
        }
      } else {
        InInsert(s[..n], x, le);
        var r := Insert(s[..n], x, le);
        forall i | 0 <= i < |r|
          ensures le(r[i], s[n])
        {
          assert r[i] in r;
          if r[i] != x {
            var j :| 0 <= j < n && s[..n][j] == r[i];
            assert le(s[j], s[n]);
          }
        }
      }
    }
  }

  lemma {:induction false} SortOrdered<T(!new)>(s: seq<T>, le: (T, T) -> bool)
    requires TotalOrder(le)
    ensures Ordered(StableSort(s, le), le)
    decreases |s|
  {
    if s != [] {
      SortOrdered(s[..|s| - 1], le);
      InsertOrdered(StableSort(s[..|s| - 1], le), s[|s| - 1], le);
    }
  }

  /** A sorted sequence has the keys of the original. */
  lemma SortDistinctBy<T(!new), K>(s: seq<T>, le: (T, T) -> bool, key: T -> K)
    requires DistinctBy(s, key)
    ensures DistinctBy(StableSort(s, le), key)
  {
    var r := StableSort(s, le);
    InSort(s, le);
    forall i, j | 0 <= i < j < |r|
      ensures key(r[i]) != key(r[j])
    {
      assert r[i] in s && r[j] in s && r[i] != r[j];
    }
  }
}
