/**
 sort.Slice and sort.Strings for a comparison that is a strict total order: whatever order
 the elements arrive in (Go iterates over a map in no particular order), the sorted sequence
 is the same.
 */
module Sorting {

  ghost predicate StrictTotalOrder<T(!new)>(less: (T, T) -> bool)
  {
    && (forall x :: !less(x, x))
    && (forall x, y :: less(x, y) || x == y || less(y, x))
    && (forall x, y, z :: less(x, y) && less(y, z) ==> less(x, z))
  }

  ghost predicate Ascending<T>(less: (T, T) -> bool, xs: seq<T>)
  {
    forall i, j :: 0 <= i < j < |xs| ==> less(xs[i], xs[j])
  }

  /** Some order in which a map iteration can deliver the members of s: each of them once. */
  ghost predicate Enumerates<T(!new)>(xs: seq<T>, s: set<T>)
  {
    && (forall x :: x in xs <==> x in s)
    && (forall i, j :: 0 <= i < j < |xs| ==> xs[i] != xs[j])
  }

  /** The order in which Go ranges over a set of keys: any order, each key once. */
  method Range<T(!new, ==)>(s: set<T>) returns (order: seq<T>)
    ensures Enumerates(order, s)
  {
    order := [];
    var pending := s;
    while pending != {}
      invariant pending <= s
      invariant Enumerates(order, s - pending)
      decreases pending
    {
      var k :| k in pending;
      pending := pending - {k};
      order := order + [k];
    }
  }

  /** One insertion: x goes before the first element that is not smaller. */
  function Insert<T>(less: (T, T) -> bool, x: T, xs: seq<T>): (r: seq<T>)
  {
    if xs == [] then [x]
    else if less(xs[0], x) then [xs[0]] + Insert(less, x, xs[1..])
    else [x] + xs
  }

  function Sort<T>(less: (T, T) -> bool, xs: seq<T>): (r: seq<T>)
  {
    if xs == [] then [] else Insert(less, xs[0], Sort(less, xs[1..]))
  }

  lemma {:induction false} InsertAscending<T(!new)>(less: (T, T) -> bool, x: T, xs: seq<T>)
    requires StrictTotalOrder(less) && Ascending(less, xs) && x !in xs
    ensures Ascending(less, Insert(less, x, xs))
    ensures forall y :: y in Insert(less, x, xs) <==> y == x || y in xs
  {
    if xs != [] {
      assert xs == [xs[0]] + xs[1..];
      if less(xs[0], x) {
        InsertAscending(less, x, xs[1..]);
        var rest := Insert(less, x, xs[1..]);
        forall y | y in rest ensures less(xs[0], y) {
          if y != x {
            var j :| 0 <= j < |xs[1..]| && xs[1..][j] == y;
            assert less(xs[0], xs[j + 1]);
          }
        }
        PrependAscending(less, xs[0], rest);
      } else {
        assert xs[0] in xs;
        forall y | y in xs ensures less(x, y) {
          var j :| 0 <= j < |xs| && xs[j] == y;
          assert j > 0 ==> less(xs[0], xs[j]);
        }
        PrependAscending(less, x, xs);
      }
    }
  }

  lemma PrependAscending<T(!new)>(less: (T, T) -> bool, x: T, xs: seq<T>)
    requires Ascending(less, xs) && forall y :: y in xs ==> less(x, y)
    ensures Ascending(less, [x] + xs)
  {
    var r := [x] + xs;
    forall i, j | 0 <= i < j < |r| ensures less(r[i], r[j]) {
      assert r[j] == xs[j - 1] && xs[j - 1] in xs;
      assert i > 0 ==> r[i] == xs[i - 1];
    }
  }

  lemma {:induction false} SortAscending<T(!new)>(less: (T, T) -> bool, xs: seq<T>)
    requires StrictTotalOrder(less)
    requires forall i, j :: 0 <= i < j < |xs| ==> xs[i] != xs[j]
    ensures Ascending(less, Sort(less, xs))
    ensures forall y :: y in Sort(less, xs) <==> y in xs
  {
    if xs != [] {
      SortAscending(less, xs[1..]);
      assert xs == [xs[0]] + xs[1..];
      InsertAscending(less, xs[0], Sort(less, xs[1..]));
    }
  }

  /** Two ascending sequences with the same members are equal. */
  lemma {:induction false} AscendingUnique<T(!new)>(less: (T, T) -> bool, xs: seq<T>, ys: seq<T>)
    requires StrictTotalOrder(less) && Ascending(less, xs) && Ascending(less, ys)
    requires forall x :: x in xs <==> x in ys
    ensures xs == ys
  {
    if xs == [] {
      assert forall i :: 0 <= i < |ys| ==> ys[i] in ys;
    } else {
      assert xs[0] in ys && ys != [];
      assert ys[0] in xs;
      assert xs[0] == ys[0];
      forall x ensures x in xs[1..] <==> x in ys[1..] {
        assert x in xs[1..] ==> x in xs && x != xs[0];
        assert x in ys[1..] ==> x in ys && x != ys[0];
        assert xs == [xs[0]] + xs[1..] && ys == [ys[0]] + ys[1..];
      }
      AscendingUnique(less, xs[1..], ys[1..]);
      assert xs == [xs[0]] + xs[1..] && ys == [ys[0]] + ys[1..];
    }
  }

  /** Sorting keeps the members, whatever the comparison. */
  lemma {:induction false} SortMembers<T(!new)>(less: (T, T) -> bool, xs: seq<T>)
    ensures |Sort(less, xs)| == |xs| && forall y :: y in Sort(less, xs) <==> y in xs
  {
    if xs != [] {
      SortMembers(less, xs[1..]);
      InsertMembers(less, xs[0], Sort(less, xs[1..]));
      assert xs == [xs[0]] + xs[1..];
    }
  }

  lemma {:induction false} InsertMembers<T(!new)>(less: (T, T) -> bool, x: T, xs: seq<T>)
    ensures |Insert(less, x, xs)| == |xs| + 1 && forall y :: y in Insert(less, x, xs) <==> y == x || y in xs
  {
    if xs != [] {
      assert xs == [xs[0]] + xs[1..];
      if less(xs[0], x) {
        InsertMembers(less, x, xs[1..]);
      }
    }
  }

  /** Elements told apart by f stay told apart. */
  ghost predicate Apart<T(!new), K(!new)>(f: T -> K, xs: seq<T>) { forall i, j :: 0 <= i < j < |xs| ==> f(xs[i]) != f(xs[j]) }

  lemma {:induction false} SortApart<T(!new), K(!new)>(less: (T, T) -> bool, f: T -> K, xs: seq<T>)
    requires Apart(f, xs)
    ensures Apart(f, Sort(less, xs))
  {
    if xs != [] {
      SortApart(less, f, xs[1..]);
      SortMembers(less, xs[1..]);
      InsertApart(less, f, xs[0], Sort(less, xs[1..]));
    }
  }

  lemma {:induction false} InsertApart<T(!new), K(!new)>(less: (T, T) -> bool, f: T -> K, x: T, xs: seq<T>)
    requires Apart(f, xs) && forall y :: y in xs ==> f(y) != f(x)
    ensures Apart(f, Insert(less, x, xs))
  {
    if xs != [] && less(xs[0], x) {
      InsertApart(less, f, x, xs[1..]);
      InsertMembers(less, x, xs[1..]);
      var rest := Insert(less, x, xs[1..]);
      forall y | y in rest ensures f(y) != f(xs[0]) {
        assert y == x || y in xs[1..];
      }
      assert forall j :: 0 <= j < |rest| ==> rest[j] in rest;
      assert Insert(less, x, xs) == [xs[0]] + rest;
    } else {
      assert forall j :: 0 <= j < |xs| ==> xs[j] in xs;
    }
  }
}
