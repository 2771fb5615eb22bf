/** Slicing facts that proofs by recursion on a sequence need. */
module Sequences {

  ghost predicate Distinct<T>(s: seq<T>) { forall i, j :: 0 <= i < j < |s| ==> s[i] != s[j] }

  /** Strictly increasing indices below n. */
  ghost predicate Increasing(s: seq<int>, n: int)
  {
    (forall i :: 0 <= i < |s| ==> 0 <= s[i] < n) && forall i, j :: 0 <= i < j < |s| ==> s[i] < s[j]
  }

  lemma IncreasingStep(s: seq<int>, n: nat)
    requires Increasing(s, n)
    ensures Increasing(s, n + 1) && Increasing(s + [n], n + 1)
  {
  }

  lemma TailOfTake<T>(s: seq<T>, n: nat)
    requires n < |s|
    ensures s[..n + 1][1..] == s[1..][..n]
  {
  }

  lemma TakeSnoc<T>(s: seq<T>, n: nat)
    requires n < |s|
    ensures s[..n + 1] == s[..n] + [s[n]]
  {
  }

  lemma HeadTail<T>(s: seq<T>)
    requires s != []
    ensures s == [s[0]] + s[1..]
  {
  }

  lemma TailOfConcat<T>(a: seq<T>, b: seq<T>)
    requires a != []
    ensures (a + b)[1..] == a[1..] + b
  {
  }

  /** Taking one element off the pending part of a set adds it to the visited part. */
  lemma Visit<T>(all: set<T>, pending: set<T>, x: T)
    requires pending <= all && x in pending
    ensures all - (pending - {x}) == (all - pending) + {x}
    ensures all - all == {} && all - {} == all
  {
  }

  /** a is b with some elements left out. */
  ghost predicate Subsequence<T(!new)>(a: seq<T>, b: seq<T>)
  {
    a == [] || (b != [] && (Subsequence(a, b[..|b| - 1]) || (a[|a| - 1] == b[|b| - 1] && Subsequence(a[..|a| - 1], b[..|b| - 1]))))
  }

  lemma {:induction false} BothGrow<T(!new)>(a: seq<T>, b: seq<T>, more: seq<T>)
    requires Subsequence(a, b)
    ensures Subsequence(a + more, b + more)
  {
    if more == [] {
      assert a + more == a && b + more == b;
    } else {
      var n := |more| - 1;
      BothGrow(a, b, more[..n]);
      assert (a + more)[..|a| + n] == a + more[..n] && (b + more)[..|b| + n] == b + more[..n];
    }
  }

  lemma {:induction false} OneGrows<T(!new)>(a: seq<T>, b: seq<T>, more: seq<T>)
    requires Subsequence(a, b)
    ensures Subsequence(a, b + more)
  {
    if more == [] {
      assert b + more == b;
    } else {
      var n := |more| - 1;
      OneGrows(a, b, more[..n]);
      assert (b + more)[..|b| + n] == b + more[..n];
    }
  }

  lemma KeepOrDrop<T(!new)>(a: seq<T>, b: seq<T>, x: T, keep: bool)
    requires Subsequence(a, b)
    ensures Subsequence(a + if keep then [x] else [], b + [x])
  {
    BothGrow(a, b, [x]);
    OneGrows(a, b, [x]);
    assert a + [] == a;
  }

  lemma {:induction false} SubsequenceOfItself<T(!new)>(a: seq<T>)
    ensures Subsequence(a, a)
  {
    if a != [] {
      SubsequenceOfItself(a[..|a| - 1]);
    }
  }

  lemma HasFirst<T(!new)>(s: seq<T>)
    requires s != []
    ensures exists i :: 0 <= i < |s| && s[i] in s
  {
    assert s[0] in s;
  }
}
