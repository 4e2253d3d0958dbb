/** Bytes, Option and Result, and the list predicates several components share. */
module Wrappers {

  newtype byte = x: int | 0 <= x < 256

  type Bytes = seq<byte>

  datatype Option<+T> = None | Some(value: T)

  datatype Result<+T, +E> = Success(value: T) | Failure(error: E)

  ghost predicate Distinct<T(!new)>(s: seq<T>) {
    forall i, j :: 0 <= i < j < |s| ==> s[i] != s[j]
  }

  ghost predicate Below(s: seq<nat>, n: nat) {
    forall k :: 0 <= k < |s| ==> s[k] < n
  }

  ghost function Elements<T(!new)>(s: seq<T>): set<T> {
    set x | x in s
  }

  ghost function UpTo(n: nat): (r: set<nat>)
    ensures |r| == n && forall i: nat :: i in r <==> i < n
  {
    if n == 0 then {} else UpTo(n - 1) + {n - 1}
  }

  lemma {:induction false} DistinctSize<T(!new)>(s: seq<T>)
    requires Distinct(s)
    ensures |Elements(s)| == |s|
  {
    if s != [] {
      var init, last := s[..|s| - 1], s[|s| - 1];
      DistinctSize(init);
      assert s == init + [last];
      assert Elements(s) == Elements(init) + {last};
    }
  }

  /** A list of distinct numbers below `n` has at most `n` entries, and exactly `n` only
      when it holds all of them. */
  lemma DistinctBelow(s: seq<nat>, n: nat)
    requires Distinct(s) && Below(s, n)
    ensures |s| <= n
    ensures |s| == n <==> forall i: nat :: i < n ==> i in s
  {
    DistinctSize(s);
    SubsetSize(Elements(s), UpTo(n));
    if |s| == n {
      forall i: nat | i < n ensures i in s {
        assert i in Elements(s);
      }
    }
    if forall i: nat :: i < n ==> i in s {
      SubsetSize(UpTo(n), Elements(s));
    }
  }

  lemma SubsetSize<T>(a: set<T>, b: set<T>)
    requires a <= b
    ensures |a| <= |b|
    ensures |a| == |b| ==> a == b
  {
    assert b == a + (b - a);
    assert |b| == |a| + |b - a|;
  }

  /** More than `n` numbers below `n`: two of them are equal. */
  lemma Pigeonhole(s: seq<nat>, n: nat) returns (a: nat, b: nat)
    requires Below(s, n) && |s| > n
    ensures a < b < |s| && s[a] == s[b]
  {
    if Distinct(s) {
      DistinctBelow(s, n);
    }
    a, b :| 0 <= a < b < |s| && s[a] == s[b];
  }

  /** A number above all of `s`. */
  lemma {:induction false} NewId(s: set<nat>) returns (n: nat)
    ensures n !in s && forall x :: x in s ==> x < n
    decreases |s|
  {
    if s == {} {
      n := 0;
    } else {
      var x :| x in s;
      n := NewId(s - {x});
      assert forall y :: y in s ==> y == x || y in s - {x};
      if n <= x {
        n := x + 1;
      }
    }
  }
}
