/** Facts about filtered sequences, sums over sets and enumerations used by several modules. */
module Sequences {

  function Filter<T>(s: seq<T>, keep: T -> bool): seq<T> {
    if s == [] then []
    else if keep(s[0]) then [s[0]] + Filter(s[1..], keep)
    else Filter(s[1..], keep)
  }

  lemma {:induction false} FilterConcat<T>(a: seq<T>, b: seq<T>, keep: T -> bool)
    ensures Filter(a + b, keep) == Filter(a, keep) + Filter(b, keep)
  {
    if a == [] {
      assert a + b == b;
    } else {
      assert (a + b)[1..] == a[1..] + b;
      FilterConcat(a[1..], b, keep);
    }
  }

  /** Extending a prefix by one element extends its filtered image by that element, if kept. */
  lemma FilterNext<T>(s: seq<T>, n: nat, keep: T -> bool)
    requires n < |s|
    ensures Filter(s[..n + 1], keep) == Filter(s[..n], keep) + (if keep(s[n]) then [s[n]] else [])
  {
    assert s[..n + 1] == s[..n] + [s[n]];
    FilterConcat(s[..n], [s[n]], keep);
  }

  /** Filtering keeps the multiplicity of what it keeps and nothing else. */
  lemma {:induction false} FilterMultiplicity<T>(s: seq<T>, keep: T -> bool, x: T)
    ensures multiset(Filter(s, keep))[x] == if keep(x) then multiset(s)[x] else 0
  {
    if s != [] {
      assert s == [s[0]] + s[1..];
      FilterMultiplicity(s[1..], keep, x);
    }
  }

  /** Permutations have permuted filter results. */
  lemma {:induction false} FilterPermutation<T>(a: seq<T>, b: seq<T>, keep: T -> bool)
    requires multiset(a) == multiset(b)
    ensures multiset(Filter(a, keep)) == multiset(Filter(b, keep))
  {
    if a == [] {
      assert |multiset(b)| == 0;
    } else {
      var left, right := SplitAround(a, b);
      FilterPermutation(a[1..], left + right, keep);
      FilterAround(left, a[0], right, keep);
    }
  }

  lemma SplitAround<T>(a: seq<T>, b: seq<T>) returns (left: seq<T>, right: seq<T>)
    requires a != [] && multiset(a) == multiset(b)
    ensures b == left + [a[0]] + right
    ensures multiset(a[1..]) == multiset(left + right)
  {
    assert a[0] in multiset(b);
    var j :| 0 <= j < |b| && b[j] == a[0];
    left, right := b[..j], b[j + 1..];
    assert b == left + [a[0]] + right;
    assert a == [a[0]] + a[1..];
    RemoveOne(a[1..], left, a[0], right);
  }

  lemma RemoveOne<T>(rest: seq<T>, left: seq<T>, x: T, right: seq<T>)
    requires multiset([x] + rest) == multiset(left + [x] + right)
    ensures multiset(rest) == multiset(left + right)
  {
    calc {
      multiset(rest);
      multiset([x] + rest) - multiset{x};
      multiset(left + [x] + right) - multiset{x};
      multiset(left + right);
    }
  }

  lemma FilterAround<T>(left: seq<T>, x: T, right: seq<T>, keep: T -> bool)
    ensures multiset(Filter(left + [x] + right, keep)) ==
            multiset(Filter(left + right, keep)) + (if keep(x) then multiset{x} else multiset{})
  {
    FilterConcat(left, right, keep);
    FilterConcat(left + [x], right, keep);
    FilterConcat(left, [x], keep);
    FilterOne(x, keep);
    hide Filter;
  }

  lemma FilterOne<T>(x: T, keep: T -> bool)
    ensures Filter([x], keep) == if keep(x) then [x] else []
  {
  }

  /** A coarse filter that keeps everything the fine one keeps does not change the fine result. */
  lemma {:induction false} FilterThroughCoarser<T>(s: seq<T>, coarse: T -> bool, fine: T -> bool)
    requires forall i :: 0 <= i < |s| && fine(s[i]) ==> coarse(s[i])
    ensures Filter(Filter(s, coarse), fine) == Filter(s, fine)
  {
    if s != [] {
      FilterThroughCoarser(s[1..], coarse, fine);
    }
  }

  /** What is kept was there, and satisfies the test. */
  lemma {:induction false} FilterMembers<T>(s: seq<T>, keep: T -> bool, x: T)
    ensures x in Filter(s, keep) <==> x in s && keep(x)
  {
    if s != [] {
      FilterMembers(s[1..], keep, x);
      assert s == [s[0]] + s[1..];
    }
  }

  lemma {:induction false} FilterSameOn<T>(s: seq<T>, p: T -> bool, q: T -> bool)
    requires forall i :: 0 <= i < |s| ==> p(s[i]) == q(s[i])
    ensures Filter(s, p) == Filter(s, q)
  {
    if s != [] {
      FilterSameOn(s[1..], p, q);
    }
  }

  ghost predicate Distinct<T>(s: seq<T>) {
    forall i, j :: 0 <= i < j < |s| ==> s[i] != s[j]
  }

  lemma {:induction false} DistinctMultiplicity<T>(s: seq<T>, x: T)
    requires Distinct(s)
    ensures multiset(s)[x] == if x in s then 1 else 0
  {
    if s != [] {
      assert s == [s[0]] + s[1..];
      DistinctMultiplicity(s[1..], x);
    }
  }

  /** Two duplicate-free listings of the same elements are permutations of each other. */
  lemma DistinctPermutation<T>(a: seq<T>, b: seq<T>)
    requires Distinct(a) && Distinct(b)
    requires forall x :: x in a <==> x in b
    ensures multiset(a) == multiset(b)
  {
    forall x ensures multiset(a)[x] == multiset(b)[x] {
      DistinctMultiplicity(a, x);
      DistinctMultiplicity(b, x);
    }
  }

  lemma TwiceCounted<T>(s: seq<T>, i: nat, j: nat)
    requires i < j < |s| && s[i] == s[j]
    ensures multiset(s)[s[i]] >= 2
  {
    assert s == s[..j] + s[j..];
    assert s[i] in s[..j] && s[j] in s[j..];
  }

  /** `n` is the only position whose element is kept. */
  ghost predicate KeptOnlyAt<T>(s: seq<T>, keep: T -> bool, n: int) {
    0 <= n < |s| && keep(s[n]) && forall i :: 0 <= i < |s| && keep(s[i]) ==> i == n
  }

  lemma {:induction false} NothingKeptIff<T>(s: seq<T>, keep: T -> bool)
    ensures Filter(s, keep) == [] <==> forall i :: 0 <= i < |s| ==> !keep(s[i])
  {
    if s != [] {
      NothingKeptIff(s[1..], keep);
      assert forall i :: 0 < i < |s| ==> s[i] == s[1..][i - 1];
    }
  }

  /** A filter keeps one element exactly when one position passes, and keeps that one. */
  lemma {:induction false} OneKeptIff<T>(s: seq<T>, keep: T -> bool)
    ensures |Filter(s, keep)| == 1 <==> exists n :: KeptOnlyAt(s, keep, n)
    ensures forall n :: KeptOnlyAt(s, keep, n) ==> Filter(s, keep) == [s[n]]
  {
    if s != [] {
      var rest := s[1..];
      assert forall i :: 0 < i < |s| ==> s[i] == rest[i - 1];
      if keep(s[0]) {
        NothingKeptIff(rest, keep);
        if |Filter(s, keep)| == 1 {
          assert KeptOnlyAt(s, keep, 0);
        }
      } else {
        OneKeptIff(rest, keep);
        forall n | KeptOnlyAt(s, keep, n) ensures KeptOnlyAt(rest, keep, n - 1) {
          forall i | 0 <= i < |rest| && keep(rest[i]) ensures i == n - 1 {
            assert s[i + 1] == rest[i];
          }
        }
        if n :| KeptOnlyAt(rest, keep, n) {
          assert KeptOnlyAt(s, keep, n + 1);
        }
      }
    }
  }
}
