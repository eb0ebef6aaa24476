/** Facts about sequences shared by the formatter and the object-key ordering. */
module Sequences {

  /** No element occurs twice in `s`. */
  predicate NoDuplicates<T(==)>(s: seq<T>) {
    forall i, j | 0 <= i < j < |s| :: s[i] != s[j]
  }

  /** The set of elements of `s`. */
  function Elements<T>(s: seq<T>): set<T> {
    set x | x in s
  }

  /** Position of the first occurrence of `x` in `s`. */
  function IndexOf<T(==)>(s: seq<T>, x: T): (i: nat)
    requires x in s
    ensures i < |s| && s[i] == x
  {
    if s[0] == x then 0 else IndexOf(s[1..], x) + 1
  }

  /** No earlier entry of `s` equals `x`. */
  lemma {:induction false} IndexOfIsFirst<T>(s: seq<T>, x: T)
    requires x in s
    ensures x !in s[..IndexOf(s, x)]
  {
    if s[0] != x {
      var i := IndexOf(s[1..], x);
      IndexOfIsFirst(s[1..], x);
      assert s[..i + 1] == [s[0]] + s[1..][..i];
    }
  }

  /** The elements of `s`, each one kept at its first occurrence. */
  function Distinct<T(==, !new)>(s: seq<T>): (r: seq<T>)
    ensures NoDuplicates(r)
    ensures forall x :: x in r <==> x in s
  {
    if s == [] then []
    else
      var prefix := Distinct(s[..|s| - 1]);
      assert s == s[..|s| - 1] + [s[|s| - 1]];
      if s[|s| - 1] in prefix then prefix else prefix + [s[|s| - 1]]
  }

  /** Appending never moves the first occurrence of an element already present. */
  lemma {:induction false} IndexOfAppend<T>(p: seq<T>, q: seq<T>, x: T)
    requires x in p
    ensures IndexOf(p + q, x) == IndexOf(p, x)
  {
    var i, j := IndexOf(p + q, x), IndexOf(p, x);
    IndexOfIsFirst(p + q, x);
    IndexOfIsFirst(p, x);
    assert (p + q)[j] == x;
    assert forall k | 0 <= k < i :: (p + q)[..i][k] == (p + q)[k];
    assert forall k | 0 <= k < |p| :: (p + q)[k] == p[k];
    assert forall k | 0 <= k < j :: p[..j][k] == p[k];
  }

  /** An element that first appears in the appended part sits after the whole prefix. */
  lemma {:induction false} IndexOfAppendNew<T>(p: seq<T>, x: T)
    requires x !in p
    ensures IndexOf(p + [x], x) == |p|
  {
  }

  /**
   * Distinct keeps first-appearance order: x precedes y in Distinct(s)
   * exactly when the first x precedes the first y in s.
   */
  lemma {:induction false} DistinctKeepsFirstAppearanceOrder<T(!new)>(s: seq<T>, x: T, y: T)
    requires x in s && y in s
    ensures IndexOf(Distinct(s), x) < IndexOf(Distinct(s), y) <==> IndexOf(s, x) < IndexOf(s, y)
  {
    var p, z := s[..|s| - 1], s[|s| - 1];
    assert s == p + [z];
    var d := Distinct(p);
    if x in p && y in p {
      DistinctKeepsFirstAppearanceOrder(p, x, y);
      IndexOfAppend(p, [z], x);
      IndexOfAppend(p, [z], y);
      IndexOfAppend(d, [z], x);
      IndexOfAppend(d, [z], y);
    } else if x in p {
      assert y == z && z !in d;
      IndexOfAppend(p, [z], x);
      IndexOfAppendNew(p, z);
      IndexOfAppend(d, [z], x);
      IndexOfAppendNew(d, z);
    } else if y in p {
      assert x == z && z !in d;
      IndexOfAppend(p, [z], y);
      IndexOfAppendNew(p, z);
      IndexOfAppend(d, [z], y);
      IndexOfAppendNew(d, z);
    }
  }

  /** A sequence without duplicates has as many elements as its set. */
  lemma {:induction false} NoDuplicatesCardinality<T>(s: seq<T>)
    requires NoDuplicates(s)
    ensures |Elements(s)| == |s|
  {
    if s != [] {
      var p := s[..|s| - 1];
      assert s == p + [s[|s| - 1]];
      assert Elements(s) == Elements(p) + {s[|s| - 1]};
      NoDuplicatesCardinality(p);
    }
  }

  /** Distinct(s) has one entry per distinct element of s. */
  lemma {:induction false} DistinctCardinality<T(!new)>(s: seq<T>)
    ensures |Distinct(s)| == |Elements(s)|
  {
    NoDuplicatesCardinality(Distinct(s));
    assert Elements(Distinct(s)) == Elements(s);
  }

  /** The elements x of `s` with p(x) == want, in their original order. */
  function Filter<T(!new)>(s: seq<T>, p: T -> bool, want: bool): (r: seq<T>)
    ensures |r| <= |s|
  {
    if s == [] then []
    else (if p(s[0]) == want then [s[0]] else []) + Filter(s[1..], p, want)
  }

  /** Filter keeps exactly the elements with p(x) == want. */
  lemma {:induction false} FilterElements<T(!new)>(s: seq<T>, p: T -> bool, want: bool)
    ensures forall x :: x in Filter(s, p, want) <==> x in s && p(x) == want
  {
    if s != [] {
      FilterElements(s[1..], p, want);
      assert s == [s[0]] + s[1..];
    }
  }

  /** Every element lands in exactly one of the two filtered parts. */
  lemma {:induction false} FilterPartition<T(!new)>(s: seq<T>, p: T -> bool)
    ensures multiset(Filter(s, p, true)) + multiset(Filter(s, p, false)) == multiset(s)
  {
    if s != [] {
      var rest := s[1..];
      FilterPartition(rest, p);
      assert s == [s[0]] + rest;
      assert multiset(s) == multiset{s[0]} + multiset(rest);
      if p(s[0]) {
        assert Filter(s, p, true) == [s[0]] + Filter(rest, p, true);
        assert Filter(s, p, false) == Filter(rest, p, false);
      } else {
        assert Filter(s, p, true) == Filter(rest, p, true);
        assert Filter(s, p, false) == [s[0]] + Filter(rest, p, false);
      }
    }
  }

  /** Filtering keeps the relative order of the kept elements. */
  lemma {:induction false} FilterKeepsOrder<T(!new)>(s: seq<T>, p: T -> bool, want: bool, i: nat, j: nat)
    requires NoDuplicates(s)
    requires i < j < |Filter(s, p, want)|
    ensures Filter(s, p, want)[i] in s && Filter(s, p, want)[j] in s
    ensures IndexOf(s, Filter(s, p, want)[i]) < IndexOf(s, Filter(s, p, want)[j])
  {
    var rest := s[1..];
    var r, r' := Filter(s, p, want), Filter(rest, p, want);
    FilterElements(rest, p, want);
    assert NoDuplicates(rest);
    var x, y := r[i], r[j];
    if p(s[0]) == want {
      assert r == [s[0]] + r';
      assert y == r'[j - 1] && y in rest && y != s[0];
      assert IndexOf(s, y) == IndexOf(rest, y) + 1;
      if i == 0 {
        assert x == s[0] && IndexOf(s, x) == 0;
      } else {
        FilterKeepsOrder(rest, p, want, i - 1, j - 1);
        assert x == r'[i - 1] && x in rest && x != s[0];
        assert IndexOf(s, x) == IndexOf(rest, x) + 1;
      }
    } else {
      assert r == r';
      FilterKeepsOrder(rest, p, want, i, j);
      assert x != s[0] && y != s[0];
      assert IndexOf(s, x) == IndexOf(rest, x) + 1;
      assert IndexOf(s, y) == IndexOf(rest, y) + 1;
    }
  }

  /** Sequences with the same multiset have the same elements. */
  lemma {:induction false} SameMultisetSameElements<T(!new)>(s: seq<T>, r: seq<T>)
    requires multiset(r) == multiset(s)
    ensures forall x :: x in r <==> x in s
  {
    assert forall x :: x in r <==> x in multiset(r);
    assert forall x :: x in s <==> x in multiset(s);
  }

  /** Two equal entries make an element occur at least twice. */
  lemma {:induction false} TwoOccurrences<T>(r: seq<T>, i: nat, j: nat)
    requires i < j < |r|
    ensures r[i] == r[j] ==> multiset(r)[r[j]] >= 2
  {
    assert r == r[..j] + [r[j]] + r[j + 1..];
    assert r[i] == r[..j][i];
  }

  /** A rearrangement of a sequence without duplicates has none either. */
  lemma {:induction false} PermutationKeepsNoDuplicates<T(!new)>(s: seq<T>, r: seq<T>)
    requires NoDuplicates(s) && multiset(r) == multiset(s)
    ensures |r| == |s| && NoDuplicates(r)
  {
    assert |r| == |multiset(r)| == |multiset(s)| == |s|;
    forall i, j | 0 <= i < j < |r|
      ensures r[i] != r[j]
    {
      TwoOccurrences(r, i, j);
      MultiplicityAtMostOne(s, r[j]);
    }
  }

  /** In a sequence without duplicates an element occurs at most once. */
  lemma {:induction false} MultiplicityAtMostOne<T>(s: seq<T>, x: T)
    requires NoDuplicates(s)
    ensures multiset(s)[x] <= 1
  {
    if s != [] {
      assert s == [s[0]] + s[1..];
      MultiplicityAtMostOne(s[1..], x);
    }
  }

  /** `s` ascends by `rank`. */
  predicate AscendingBy<T>(s: seq<T>, rank: T -> nat) {
    forall i, j | 0 <= i < j < |s| :: rank(s[i]) <= rank(s[j])
  }

  /** Inserts x into `s` before the first element of larger or equal rank. */
  function InsertBy<T>(x: T, s: seq<T>, rank: T -> nat): (r: seq<T>)
    ensures |r| == |s| + 1
  {
    if s == [] || rank(x) <= rank(s[0]) then [x] + s
    else [s[0]] + InsertBy(x, s[1..], rank)
  }

  /** Insertion adds x and keeps every other element. */
  lemma {:induction false} InsertByPermutation<T>(x: T, s: seq<T>, rank: T -> nat)
    ensures multiset(InsertBy(x, s, rank)) == multiset(s) + multiset{x}
  {
    if s != [] && rank(s[0]) < rank(x) {
      InsertByPermutation(x, s[1..], rank);
      assert s == [s[0]] + s[1..];
    }
  }

  /** An element no larger than any of an ascending sequence can go in front of it. */
  lemma {:induction false} AscendingCons<T>(y: T, t: seq<T>, rank: T -> nat)
    requires AscendingBy(t, rank)
    requires forall k | 0 <= k < |t| :: rank(y) <= rank(t[k])
    ensures AscendingBy([y] + t, rank)
  {
  }

  /** Inserting into an ascending sequence keeps it ascending. */
  lemma {:induction false} InsertByAscending<T>(x: T, s: seq<T>, rank: T -> nat)
    requires AscendingBy(s, rank)
    ensures AscendingBy(InsertBy(x, s, rank), rank)
  {
    if s == [] || rank(x) <= rank(s[0]) {
      forall k | 0 <= k < |s|
        ensures rank(x) <= rank(s[k])
      {
        if k > 0 {
          assert rank(s[0]) <= rank(s[k]);
        }
      }
      AscendingCons(x, s, rank);
    } else {
      var rest := s[1..];
      var tail := InsertBy(x, rest, rank);
      assert AscendingBy(rest, rank) by {
        forall i, j | 0 <= i < j < |rest|
          ensures rank(rest[i]) <= rank(rest[j])
        {
          assert rest[i] == s[i + 1] && rest[j] == s[j + 1];
        }
      }
      InsertByAscending(x, rest, rank);
      InsertByPermutation(x, rest, rank);
      forall k | 0 <= k < |tail|
        ensures rank(s[0]) <= rank(tail[k])
      {
        assert tail[k] in multiset(tail);
        if tail[k] != x {
          assert tail[k] in multiset(rest);
          var m :| 0 <= m < |rest| && rest[m] == tail[k];
          assert rest[m] == s[m + 1];
        }
      }
      AscendingCons(s[0], tail, rank);
    }
  }

  /** A stable insertion sort of `s` by `rank`. */
  function SortBy<T>(s: seq<T>, rank: T -> nat): (r: seq<T>)
    ensures |r| == |s|
  {
    if s == [] then []
    else InsertBy(s[0], SortBy(s[1..], rank), rank)
  }

  /** The sort rearranges `s`: every element is kept as often as it occurs. */
  lemma {:induction false} SortByPermutation<T>(s: seq<T>, rank: T -> nat)
    ensures multiset(SortBy(s, rank)) == multiset(s)
  {
    if s != [] {
      SortByPermutation(s[1..], rank);
      InsertByPermutation(s[0], SortBy(s[1..], rank), rank);
      assert s == [s[0]] + s[1..];
    }
  }

  /** The sort's result ascends by `rank`. */
  lemma {:induction false} SortByAscending<T>(s: seq<T>, rank: T -> nat)
    ensures AscendingBy(SortBy(s, rank), rank)
  {
    if s != [] {
      SortByAscending(s[1..], rank);
      InsertByAscending(s[0], SortBy(s[1..], rank), rank);
    }
  }

  /**
   * The elements satisfying p, sorted by rank, followed by the others in
   * their original order.
   */
  function SortedThenOthers<T(!new)>(s: seq<T>, p: T -> bool, rank: T -> nat): (r: seq<T>)
    ensures |r| == |s|
  {
    SortedThenOthersPermutation(s, p, rank);
    SortBy(Filter(s, p, true), rank) + Filter(s, p, false)
  }

  /** SortedThenOthers rearranges `s`: every element is kept as often as it occurs. */
  lemma {:induction false} SortedThenOthersPermutation<T(!new)>(s: seq<T>, p: T -> bool, rank: T -> nat)
    ensures var r := SortBy(Filter(s, p, true), rank) + Filter(s, p, false);
      |r| == |s| && multiset(r) == multiset(s)
  {
    FilterPartition(s, p);
    SortByPermutation(Filter(s, p, true), rank);
    var r := SortBy(Filter(s, p, true), rank) + Filter(s, p, false);
    assert multiset(r) == multiset(SortBy(Filter(s, p, true), rank)) + multiset(Filter(s, p, false));
    assert |r| == |multiset(r)| == |multiset(s)| == |s|;
  }

  /** The elements satisfying p form a prefix; after it come the others in their original order. */
  lemma {:induction false} SortedThenOthersSplit<T(!new)>(s: seq<T>, p: T -> bool, rank: T -> nat, i: nat)
    requires i < |SortedThenOthers(s, p, rank)|
    ensures var n := |Filter(s, p, true)|;
      && |SortedThenOthers(s, p, rank)| == n + |Filter(s, p, false)|
      && SortedThenOthers(s, p, rank)[i] in s
      && (p(SortedThenOthers(s, p, rank)[i]) <==> i < n)
      && (i >= n ==> SortedThenOthers(s, p, rank)[i] == Filter(s, p, false)[i - n])
  {
    var chosen := Filter(s, p, true);
    var sorted := SortBy(chosen, rank);
    FilterElements(s, p, true);
    FilterElements(s, p, false);
    SortByPermutation(chosen, rank);
    var r := SortedThenOthers(s, p, rank);
    assert r == sorted + Filter(s, p, false);
    if i < |sorted| {
      assert r[i] == sorted[i] && sorted[i] in multiset(chosen);
    } else {
      assert r[i] == Filter(s, p, false)[i - |sorted|];
    }
  }

  /** The p-elements at the front of SortedThenOthers ascend by rank. */
  lemma {:induction false} SortedPartAscends<T(!new)>(s: seq<T>, p: T -> bool, rank: T -> nat, i: nat, j: nat)
    requires i < j < |Filter(s, p, true)|
    ensures rank(SortedThenOthers(s, p, rank)[i]) <= rank(SortedThenOthers(s, p, rank)[j])
  {
    var sorted := SortBy(Filter(s, p, true), rank);
    SortByAscending(Filter(s, p, true), rank);
    var r := SortedThenOthers(s, p, rank);
    assert r == sorted + Filter(s, p, false);
    assert r[i] == sorted[i] && r[j] == sorted[j];
  }

  /**
   * In SortedThenOthers every p-element precedes every other element, the
   * p-elements ascend by rank, and the others keep their order in s.
   */
  lemma {:induction false} SortedThenOthersOrder<T(!new)>(s: seq<T>, p: T -> bool, rank: T -> nat, i: nat, j: nat)
    requires NoDuplicates(s)
    requires i < j < |SortedThenOthers(s, p, rank)|
    ensures var r := SortedThenOthers(s, p, rank);
      && r[i] in s && r[j] in s
      && (p(r[j]) ==> p(r[i]))
      && (p(r[i]) && p(r[j]) ==> rank(r[i]) <= rank(r[j]))
      && (!p(r[i]) && !p(r[j]) ==> IndexOf(s, r[i]) < IndexOf(s, r[j]))
  {
    var r := SortedThenOthers(s, p, rank);
    var n := |Filter(s, p, true)|;
    assert r[i] in s && r[j] in s && (p(r[j]) ==> p(r[i])) by {
      SortedThenOthersSplit(s, p, rank, i);
      SortedThenOthersSplit(s, p, rank, j);
    }
    assert p(r[i]) && p(r[j]) ==> rank(r[i]) <= rank(r[j]) by {
      SortedThenOthersSplit(s, p, rank, i);
      SortedThenOthersSplit(s, p, rank, j);
      if j < n {
        SortedPartAscends(s, p, rank, i, j);
      }
    }
    assert !p(r[i]) && !p(r[j]) ==> IndexOf(s, r[i]) < IndexOf(s, r[j]) by {
      SortedThenOthersSplit(s, p, rank, i);
      SortedThenOthersSplit(s, p, rank, j);
      if n <= i {
        FilterKeepsOrder(s, p, false, i - n, j - n);
      }
    }
  }
}
