/**
 The meaning of the ORM's `filter(...)` and `order_by(...)` on an in-memory
 table: `Filter` keeps the rows that match, in storage order, and `SortBy` is a
 stable insertion sort by a "comes no later than" relation. Rows that tie under
 the ordering keep their storage order.
 */
module Ordering {

  /** `before` is total and transitive, as a lexicographic key order is. */
  ghost predicate TotalPreorder<T(!new)>(before: (T, T) -> bool) {
    && (forall a, b :: before(a, b) || before(b, a))
    && (forall a, b, c :: before(a, b) && before(b, c) ==> before(a, c))
  }

  /** Every element comes no later than every element after it. */
  ghost predicate Sorted<T>(s: seq<T>, before: (T, T) -> bool) {
    forall i, j :: 0 <= i < j < |s| ==> before(s[i], s[j])
  }

  /** `a` is `b` with some elements removed, the rest in their original order. */
  ghost predicate IsSubsequence<T(!new)>(a: seq<T>, b: seq<T>)
    decreases |b|
  {
    || a == []
    || (&& b != []
        && ((a[0] == b[0] && IsSubsequence(a[1..], b[1..])) || IsSubsequence(a, b[1..])))
  }

  /** The elements of `s` that satisfy `keep`, in the order of `s`. */
  function Filter<T(==,!new)>(s: seq<T>, keep: T -> bool): (r: seq<T>)
    ensures forall x :: x in r <==> x in s && keep(x)
    ensures forall x :: multiset(r)[x] == if keep(x) then multiset(s)[x] else 0
    ensures IsSubsequence(r, s)
  {
    if s == [] then []
    else
      var rest := Filter(s[1..], keep);
      assert s == [s[0]] + s[1..];
      if keep(s[0]) then
        assert ([s[0]] + rest)[1..] == rest;
        [s[0]] + rest
      else
        rest
  }

  /** Inserts `x` before the first element it comes no later than. */
  function Insert<T(==,!new)>(x: T, s: seq<T>, before: (T, T) -> bool): (r: seq<T>)
    ensures multiset(r) == multiset(s) + multiset{x}
  {
    if s == [] then [x]
    else if before(x, s[0]) then [x] + s
    else
      assert s == [s[0]] + s[1..];
      [s[0]] + Insert(x, s[1..], before)
  }

  /** Stable insertion sort of `s` by `before`. */
  function SortBy<T(==,!new)>(s: seq<T>, before: (T, T) -> bool): (r: seq<T>)
    ensures multiset(r) == multiset(s)
    ensures TotalPreorder(before) ==> Sorted(r, before)
  {
    if s == [] then []
    else
      var sorted := SortBy(s[1..], before);
      InsertSorted(s[0], sorted, before);
      assert s == [s[0]] + s[1..];
      Insert(s[0], sorted, before)
  }

  lemma {:induction false} InsertSorted<T(!new)>(x: T, s: seq<T>, before: (T, T) -> bool)
    ensures TotalPreorder(before) && Sorted(s, before) ==> Sorted(Insert(x, s, before), before)
  {
    if TotalPreorder(before) && Sorted(s, before) && s != [] {
      var r := Insert(x, s, before);
      if before(x, s[0]) {
        assert r == [x] + s;
        forall i, j | 0 <= i < j < |r| ensures before(r[i], r[j]) {
          if i > 0 {
            assert r[i] == s[i - 1] && r[j] == s[j - 1];
          } else if j > 1 {
            assert before(s[0], s[j - 1]);
          }
        }
      } else {
        var tail := Insert(x, s[1..], before);
        InsertSorted(x, s[1..], before);
        assert r == [s[0]] + tail;
        assert before(s[0], x);
        forall y | y in tail ensures before(s[0], y) {
          assert y in multiset(tail);
          if y != x {
            assert y in multiset(s[1..]);
            var k :| 0 <= k < |s[1..]| && s[1..][k] == y;
            assert s[k + 1] == y;
          }
        }
        forall i, j | 0 <= i < j < |r| ensures before(r[i], r[j]) {
          if i == 0 {
            assert r[j] == tail[j - 1];
            assert r[j] in tail;
          } else {
            assert r[i] == tail[i - 1] && r[j] == tail[j - 1];
          }
        }
      }
    }
  }

  /** Every element of a subsequence occurs in the whole. */
  lemma {:induction false} SubsequenceMembers<T(!new)>(a: seq<T>, b: seq<T>)
    requires IsSubsequence(a, b)
    ensures forall x :: x in a ==> x in b
    decreases |b|
  {
    if a != [] {
      if a[0] == b[0] && IsSubsequence(a[1..], b[1..]) {
        SubsequenceMembers(a[1..], b[1..]);
        assert a == [a[0]] + a[1..];
        assert b == [b[0]] + b[1..];
      } else {
        SubsequenceMembers(a, b[1..]);
        assert b == [b[0]] + b[1..];
      }
    }
  }

  /** A subsequence of a sorted sequence is sorted by the same relation. */
  lemma {:induction false} SubsequenceSorted<T(!new)>(a: seq<T>, b: seq<T>, before: (T, T) -> bool)
    requires IsSubsequence(a, b) && Sorted(b, before)
    ensures Sorted(a, before)
    decreases |b|
  {
    if a != [] {
      assert Sorted(b[1..], before) by {
        forall i, j | 0 <= i < j < |b[1..]| ensures before(b[1..][i], b[1..][j]) {
          assert b[1..][i] == b[i + 1] && b[1..][j] == b[j + 1];
        }
      }
      if a[0] == b[0] && IsSubsequence(a[1..], b[1..]) {
        SubsequenceSorted(a[1..], b[1..], before);
        SubsequenceMembers(a[1..], b[1..]);
        forall i, j | 0 <= i < j < |a| ensures before(a[i], a[j]) {
          assert a[j] == a[1..][j - 1];
          if i == 0 {
            assert a[j] in b[1..];
            var k :| 0 <= k < |b[1..]| && b[1..][k] == a[j];
            assert b[k + 1] == a[j];
          } else {
            assert a[i] == a[1..][i - 1];
          }
        }
      } else {
        SubsequenceSorted(a, b[1..], before);
      }
    }
  }

  /** Every sequence is a subsequence of itself. */
  lemma {:induction false} SubsequenceReflexive<T(!new)>(s: seq<T>)
    ensures IsSubsequence(s, s)
  {
    if s != [] {
      SubsequenceReflexive(s[1..]);
    }
  }

  /** Dropping a prefix leaves a subsequence. */
  lemma {:induction false} SuffixIsSubsequence<T(!new)>(s: seq<T>, k: nat)
    requires k <= |s|
    ensures IsSubsequence(s[k..], s)
  {
    if k == 0 {
      SubsequenceReflexive(s);
      assert s[0..] == s;
    } else {
      SuffixIsSubsequence(s[1..], k - 1);
      assert s[1..][k - 1..] == s[k..];
    }
  }

  /**
   The head of a sequence followed by any of its suffixes past the head is a
   subsequence of it.
   */
  lemma HeadAndSuffixIsSubsequence<T(!new)>(s: seq<T>, k: nat)
    requires 1 <= k <= |s|
    ensures IsSubsequence([s[0]] + s[k..], s)
  {
    var a := [s[0]] + s[k..];
    SuffixIsSubsequence(s[1..], k - 1);
    assert s[1..][k - 1..] == s[k..] == a[1..];
  }

  /** Filtering a sequence with a known head. */
  lemma FilterCons<T(!new)>(x: T, s: seq<T>, keep: T -> bool)
    ensures Filter([x] + s, keep) == if keep(x) then [x] + Filter(s, keep) else Filter(s, keep)
  {
    assert ([x] + s)[1..] == s;
  }

  /** Every element of a sorted sequence comes no earlier than its head. */
  lemma HeadBeforeAll<T(!new)>(s: seq<T>, before: (T, T) -> bool, y: T)
    requires TotalPreorder(before) && Sorted(s, before) && y in s
    ensures before(s[0], y)
  {
    var k :| 0 <= k < |s| && s[k] == y;
    if k == 0 {
      assert before(y, y) || before(y, y);
    }
  }

  lemma {:induction false} FilterInsert<T(!new)>(x: T, s: seq<T>, before: (T, T) -> bool, keep: T -> bool)
    requires TotalPreorder(before) && Sorted(s, before)
    ensures Filter(Insert(x, s, before), keep)
         == if keep(x) then Insert(x, Filter(s, keep), before) else Filter(s, keep)
  {
    if s == [] {
      FilterCons(x, [], keep);
    } else if before(x, s[0]) {
      FilterCons(x, s, keep);
      var fs := Filter(s, keep);
      if keep(x) && fs != [] {
        HeadBeforeAll(s, before, fs[0]);
        assert before(x, fs[0]);
      }
    } else {
      var tail := Insert(x, s[1..], before);
      assert Sorted(s[1..], before) by {
        forall i, j | 0 <= i < j < |s[1..]| ensures before(s[1..][i], s[1..][j]) {
          assert s[1..][i] == s[i + 1] && s[1..][j] == s[j + 1];
        }
      }
      FilterInsert(x, s[1..], before, keep);
      FilterCons(s[0], tail, keep);
      FilterCons(s[0], s[1..], keep);
      assert s == [s[0]] + s[1..];
      if keep(x) && keep(s[0]) {
        var fs := Filter(s[1..], keep);
        assert Insert(x, [s[0]] + fs, before) == [s[0]] + Insert(x, fs, before) by {
          assert ([s[0]] + fs)[1..] == fs;
        }
      }
    }
  }

  /**
   Filtering a sorted sequence gives the same list as sorting the filtered
   one: the order of the kept elements does not depend on which step runs first.
   */
  lemma {:induction false} FilterSortBy<T(!new)>(s: seq<T>, before: (T, T) -> bool, keep: T -> bool)
    requires TotalPreorder(before)
    ensures Filter(SortBy(s, before), keep) == SortBy(Filter(s, keep), before)
  {
    if s != [] {
      var sorted := SortBy(s[1..], before);
      assert SortBy(s, before) == Insert(s[0], sorted, before);
      FilterInsert(s[0], sorted, before, keep);
      FilterSortBy(s[1..], before, keep);
      var fs := Filter(s[1..], keep);
      if keep(s[0]) {
        assert Filter(s, keep) == [s[0]] + fs;
        assert ([s[0]] + fs)[1..] == fs;
      } else {
        assert Filter(s, keep) == fs;
      }
    }
  }
}
