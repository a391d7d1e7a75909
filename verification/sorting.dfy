/**
 * `Array.prototype.sort` with a comparator, modelled as a stable insertion
 * sort over an ordering relation `le` ("a may come before b", i.e. the
 * comparator returns a non-positive number). Since ES2019 the sort is stable,
 * and so is this one: a later element is placed after every element that
 * `le` lets precede it.
 */
module Sorting {
  import opened Seqs

  /** `le` is total and transitive, as a consistent comparator must be. */
  ghost predicate TotalPreorder<T(!new)>(le: (T, T) -> bool) {
    && (forall a, b :: le(a, b) || le(b, a))
    && (forall a, b, c :: le(a, b) && le(b, c) ==> le(a, c))
  }

  /** Every element may precede every later element. */
  ghost predicate Sorted<T>(s: seq<T>, le: (T, T) -> bool) {
    forall i, j :: 0 <= i < j < |s| ==> le(s[i], s[j])
  }

  /** Places `x` after the longest prefix of `s` whose elements may precede it. */
  function Insert<T>(x: T, s: seq<T>, le: (T, T) -> bool): (r: seq<T>)
    ensures |r| == |s| + 1
    ensures multiset(r) == multiset(s) + multiset{x}
  {
    if |s| == 0 then [x]
    else if le(s[0], x) then
      assert s == [s[0]] + s[1..];
      [s[0]] + Insert(x, s[1..], le)
    else [x] + s
  }

  /** The sorted copy `[...s].sort(cmp)`: the input sequence is a value and stays as it was. */
  function SortBy<T>(s: seq<T>, le: (T, T) -> bool): (r: seq<T>)
    ensures |r| == |s|
    ensures multiset(r) == multiset(s)
    decreases |s|
  {
    if |s| == 0 then []
    else
      assert s == s[..|s| - 1] + [s[|s| - 1]];
      Insert(s[|s| - 1], SortBy(s[..|s| - 1], le), le)
  }

  /** Inserting into a sorted sequence keeps it sorted. */
  lemma {:induction false} InsertSorted<T(!new)>(x: T, s: seq<T>, le: (T, T) -> bool)
    requires TotalPreorder(le)
    requires Sorted(s, le)
    ensures Sorted(Insert(x, s, le), le)
  {
    if |s| == 0 {
    } else if le(s[0], x) {
      var tail := Insert(x, s[1..], le);
      InsertSorted(x, s[1..], le);
      forall j | 0 <= j < |tail|
        ensures le(s[0], tail[j])
      {
        assert tail[j] in multiset(tail);
        if tail[j] != x {
          assert tail[j] in multiset(s[1..]);
          var k :| 0 <= k < |s[1..]| && s[1..][k] == tail[j];
          assert s[k + 1] == tail[j];
        }
      }
    } else {
      assert le(x, s[0]);
      forall j | 0 <= j < |s|
        ensures le(x, s[j])
      {
        if j > 0 {
          assert le(s[0], s[j]);
        }
      }
    }
  }

  /** The sorted copy is in order for every consistent comparator. */
  lemma {:induction false} SortBySorted<T(!new)>(s: seq<T>, le: (T, T) -> bool)
    requires TotalPreorder(le)
    ensures Sorted(SortBy(s, le), le)
    decreases |s|
  {
    if |s| > 0 {
      SortBySorted(s[..|s| - 1], le);
      InsertSorted(s[|s| - 1], SortBy(s[..|s| - 1], le), le);
    }
  }

  /** All elements satisfying `q` are tied under `le`: `q` picks out (part of) one class of equals. */
  ghost predicate Tied<T(!new)>(q: T -> bool, le: (T, T) -> bool) {
    forall a, b :: q(a) && q(b) ==> le(a, b)
  }

  /** Nothing tied with `x` follows an element that `x` must precede. */
  lemma AboveNotTied<T(!new)>(x: T, s: seq<T>, le: (T, T) -> bool, q: T -> bool)
    requires TotalPreorder(le)
    requires Tied(q, le)
    requires Sorted(s, le)
    requires |s| > 0 && !le(s[0], x) && q(x)
    ensures Filter(s, q) == []
  {
    forall k | 0 <= k < |s|
      ensures !q(s[k])
    {
      if k > 0 {
        assert le(s[0], s[k]);
      }
    }
    FilterNone(s, q);
  }

  /** Inserting `x` puts it after every element tied with it. */
  lemma {:induction false} InsertStable<T(!new)>(x: T, s: seq<T>, le: (T, T) -> bool, q: T -> bool)
    requires TotalPreorder(le)
    requires Tied(q, le)
    requires Sorted(s, le)
    ensures Filter(Insert(x, s, le), q) == Filter(s, q) + (if q(x) then [x] else [])
  {
    FilterSingleton(x, q);
    if |s| == 0 {
    } else if le(s[0], x) {
      var tail := s[1..];
      SortedTail(s, le);
      InsertStable(x, tail, le, q);
      assert Insert(x, s, le) == [s[0]] + Insert(x, tail, le);
      FilterConsShift(Insert(x, tail, le), s, if q(x) then [x] else [], q);
    } else {
      FilterAppend([x], s, q);
      if q(x) {
        AboveNotTied(x, s, le, q);
      }
    }
  }

  /**
   * The sort is stable: the elements of any class of equals come out in the
   * order they went in.
   */
  lemma {:induction false} SortByStable<T(!new)>(s: seq<T>, le: (T, T) -> bool, q: T -> bool)
    requires TotalPreorder(le)
    requires Tied(q, le)
    ensures Filter(SortBy(s, le), q) == Filter(s, q)
    decreases |s|
  {
    if |s| > 0 {
      var init := s[..|s| - 1];
      var x := s[|s| - 1];
      var sorted := SortBy(init, le);
      SortByLast(s, le);
      SortByStable(init, le, q);
      SortBySorted(init, le);
      InsertStable(x, sorted, le, q);
      FilterLast(s, q);
    }
  }

  /** Sorting inserts the last element into the sorted rest. */
  lemma SortByLast<T>(s: seq<T>, le: (T, T) -> bool)
    requires |s| > 0
    ensures SortBy(s, le) == Insert(s[|s| - 1], SortBy(s[..|s| - 1], le), le)
  {
  }

  /** The tail of a sorted sequence is sorted. */
  lemma SortedTail<T>(s: seq<T>, le: (T, T) -> bool)
    requires |s| > 0 && Sorted(s, le)
    ensures Sorted(s[1..], le)
  {
  }
}
