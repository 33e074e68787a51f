/** The array operations the pages chain together: `filter` with a predicate,
    `sort` with a comparator, `slice`, and the size of a `Set` built from an
    array. `le(a, b)` stands for "the comparator of the
    source returns a value <= 0 for (a, b)". */
module Collections {

  /** A comparator that orders every pair and is transitive. */
  ghost predicate TotalPreorder<T(!new)>(le: (T, T) -> bool) {
    && (forall x, y :: le(x, y) || le(y, x))
    && (forall x, y, z :: le(x, y) && le(y, z) ==> le(x, z))
  }

  predicate Sorted<T>(s: seq<T>, le: (T, T) -> bool) {
    forall i, j :: 0 <= i < j < |s| ==> le(s[i], s[j])
  }

  /** Insert `x` before the first element it does not follow. */
  function Insert<T>(x: T, s: seq<T>, le: (T, T) -> bool): (r: seq<T>)
    ensures multiset(r) == multiset(s) + multiset{x}
    ensures |r| == |s| + 1
  {
    if s == [] then [x]
    else if le(x, s[0]) then [x] + s
    else
      assert s == [s[0]] + s[1..];
      [s[0]] + Insert(x, s[1..], le)
  }

  /** `[...s].sort(comparator)`, as an insertion sort. */
  function SortBy<T>(s: seq<T>, le: (T, T) -> bool): (r: seq<T>)
    ensures multiset(r) == multiset(s)
    ensures |r| == |s|
  {
    if s == [] then []
    else
      assert s == [s[0]] + s[1..];
      Insert(s[0], SortBy(s[1..], le), le)
  }

  lemma {:induction false} InsertSorted<T(!new)>(x: T, s: seq<T>, le: (T, T) -> bool)
    requires TotalPreorder(le) && Sorted(s, le)
    ensures Sorted(Insert(x, s, le), le)
  {
    if s != [] && !le(x, s[0]) {
      var t := s[1..];
      assert Sorted(t, le);
      InsertSorted(x, t, le);
      var r := Insert(x, t, le);
      forall k | 0 <= k < |r|
        ensures le(s[0], r[k])
      {
        assert r[k] in multiset(r);
        if r[k] != x {
          assert r[k] in multiset(t);
          assert r[k] in t;
        }
      }
    }
  }

  /** The result of sorting is ordered by the comparator. */
  lemma {:induction false} SortBySorted<T(!new)>(s: seq<T>, le: (T, T) -> bool)
    requires TotalPreorder(le)
    ensures Sorted(SortBy(s, le), le)
  {
    if s != [] {
      SortBySorted(s[1..], le);
      InsertSorted(s[0], SortBy(s[1..], le), le);
    }
  }

  /** Sorting keeps exactly the values there were. */
  lemma SortByMembers<T>(s: seq<T>, le: (T, T) -> bool)
    ensures forall x :: x in SortBy(s, le) <==> x in s
  {
    var r := SortBy(s, le);
    forall x
      ensures x in r <==> x in s
    {
      assert x in r <==> x in multiset(r);
      assert x in s <==> x in multiset(s);
    }
  }

  /** `s.filter(p)`: the elements satisfying `p`, in their original order. */
  function Filter<T(!new)>(s: seq<T>, p: T -> bool): (r: seq<T>)
    ensures |r| <= |s|
    ensures forall i :: 0 <= i < |r| ==> p(r[i])
    ensures forall x :: x in r <==> x in s && p(x)
  {
    if s == [] then []
    else
      assert s == [s[0]] + s[1..];
      (if p(s[0]) then [s[0]] else []) + Filter(s[1..], p)
  }

  /** Filtering keeps every occurrence of a value that satisfies `p` and
      none of a value that does not. */
  lemma {:induction false} FilterMultiset<T(!new)>(s: seq<T>, p: T -> bool, x: T)
    ensures multiset(Filter(s, p))[x] == if p(x) then multiset(s)[x] else 0
  {
    if s != [] {
      assert s == [s[0]] + s[1..];
      FilterMultiset(s[1..], p, x);
    }
  }

  /** Filtering a concatenation filters each part. */
  lemma {:induction false} FilterAppend<T(!new)>(s: seq<T>, t: seq<T>, p: T -> bool)
    ensures Filter(s + t, p) == Filter(s, p) + Filter(t, p)
  {
    if s != [] {
      assert (s + t)[1..] == s[1..] + t;
      FilterAppend(s[1..], t, p);
    } else {
      assert s + t == t;
    }
  }

  /** A filter every element passes changes nothing, order included. */
  lemma {:induction false} FilterAll<T(!new)>(s: seq<T>, p: T -> bool)
    requires forall i :: 0 <= i < |s| ==> p(s[i])
    ensures Filter(s, p) == s
  {
    if s != [] {
      FilterAll(s[1..], p);
    }
  }

  /** Filtering twice, by a test that implies the first, is filtering once
      by the second. */
  lemma {:induction false} FilterFilter<T(!new)>(s: seq<T>, p: T -> bool, q: T -> bool)
    requires forall x :: q(x) ==> p(x)
    ensures Filter(Filter(s, p), q) == Filter(s, q)
  {
    if s != [] {
      var rest := Filter(s[1..], p);
      FilterFilter(s[1..], p, q);
      if p(s[0]) {
        var f := [s[0]] + rest;
        assert Filter(s, p) == f;
        assert f[1..] == rest;
        assert Filter(f, q) == (if q(s[0]) then [s[0]] else []) + Filter(rest, q);
      } else {
        assert Filter(s, p) == rest;
        assert !q(s[0]);
      }
    }
  }

  /** Filtering a list that starts with `x`. */
  lemma FilterCons<T(!new)>(x: T, s: seq<T>, p: T -> bool)
    ensures Filter([x] + s, p) == (if p(x) then [x] else []) + Filter(s, p)
  {
    assert ([x] + s)[1..] == s;
  }

  /** Inserting `x` keeps the order of the elements picked out by `p` when
      `x`, if picked, is ordered before every picked element of `s`: `x`
      goes in front of every one of them. */
  lemma {:induction false} InsertKeepsTies<T(!new)>(x: T, s: seq<T>, le: (T, T) -> bool, p: T -> bool)
    requires p(x) ==> forall k :: 0 <= k < |s| && p(s[k]) ==> le(x, s[k])
    ensures Filter(Insert(x, s, le), p) == (if p(x) then [x] else []) + Filter(s, p)
  {
    if s == [] || le(x, s[0]) {
      assert Insert(x, s, le) == [x] + s;
      FilterCons(x, s, p);
    } else {
      var rest := s[1..];
      assert p(x) ==> forall k :: 0 <= k < |rest| && p(rest[k]) ==> le(x, rest[k]) by {
        if p(x) {
          forall k | 0 <= k < |rest| && p(rest[k])
            ensures le(x, rest[k])
          {
            assert rest[k] == s[k + 1];
          }
        }
      }
      InsertKeepsTies(x, rest, le, p);
      assert Insert(x, s, le) == [s[0]] + Insert(x, rest, le);
      assert s == [s[0]] + rest;
      FilterPassed(x, s[0], rest, Insert(x, rest, le), p);
    }
  }

  /** The step of `InsertKeepsTies` where `x` is carried past `head`. */
  lemma FilterPassed<T(!new)>(x: T, head: T, rest: seq<T>, tail: seq<T>, p: T -> bool)
    requires Filter(tail, p) == (if p(x) then [x] else []) + Filter(rest, p)
    requires p(x) ==> !p(head)
    ensures Filter([head] + tail, p) == (if p(x) then [x] else []) + Filter([head] + rest, p)
  {
    FilterCons(head, tail, p);
    FilterCons(head, rest, p);
  }

  /** The sort is stable: within a class of ties the order of `s` is kept,
      as `Array.prototype.sort` keeps it. */
  lemma {:induction false} SortByKeepsTies<T(!new)>(s: seq<T>, le: (T, T) -> bool, p: T -> bool)
    requires forall y, z :: p(y) && p(z) ==> le(y, z)
    ensures Filter(SortBy(s, le), p) == Filter(s, p)
  {
    if s != [] {
      SortByKeepsTies(s[1..], le, p);
      InsertKeepsTies(s[0], SortBy(s[1..], le), le, p);
    }
  }

  /** Number of elements of `s` satisfying `p`: `s.filter(p).length`. */
  function Count<T(!new)>(s: seq<T>, p: T -> bool): nat {
    |Filter(s, p)|
  }

  /** Counts of two predicates that never hold together add up to at most the
      length of the sequence. */
  lemma {:induction false} CountDisjoint<T(!new)>(s: seq<T>, p: T -> bool, q: T -> bool)
    requires forall x :: !(p(x) && q(x))
    ensures Count(s, p) + Count(s, q) <= |s|
  {
    if s != [] {
      CountDisjoint(s[1..], p, q);
    }
  }

  /** The first `n` elements, `s.slice(0, n)`. */
  function Take<T>(s: seq<T>, n: nat): (r: seq<T>)
    ensures |r| == if n < |s| then n else |s|
    ensures forall i :: 0 <= i < |r| ==> r[i] == s[i]
  {
    if n < |s| then s[..n] else s
  }

  /** No value occurs twice. */
  predicate Distinct<T(==)>(s: seq<T>) {
    forall i, j :: 0 <= i < |s| && 0 <= j < |s| && i != j ==> s[i] != s[j]
  }

  /** `new Set(s)`. */
  function ToSet<T(==)>(s: seq<T>): set<T> {
    set x | x in s
  }

  lemma {:induction false} ToSetSmaller<T>(s: seq<T>)
    ensures |ToSet(s)| <= |s|
  {
    if s != [] {
      var t := s[..|s| - 1];
      assert s == t + [s[|s| - 1]];
      assert ToSet(s) == ToSet(t) + {s[|s| - 1]};
      ToSetSmaller(t);
    }
  }

  /** `new Set(s).size === s.length` exactly when no value repeats. */
  lemma {:induction false} ToSetSizeDistinct<T>(s: seq<T>)
    ensures |ToSet(s)| == |s| <==> Distinct(s)
  {
    if s != [] {
      var t, x := s[..|s| - 1], s[|s| - 1];
      assert s == t + [x];
      assert ToSet(s) == ToSet(t) + {x};
      ToSetSizeDistinct(t);
      if x in t {
        ToSetSmaller(t);
        assert ToSet(s) == ToSet(t);
        var k :| 0 <= k < |t| && t[k] == x;
        assert s[k] == s[|s| - 1];
      } else {
        assert x !in ToSet(t);
        if Distinct(t) {
          forall i, j | 0 <= i < |s| && 0 <= j < |s| && i != j
            ensures s[i] != s[j]
          {
            if i < |t| && j < |t| {
              assert s[i] == t[i] && s[j] == t[j];
            }
          }
        } else {
          var i, j :| 0 <= i < |t| && 0 <= j < |t| && i != j && t[i] == t[j];
          assert s[i] == s[j];
        }
      }
    }
  }

  lemma DistinctTail<T>(s: seq<T>)
    requires s != [] && Distinct(s)
    ensures Distinct(s[1..]) && s[0] !in s[1..]
  {
    var t := s[1..];
    forall i, j | 0 <= i < |t| && 0 <= j < |t| && i != j
      ensures t[i] != t[j]
    {
      assert t[i] == s[i + 1] && t[j] == s[j + 1];
    }
    forall i | 0 <= i < |t|
      ensures t[i] != s[0]
    {
      assert t[i] == s[i + 1];
    }
  }

  lemma DistinctCons<T>(x: T, t: seq<T>)
    requires x !in t && Distinct(t)
    ensures Distinct([x] + t)
  {
    var r := [x] + t;
    forall i, j | 0 <= i < |r| && 0 <= j < |r| && i != j
      ensures r[i] != r[j]
    {
      if i > 0 && j > 0 {
        assert r[i] == t[i - 1] && r[j] == t[j - 1];
      } else if i == 0 {
        assert r[j] == t[j - 1];
      } else {
        assert r[i] == t[i - 1];
      }
    }
  }

  /** Appending a value not yet present keeps a list without repeats. */
  lemma DistinctSnoc<T>(s: seq<T>, x: T)
    requires x !in s && Distinct(s)
    ensures Distinct(s + [x])
  {
    var r := s + [x];
    forall i, j | 0 <= i < |r| && 0 <= j < |r| && i != j
      ensures r[i] != r[j]
    {
      if i < |s| && j < |s| {
        assert r[i] == s[i] && r[j] == s[j];
      } else if i < |s| {
        assert r[i] in s;
      } else {
        assert r[j] in s;
      }
    }
  }

  /** Filtering a list without repeats gives a list without repeats. */
  lemma {:induction false} FilterDistinct<T(!new)>(s: seq<T>, p: T -> bool)
    requires Distinct(s)
    ensures Distinct(Filter(s, p))
  {
    if s != [] {
      DistinctTail(s);
      FilterDistinct(s[1..], p);
      var rest := Filter(s[1..], p);
      if p(s[0]) {
        assert s[0] !in rest;
        DistinctCons(s[0], rest);
        assert Filter(s, p) == [s[0]] + rest;
      } else {
        assert Filter(s, p) == rest;
      }
    }
  }

  /** `s.splice(i, 1)` on a copy: drops the element at `i`, or nothing when
      `i` is past the end. */
  function RemoveAt<T>(s: seq<T>, i: nat): (r: seq<T>)
    ensures i < |s| ==> |r| == |s| - 1 && multiset(r) + multiset{s[i]} == multiset(s)
    ensures i < |s| ==> forall j :: 0 <= j < |r| ==> r[j] == if j < i then s[j] else s[j + 1]
    ensures i >= |s| ==> r == s
  {
    if i < |s| then
      assert s == s[..i] + [s[i]] + s[i + 1..];
      s[..i] + s[i + 1..]
    else s
  }
}
