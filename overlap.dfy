/** When two fifty-minute sessions collide, on plain minute counts: the
    pairwise definition, its equivalent on a sorted list (neighbours only),
    and the facts that let a check on a sorted copy speak about the original
    list. */
module Overlap {
  import opened Collections
  import opened SlotTime

  /** Sessions starting at minutes `a` and `b` share at least one minute. */
  predicate TooClose(a: int, b: int) {
    a - b < FixedDuration && b - a < FixedDuration
  }

  /** Two different entries of `s` start sessions that share a minute. */
  predicate HasCloseStarts(s: seq<nat>) {
    exists i, j :: 0 <= i < |s| && 0 <= j < |s| && i != j && TooClose(s[i], s[j])
  }

  /** The comparator `(a, b) => a - b` read as "a comes no later than b". */
  const Ascending: (nat, nat) -> bool := (a: nat, b: nat) => a <= b

  lemma AscendingIsTotalPreorder()
    ensures TotalPreorder(Ascending)
  {
  }

  /** In an ascending list two starts collide exactly when two neighbours do,
      which is what makes a single pass over neighbours a complete check. */
  lemma SortedCloseStarts(s: seq<nat>)
    requires Sorted(s, Ascending)
    ensures HasCloseStarts(s) <==> exists i :: 0 <= i < |s| - 1 && s[i + 1] < s[i] + FixedDuration
  {
    if HasCloseStarts(s) {
      var i, j :| 0 <= i < |s| && 0 <= j < |s| && i != j && TooClose(s[i], s[j]);
      var lo, hi := if i < j then i else j, if i < j then j else i;
      assert lo + 1 <= hi;
      if lo + 1 < hi {
        assert Ascending(s[lo + 1], s[hi]);
      }
      assert Ascending(s[lo], s[hi]);
      assert s[lo + 1] < s[lo] + FixedDuration;
    }
    if exists i :: 0 <= i < |s| - 1 && s[i + 1] < s[i] + FixedDuration {
      var i :| 0 <= i < |s| - 1 && s[i + 1] < s[i] + FixedDuration;
      assert Ascending(s[i], s[i + 1]);
      assert TooClose(s[i], s[i + 1]);
    }
  }

  /** The values at two different positions form a sub-multiset. */
  lemma PairAtIndices(s: seq<nat>, i: nat, j: nat)
    requires i < |s| && j < |s| && i != j
    ensures multiset{s[i], s[j]} <= multiset(s)
  {
    var lo, hi := if i < j then i else j, if i < j then j else i;
    var front, back := s[..hi], s[hi..];
    assert s == front + back;
    assert front == s[..lo] + [s[lo]] + s[lo + 1..hi];
    assert back == [s[hi]] + s[hi + 1..];
    assert s[lo] in multiset(front) && s[hi] in multiset(back);
    assert multiset(s) == multiset(front) + multiset(back);
  }

  /** A two-element sub-multiset sits at two different positions. */
  lemma IndicesOfPair(s: seq<nat>, a: nat, b: nat)
    requires multiset{a, b} <= multiset(s)
    ensures exists i, j :: 0 <= i < |s| && 0 <= j < |s| && i != j && s[i] == a && s[j] == b
  {
    assert a in multiset(s);
    var i :| 0 <= i < |s| && s[i] == a;
    var rest := s[..i] + s[i + 1..];
    assert s == s[..i] + [a] + s[i + 1..];
    assert multiset(rest) == multiset(s) - multiset{a};
    assert b in multiset(rest);
    var k :| 0 <= k < |rest| && rest[k] == b;
    var j := if k < i then k else k + 1;
    assert s[j] == b;
  }

  /** Whether two starts collide does not depend on the order of the list. */
  lemma CloseStartsPermutation(s: seq<nat>, t: seq<nat>)
    requires multiset(s) == multiset(t)
    ensures HasCloseStarts(s) ==> HasCloseStarts(t)
  {
    if HasCloseStarts(s) {
      var i, j :| 0 <= i < |s| && 0 <= j < |s| && i != j && TooClose(s[i], s[j]);
      PairAtIndices(s, i, j);
      IndicesOfPair(t, s[i], s[j]);
    }
  }

  /** Two colliding neighbours of a sorted copy are two different entries of
      the original list. */
  lemma NeighboursInOriginal(s: seq<nat>, sorted: seq<nat>, i: nat)
    requires multiset(sorted) == multiset(s) && Sorted(sorted, Ascending)
    requires i + 1 < |sorted| && sorted[i + 1] < sorted[i] + FixedDuration
    ensures sorted[i] <= sorted[i + 1] && TooClose(sorted[i], sorted[i + 1])
    ensures exists a, b :: 0 <= a < |s| && 0 <= b < |s| && a != b
                           && s[a] == sorted[i] && s[b] == sorted[i + 1]
  {
    assert Ascending(sorted[i], sorted[i + 1]);
    PairAtIndices(sorted, i, i + 1);
    IndicesOfPair(s, sorted[i], sorted[i + 1]);
  }
}
