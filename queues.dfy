/**
 * The queue operations both A* searches of the portal graphs use on their
 * `Vec` of entries: `swap_remove(0)` and a stable `sort_by` on a score.
 */
module Queues {
  /** `Vec::swap_remove(0)`: the first element goes and the last takes its place. */
  function SwapRemoveFirst<T>(q: seq<T>): (r: seq<T>)
    requires q != []
    ensures |r| == |q| - 1
    ensures multiset(r) + multiset{q[0]} == multiset(q)
    ensures |q| > 1 ==> r[0] == q[|q| - 1] && r[1..] == q[1..|q| - 1]
  {
    if |q| == 1 then []
    else
      assert q == [q[0]] + q[1..|q| - 1] + [q[|q| - 1]];
      [q[|q| - 1]] + q[1..|q| - 1]
  }

  /** The sequence is in ascending order of `score`. */
  predicate SortedBy<T>(s: seq<T>, score: T -> int) {
    forall i, j :: 0 <= i < j < |s| ==> score(s[i]) <= score(s[j])
  }

  /** `x` placed before the first element of `s` that scores no better, which keeps the sort stable. */
  function InsertBy<T>(x: T, s: seq<T>, score: T -> int): (r: seq<T>)
    ensures multiset(r) == multiset(s) + multiset{x}
    ensures |r| == |s| + 1 && (r[0] == x || (s != [] && r[0] == s[0]))
  {
    if s == [] || score(x) <= score(s[0]) then [x] + s
    else
      assert s == [s[0]] + s[1..];
      [s[0]] + InsertBy(x, s[1..], score)
  }

  /** Inserting into a sorted sequence keeps it sorted. */
  lemma {:induction false} InsertKeepsSorted<T>(x: T, s: seq<T>, score: T -> int)
    requires SortedBy(s, score)
    ensures SortedBy(InsertBy(x, s, score), score)
    decreases |s|
  {
    if s != [] && score(x) > score(s[0]) {
      InsertKeepsSorted(x, s[1..], score);
      var tail := InsertBy(x, s[1..], score);
      assert InsertBy(x, s, score) == [s[0]] + tail;
      assert forall j :: 0 <= j < |tail| ==> score(s[0]) <= score(tail[j]) by {
        forall j | 0 <= j < |tail| ensures score(s[0]) <= score(tail[j]) {
          assert tail[j] in multiset(s[1..]) + multiset{x};
          if tail[j] in multiset(s[1..]) {
            var m :| 0 <= m < |s[1..]| && s[1..][m] == tail[j];
            assert s[m + 1] == tail[j];
          }
        }
      }
    }
  }

  /** `sort_by` on `score`, as an insertion sort: in ascending order of score and a permutation of `s`. */
  function SortBy<T>(s: seq<T>, score: T -> int): (r: seq<T>)
    ensures SortedBy(r, score) && multiset(r) == multiset(s)
  {
    if s == [] then []
    else
      assert s == [s[0]] + s[1..];
      InsertKeepsSorted(s[0], SortBy(s[1..], score), score);
      InsertBy(s[0], SortBy(s[1..], score), score)
  }

  /**
   * The insertion sort is stable: of two elements with the same score, the
   * one earlier in `s` stays earlier. Stated for the first element, which
   * every other element of equal score follows in the result.
   */
  lemma {:induction false} InsertByStable<T>(x: T, s: seq<T>, score: T -> int, j: nat)
    requires j < |s| && score(s[j]) == score(x)
    ensures exists a, b :: 0 <= a < b < |InsertBy(x, s, score)| && InsertBy(x, s, score)[a] == x && InsertBy(x, s, score)[b] == s[j]
    decreases |s|
  {
    var r := InsertBy(x, s, score);
    if score(x) <= score(s[0]) {
      assert r[0] == x && r[j + 1] == s[j];
    } else {
      InsertByStable(x, s[1..], score, j - 1);
      var tail := InsertBy(x, s[1..], score);
      var a, b :| 0 <= a < b < |tail| && tail[a] == x && tail[b] == s[1..][j - 1];
      assert r == [s[0]] + tail;
      assert r[a + 1] == x && r[b + 1] == s[j];
    }
  }
}
