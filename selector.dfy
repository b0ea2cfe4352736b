/**
 * `filterQuestions`: shuffle a copy of the pool (Fisher-Yates), stably move the
 * questions whose id is in the history behind the others, and keep the first
 * `min(count, n)`. `Math.random` is replaced by the supplied draws `js`: at
 * step `i` the source swaps with `floor(random * (i + 1))`, so `js[i]` is any
 * index in [0, i]. The history is passed in rather than read from storage.
 */
module Selector {
  import opened Types

  // ---------------------------------------------------------------- shuffle

  /** Every draw the loop uses lies in [0, i], as `Math.floor(Math.random() * (i + 1))` does. */
  predicate ValidDraws(js: seq<nat>, n: nat) {
    |js| == n && forall i :: 0 < i < |js| ==> js[i] <= i
  }

  function Swap(s: seq<Question>, i: nat, j: nat): (r: seq<Question>)
    requires i < |s| && j < |s|
    ensures |r| == |s| && multiset(r) == multiset(s)
  {
    s[i := s[j]][j := s[i]]
  }

  /** The swaps the loop still has to make once it has handled every index from `i` up:
      those for indices i-1, i-2, ..., 1, in that order. */
  function ShuffleBelow(s: seq<Question>, js: seq<nat>, i: nat): seq<Question>
    requires i <= |s| && ValidDraws(js, |s|)
    decreases i
  {
    if i <= 1 then s else ShuffleBelow(Swap(s, i - 1, js[i - 1]), js, i - 1)
  }

  /** The shuffled copy. */
  function Shuffle(s: seq<Question>, js: seq<nat>): (r: seq<Question>)
    requires ValidDraws(js, |s|)
    ensures |r| == |s|
  {
    ShuffleBelowPermutes(s, js, |s|);
    ShuffleBelow(s, js, |s|)
  }

  lemma {:induction false} ShuffleBelowPermutes(s: seq<Question>, js: seq<nat>, i: nat)
    requires i <= |s| && ValidDraws(js, |s|)
    ensures |ShuffleBelow(s, js, i)| == |s|
    ensures multiset(ShuffleBelow(s, js, i)) == multiset(s)
    decreases i
  {
    if i > 1 {
      ShuffleBelowPermutes(Swap(s, i - 1, js[i - 1]), js, i - 1);
    }
  }

  /** Whatever the draws (each in range), the shuffle is a permutation of the pool. */
  lemma ShufflePermutes(s: seq<Question>, js: seq<nat>)
    requires ValidDraws(js, |s|)
    ensures |Shuffle(s, js)| == |s| && multiset(Shuffle(s, js)) == multiset(s)
  {
    ShuffleBelowPermutes(s, js, |s|);
  }

  // ---------------------------------------------------------------- partition

  predicate InHistory(q: Question, history: seq<string>) {
    q.id in history
  }

  /** The questions of `s` whose id is (`seen`) or is not (`!seen`) in the history, in order. */
  function Select(s: seq<Question>, history: seq<string>, seen: bool): (r: seq<Question>)
    ensures |r| <= |s|
    ensures forall k :: 0 <= k < |r| ==> InHistory(r[k], history) == seen
    decreases |s|
  {
    if s == [] then []
    else (if InHistory(s[0], history) == seen then [s[0]] else []) + Select(s[1..], history, seen)
  }

  /** The result of `sort` with the comparator that orders "not in history" before
      "in history" and calls everything else equal; `sort` is stable (section
      23.1.3.30 of ECMA-262, since ES2019), so each group keeps its order. */
  function StablePartition(s: seq<Question>, history: seq<string>): (r: seq<Question>)
    ensures UnseenFirst(r, history)
  {
    Select(s, history, false) + Select(s, history, true)
  }

  /** No question whose id is in the history comes before one whose id is not. */
  predicate UnseenFirst(s: seq<Question>, history: seq<string>) {
    forall a, b :: 0 <= a < b < |s| && InHistory(s[a], history) ==> InHistory(s[b], history)
  }

  lemma {:induction false} SelectCount(s: seq<Question>, history: seq<string>, seen: bool, q: Question)
    ensures multiset(Select(s, history, seen))[q] == if InHistory(q, history) == seen then multiset(s)[q] else 0
    decreases |s|
  {
    if s != [] {
      SelectCount(s[1..], history, seen, q);
      assert s == [s[0]] + s[1..];
    }
  }

  /** Which questions a group holds (with multiplicity) depends only on which the pool holds. */
  lemma SelectOfPermutation(s: seq<Question>, t: seq<Question>, history: seq<string>, seen: bool)
    requires multiset(s) == multiset(t)
    ensures multiset(Select(s, history, seen)) == multiset(Select(t, history, seen))
  {
    forall q ensures multiset(Select(s, history, seen))[q] == multiset(Select(t, history, seen))[q] {
      SelectCount(s, history, seen, q);
      SelectCount(t, history, seen, q);
    }
  }

  lemma {:induction false} SelectConcat(a: seq<Question>, b: seq<Question>, history: seq<string>, seen: bool)
    ensures Select(a + b, history, seen) == Select(a, history, seen) + Select(b, history, seen)
    decreases |a|
  {
    if a == [] {
      assert a + b == b;
    } else {
      var head := if InHistory(a[0], history) == seen then [a[0]] else [];
      assert (a + b)[0] == a[0];
      assert (a + b)[1..] == a[1..] + b;
      SelectConcat(a[1..], b, history, seen);
      assert Select(a + b, history, seen) == head + Select(a[1..] + b, history, seen);
      assert Select(a, history, seen) == head + Select(a[1..], history, seen);
    }
  }

  lemma {:induction false} SelectAll(s: seq<Question>, history: seq<string>, seen: bool)
    requires forall k :: 0 <= k < |s| ==> InHistory(s[k], history) == seen
    ensures Select(s, history, seen) == s
    ensures Select(s, history, !seen) == []
    decreases |s|
  {
    if s != [] {
      SelectAll(s[1..], history, seen);
    }
  }

  /** The partition is a permutation, puts unseen questions first, and keeps the
      shuffled order inside each group. */
  lemma PartitionIsStableSort(s: seq<Question>, history: seq<string>)
    ensures multiset(StablePartition(s, history)) == multiset(s)
    ensures UnseenFirst(StablePartition(s, history), history)
    ensures Select(StablePartition(s, history), history, false) == Select(s, history, false)
    ensures Select(StablePartition(s, history), history, true) == Select(s, history, true)
  {
    PartitionPermutes(s, history);
    PartitionKeepsGroups(s, history);
  }

  lemma PartitionPermutes(s: seq<Question>, history: seq<string>)
    ensures multiset(StablePartition(s, history)) == multiset(s)
  {
    var u, v := Select(s, history, false), Select(s, history, true);
    forall q ensures multiset(u + v)[q] == multiset(s)[q] {
      SelectCount(s, history, false, q);
      SelectCount(s, history, true, q);
    }
  }

  lemma PartitionKeepsGroups(s: seq<Question>, history: seq<string>)
    ensures UnseenFirst(StablePartition(s, history), history)
    ensures Select(StablePartition(s, history), history, false) == Select(s, history, false)
    ensures Select(StablePartition(s, history), history, true) == Select(s, history, true)
  {
    var u, v := Select(s, history, false), Select(s, history, true);
    SelectConcat(u, v, history, false);
    SelectConcat(u, v, history, true);
    SelectAll(u, history, false);
    SelectAll(v, history, true);
  }

  lemma {:induction false} UnseenFirstSplits(t: seq<Question>, history: seq<string>)
    requires UnseenFirst(t, history)
    ensures t == Select(t, history, false) + Select(t, history, true)
    decreases |t|
  {
    if t != [] {
      UnseenFirstSplits(t[1..], history);
      if InHistory(t[0], history) {
        assert forall k :: 0 <= k < |t[1..]| ==> InHistory(t[1..][k], history);
        SelectAll(t[1..], history, true);
      }
    }
  }

  /** Conversely, any order that puts unseen questions first and keeps each group's
      order is this partition: the stable sort's result is unique. */
  lemma StableSortIsPartition(s: seq<Question>, t: seq<Question>, history: seq<string>)
    requires UnseenFirst(t, history)
    requires Select(t, history, false) == Select(s, history, false)
    requires Select(t, history, true) == Select(s, history, true)
    ensures t == StablePartition(s, history)
  {
    UnseenFirstSplits(t, history);
  }

  // ---------------------------------------------------------------- slice

  /** The end index `slice(0, end)` uses on a list of length `len`: a negative end
      counts from the back, and the result is clamped to [0, len]. */
  function SliceEnd(end: int, len: nat): (e: nat)
    ensures e <= len
  {
    if end < 0 then (if len + end > 0 then len + end else 0)
    else if end < len then end else len
  }

  function Min(a: int, b: int): int {
    if a < b then a else b
  }

  // ---------------------------------------------------------------- filterQuestions

  method FilterQuestions(allQuestions: seq<Question>, count: int, history: seq<string>, js: seq<nat>)
    returns (r: seq<Question>)
    requires ValidDraws(js, |allQuestions|)
    ensures r <= StablePartition(Shuffle(allQuestions, js), history)
    ensures count >= 0 ==> |r| == Min(count, |allQuestions|)
    ensures count < 0 ==> |r| == if |allQuestions| + count > 0 then |allQuestions| + count else 0
    ensures multiset(r) <= multiset(allQuestions)
    ensures UnseenFirst(r, history)
    ensures count >= |Select(allQuestions, history, false)| ==>
      multiset(Select(allQuestions, history, false)) <= multiset(r)
  {
    var n := |allQuestions|;
    var shuffled := new Question[n](k requires 0 <= k < n => allQuestions[k]);
    assert shuffled[..] == allQuestions;
    ShuffleInPlace(shuffled, js);
    var sorted := StablePartition(shuffled[..], history);
    r := sorted[..SliceEnd(Min(count, |sorted|), |sorted|)];
    SortedPermutes(allQuestions, js, history);
    SelectedFacts(allQuestions, js, history, r, count);
  }

  /** The Fisher-Yates loop over the copy, from the last index down to 1. */
  method ShuffleInPlace(a: array<Question>, js: seq<nat>)
    requires ValidDraws(js, a.Length)
    modifies a
    ensures a[..] == Shuffle(old(a[..]), js)
  {
    ghost var original := a[..];
    var i := a.Length - 1;
    while i > 0
      invariant -1 <= i < a.Length
      invariant a.Length == 0 ==> i == -1
      invariant ShuffleBelow(a[..], js, i + 1) == Shuffle(original, js)
    {
      ShuffleBelowStep(a[..], js, i);
      SwapAt(a, i, js[i]);
      i := i - 1;
    }
    assert ShuffleBelow(a[..], js, i + 1) == a[..];
  }

  /** `[shuffled[i], shuffled[j]] = [shuffled[j], shuffled[i]]`. */
  method SwapAt(a: array<Question>, i: nat, j: nat)
    requires i < a.Length && j < a.Length
    modifies a
    ensures a[..] == Swap(old(a[..]), i, j)
  {
    a[i], a[j] := a[j], a[i];
  }

  /** One iteration of the loop: the swap at index `i` followed by the swaps below it. */
  lemma ShuffleBelowStep(s: seq<Question>, js: seq<nat>, i: nat)
    requires 0 < i < |s| && ValidDraws(js, |s|)
    ensures js[i] <= i
    ensures ShuffleBelow(s, js, i + 1) == ShuffleBelow(Swap(s, i, js[i]), js, i)
  {
  }

  /** The properties of a prefix of the partitioned shuffle that FilterQuestions promises. */
  lemma SelectedFacts(all: seq<Question>, js: seq<nat>, history: seq<string>, r: seq<Question>, count: int)
    requires ValidDraws(js, |all|)
    requires r <= StablePartition(Shuffle(all, js), history)
    requires |r| == SliceEnd(Min(count, |all|), |all|)
    ensures count >= 0 ==> |r| == Min(count, |all|)
    ensures count < 0 ==> |r| == if |all| + count > 0 then |all| + count else 0
    ensures multiset(r) <= multiset(all)
    ensures UnseenFirst(r, history)
    ensures count >= |Select(all, history, false)| ==> multiset(Select(all, history, false)) <= multiset(r)
  {
    var shuffled := Shuffle(all, js);
    SortedPermutes(all, js, history);
    SliceLength(count, |all|);
    PrefixKeeps(StablePartition(shuffled, history), r, history);
    ShufflePermutes(all, js);
    SelectedCoversUnseen(all, shuffled, history, r, count);
  }

  /** The shuffled and sorted pool is a permutation of the pool, with unseen questions first. */
  lemma SortedPermutes(all: seq<Question>, js: seq<nat>, history: seq<string>)
    requires ValidDraws(js, |all|)
    ensures multiset(StablePartition(Shuffle(all, js), history)) == multiset(all)
    ensures |StablePartition(Shuffle(all, js), history)| == |all|
    ensures UnseenFirst(StablePartition(Shuffle(all, js), history), history)
  {
    var shuffled := Shuffle(all, js);
    ShufflePermutes(all, js);
    PartitionPermutes(shuffled, history);
    PartitionKeepsGroups(shuffled, history);
    SameMultisetSameLength(StablePartition(shuffled, history), all);
  }

  /** A prefix of the partition whose length is at least the requested count holds
      every unseen question of the pool. */
  lemma SelectedCoversUnseen(all: seq<Question>, shuffled: seq<Question>, history: seq<string>, r: seq<Question>, count: int)
    requires multiset(shuffled) == multiset(all)
    requires r <= StablePartition(shuffled, history)
    requires count >= |Select(all, history, false)| ==> |r| >= |Select(all, history, false)|
    ensures count >= |Select(all, history, false)| ==> multiset(Select(all, history, false)) <= multiset(r)
  {
    var unseen, unseenShuffled := Select(all, history, false), Select(shuffled, history, false);
    SelectOfPermutation(all, shuffled, history, false);
    SameMultisetSameLength(unseen, unseenShuffled);
    if count >= |unseen| {
      PrefixHoldsUnseen(shuffled, history, r);
    }
  }

  /** How many elements `slice(0, min(count, len))` keeps, for either sign of `count`. */
  lemma SliceLength(count: int, len: nat)
    ensures count >= 0 ==> SliceEnd(Min(count, len), len) == Min(count, len)
    ensures count < 0 ==> SliceEnd(Min(count, len), len) == if len + count > 0 then len + count else 0
  {
  }

  lemma SameMultisetSameLength(a: seq<Question>, b: seq<Question>)
    requires multiset(a) == multiset(b)
    ensures |a| == |b|
  {
    assert |a| == |multiset(a)|;
    assert |b| == |multiset(b)|;
  }

  lemma PrefixKeeps(sorted: seq<Question>, r: seq<Question>, history: seq<string>)
    requires r <= sorted
    ensures multiset(r) <= multiset(sorted)
    ensures UnseenFirst(sorted, history) ==> UnseenFirst(r, history)
  {
    assert sorted == r + sorted[|r|..];
    assert multiset(sorted) == multiset(r) + multiset(sorted[|r|..]);
  }

  /** A prefix at least as long as the unseen group holds all of it. */
  lemma PrefixHoldsUnseen(shuffled: seq<Question>, history: seq<string>, r: seq<Question>)
    requires r <= StablePartition(shuffled, history)
    requires |r| >= |Select(shuffled, history, false)|
    ensures multiset(Select(shuffled, history, false)) <= multiset(r)
  {
    var u := Select(shuffled, history, false);
    assert r[..|u|] == u;
    assert r == u + r[|u|..];
    assert multiset(r) == multiset(u) + multiset(r[|u|..]);
  }
}
