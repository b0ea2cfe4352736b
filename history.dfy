/**
 * The history of served question ids: `addToHistory`'s merge
 * `[...new Set([...questionIds, ...history])].slice(0, MAX_HISTORY)`.
 * Reading and writing `localStorage` is not modelled: the stored history is
 * passed in and the new one returned.
 */
module History {
  const MaxHistory: nat := 50

  predicate NoDup(s: seq<string>) {
    forall i, j :: 0 <= i < j < |s| ==> s[i] != s[j]
  }

  function Elements(s: seq<string>): set<string> {
    set x | x in s
  }

  /** `s` with every element already in `seen`, or seen earlier in `s`, dropped:
      the iteration order of a `Set` built from `s`, after the ids in `seen`. */
  function DedupAfter(s: seq<string>, seen: set<string>): (r: seq<string>)
    ensures |r| <= |s|
    decreases |s|
  {
    if s == [] then []
    else if s[0] in seen then DedupAfter(s[1..], seen)
    else [s[0]] + DedupAfter(s[1..], seen + {s[0]})
  }

  /** `[...new Set(s)]`: each element once, at its first occurrence. */
  function Dedup(s: seq<string>): (r: seq<string>)
    ensures NoDup(r)
    ensures forall x :: x in r <==> x in s
  {
    DedupAfterProps(s, {});
    DedupAfter(s, {})
  }

  /** `.slice(0, MAX_HISTORY)`. */
  function Cap(s: seq<string>): (r: seq<string>)
    ensures |r| == if |s| <= MaxHistory then |s| else MaxHistory
    ensures r <= s
    ensures forall x :: x in r ==> x in s
  {
    if |s| <= MaxHistory then s else s[..MaxHistory]
  }

  /** The merge `addToHistory` stores: the new ids, newest first, before the old history. */
  function AddToHistory(questionIds: seq<string>, history: seq<string>): (r: seq<string>)
    ensures NoDup(r) && |r| <= MaxHistory
    ensures forall x :: x in r ==> x in questionIds || x in history
  {
    DedupAfterProps(questionIds + history, {});
    Cap(Dedup(questionIds + history))
  }

  /** The position of the first occurrence of `x` in `s`. */
  function FirstIndex(s: seq<string>, x: string): (k: nat)
    requires x in s
    ensures k < |s| && s[k] == x && x !in s[..k]
  {
    if s[0] == x then 0 else 1 + FirstIndex(s[1..], x)
  }

  lemma {:induction false} DedupAfterProps(s: seq<string>, seen: set<string>)
    ensures forall x :: x in DedupAfter(s, seen) <==> x in s && x !in seen
    ensures NoDup(DedupAfter(s, seen))
    decreases |s|
  {
    if s != [] {
      if s[0] in seen {
        DedupAfterProps(s[1..], seen);
        assert forall x :: x in s <==> x == s[0] || x in s[1..];
      } else {
        DedupAfterProps(s[1..], seen + {s[0]});
        assert forall x :: x in s <==> x == s[0] || x in s[1..];
      }
    }
  }

  /** Each id once, in the order of its first occurrence: ids appear in the
      deduplicated list in increasing order of where they first occur. */
  lemma FirstIndexTail(s: seq<string>, x: string)
    requires x in s && x != s[0]
    ensures x in s[1..] && FirstIndex(s, x) == 1 + FirstIndex(s[1..], x)
  {
  }

  /** Every element of `r` occurs in `s`, and `r` lists them in increasing order
      of their first occurrence in `s`. */
  predicate InFirstOccurrenceOrder(r: seq<string>, s: seq<string>) {
    && (forall x :: x in r ==> x in s)
    && forall a, b :: 0 <= a < b < |r| && r[a] in s && r[b] in s ==> FirstIndex(s, r[a]) < FirstIndex(s, r[b])
  }

  lemma {:induction false} DedupFirstOccurrenceOrder(s: seq<string>, seen: set<string>)
    ensures InFirstOccurrenceOrder(DedupAfter(s, seen), s)
    decreases |s|
  {
    if s != [] {
      var t := s[1..];
      var next := if s[0] in seen then seen else seen + {s[0]};
      DedupFirstOccurrenceOrder(t, next);
      DedupAfterProps(t, next);
      ShiftOrder(s, DedupAfter(t, next));
    }
  }

  /** An order on the tail of `s` that avoids `s[0]` is an order on `s`, also
      with `s[0]` put in front. */
  lemma ShiftOrder(s: seq<string>, rt: seq<string>)
    requires s != [] && s[0] !in rt && InFirstOccurrenceOrder(rt, s[1..])
    ensures InFirstOccurrenceOrder(rt, s)
    ensures InFirstOccurrenceOrder([s[0]] + rt, s)
  {
    FirstIndexShift(s, rt);
    var r := [s[0]] + rt;
    assert FirstIndex(s, s[0]) == 0;
    forall a, b | 0 <= a < b < |r| ensures FirstIndex(s, r[a]) < FirstIndex(s, r[b]) {
      assert r[b] == rt[b - 1];
      if a > 0 {
        assert r[a] == rt[a - 1];
      }
    }
  }

  /** First occurrences in `s` of the tail's elements other than `s[0]` are one
      past their first occurrences in the tail. */
  lemma FirstIndexShift(s: seq<string>, rt: seq<string>)
    requires s != [] && s[0] !in rt && forall x :: x in rt ==> x in s[1..]
    ensures forall x :: x in rt ==> x in s && FirstIndex(s, x) == 1 + FirstIndex(s[1..], x)
  {
    forall x | x in rt ensures x in s && FirstIndex(s, x) == 1 + FirstIndex(s[1..], x) {
      FirstIndexTail(s, x);
    }
  }

  lemma {:induction false} DedupAfterConcat(a: seq<string>, b: seq<string>, seen: set<string>)
    ensures DedupAfter(a + b, seen) == DedupAfter(a, seen) + DedupAfter(b, seen + Elements(a))
    decreases |a|
  {
    if a == [] {
      assert a + b == b;
      assert seen + Elements(a) == seen;
    } else {
      assert (a + b)[0] == a[0];
      assert (a + b)[1..] == a[1..] + b;
      var next := if a[0] in seen then seen else seen + {a[0]};
      DedupAfterConcat(a[1..], b, next);
      assert next + Elements(a[1..]) == seen + Elements(a);
    }
  }

  lemma {:induction false} DedupAfterFresh(s: seq<string>, seen: set<string>)
    requires NoDup(s) && Elements(s) !! seen
    ensures DedupAfter(s, seen) == s
    decreases |s|
  {
    if s != [] {
      assert s[0] in Elements(s);
      assert Elements(s[1..]) !! seen + {s[0]} by {
        forall x | x in s[1..] ensures x != s[0] && x in Elements(s) {
          var k :| 0 <= k < |s[1..]| && s[1..][k] == x;
          assert s[k + 1] == x;
        }
      }
      DedupAfterFresh(s[1..], seen + {s[0]});
    }
  }

  lemma {:induction false} DedupAfterSeen(s: seq<string>, seen: set<string>)
    requires Elements(s) <= seen
    ensures DedupAfter(s, seen) == []
    decreases |s|
  {
    if s != [] {
      assert s[0] in Elements(s);
      assert Elements(s[1..]) <= Elements(s);
      DedupAfterSeen(s[1..], seen);
    }
  }

  /** The merge puts the new ids first, deduplicated, then the old entries that
      are not among them, in their old order. */
  lemma MergeOrder(questionIds: seq<string>, history: seq<string>)
    ensures AddToHistory(questionIds, history) ==
      Cap(Dedup(questionIds) + DedupAfter(history, Elements(questionIds)))
  {
    DedupAfterConcat(questionIds, history, {});
    assert {} + Elements(questionIds) == Elements(questionIds);
  }

  /** Recording at least 50 distinct new ids keeps exactly the first 50 of them,
      whatever the old history was. */
  lemma FirstFiftyWin(questionIds: seq<string>, history: seq<string>)
    requires |Dedup(questionIds)| >= MaxHistory
    ensures AddToHistory(questionIds, history) == Dedup(questionIds)[..MaxHistory]
  {
    MergeOrder(questionIds, history);
    var d := Dedup(questionIds);
    assert (d + DedupAfter(history, Elements(questionIds)))[..MaxHistory] == d[..MaxHistory];
  }

  /** The rollover case: 50 or more distinct ids against any history store the first 50. */
  lemma Rollover(questionIds: seq<string>, history: seq<string>)
    requires NoDup(questionIds) && |questionIds| >= MaxHistory
    ensures AddToHistory(questionIds, history) == questionIds[..MaxHistory]
  {
    DedupAfterFresh(questionIds, {});
    FirstFiftyWin(questionIds, history);
  }

  /** Recording the same ids twice stores the same history as recording them once. */
  lemma AddToHistoryIdempotent(questionIds: seq<string>, history: seq<string>)
    ensures AddToHistory(questionIds, AddToHistory(questionIds, history)) == AddToHistory(questionIds, history)
  {
    var ids := Elements(questionIds);
    var d := Dedup(questionIds);
    var h1 := AddToHistory(questionIds, history);
    MergeOrder(questionIds, history);
    MergeOrder(questionIds, h1);
    DedupAfterProps(questionIds, {});
    assert forall x :: x in d ==> x in ids;
    var rest := DedupAfter(history, ids);
    if |d| >= MaxHistory {
      IdempotentWhenFull(d, rest, ids);
    } else {
      DedupAfterProps(history, ids);
      IdempotentWhenRoom(d, rest, ids);
    }
  }

  lemma IdempotentWhenFull(d: seq<string>, rest: seq<string>, ids: set<string>)
    requires |d| >= MaxHistory && Elements(d) <= ids
    ensures Cap(d + DedupAfter(Cap(d + rest), ids)) == Cap(d + rest)
  {
    var h1 := Cap(d + rest);
    assert h1 == d[..MaxHistory];
    assert Elements(h1) <= ids;
    DedupAfterSeen(h1, ids);
    assert d + [] == d;
  }

  lemma IdempotentWhenRoom(d: seq<string>, rest: seq<string>, ids: set<string>)
    requires |d| < MaxHistory && Elements(d) <= ids
    requires NoDup(rest) && Elements(rest) !! ids
    ensures Cap(d + DedupAfter(Cap(d + rest), ids)) == Cap(d + rest)
  {
    var m := if |rest| <= MaxHistory - |d| then |rest| else MaxHistory - |d|;
    var kept := rest[..m];
    assert Cap(d + rest) == d + kept;
    assert NoDup(kept);
    assert Elements(kept) !! ids + Elements(d) by {
      forall x | x in kept ensures x in rest { }
    }
    DedupAfterConcat(d, kept, ids);
    DedupAfterSeen(d, ids);
    DedupAfterFresh(kept, ids + Elements(d));
    assert DedupAfter(d + kept, ids) == kept;
  }
}
