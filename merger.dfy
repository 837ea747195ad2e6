/**
 * Change detection and the merge of merger.go. Events are identified by a
 * key built from their start and end rendered in RFC 3339 without fraction,
 * i.e. at whole-second precision; the merge keeps one event per key, the
 * last one written, and sorts the result by start time.
 */
module Merger {
  import opened Wrappers
  import opened Timestamps
  import opened Events

  /** The `start_end` key string, as the pair of whole-second ranks it spells. */
  datatype Key = Key(start: int, end: int)

  function KeyOf(e: Event): Key {
    Key(Rank(e.startAt) / 1000, Rank(e.endAt) / 1000)
  }

  /** Two events share a key exactly when their starts and their ends agree to the second. */
  lemma KeyIsSecondPrecision(a: Event, b: Event)
    ensures KeyOf(a) == KeyOf(b) <==> SameSecond(a.startAt, b.startAt) && SameSecond(a.endAt, b.endAt)
  {
    RankToSeconds(a.startAt);
    RankToSeconds(b.startAt);
    RankToSeconds(a.endAt);
    RankToSeconds(b.endAt);
    SecondRankInjective(a.startAt, b.startAt);
    SecondRankInjective(a.endAt, b.endAt);
  }

  function KeySet(s: seq<Event>): set<Key> {
    set i | 0 <= i < |s| :: KeyOf(s[i])
  }

  lemma KeySetConcat(a: seq<Event>, b: seq<Event>)
    ensures KeySet(a + b) == KeySet(a) + KeySet(b)
  {
    forall k | k in KeySet(a + b) ensures k in KeySet(a) + KeySet(b) {
      var i :| 0 <= i < |a + b| && KeyOf((a + b)[i]) == k;
      if i >= |a| {
        assert KeyOf(b[i - |a|]) == k;
      }
    }
    forall k | k in KeySet(a) ensures k in KeySet(a + b) {
      var i :| 0 <= i < |a| && KeyOf(a[i]) == k;
      assert (a + b)[i] == a[i];
    }
    forall k | k in KeySet(b) ensures k in KeySet(a + b) {
      var i :| 0 <= i < |b| && KeyOf(b[i]) == k;
      assert (a + b)[|a| + i] == b[i];
    }
  }

  lemma KeySetSnoc(p: seq<Event>, e: Event)
    ensures KeySet(p + [e]) == KeySet(p) + {KeyOf(e)}
  {
    KeySetConcat(p, [e]);
    assert KeyOf([e][0]) in KeySet([e]);
  }

  /** Appending keeps the keys distinct exactly when the new key is not there yet. */
  lemma DistinctSnoc(p: seq<Event>, e: Event)
    ensures DistinctKeys(p + [e]) <==> DistinctKeys(p) && KeyOf(e) !in KeySet(p)
  {
    var s := p + [e];
    if KeyOf(e) in KeySet(p) {
      var i :| 0 <= i < |p| && KeyOf(p[i]) == KeyOf(e);
      assert KeyOf(s[i]) == KeyOf(s[|p|]);
    }
    if !DistinctKeys(p) {
      var i, j :| 0 <= i < j < |p| && KeyOf(p[i]) == KeyOf(p[j]);
      assert KeyOf(s[i]) == KeyOf(s[j]);
    }
  }

  predicate DistinctKeys(s: seq<Event>) {
    forall i, j :: 0 <= i < j < |s| ==> KeyOf(s[i]) != KeyOf(s[j])
  }

  /** A list holds one event per key exactly when it is as long as its key set. */
  lemma {:induction false} DistinctKeysCount(s: seq<Event>)
    ensures |KeySet(s)| <= |s|
    ensures DistinctKeys(s) <==> |KeySet(s)| == |s|
  {
    if s != [] {
      var p, e := s[..|s| - 1], s[|s| - 1];
      assert s == p + [e];
      DistinctKeysCount(p);
      KeySetSnoc(p, e);
      DistinctSnoc(p, e);
    }
  }

  /** A permutation has the same keys. */
  lemma KeySetOfPermutation(s: seq<Event>, t: seq<Event>)
    requires multiset(s) == multiset(t)
    ensures KeySet(s) == KeySet(t) && |s| == |t|
  {
    assert |s| == |multiset(s)| == |multiset(t)| == |t|;
    forall k | k in KeySet(s) ensures k in KeySet(t) {
      var i :| 0 <= i < |s| && KeyOf(s[i]) == k;
      assert s[i] in multiset(t);
      var j :| 0 <= j < |t| && t[j] == s[i];
    }
    forall k | k in KeySet(t) ensures k in KeySet(s) {
      var j :| 0 <= j < |t| && KeyOf(t[j]) == k;
      assert t[j] in multiset(s);
      var i :| 0 <= i < |s| && s[i] == t[j];
    }
  }

  // ---------------------------------------------------------------------
  // Last write wins

  /** The last event of `s` with key `k`: the one a map insertion in order leaves behind. */
  function LastWithKey(s: seq<Event>, k: Key): (r: Option<Event>)
    ensures r.Some? ==> KeyOf(r.value) == k
  {
    if s == [] then None
    else if KeyOf(s[|s| - 1]) == k then Some(s[|s| - 1])
    else LastWithKey(s[..|s| - 1], k)
  }

  /** `LastWithKey` finds a key exactly when the list has it. */
  lemma {:induction false} LastWithKeyFound(s: seq<Event>, k: Key)
    ensures LastWithKey(s, k).Some? <==> k in KeySet(s)
  {
    if s != [] {
      var p := s[..|s| - 1];
      assert s == p + [s[|s| - 1]];
      KeySetConcat(p, [s[|s| - 1]]);
      assert KeySet([s[|s| - 1]]) == {KeyOf(s[|s| - 1])};
      LastWithKeyFound(p, k);
    }
  }

  /** The event at index `i` is the one kept for its key when no later event has that key. */
  lemma {:induction false} LastWithKeyIsLast(s: seq<Event>, i: int)
    requires 0 <= i < |s|
    requires forall j :: i < j < |s| ==> KeyOf(s[j]) != KeyOf(s[i])
    ensures LastWithKey(s, KeyOf(s[i])) == Some(s[i])
  {
    if i < |s| - 1 {
      LastWithKeyIsLast(s[..|s| - 1], i);
    }
  }

  /** In a concatenation, the second part's copy of a key wins; otherwise the first part's. */
  lemma {:induction false} LastWithKeyConcat(a: seq<Event>, b: seq<Event>, k: Key)
    ensures LastWithKey(a + b, k) == if LastWithKey(b, k).Some? then LastWithKey(b, k) else LastWithKey(a, k)
  {
    if b == [] {
      assert a + b == a;
    } else {
      assert (a + b)[..|a + b| - 1] == a + b[..|b| - 1];
      LastWithKeyConcat(a, b[..|b| - 1], k);
    }
  }

  /** In a list with one event per key, each event is the one kept for its key. */
  lemma LastOfDistinct(r: seq<Event>, j: int)
    requires DistinctKeys(r) && 0 <= j < |r|
    ensures LastWithKey(r, KeyOf(r[j])) == Some(r[j])
  {
    LastWithKeyIsLast(r, j);
  }

  /** The map built by inserting each event of `s` under its key, in order. */
  function Index(s: seq<Event>): map<Key, Event> {
    if s == [] then map[] else Index(s[..|s| - 1])[KeyOf(s[|s| - 1]) := s[|s| - 1]]
  }

  /** The key-indexed map has exactly the keys of `s`, and each key maps to the last event of `s` with that key. */
  lemma {:induction false} IndexSpec(s: seq<Event>)
    ensures Index(s).Keys == KeySet(s)
    ensures forall k :: k in Index(s) ==> Some(Index(s)[k]) == LastWithKey(s, k)
  {
    if s != [] {
      var p, e := s[..|s| - 1], s[|s| - 1];
      assert s == p + [e];
      IndexSpec(p);
      KeySetSnoc(p, e);
    }
  }

  /** Indexing one more event is one more map assignment. */
  lemma IndexSnoc(p: seq<Event>, e: Event)
    ensures Index(p + [e]) == Index(p)[KeyOf(e) := e]
  {
    assert (p + [e])[..|p|] == p;
  }

  /**
   * What a merge of the events `s` (in write order) must return: sorted by
   * start, one event per key, every key of `s`, and for each key the last
   * event of `s` that has it.
   */
  predicate IsDedupOf(r: seq<Event>, s: seq<Event>) {
    && SortedByStart(r)
    && DistinctKeys(r)
    && KeySet(r) == KeySet(s)
    && forall i :: 0 <= i < |r| ==> LastWithKey(s, KeyOf(r[i])) == Some(r[i])
  }

  // ---------------------------------------------------------------------
  // hasChanges

  /** The condition hasChanges reports: a different count, or a key of `incoming` absent from `existing`. */
  predicate Differs(existing: seq<Event>, incoming: seq<Event>) {
    |existing| != |incoming| || exists i :: 0 <= i < |incoming| && KeyOf(incoming[i]) !in KeySet(existing)
  }

  /** hasChanges(existing, incoming), with its set of existing keys and its early returns. */
  method HasChanges(existing: seq<Event>, incoming: seq<Event>) returns (changed: bool)
    ensures changed <==> Differs(existing, incoming)
  {
    if |existing| != |incoming| {
      return true;
    }
    var existingMap: set<Key> := {};
    for i := 0 to |existing|
      invariant existingMap == KeySet(existing[..i])
    {
      KeySetConcat(existing[..i], [existing[i]]);
      assert existing[..i + 1] == existing[..i] + [existing[i]];
      assert KeySet([existing[i]]) == {KeyOf(existing[i])};
      existingMap := existingMap + {KeyOf(existing[i])};
    }
    assert existing[..|existing|] == existing;
    for i := 0 to |incoming|
      invariant forall j :: 0 <= j < i ==> KeyOf(incoming[j]) in existingMap
    {
      if KeyOf(incoming[i]) !in existingMap {
        return true;
      }
    }
    return false;
  }

  /** hasChanges looks at keys only: lists with the same keys position by position give the same answer. */
  lemma DiffersSeesOnlyKeys(existing: seq<Event>, existing': seq<Event>, incoming: seq<Event>, incoming': seq<Event>)
    requires |existing| == |existing'| && forall i :: 0 <= i < |existing| ==> KeyOf(existing[i]) == KeyOf(existing'[i])
    requires |incoming| == |incoming'| && forall i :: 0 <= i < |incoming| ==> KeyOf(incoming[i]) == KeyOf(incoming'[i])
    ensures Differs(existing, incoming) == Differs(existing', incoming')
  {
    assert KeySet(existing) == KeySet(existing') by {
      forall k | k in KeySet(existing) ensures k in KeySet(existing') {
        var i :| 0 <= i < |existing| && KeyOf(existing[i]) == k;
      }
      forall k | k in KeySet(existing') ensures k in KeySet(existing) {
        var i :| 0 <= i < |existing'| && KeyOf(existing'[i]) == k;
      }
    }
  }

  /** "No change" on a list of distinct keys means the same count and the same key set. */
  lemma NoChangeMeansSameKeys(existing: seq<Event>, incoming: seq<Event>)
    requires DistinctKeys(incoming) && !Differs(existing, incoming)
    ensures KeySet(incoming) == KeySet(existing)
  {
    assert KeySet(incoming) <= KeySet(existing);
    DistinctKeysCount(incoming);
    DistinctKeysCount(existing);
    SubsetOfSameSize(KeySet(incoming), KeySet(existing));
  }

  lemma SubsetOfSameSize(a: set<Key>, b: set<Key>)
    requires a <= b && |b| <= |a|
    ensures a == b
  {
    if a != b {
      StrictSubsetSmaller(a, b);
    }
  }

  lemma StrictSubsetSmaller(a: set<Key>, b: set<Key>)
    requires a < b
    ensures |a| < |b|
  {
    assert b == a + (b - a);
    assert exists x :: x in b && x !in a;
    var x :| x in b && x !in a;
    SubsetSize(a, b - {x});
  }

  lemma SubsetSize(a: set<Key>, b: set<Key>)
    requires a <= b
    ensures |a| <= |b|
  {
    assert b == a + (b - a);
  }

  // ---------------------------------------------------------------------
  // mergeEvents

  /**
   * mergeEvents(existing, incoming): inserts every event of `existing`, then of
   * `incoming`, into a map by key, collects the map's values in whatever order
   * the map yields them, and sorts them in place by start time.
   */
  method MergeEvents(existing: seq<Event>, incoming: seq<Event>) returns (merged: seq<Event>)
    ensures IsDedupOf(merged, existing + incoming)
    ensures |merged| == |KeySet(existing) + KeySet(incoming)|
    ensures forall i :: 0 <= i < |merged| && KeyOf(merged[i]) in KeySet(incoming) ==>
              LastWithKey(incoming, KeyOf(merged[i])) == Some(merged[i])
    ensures forall i :: 0 <= i < |merged| && KeyOf(merged[i]) !in KeySet(incoming) ==>
              LastWithKey(existing, KeyOf(merged[i])) == Some(merged[i])
  {
    ghost var all := existing + incoming;
    var eventMap := IndexEvents(existing, incoming);
    IndexSpec(all);
    assert forall k :: k in eventMap ==> Some(eventMap[k]) == LastWithKey(all, k);
    var collected := CollectValues(eventMap);
    var a := new Event[|collected|](j requires 0 <= j < |collected| => collected[j]);
    assert a[..] == collected;
    SortByStart(a);
    merged := a[..];
    assert forall j :: 0 <= j < |collected| ==> LastWithKey(all, KeyOf(collected[j])) == Some(collected[j]);
    CollectedIsDedup(all, collected, merged);
    MergeSides(existing, incoming, merged);
  }

  /** Inserts every event of `existing`, then of `incoming`, under its key; a later insertion replaces an earlier one. */
  method IndexEvents(existing: seq<Event>, incoming: seq<Event>) returns (eventMap: map<Key, Event>)
    ensures eventMap == Index(existing + incoming)
  {
    eventMap := InsertAll(map[], [], existing);
    assert [] + existing == existing;
    eventMap := InsertAll(eventMap, existing, incoming);
  }

  /** One insertion loop: given the map of the events `done`, inserts each event of `s` in order. */
  method InsertAll(m: map<Key, Event>, ghost done: seq<Event>, s: seq<Event>) returns (eventMap: map<Key, Event>)
    requires m == Index(done)
    ensures eventMap == Index(done + s)
  {
    eventMap := m;
    assert s[..0] == [] && done + [] == done;
    for i := 0 to |s|
      invariant eventMap == Index(done + s[..i])
    {
      IndexSnoc(done + s[..i], s[i]);
      assert done + s[..i + 1] == (done + s[..i]) + [s[i]];
      eventMap := eventMap[KeyOf(s[i]) := s[i]];
    }
    assert s[..|s|] == s;
  }

  /** The values of a key-indexed map, one per key, in an order the map chooses. */
  method CollectValues(eventMap: map<Key, Event>) returns (collected: seq<Event>)
    requires forall k :: k in eventMap ==> KeyOf(eventMap[k]) == k
    ensures KeySet(collected) == eventMap.Keys && DistinctKeys(collected)
    ensures forall j :: 0 <= j < |collected| ==> KeyOf(collected[j]) in eventMap && eventMap[KeyOf(collected[j])] == collected[j]
  {
    collected := [];
    var remaining := eventMap.Keys;
    while remaining != {}
      invariant remaining <= eventMap.Keys
      invariant KeySet(collected) == eventMap.Keys - remaining
      invariant DistinctKeys(collected)
      invariant forall j :: 0 <= j < |collected| ==> KeyOf(collected[j]) in eventMap && eventMap[KeyOf(collected[j])] == collected[j]
      decreases remaining
    {
      var k :| k in remaining;
      var event := eventMap[k];
      KeySetSnoc(collected, event);
      DistinctSnoc(collected, event);
      collected := collected + [event];
      remaining := remaining - {k};
    }
  }

  /** Sorting values collected one per key, each the last of its key, gives a merge result. */
  lemma CollectedIsDedup(all: seq<Event>, collected: seq<Event>, merged: seq<Event>)
    requires KeySet(collected) == KeySet(all) && DistinctKeys(collected)
    requires forall j :: 0 <= j < |collected| ==> LastWithKey(all, KeyOf(collected[j])) == Some(collected[j])
    requires SortedByStart(merged) && multiset(merged) == multiset(collected)
    ensures IsDedupOf(merged, all)
  {
    KeySetOfPermutation(merged, collected);
    DistinctKeysCount(collected);
    DistinctKeysCount(merged);
    forall i | 0 <= i < |merged| ensures LastWithKey(all, KeyOf(merged[i])) == Some(merged[i]) {
      assert merged[i] in multiset(collected);
    }
  }

  /** A merge of `existing + incoming` takes each key's copy from `incoming` when it has one, and has one event per key of either. */
  lemma MergeSides(existing: seq<Event>, incoming: seq<Event>, merged: seq<Event>)
    requires IsDedupOf(merged, existing + incoming)
    ensures |merged| == |KeySet(existing) + KeySet(incoming)|
    ensures forall i :: 0 <= i < |merged| && KeyOf(merged[i]) in KeySet(incoming) ==>
              LastWithKey(incoming, KeyOf(merged[i])) == Some(merged[i])
    ensures forall i :: 0 <= i < |merged| && KeyOf(merged[i]) !in KeySet(incoming) ==>
              LastWithKey(existing, KeyOf(merged[i])) == Some(merged[i])
  {
    KeySetConcat(existing, incoming);
    DistinctKeysCount(merged);
    forall i | 0 <= i < |merged|
      ensures LastWithKey(existing + incoming, KeyOf(merged[i])) ==
              if LastWithKey(incoming, KeyOf(merged[i])).Some? then LastWithKey(incoming, KeyOf(merged[i]))
              else LastWithKey(existing, KeyOf(merged[i]))
      ensures LastWithKey(incoming, KeyOf(merged[i])).Some? <==> KeyOf(merged[i]) in KeySet(incoming)
    {
      LastWithKeyConcat(existing, incoming, KeyOf(merged[i]));
      LastWithKeyFound(incoming, KeyOf(merged[i]));
    }
  }

  // ---------------------------------------------------------------------
  // Properties of merging

  /** A list with one event per key holds each event once. */
  lemma {:induction false} DistinctKeysOccurOnce(s: seq<Event>, x: Event)
    requires DistinctKeys(s)
    ensures multiset(s)[x] == if x in s then 1 else 0
  {
    if s != [] {
      var p, e := s[..|s| - 1], s[|s| - 1];
      assert s == p + [e];
      DistinctSnoc(p, e);
      DistinctKeysOccurOnce(p, x);
      if x == e && x in p {
        InKeySet(p, x);
      }
    }
  }

  lemma InKeySet(s: seq<Event>, x: Event)
    requires x in s
    ensures KeyOf(x) in KeySet(s)
  {
    var i :| 0 <= i < |s| && s[i] == x;
  }

  lemma SameElements(r1: seq<Event>, r2: seq<Event>)
    requires DistinctKeys(r1) && DistinctKeys(r2)
    requires forall x :: x in r1 <==> x in r2
    ensures multiset(r1) == multiset(r2)
  {
    forall x ensures multiset(r1)[x] == multiset(r2)[x] {
      DistinctKeysOccurOnce(r1, x);
      DistinctKeysOccurOnce(r2, x);
    }
  }

  /**
   * Any two merge results of the same events hold the same events: the map
   * iteration order and the unstable sort can change only the order of
   * events with equal start times.
   */
  lemma MergeResultUnique(s: seq<Event>, r1: seq<Event>, r2: seq<Event>)
    requires IsDedupOf(r1, s) && IsDedupOf(r2, s)
    ensures multiset(r1) == multiset(r2)
    ensures |r1| == |r2|
    ensures forall i :: 0 <= i < |r1| ==> Rank(r1[i].startAt) == Rank(r2[i].startAt)
  {
    forall x | x in r1 ensures x in r2 {
      var i :| 0 <= i < |r1| && r1[i] == x;
      assert KeyOf(x) in KeySet(r2);
      var j :| 0 <= j < |r2| && KeyOf(r2[j]) == KeyOf(x);
    }
    forall x | x in r2 ensures x in r1 {
      var j :| 0 <= j < |r2| && r2[j] == x;
      assert KeyOf(x) in KeySet(r1);
      var i :| 0 <= i < |r1| && KeyOf(r1[i]) == KeyOf(x);
    }
    SameElements(r1, r2);
    assert |r1| == |multiset(r1)| == |multiset(r2)| == |r2|;
    SortedPermutationsAgree(r1, r2);
  }

  /** Two sorted arrangements of the same events have the same start time at every position. */
  lemma SortedPermutationsAgree(r1: seq<Event>, r2: seq<Event>)
    requires SortedByStart(r1) && SortedByStart(r2) && multiset(r1) == multiset(r2)
    requires DistinctKeys(r1) && DistinctKeys(r2)
    ensures |r1| == |r2|
    ensures forall i :: 0 <= i < |r1| ==> Rank(r1[i].startAt) == Rank(r2[i].startAt)
  {
    assert |r1| == |multiset(r1)| == |multiset(r2)| == |r2|;
    forall i | 0 <= i < |r1| ensures Rank(r1[i].startAt) == Rank(r2[i].startAt) {
      SortedRankAt(r1, r2, i);
      SortedRankAt(r2, r1, i);

    }
  }

  /** Position `i` of a sorted list starts no later than position `i` of a sorted permutation with distinct keys. */
  lemma SortedRankAt(r1: seq<Event>, r2: seq<Event>, i: int)
    requires SortedByStart(r1) && SortedByStart(r2) && multiset(r1) == multiset(r2)
    requires DistinctKeys(r2) && 0 <= i < |r1| == |r2|
    ensures Rank(r1[i].startAt) <= Rank(r2[i].startAt)
  {
    // The first i + 1 events of r2 have i + 1 keys, r1[..i] has at most i,
    // so one of those events sits at index i or later in r1.
    var head2, head1 := r2[..i + 1], r1[..i];
    assert DistinctKeys(head2);
    DistinctKeysCount(head2);
    DistinctKeysCount(head1);
    NotSubset(KeySet(head2), KeySet(head1));
    var k :| k in KeySet(head2) && k !in KeySet(head1);
    var j :| 0 <= j < |head2| && KeyOf(head2[j]) == k;
    assert head2[j] == r2[j];
    assert r2[j] in multiset(r1);
    var m :| 0 <= m < |r1| && r1[m] == r2[j];
    assert forall t :: 0 <= t < i ==> KeyOf(r1[t]) in KeySet(head1) by {
      forall t | 0 <= t < i ensures KeyOf(r1[t]) in KeySet(head1) {
        assert head1[t] == r1[t];
      }
    }
    assert i <= m;
    StartChain(r1, r2, i, m, j);
  }

  lemma StartChain(r1: seq<Event>, r2: seq<Event>, i: int, m: int, j: int)
    requires SortedByStart(r1) && SortedByStart(r2)
    requires 0 <= j <= i <= m < |r1| && i < |r2| && r1[m] == r2[j]
    ensures Rank(r1[i].startAt) <= Rank(r2[i].startAt)
  {
    if i < m {
      assert Rank(r1[i].startAt) <= Rank(r1[m].startAt);
    }
    if j < i {
      assert Rank(r2[j].startAt) <= Rank(r2[i].startAt);
    }
  }

  lemma NotSubset(a: set<Key>, b: set<Key>)
    requires |b| < |a|
    ensures exists x :: x in a && x !in b
  {
    if a <= b {
      SubsetSize(a, b);
    }
  }

  /**
   * Merging in two steps, `a` with `b` and then the result with `c`, has the
   * same outcome as one merge of all three lists in that order.
   */
  lemma MergeChain(a: seq<Event>, b: seq<Event>, c: seq<Event>, r1: seq<Event>, r2: seq<Event>)
    requires IsDedupOf(r1, a + b) && IsDedupOf(r2, r1 + c)
    ensures IsDedupOf(r2, a + b + c)
  {
    KeySetConcat(r1, c);
    KeySetConcat(a + b, c);
    forall i | 0 <= i < |r2| ensures LastWithKey(a + b + c, KeyOf(r2[i])) == Some(r2[i]) {
      var k := KeyOf(r2[i]);
      LastWithKeyConcat(r1, c, k);
      LastWithKeyConcat(a + b, c, k);
      if LastWithKey(c, k).None? {
        LastWithKeyFound(r1, k);
        var j :| 0 <= j < |r1| && KeyOf(r1[j]) == k;
        LastOfDistinct(r1, j);
      }
    }
  }

  /**
   * Merging a list that already has one event per key with itself gives back
   * its events, and hasChanges then reports no change.
   */
  lemma MergeWithItself(s: seq<Event>, r: seq<Event>)
    requires DistinctKeys(s) && IsDedupOf(r, s + s)
    ensures multiset(r) == multiset(s)
    ensures !Differs(s, r)
  {
    KeySetConcat(s, s);
    forall x | x in r ensures x in s {
      var i :| 0 <= i < |r| && r[i] == x;
      LastWithKeyConcat(s, s, KeyOf(x));
      LastWithKeyFound(s, KeyOf(x));
      var j :| 0 <= j < |s| && KeyOf(s[j]) == KeyOf(x);
      LastOfDistinct(s, j);
    }
    forall x | x in s ensures x in r {
      var j :| 0 <= j < |s| && s[j] == x;
      assert KeyOf(x) in KeySet(r);
      var i :| 0 <= i < |r| && KeyOf(r[i]) == KeyOf(x);
      LastWithKeyConcat(s, s, KeyOf(x));
      LastOfDistinct(s, j);
    }
    SameElements(r, s);
    assert |r| == |multiset(r)| == |multiset(s)| == |s|;
    forall i | 0 <= i < |r| ensures KeyOf(r[i]) in KeySet(s) {
      assert KeyOf(r[i]) in KeySet(r);
    }
  }

  /**
   * Two events whose start and end differ only below one second share a key:
   * merging the first with the second keeps the second alone.
   */
  lemma SubSecondDuplicatesCollapse(first: Event, second: Event, r: seq<Event>)
    requires SameSecond(first.startAt, second.startAt) && SameSecond(first.endAt, second.endAt)
    requires IsDedupOf(r, [first] + [second])
    ensures r == [second]
  {
    KeyIsSecondPrecision(first, second);
    var s := [first] + [second];
    assert KeySet(s) == {KeyOf(second)} by {
      KeySetConcat([first], [second]);
      assert KeyOf([first][0]) in KeySet([first]);
      assert KeyOf([second][0]) in KeySet([second]);
    }
    DistinctKeysCount(r);
    assert |r| == 1;
    assert LastWithKey(s, KeyOf(second)) == Some(second);
  }
}
