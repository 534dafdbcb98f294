/**
 * Which columns of a record moved (diff/members.go): pairing by key, one longest
 * increasing subsequence of the paired positions, and the columns outside it.
 */
module Columns {
  import opened Common

  // ------------------------------------------------ increasing subsequences

  /** idx picks elements of s from left to right, each larger than the one before. */
  ghost predicate Increasing(s: seq<int>, idx: seq<nat>) {
    && (forall k :: 0 <= k < |idx| ==> idx[k] < |s|)
    && (forall k, l :: 0 <= k < l < |idx| ==> idx[k] < idx[l] && s[idx[k]] < s[idx[l]])
  }

  /** The length of a longest increasing subsequence that ends at position i. */
  function Longest(s: seq<int>, i: nat): (n: nat)
    requires i < |s|
    ensures n >= 1
    decreases i, 1
  {
    1 + LongestBelow(s, i, i)
  }

  /** The longest among those ending before position j on an element smaller than s[i]. */
  function LongestBelow(s: seq<int>, i: nat, j: nat): nat
    requires j <= i < |s|
    decreases i, 0, j
  {
    if j == 0 then 0 else
      var rest := LongestBelow(s, i, j - 1);
      if s[j - 1] < s[i] && Longest(s, j - 1) > rest then Longest(s, j - 1) else rest
  }

  lemma LongestBelowBounds(s: seq<int>, i: nat, j: nat, k: nat)
    requires k < j <= i < |s| && s[k] < s[i]
    ensures Longest(s, k) <= LongestBelow(s, i, j)
  {
    if k < j - 1 {
      LongestBelowBounds(s, i, j - 1, k);
    }
  }

  lemma {:induction false} LongestIsUpperBound(s: seq<int>, idx: seq<nat>)
    requires Increasing(s, idx) && idx != []
    ensures |idx| <= Longest(s, idx[|idx| - 1])
  {
    var n := |idx|;
    if n > 1 {
      LongestIsUpperBound(s, idx[..n - 1]);
      LongestBelowBounds(s, idx[n - 1], idx[n - 1], idx[n - 2]);
    }
  }

  /** No increasing subsequence is longer than run, and none as long ends earlier. */
  ghost predicate EarliestLongest(s: seq<int>, run: seq<nat>) {
    && Increasing(s, run)
    && (s != [] ==> run != [])
    && (forall idx :: Increasing(s, idx) ==> |idx| <= |run|)
    && (forall idx :: Increasing(s, idx) && |idx| == |run| && run != [] ==> run[|run| - 1] <= idx[|idx| - 1])
  }

  lemma BestIsEarliestLongest(s: seq<int>, best: nat, run: seq<nat>)
    requires Increasing(s, run) && run != [] && run[|run| - 1] == best && best < |s| && |run| == Longest(s, best)
    requires forall k :: 0 <= k < best ==> Longest(s, k) < Longest(s, best)
    requires forall k :: 0 <= k < |s| ==> Longest(s, k) <= Longest(s, best)
    ensures EarliestLongest(s, run)
  {
    forall idx | Increasing(s, idx) && idx != []
      ensures |idx| <= |run| && (|idx| == |run| ==> best <= idx[|idx| - 1])
    {
      LongestIsUpperBound(s, idx);
    }
  }

  /** The table the search for a longest subsequence fills, up to position n. */
  ghost predicate Tabled(s: seq<int>, length: seq<nat>, prev: seq<int>, n: nat) {
    && n <= |s| == |length| == |prev|
    && forall k :: 0 <= k < n ==> length[k] == Longest(s, k) && Linked(s, k, length[k], prev[k])
  }

  /** Position `best` is the first below n with the largest length. */
  ghost predicate FirstLargest(length: seq<nat>, best: int, n: nat) {
    && n <= |length| && -1 <= best < n && (best == -1 <==> n == 0)
    && (forall k :: 0 <= k < n ==> length[k] <= length[best])
    && (forall k :: 0 <= k < best ==> length[k] < length[best])
  }

  /** Looks back from position i for the longest it can extend. */
  method FillRow(s: seq<int>, length: array<nat>, prev: array<int>, i: nat)
    requires i < |s| && length.Length == prev.Length == |s| && Tabled(s, length[..], prev[..], i)
    modifies length, prev
    ensures Tabled(s, length[..], prev[..], i + 1) && length[..i] == old(length[..i])
  {
    length[i], prev[i] := 1, -1;
    ghost var length0, prev0 := length[..], prev[..];
    for j := 0 to i
      invariant length[i] == 1 + LongestBelow(s, i, j)
      invariant -1 <= prev[i] < j && (prev[i] == -1 <==> length[i] == 1)
      invariant prev[i] >= 0 ==> s[prev[i]] < s[i] && length[i] == Longest(s, prev[i]) + 1
      invariant length[..i] == length0[..i] && prev[..i] == prev0[..i]
    {
      assert length[j] == length0[..i][j] == Longest(s, j);
      if s[j] < s[i] && length[j] + 1 > length[i] {
        length[i], prev[i] := length[j] + 1, j;
      }
    }
    assert forall k :: 0 <= k < i ==> length[k] == length0[..i][k] && prev[k] == prev0[..i][k];
  }

  lemma BestStep(length0: seq<nat>, length: seq<nat>, best: int, i: nat)
    requires i < |length| == |length0| && length[..i] == length0[..i] && FirstLargest(length0, best, i)
    ensures best < |length|
    ensures FirstLargest(length, if best < 0 || length[i] > length[best] then i else best, i + 1)
  {
    assert forall k :: 0 <= k < i ==> length[k] == length[..i][k] == length0[..i][k];
  }

  method FillTable(s: seq<int>) returns (lengths: seq<nat>, prevs: seq<int>, best: int)
    ensures Tabled(s, lengths, prevs, |s|) && FirstLargest(lengths, best, |s|)
  {
    var length := new nat[|s|];
    var prev := new int[|s|];
    best := -1;
    assert Tabled(s, length[..], prev[..], 0) && FirstLargest(length[..], best, 0);
    hide Tabled, FirstLargest;
    for i := 0 to |s|
      invariant Tabled(s, length[..], prev[..], i) && FirstLargest(length[..], best, i)
    {
      ghost var length0 := length[..];
      FillRow(s, length, prev, i);
      BestInRange(length0, best, i);
      BestStep(length0, length[..], best, i);
      if best < 0 || length[i] > length[best] {
        best := i;
      }
    }
    lengths, prevs := length[..], prev[..];
  }

  lemma BestInRange(length: seq<nat>, best: int, n: nat)
    requires FirstLargest(length, best, n)
    ensures n <= |length| && -1 <= best < n
  {
  }

  /** Marks the elements of the earliest-ending longest increasing subsequence. */
  method LongestIncreasingSubsequence(s: seq<int>) returns (kept: seq<bool>, ghost run: seq<nat>)
    ensures |kept| == |s|
    ensures EarliestLongest(s, run)
    ensures forall i: nat :: i < |s| ==> (kept[i] <==> i in run)
  {
    hide Chained, EarliestLongest, Tabled, FirstLargest;
    var length, prev, best := FillTable(s);
    StartChain(s, length, prev, best);
    var marks := new bool[|s|](_ => false);
    var i := best;
    run := [];
    while i >= 0
      invariant -1 <= i < |s|
      invariant Chained(s, length, best, i, run)
      invariant forall k: nat :: k < |s| ==> (marks[k] <==> k in run)
    {
      ChainedInside(s, length, prev, best, i, run);
      marks[i] := true;
      Chain(s, length, prev, best, i, run);
      run := [i as nat] + run;
      i := prev[i];
    }
    kept := marks[..];
    ChainFinished(s, length, prev, best, run);
  }

  lemma ChainFinished(s: seq<int>, length: seq<nat>, prev: seq<int>, best: int, run: seq<nat>)
    requires Tabled(s, length, prev, |s|) && FirstLargest(length, best, |s|) && Chained(s, length, best, -1, run)
    ensures EarliestLongest(s, run)
  {
    if best >= 0 {
      BestIsEarliestLongest(s, best, run);
    } else {
      forall idx | Increasing(s, idx) ensures idx == [] {
        NonemptyPicks(s, idx);
      }
    }
  }

  lemma NonemptyPicks(s: seq<int>, idx: seq<nat>)
    requires Increasing(s, idx)
    ensures idx == [] || s != []
  {
    if idx != [] {
      assert idx[0] < |s|;
    }
  }

  lemma ChainedInside(s: seq<int>, length: seq<nat>, prev: seq<int>, best: int, i: int, run: seq<nat>)
    requires Tabled(s, length, prev, |s|) && Chained(s, length, best, i, run) && i >= 0
    ensures i < |s| == |prev| && -1 <= prev[i] < i
    ensures forall k: nat :: k in run ==> k < |s|
  {
    assert Linked(s, i, length[i], prev[i]);
  }

  lemma StartChain(s: seq<int>, length: seq<nat>, prev: seq<int>, best: int)
    requires Tabled(s, length, prev, |s|) && FirstLargest(length, best, |s|)
    ensures -1 <= best < |s| && Chained(s, length, best, best, [])
  {
  }

  /** run is the end of the chain from `best` whose next element is at i. */
  ghost predicate Chained(s: seq<int>, length: seq<nat>, best: int, i: int, run: seq<nat>) {
    && |length| == |s| && best < |s| && -1 <= i < |s|
    && Increasing(s, run)
    && (run != [] ==> i < run[0] && run[|run| - 1] == best)
    && (run == [] ==> i == best)
    && (i >= 0 && run != [] ==> s[i] < s[run[0]])
    && (best >= 0 ==> |run| + (if i >= 0 then length[i] else 0) == length[best])
  }

  lemma Chain(s: seq<int>, length: seq<nat>, prev: seq<int>, best: int, i: int, run: seq<nat>)
    requires Tabled(s, length, prev, |s|) && Chained(s, length, best, i, run) && i >= 0
    ensures Chained(s, length, best, prev[i], [i as nat] + run)
  {
    hide Longest;
    assert Linked(s, i, length[i], prev[i]);
    IncreasingFrom(s, i, run);
  }

  lemma IncreasingFrom(s: seq<int>, i: nat, run: seq<nat>)
    requires i < |s| && Increasing(s, run) && (run != [] ==> i < run[0] && s[i] < s[run[0]])
    ensures Increasing(s, [i] + run)
  {
    var longer := [i] + run;
    forall k, l | 0 <= k < l < |longer| ensures longer[k] < longer[l] && s[longer[k]] < s[longer[l]] {
      assert longer[l] == run[l - 1];
      if k > 0 {
        assert longer[k] == run[k - 1];
      } else if l > 1 {
        assert run[0] < run[l - 1] && s[run[0]] < s[run[l - 1]];
      }
    }
  }

  /** prev leads to the element before position k in a longest subsequence ending there. */
  ghost predicate Linked(s: seq<int>, k: nat, length: nat, prev: int)
    requires k < |s|
  {
    && -1 <= prev < k
    && (prev == -1 <==> length == 1)
    && (prev >= 0 ==> s[prev] < s[k] && length == Longest(s, prev) + 1)
  }

  // ------------------------------------------------------- pairing by key

  /** How many earlier elements of s equal its element at i. */
  function Rank<K(==)>(s: seq<K>, i: nat): nat
    requires i < |s|
  {
    Count(s[..i], s[i])
  }

  /** Occurrences of one key pair in order: the first with the first, and so on. */
  predicate Pairs<K(==)>(before: seq<K>, after: seq<K>, bi: nat, ai: nat) {
    bi < |before| && ai < |after| && before[bi] == after[ai] && Rank(before, bi) == Rank(after, ai)
  }

  /** pairs maps every paired before position to its partner. */
  ghost predicate MapsPairs<K>(before: seq<K>, after: seq<K>, pairs: map<nat, nat>) {
    && (forall bi :: bi in pairs ==> Pairs(before, after, bi, pairs[bi]))
    && (forall bi: nat, ai: nat :: Pairs(before, after, bi, ai) ==> bi in pairs && pairs[bi] == ai)
  }

  /** The positions at which a key occurs, in order. */
  function Occurrences<K(==)>(s: seq<K>, key: K): (at: seq<nat>)
    ensures |at| == Count(s, key)
  {
    if s == [] then [] else
      var n := |s| - 1;
      Occurrences(s[..n], key) + if s[n] == key then [n] else []
  }

  lemma {:induction false} OccurrenceAt<K>(s: seq<K>, key: K, r: nat)
    requires r < Count(s, key)
    ensures var i := Occurrences(s, key)[r]; i < |s| && s[i] == key && Rank(s, i) == r
  {
    var n := |s| - 1;
    if r < Count(s[..n], key) {
      OccurrenceAt(s[..n], key, r);
      var i := Occurrences(s[..n], key)[r];
      assert s[..n][..i] == s[..i];
    }
  }

  lemma {:induction false} RankBelowCount<K>(s: seq<K>, i: nat)
    requires i < |s|
    ensures Rank(s, i) < Count(s, s[i]) && Occurrences(s, s[i])[Rank(s, i)] == i
  {
    var n := |s| - 1;
    if i < n {
      RankBelowCount(s[..n], i);
      assert s[..n][..i] == s[..i];
    }
  }

  /** A position on either side has at most one partner. */
  lemma PairsUnique<K>(before: seq<K>, after: seq<K>, bi: nat, ai: nat, bj: nat, aj: nat)
    requires Pairs(before, after, bi, ai) && Pairs(before, after, bj, aj)
    ensures bi == bj <==> ai == aj
  {
    RankBelowCount(before, bi);
    RankBelowCount(before, bj);
    RankBelowCount(after, ai);
    RankBelowCount(after, aj);
  }

  method IndexByKey<K(==)>(after: seq<K>) returns (afterByKey: map<K, seq<nat>>)
    ensures forall key :: Queue(afterByKey, key) == Occurrences(after, key)
  {
    afterByKey := map[];
    for i := 0 to |after|
      invariant forall key :: Queue(afterByKey, key) == Occurrences(after[..i], key)
    {
      assert after[..i + 1][..i] == after[..i];
      var key := after[i];
      afterByKey := afterByKey[key := (if key in afterByKey then afterByKey[key] else []) + [i]];
    }
    assert after[..|after|] == after;
  }

  /** The next before position pairs with the head of its key's queue, if there is one. */
  lemma HeadOfQueue<K>(before: seq<K>, after: seq<K>, i: nat)
    requires i < |before|
    ensures var queue := Remaining(Occurrences(after, before[i]), Rank(before, i));
            forall ai: nat :: Pairs(before, after, i, ai) <==> queue != [] && ai == queue[0]
  {
    var all, r := Occurrences(after, before[i]), Rank(before, i);
    forall ai: nat | Pairs(before, after, i, ai) ensures r < |all| && ai == all[r] {
      RankBelowCount(after, ai);
    }
    if r < |all| {
      OccurrenceAt(after, before[i], r);
    }
  }

  /** What is left of every key's queue after the before position i is passed. */
  lemma Dequeued<K>(before: seq<K>, after: seq<K>, i: nat, key: K)
    requires i < |before|
    ensures var queue := Remaining(Occurrences(after, key), Count(before[..i], key));
            Remaining(Occurrences(after, key), Count(before[..i + 1], key)) ==
            if key == before[i] && queue != [] then queue[1..] else queue
  {
    assert before[..i + 1][..i] == before[..i];
  }

  method PairByKey<K(==)>(before: seq<K>, after: seq<K>) returns (pairs: map<nat, nat>)
    ensures MapsPairs(before, after, pairs)
  {
    hide Pairs, Occurrences, Count, Remaining;
    var afterByKey := IndexByKey(after);
    assert forall key :: Remaining(Occurrences(after, key), Count(before[..0], key)) == Occurrences(after, key) by {
      NothingDequeued(before, after);
    }
    pairs := map[];
    for i := 0 to |before|
      invariant forall key :: Queue(afterByKey, key) == Remaining(Occurrences(after, key), Count(before[..i], key))
      invariant forall bi :: bi in pairs ==> bi < i && Pairs(before, after, bi, pairs[bi])
      invariant forall bi: nat, ai: nat :: bi < i && Pairs(before, after, bi, ai) ==> bi in pairs && pairs[bi] == ai
    {
      HeadOfQueue(before, after, i);
      var key := before[i];
      var queue := if key in afterByKey then afterByKey[key] else [];
      assert queue == Queue(afterByKey, key);
      if |queue| > 0 {
        pairs := pairs[i := queue[0]];
        afterByKey := afterByKey[key := queue[1..]];
      }
      forall k ensures Queue(afterByKey, k) == Remaining(Occurrences(after, k), Count(before[..i + 1], k)) {
        Dequeued(before, after, i, k);
      }
    }
    forall bi: nat, ai: nat | Pairs(before, after, bi, ai) ensures bi < |before| {
      PairsInRange(before, after, bi, ai);
    }
  }

  lemma NothingDequeued<K>(before: seq<K>, after: seq<K>)
    ensures forall key :: Remaining(Occurrences(after, key), Count(before[..0], key)) == Occurrences(after, key)
  {
  }

  lemma PairsInRange<K>(before: seq<K>, after: seq<K>, bi: nat, ai: nat)
    requires Pairs(before, after, bi, ai)
    ensures bi < |before| && ai < |after|
  {
  }

  ghost function Queue<K>(m: map<K, seq<nat>>, key: K): seq<nat> {
    if key in m then m[key] else []
  }

  ghost function Remaining(s: seq<nat>, n: nat): seq<nat> {
    if n <= |s| then s[n..] else []
  }

  // ------------------------------------------------------- moved columns

  /** The paired after positions in `kept` come in the order of their before positions. */
  ghost predicate InOrder(beforeOf: map<nat, nat>, kept: set<nat>) {
    forall x, y :: x in kept && y in kept && x in beforeOf && y in beforeOf && x < y ==> beforeOf[x] < beforeOf[y]
  }

  /** ps lists the paired after positions in order, and bs their before positions. */
  ghost predicate Lists(beforeOf: map<nat, nat>, ps: seq<nat>, bs: seq<int>) {
    && |ps| == |bs|
    && (forall i, j :: 0 <= i < j < |ps| ==> ps[i] < ps[j])
    && (forall i :: 0 <= i < |ps| ==> ps[i] in beforeOf && bs[i] == beforeOf[ps[i]])
    && (forall a :: a in beforeOf ==> a in ps)
  }

  /** The indices below n at which ps holds an element of `kept`. */
  ghost function KeptAt(ps: seq<nat>, kept: set<nat>, n: nat): seq<nat>
    requires n <= |ps|
  {
    if n == 0 then [] else KeptAt(ps, kept, n - 1) + if ps[n - 1] in kept then [n - 1] else []
  }

  lemma {:induction false} KeptAtMembers(ps: seq<nat>, kept: set<nat>, n: nat)
    requires n <= |ps|
    ensures forall k :: 0 <= k < |KeptAt(ps, kept, n)| ==> KeptAt(ps, kept, n)[k] < n && ps[KeptAt(ps, kept, n)[k]] in kept
    ensures forall k, l :: 0 <= k < l < |KeptAt(ps, kept, n)| ==> KeptAt(ps, kept, n)[k] < KeptAt(ps, kept, n)[l]
  {
    if n > 0 {
      KeptAtMembers(ps, kept, n - 1);
    }
  }

  /** The elements below index n that are not kept. */
  ghost function DroppedAt(ps: seq<nat>, kept: set<nat>, n: nat): set<nat>
    requires n <= |ps|
  {
    set i | 0 <= i < n && ps[i] !in kept :: ps[i]
  }

  lemma DroppedStep(ps: seq<nat>, kept: set<nat>, n: nat)
    requires 0 < n <= |ps| && forall i, j :: 0 <= i < j < |ps| ==> ps[i] < ps[j]
    ensures |DroppedAt(ps, kept, n)| == |DroppedAt(ps, kept, n - 1)| + if ps[n - 1] in kept then 0 else 1
  {
    var rest := DroppedAt(ps, kept, n - 1);
    assert ps[n - 1] !in rest;
    assert DroppedAt(ps, kept, n) == if ps[n - 1] in kept then rest else rest + {ps[n - 1]};
  }

  lemma {:induction false} KeptAtCounts(ps: seq<nat>, kept: set<nat>, n: nat)
    requires n <= |ps| && forall i, j :: 0 <= i < j < |ps| ==> ps[i] < ps[j]
    ensures |DroppedAt(ps, kept, n)| + |KeptAt(ps, kept, n)| == n
  {
    if n > 0 {
      DroppedStep(ps, kept, n);
      hide DroppedAt;
      KeptAtCounts(ps, kept, n - 1);
    }
  }

  /** The columns that stay in order are an increasing subsequence of the before positions. */
  lemma StayingIsIncreasing(beforeOf: map<nat, nat>, ps: seq<nat>, bs: seq<int>, kept: set<nat>)
    requires Lists(beforeOf, ps, bs) && kept <= beforeOf.Keys && InOrder(beforeOf, kept)
    ensures Increasing(bs, KeptAt(ps, kept, |ps|))
  {
    KeptAtMembers(ps, kept, |ps|);
    var idx := KeptAt(ps, kept, |ps|);
    forall k, l | 0 <= k < l < |idx| ensures idx[k] < idx[l] && bs[idx[k]] < bs[idx[l]] {
      assert ps[idx[k]] < ps[idx[l]];
    }
  }

  lemma DroppedAreListed(beforeOf: map<nat, nat>, ps: seq<nat>, bs: seq<int>, dropped: set<nat>)
    requires Lists(beforeOf, ps, bs) && dropped <= beforeOf.Keys
    ensures |dropped| + |KeptAt(ps, beforeOf.Keys - dropped, |ps|)| == |ps|
  {
    var kept := beforeOf.Keys - dropped;
    var listed := DroppedAt(ps, kept, |ps|);
    assert dropped == listed by {
      forall a | a in dropped ensures a in listed {
        var i :| 0 <= i < |ps| && ps[i] == a;
      }
    }
    KeptAtCounts(ps, kept, |ps|);
  }

  /** Leaving a set of columns in order means moving at least as many as lie outside a longest run. */
  lemma MovesAtLeast(beforeOf: map<nat, nat>, ps: seq<nat>, bs: seq<int>, run: seq<nat>, moved: set<nat>)
    requires Lists(beforeOf, ps, bs) && EarliestLongest(bs, run)
    requires moved <= beforeOf.Keys && InOrder(beforeOf, beforeOf.Keys - moved)
    ensures |moved| >= |ps| - |run|
  {
    hide Lists, InOrder, Increasing;
    StayingIsIncreasing(beforeOf, ps, bs, beforeOf.Keys - moved);
    DroppedAreListed(beforeOf, ps, bs, moved);
  }

  /** A reported move, by the column's position on each side. */
  datatype Move = Move(before: nat, after: nat)

  function AfterOf(moves: seq<Move>): set<nat> {
    set i | 0 <= i < |moves| :: moves[i].after
  }

  ghost predicate PairedBy<K>(before: seq<K>, after: seq<K>, beforeOf: map<nat, nat>) {
    && (forall ai :: ai in beforeOf ==> Pairs(before, after, beforeOf[ai], ai))
    && (forall bi: nat, ai: nat :: Pairs(before, after, bi, ai) ==> ai in beforeOf && beforeOf[ai] == bi)
  }

  /** Turns pairs around; distinct before positions have distinct partners. */
  method Inverted<K(==)>(before: seq<K>, after: seq<K>, pairs: map<nat, nat>) returns (beforeOf: map<nat, nat>)
    requires MapsPairs(before, after, pairs)
    ensures PairedBy(before, after, beforeOf)
  {
    hide Pairs;
    beforeOf := map[];
    var left := pairs.Keys;
    while left != {}
      invariant left <= pairs.Keys
      invariant forall ai :: ai in beforeOf ==> Pairs(before, after, beforeOf[ai], ai) && beforeOf[ai] !in left
      invariant forall bi: nat, ai: nat :: Pairs(before, after, bi, ai) && bi !in left ==> ai in beforeOf && beforeOf[ai] == bi
      decreases |left|
    {
      var bi :| bi in left;
      assert Pairs(before, after, bi, pairs[bi]);
      forall bj: nat | Pairs(before, after, bj, pairs[bi]) ensures bj == bi {
        PairsUnique(before, after, bi, pairs[bi], bj, pairs[bi]);
      }
      beforeOf := beforeOf[pairs[bi] := bi];
      left := left - {bi};
    }
  }

  method ListPositions<K(==)>(after: seq<K>, beforeOf: map<nat, nat>) returns (afterPositions: seq<nat>, beforePositions: seq<int>)
    requires forall a :: a in beforeOf ==> a < |after|
    ensures Lists(beforeOf, afterPositions, beforePositions)
  {
    afterPositions, beforePositions := [], [];
    for ai := 0 to |after|
      invariant |afterPositions| == |beforePositions|
      invariant forall i, j :: 0 <= i < j < |afterPositions| ==> afterPositions[i] < afterPositions[j]
      invariant forall i :: 0 <= i < |afterPositions| ==>
        afterPositions[i] < ai && afterPositions[i] in beforeOf && beforePositions[i] == beforeOf[afterPositions[i]]
      invariant forall a :: a in beforeOf && a < ai ==> a in afterPositions
    {
      if ai in beforeOf {
        afterPositions := afterPositions + [ai];
        beforePositions := beforePositions + [beforeOf[ai]];
        assert afterPositions[|afterPositions| - 1] == ai;
      }
    }
  }

  method ReportMoves(beforeOf: map<nat, nat>, ps: seq<nat>, bs: seq<int>, kept: seq<bool>) returns (moves: seq<Move>)
    requires Lists(beforeOf, ps, bs) && |kept| == |ps|
    ensures forall k :: 0 <= k < |moves| ==> moves[k].after in beforeOf && moves[k].before == beforeOf[moves[k].after]
    ensures forall k, l :: 0 <= k < l < |moves| ==> moves[k].after < moves[l].after
    ensures AfterOf(moves) == Unmarked(ps, kept, |ps|)
  {
    hide AfterOf, Unmarked;
    NothingMoved(ps, kept);
    moves := [];
    for i := 0 to |ps|
      invariant forall k :: 0 <= k < |moves| ==> moves[k].after in beforeOf && moves[k].before == beforeOf[moves[k].after]
      invariant forall k :: 0 <= k < |moves| && i < |ps| ==> moves[k].after < ps[i]
      invariant forall k, l :: 0 <= k < l < |moves| ==> moves[k].after < moves[l].after
      invariant AfterOf(moves) == Unmarked(ps, kept, i)
    {
      UnmarkedStep(ps, kept, i);
      if !kept[i] {
        MoveAppends(moves, Move(beforeOf[ps[i]], ps[i]));
        moves := moves + [Move(beforeOf[ps[i]], ps[i])];
      }
    }
  }

  lemma NothingMoved(ps: seq<nat>, kept: seq<bool>)
    requires |kept| == |ps|
    ensures AfterOf([]) == Unmarked(ps, kept, 0)
  {
  }

  lemma UnmarkedStep(ps: seq<nat>, kept: seq<bool>, i: nat)
    requires i < |ps| == |kept|
    ensures Unmarked(ps, kept, i + 1) == Unmarked(ps, kept, i) + if kept[i] then {} else {ps[i]}
  {
  }

  lemma MoveAppends(moves: seq<Move>, move: Move)
    ensures AfterOf(moves + [move]) == AfterOf(moves) + {move.after}
  {
    var longer := moves + [move];
    assert forall k :: 0 <= k < |moves| ==> longer[k] == moves[k];
    assert longer[|moves|] == move;
  }

  /** The moved columns: a smallest set whose removal leaves the rest in one order on both sides. */
  method ReorderedColumns<K(==)>(before: seq<K>, after: seq<K>) returns (moves: seq<Move>, ghost beforeOf: map<nat, nat>)
    ensures PairedBy(before, after, beforeOf)
    ensures forall i :: 0 <= i < |moves| ==> Pairs(before, after, moves[i].before, moves[i].after)
    ensures forall i, j :: 0 <= i < j < |moves| ==> moves[i].after < moves[j].after
    ensures InOrder(beforeOf, beforeOf.Keys - AfterOf(moves))
    ensures forall moved: set<nat> :: moved <= beforeOf.Keys && InOrder(beforeOf, beforeOf.Keys - moved) ==> |moves| <= |moved|
    ensures moves == [] <==> NoneMoved(before, after)
  {
    hide Pairs, InOrder, EarliestLongest, Lists, NoneMoved, AfterOf;
    var pairs := PairByKey(before, after);
    var inverse := Inverted(before, after, pairs);
    beforeOf := inverse;
    forall a | a in beforeOf ensures a < |after| {
      PairsInRange(before, after, beforeOf[a], a);
    }
    var afterPositions, beforePositions := ListPositions(after, inverse);
    ListsSameLength(beforeOf, afterPositions, beforePositions);
    var kept, run := LongestIncreasingSubsequence(beforePositions);
    moves := ReportMoves(inverse, afterPositions, beforePositions, kept);
    MovesAreMinimal(beforeOf, afterPositions, beforePositions, kept, run, moves);
    NothingMovedExactlyWhenInOrder(beforeOf, moves);
    NoneMovedIsInOrder(before, after, beforeOf);
  }

  lemma ListsSameLength(beforeOf: map<nat, nat>, ps: seq<nat>, bs: seq<int>)
    requires Lists(beforeOf, ps, bs)
    ensures |ps| == |bs|
  {
  }

  function Unmarked(ps: seq<nat>, kept: seq<bool>, n: nat): set<nat>
    requires n <= |ps| == |kept|
  {
    set i | 0 <= i < n && !kept[i] :: ps[i]
  }

  function Elements(s: seq<nat>): set<nat> {
    set x | x in s
  }

  lemma {:induction false} AscendingSize(s: seq<nat>)
    requires forall i, j :: 0 <= i < j < |s| ==> s[i] < s[j]
    ensures |Elements(s)| == |s|
  {
    if s != [] {
      var n := |s| - 1;
      AscendingSize(s[..n]);
      assert Elements(s) == Elements(s[..n]) + {s[n]};
      assert s[n] !in Elements(s[..n]);
    }
  }

  lemma MovesAreMinimal(beforeOf: map<nat, nat>, ps: seq<nat>, bs: seq<int>, kept: seq<bool>, run: seq<nat>, moves: seq<Move>)
    requires Lists(beforeOf, ps, bs) && EarliestLongest(bs, run)
    requires |kept| == |ps| && forall i: nat :: i < |kept| ==> (kept[i] <==> i in run)
    requires AfterOf(moves) == Unmarked(ps, kept, |ps|)
    requires forall i, j :: 0 <= i < j < |moves| ==> moves[i].after < moves[j].after
    ensures InOrder(beforeOf, beforeOf.Keys - AfterOf(moves))
    ensures forall moved: set<nat> :: moved <= beforeOf.Keys && InOrder(beforeOf, beforeOf.Keys - moved) ==> |moves| <= |moved|
  {
    hide Lists, InOrder, AfterOf;
    MovesCount(beforeOf, ps, bs, kept, run, moves);
    forall moved: set<nat> | moved <= beforeOf.Keys && InOrder(beforeOf, beforeOf.Keys - moved)
      ensures |moves| <= |moved|
    {
      MovesAtLeast(beforeOf, ps, bs, run, moved);
    }
    StayingInOrder(beforeOf, ps, bs, kept, run, moves);
  }

  lemma StayingInOrder(beforeOf: map<nat, nat>, ps: seq<nat>, bs: seq<int>, kept: seq<bool>, run: seq<nat>, moves: seq<Move>)
    requires Lists(beforeOf, ps, bs) && Increasing(bs, run)
    requires |kept| == |ps| && forall i: nat :: i < |kept| ==> (kept[i] <==> i in run)
    requires AfterOf(moves) == Unmarked(ps, kept, |ps|)
    ensures InOrder(beforeOf, beforeOf.Keys - AfterOf(moves))
  {
    hide AfterOf;
    var stay := beforeOf.Keys - AfterOf(moves);
    forall x, y | x in stay && y in stay && x < y ensures beforeOf[x] < beforeOf[y] {
      var i: nat :| i < |ps| && ps[i] == x;
      var j: nat :| j < |ps| && ps[j] == y;
      assert kept[i] && kept[j];
      var k :| 0 <= k < |run| && run[k] == i;
      var l :| 0 <= l < |run| && run[l] == j;
      assert bs[i] < bs[j];
    }
  }

  /** Exactly the columns outside the run are reported. */
  lemma MovesCount(beforeOf: map<nat, nat>, ps: seq<nat>, bs: seq<int>, kept: seq<bool>, run: seq<nat>, moves: seq<Move>)
    requires Lists(beforeOf, ps, bs) && Increasing(bs, run)
    requires |kept| == |ps| && forall i: nat :: i < |kept| ==> (kept[i] <==> i in run)
    requires AfterOf(moves) == Unmarked(ps, kept, |ps|)
    requires forall i, j :: 0 <= i < j < |moves| ==> moves[i].after < moves[j].after
    ensures |moves| == |ps| - |run|
  {
    DroppedAreListed(beforeOf, ps, bs, AfterOf(moves));
    RunIsKept(beforeOf, ps, bs, kept, run, moves);
    AfterOfSize(moves);
  }

  lemma {:induction false} AfterOfSize(moves: seq<Move>)
    requires forall i, j :: 0 <= i < j < |moves| ==> moves[i].after < moves[j].after
    ensures |AfterOf(moves)| == |moves|
  {
    if moves != [] {
      var n := |moves| - 1;
      AfterOfSize(moves[..n]);
      assert AfterOf(moves) == AfterOf(moves[..n]) + {moves[n].after} by {
        assert forall i :: 0 <= i < n ==> moves[..n][i] == moves[i];
      }
      assert moves[n].after !in AfterOf(moves[..n]);
    }
  }

  lemma SameMembersSameSize(s: seq<nat>, t: seq<nat>)
    requires forall i, j :: 0 <= i < j < |s| ==> s[i] < s[j]
    requires forall i, j :: 0 <= i < j < |t| ==> t[i] < t[j]
    requires forall x: nat :: x in s <==> x in t
    ensures |s| == |t|
  {
    AscendingSize(s);
    AscendingSize(t);
    assert Elements(s) == Elements(t);
  }

  lemma RunIsKept(beforeOf: map<nat, nat>, ps: seq<nat>, bs: seq<int>, kept: seq<bool>, run: seq<nat>, moves: seq<Move>)
    requires Lists(beforeOf, ps, bs) && Increasing(bs, run)
    requires |kept| == |ps| && forall i: nat :: i < |kept| ==> (kept[i] <==> i in run)
    requires AfterOf(moves) == Unmarked(ps, kept, |ps|)
    ensures |KeptAt(ps, beforeOf.Keys - AfterOf(moves), |ps|)| == |run|
  {
    hide AfterOf;
    var stay := beforeOf.Keys - AfterOf(moves);
    KeptAtMembers(ps, stay, |ps|);
    KeptAtHolds(ps, stay, |ps|);
    forall i: nat | i < |ps| ensures ps[i] in stay <==> i in run {
      if ps[i] in AfterOf(moves) {
        var j :| 0 <= j < |ps| && !kept[j] && ps[j] == ps[i];
        assert i == j;
      }
    }
    SameMembersSameSize(KeptAt(ps, stay, |ps|), run);
  }

  lemma {:induction false} KeptAtHolds(ps: seq<nat>, kept: set<nat>, n: nat)
    requires n <= |ps|
    ensures forall i: nat :: i in KeptAt(ps, kept, n) <==> i < n && ps[i] in kept
  {
    if n > 0 {
      KeptAtHolds(ps, kept, n - 1);
    }
  }

  // ------------------------------------------- inserting and dropping columns

  /** The columns on both sides come in one order: only insertions and drops separate the sides. */
  ghost predicate OnlyInsertedOrDropped<K>(before: seq<K>, after: seq<K>, bs: seq<nat>, as_: seq<nat>) {
    && |bs| == |as_|
    && (forall k :: 0 <= k < |bs| ==> bs[k] < |before| && as_[k] < |after| && before[bs[k]] == after[as_[k]])
    && (forall k, l :: 0 <= k < l < |bs| ==> bs[k] < bs[l] && as_[k] < as_[l])
    && (forall i: nat :: i < |before| && i !in bs ==> before[i] !in after)
  }

  /** Among columns of distinct keys, inserting and dropping move nothing. */
  lemma InsertingOrDroppingMovesNothing<K>(before: seq<K>, after: seq<K>, bs: seq<nat>, as_: seq<nat>, beforeOf: map<nat, nat>)
    requires Distinct(before) && Distinct(after) && OnlyInsertedOrDropped(before, after, bs, as_)
    requires PairedBy(before, after, beforeOf)
    ensures InOrder(beforeOf, beforeOf.Keys)
  {
    forall x, y | x in beforeOf && y in beforeOf && x < y ensures beforeOf[x] < beforeOf[y] {
      var k := KeptIndex(before, after, bs, as_, beforeOf, x);
      var l := KeptIndex(before, after, bs, as_, beforeOf, y);
    }
  }

  lemma KeptIndex<K>(before: seq<K>, after: seq<K>, bs: seq<nat>, as_: seq<nat>, beforeOf: map<nat, nat>, x: nat) returns (k: nat)
    requires Distinct(before) && Distinct(after) && OnlyInsertedOrDropped(before, after, bs, as_)
    requires PairedBy(before, after, beforeOf) && x in beforeOf
    ensures k < |bs| && bs[k] == beforeOf[x] && as_[k] == x
  {
    var bi := beforeOf[x];
    assert Pairs(before, after, bi, x);
    assert bi in bs;
    k :| k < |bs| && bs[k] == bi;
    assert after[as_[k]] == after[x];
  }

  /** Nothing is reported exactly when no two paired occurrences changed order. */
  lemma NothingMovedExactlyWhenInOrder(beforeOf: map<nat, nat>, moves: seq<Move>)
    requires InOrder(beforeOf, beforeOf.Keys - AfterOf(moves))
    requires forall moved: set<nat> :: moved <= beforeOf.Keys && InOrder(beforeOf, beforeOf.Keys - moved) ==> |moves| <= |moved|
    ensures moves == [] <==> InOrder(beforeOf, beforeOf.Keys)
  {
    assert beforeOf.Keys - {} == beforeOf.Keys;
  }

  /** With a repeated key, dropping a column can move another: occurrences re-pair. */
  lemma DroppingARepeatedColumnMovesAnother()
    ensures var before, after := ['a', 'b', 'a'], ['b', 'a'];
            && after == before[1..]
            && Pairs(before, after, 0, 1) && Pairs(before, after, 1, 0)
            && (forall beforeOf :: PairedBy(before, after, beforeOf) ==> !InOrder(beforeOf, beforeOf.Keys))
  {
    var before, after := ['a', 'b', 'a'], ['b', 'a'];
    assert before[..1] == ['a'] && after[..1] == ['b'];
    assert Count(['a'], 'b') == 0 && Count(['b'], 'a') == 0 by {
      assert ['a'][..0] == [] && ['b'][..0] == [];
    }
    forall beforeOf | PairedBy(before, after, beforeOf) ensures !InOrder(beforeOf, beforeOf.Keys) {
      assert Pairs(before, after, 0, 1) && Pairs(before, after, 1, 0);
    }
  }

  // --------------------------------- exactly when dropping or inserting moves nothing

  /** Columns of one key stand next to each other. */
  ghost predicate Contiguous<K>(s: seq<K>) {
    forall i, j, l :: 0 <= i < j < l < |s| && s[i] == s[l] ==> s[j] == s[i]
  }

  /** fewer is s with the columns outside idx dropped. */
  ghost predicate Drops<K>(s: seq<K>, idx: seq<nat>, fewer: seq<K>) {
    && |idx| == |fewer|
    && (forall k :: 0 <= k < |idx| ==> idx[k] < |s| && fewer[k] == s[idx[k]])
    && (forall k, l :: 0 <= k < l < |idx| ==> idx[k] < idx[l])
  }

  /** No two paired columns changed order. */
  ghost predicate NoneMoved<K>(before: seq<K>, after: seq<K>) {
    forall bi: nat, bj: nat, ai: nat, aj: nat ::
      Pairs(before, after, bi, ai) && Pairs(before, after, bj, aj) && ai < aj ==> bi < bj
  }

  /** An empty report is exactly no paired columns changing order. */
  lemma NoneMovedIsInOrder<K>(before: seq<K>, after: seq<K>, beforeOf: map<nat, nat>)
    requires PairedBy(before, after, beforeOf)
    ensures NoneMoved(before, after) <==> InOrder(beforeOf, beforeOf.Keys)
  {
    hide Pairs;
    if InOrder(beforeOf, beforeOf.Keys) {
      forall bi: nat, bj: nat, ai: nat, aj: nat | Pairs(before, after, bi, ai) && Pairs(before, after, bj, aj) && ai < aj
        ensures bi < bj
      {
        assert ai in beforeOf && aj in beforeOf;
      }
    }
  }

  lemma {:induction false} CountGrows<K>(s: seq<K>, i: nat, j: nat, key: K)
    requires i <= j <= |s|
    ensures Count(s[..i], key) <= Count(s[..j], key)
  {
    if i < j {
      CountGrows(s, i, j - 1, key);
      assert s[..j][..j - 1] == s[..j - 1];
    }
  }

  lemma RankRises<K>(s: seq<K>, i: nat, j: nat)
    requires i < j < |s| && s[i] == s[j]
    ensures Rank(s, i) < Rank(s, j)
  {
    assert s[..i + 1][..i] == s[..i];
    CountGrows(s, i + 1, j, s[i]);
  }

  /** Occurrences of one key never change order. */
  lemma SameKeyStays<K>(before: seq<K>, after: seq<K>, bi: nat, bj: nat, ai: nat, aj: nat)
    requires Pairs(before, after, bi, ai) && Pairs(before, after, bj, aj) && ai < aj && after[ai] == after[aj]
    ensures bi < bj
  {
    hide Rank;
    RankRises(after, ai, aj);
    if bj < bi {
      RankRises(before, bj, bi);
    }
  }

  lemma CrossedMeansSameKey<K>(s: seq<K>, p: nat, q: nat, i: nat, j: nat)
    requires Contiguous(s) && p < q < |s| && j <= i < |s| && s[p] == s[i] && s[q] == s[j]
    ensures s[p] == s[q]
  {
    if q < i {
      assert s[q] == s[p];
    } else if j < i < q {
      assert s[i] == s[j];
    }
  }

  lemma ContiguousStays<K>(before: seq<K>, after: seq<K>, idx: seq<nat>)
    requires Contiguous(before) && Drops(before, idx, after)
    ensures NoneMoved(before, after)
  {
    hide Rank;
    forall bi: nat, bj: nat, ai: nat, aj: nat | Pairs(before, after, bi, ai) && Pairs(before, after, bj, aj) && ai < aj
      ensures bi < bj
    {
      if after[ai] == after[aj] {
        SameKeyStays(before, after, bi, bj, ai, aj);
      } else {
        if bj <= bi {
          CrossedMeansSameKey(before, idx[ai], idx[aj], bi, bj);
        }
      }
    }
  }

  lemma {:induction false} FirstOccurrence<K>(s: seq<K>, i: nat) returns (first: nat)
    requires i < |s|
    ensures first <= i && s[first] == s[i] && Rank(s, first) == 0
  {
    RankBelowCount(s, i);
    OccurrenceAt(s, s[i], 0);
    first := Occurrences(s, s[i])[0];
    if i < first {
      RankRises(s, i, first);
    }
  }

  lemma RankOfTwo<K>(x: K, y: K)
    requires x != y
    ensures Rank([x, y], 0) == 0 && Rank([x, y], 1) == 0
  {
    assert [x, y][..0] == [];
    assert [x, y][..1] == [x] && [x][..0] == [];
    assert Count([x], y) == 0;
  }

  /** Two columns whose first occurrences stand the other way round change order when only they are left. */
  lemma LeavingTwoMovesOne<K>(before: seq<K>, i: nat, j: nat, first: nat, second: nat)
    requires i < j < |before| && before[i] != before[j]
    requires second < first < |before| && before[first] == before[i] && before[second] == before[j]
    requires Rank(before, first) == 0 && Rank(before, second) == 0
    ensures Drops(before, [i, j], [before[i], before[j]]) && !NoneMoved(before, [before[i], before[j]])
  {
    var after := [before[i], before[j]];
    RankOfTwo(before[i], before[j]);
    assert Pairs(before, after, first, 0) && Pairs(before, after, second, 1);
  }

  lemma SplitKeyMoves<K>(before: seq<K>, i: nat, j: nat, l: nat) returns (idx: seq<nat>, after: seq<K>)
    requires i < j < l < |before| && before[i] == before[l] && before[j] != before[i]
    ensures Drops(before, idx, after) && !NoneMoved(before, after)
  {
    hide Rank;
    var x := FirstOccurrence(before, i);
    var y := FirstOccurrence(before, j);
    if x < y {
      LeavingTwoMovesOne(before, j, l, y, x);
      idx, after := [j, l], [before[j], before[l]];
    } else {
      LeavingTwoMovesOne(before, i, j, x, y);
      idx, after := [i, j], [before[i], before[j]];
    }
  }

  /** Whatever is dropped, nothing moves: exactly when columns of one key stood next to each other. */
  lemma DroppingMovesNothingExactly<K(!new)>(before: seq<K>)
    ensures (forall idx, after :: Drops(before, idx, after) ==> NoneMoved(before, after)) <==> Contiguous(before)
  {
    hide NoneMoved, Drops;
    if Contiguous(before) {
      forall idx, after | Drops(before, idx, after) ensures NoneMoved(before, after) {
        ContiguousStays(before, after, idx);
      }
    } else {
      var i: nat, j: nat, l: nat :| i < j < l < |before| && before[i] == before[l] && before[j] != before[i];
      var idx, after := SplitKeyMoves(before, i, j, l);
    }
  }

  /** Which side is called before does not matter to whether anything moved. */
  lemma NoneMovedEitherWay<K>(before: seq<K>, after: seq<K>)
    requires NoneMoved(before, after)
    ensures NoneMoved(after, before)
  {
    hide Rank;
    forall bi: nat, bj: nat, ai: nat, aj: nat | Pairs(after, before, ai, bi) && Pairs(after, before, aj, bj) && bi < bj
      ensures ai < aj
    {
      assert Pairs(before, after, bi, ai) && Pairs(before, after, bj, aj);
      PairsUnique(before, after, bi, ai, bj, aj);
    }
  }

  /** Whatever is inserted to reach after, nothing moves: exactly when its columns of one key stand next to each other. */
  lemma InsertingMovesNothingExactly<K(!new)>(after: seq<K>)
    ensures (forall idx, before :: Drops(after, idx, before) ==> NoneMoved(before, after)) <==> Contiguous(after)
  {
    hide NoneMoved, Drops, Contiguous;
    DroppingMovesNothingExactly(after);
    if Contiguous(after) {
      forall idx, before | Drops(after, idx, before) ensures NoneMoved(before, after) {
        NoneMovedEitherWay(after, before);
      }
    } else {
      var idx, before :| Drops(after, idx, before) && !NoneMoved(after, before);
      if NoneMoved(before, after) {
        NoneMovedEitherWay(before, after);
      }
    }
  }

  // --------------------------------------------- dropping and inserting at once

  /** Only columns of keys that the other side does not have were inserted beside the kept ones. */
  ghost predicate OnlyNew<K>(before: seq<K>, after: seq<K>, kept: seq<nat>) {
    forall i: nat :: i < |after| && i !in kept ==> after[i] !in before
  }

  lemma BetweenKept<K>(after: seq<K>, kept: seq<nat>, mid: seq<K>, p: nat, k: nat)
    requires Drops(after, kept, mid) && 0 < p <= |after| && k <= |mid|
    requires (k > 0 ==> kept[k - 1] < p - 1) && (k < |mid| ==> kept[k] >= p)
    ensures p - 1 !in kept
  {
    forall i | 0 <= i < |kept| ensures kept[i] != p - 1 {
      if k <= i {
        assert kept[k] <= kept[i];
      } else {
        assert kept[i] <= kept[k - 1];
      }
    }
  }

  /** The columns before position p that have a key are the kept ones that have it. */
  lemma {:induction false} KeptCounts<K>(after: seq<K>, kept: seq<nat>, mid: seq<K>, p: nat, k: nat, key: K)
    requires Drops(after, kept, mid) && p <= |after| && k <= |mid|
    requires (k > 0 ==> kept[k - 1] < p) && (k < |mid| ==> kept[k] >= p)
    requires forall i: nat :: i < |after| && after[i] == key ==> i in kept
    ensures Count(after[..p], key) == Count(mid[..k], key)
    decreases p
  {
    if p > 0 {
      assert after[..p][..p - 1] == after[..p - 1];
      if k > 0 && kept[k - 1] == p - 1 {
        assert mid[..k][..k - 1] == mid[..k - 1];
        KeptCounts(after, kept, mid, p - 1, k - 1, key);
      } else {
        BetweenKept(after, kept, mid, p, k);
        KeptCounts(after, kept, mid, p - 1, k, key);
      }
    } else {
      assert after[..p] == mid[..k] == [];
    }
  }

  /** What pairs with a column of the other side was kept, and pairs as it does among the kept ones. */
  lemma PairsOfKept<K>(before: seq<K>, after: seq<K>, kept: seq<nat>, mid: seq<K>, bi: nat, ai: nat) returns (k: nat)
    requires Drops(after, kept, mid) && OnlyNew(before, after, kept) && Pairs(before, after, bi, ai)
    ensures k < |kept| && kept[k] == ai && Pairs(before, mid, bi, k)
  {
    assert after[ai] in before;
    k :| k < |kept| && kept[k] == ai;
    KeptCounts(after, kept, mid, ai, k, after[ai]);
  }

  lemma ContiguousStaysAmongNew<K>(before: seq<K>, idx: seq<nat>, mid: seq<K>, kept: seq<nat>, after: seq<K>)
    requires Contiguous(before) && Drops(before, idx, mid) && Drops(after, kept, mid) && OnlyNew(before, after, kept)
    ensures NoneMoved(before, after)
  {
    ContiguousStays(before, mid, idx);
    hide Pairs, OnlyNew, Contiguous;
    forall bi: nat, bj: nat, ai: nat, aj: nat | Pairs(before, after, bi, ai) && Pairs(before, after, bj, aj) && ai < aj
      ensures bi < bj
    {
      var k := PairsOfKept(before, after, kept, mid, bi, ai);
      var l := PairsOfKept(before, after, kept, mid, bj, aj);
      KeptInOrder(after, kept, mid, k, l);
    }
  }

  lemma KeptInOrder<K>(s: seq<K>, kept: seq<nat>, fewer: seq<K>, k: nat, l: nat)
    requires Drops(s, kept, fewer) && k < |kept| && l < |kept| && kept[k] < kept[l]
    ensures k < l
  {
  }

  lemma DropsNothing<K>(before: seq<K>, s: seq<K>) returns (all: seq<nat>)
    ensures Drops(s, all, s) && OnlyNew(before, s, all)
  {
    all := seq(|s|, i requires 0 <= i < |s| => i);
    forall i: nat | i < |s| ensures i in all {
      assert all[i] == i;
    }
  }

  /**
   * Whatever is dropped, and whatever columns of new keys are inserted, nothing
   * moves: exactly when columns of one key stood next to each other.
   */
  lemma DroppingAndInsertingNewMovesNothingExactly<K(!new)>(before: seq<K>)
    ensures (forall idx, mid, kept, after :: Drops(before, idx, mid) && Drops(after, kept, mid) && OnlyNew(before, after, kept) ==>
               NoneMoved(before, after))
            <==> Contiguous(before)
  {
    hide NoneMoved, Drops, OnlyNew;
    if Contiguous(before) {
      forall idx, mid, kept, after | Drops(before, idx, mid) && Drops(after, kept, mid) && OnlyNew(before, after, kept)
        ensures NoneMoved(before, after)
      {
        ContiguousStaysAmongNew(before, idx, mid, kept, after);
      }
    } else {
      var i: nat, j: nat, l: nat :| i < j < l < |before| && before[i] == before[l] && before[j] != before[i];
      var idx, after := SplitKeyMoves(before, i, j, l);
      var all := DropsNothing(before, after);
    }
  }

  /**
   * Whatever is inserted, and whatever columns are dropped whose keys do not come
   * back, nothing moves: exactly when columns of one key stand next to each other.
   */
  lemma InsertingAndDroppingGoneMovesNothingExactly<K(!new)>(after: seq<K>)
    ensures (forall idx, mid, kept, before :: Drops(after, idx, mid) && Drops(before, kept, mid) && OnlyNew(after, before, kept) ==>
               NoneMoved(before, after))
            <==> Contiguous(after)
  {
    hide NoneMoved, Drops, OnlyNew, Contiguous;
    DroppingAndInsertingNewMovesNothingExactly(after);
    if Contiguous(after) {
      forall idx, mid, kept, before | Drops(after, idx, mid) && Drops(before, kept, mid) && OnlyNew(after, before, kept)
        ensures NoneMoved(before, after)
      {
        NoneMovedEitherWay(after, before);
      }
    } else {
      var idx, mid, kept, before :|
        Drops(after, idx, mid) && Drops(before, kept, mid) && OnlyNew(after, before, kept) && !NoneMoved(after, before);
      if NoneMoved(before, after) {
        NoneMovedEitherWay(before, after);
      }
    }
  }

  ghost predicate OneKey<K>(s: seq<K>) {
    forall i, j :: 0 <= i < |s| && 0 <= j < |s| ==> s[i] == s[j]
  }

  lemma OneKeyStays<K>(before: seq<K>, after: seq<K>)
    requires OneKey(before)
    ensures NoneMoved(before, after)
  {
    hide Rank;
    forall bi: nat, bj: nat, ai: nat, aj: nat | Pairs(before, after, bi, ai) && Pairs(before, after, bj, aj) && ai < aj
      ensures bi < bj
    {
      SameKeyStays(before, after, bi, bj, ai, aj);
    }
  }

  lemma TwoKeysMove<K>(before: seq<K>, i: nat, j: nat) returns (after: seq<K>)
    requires i < |before| && j < |before| && before[i] != before[j]
    ensures !NoneMoved(before, after)
  {
    hide Rank;
    var x := FirstOccurrence(before, i);
    var y := FirstOccurrence(before, j);
    var first, second := if x < y then y else x, if x < y then x else y;
    after := [before[first], before[second]];
    RankOfTwo(before[first], before[second]);
    assert Pairs(before, after, first, 0) && Pairs(before, after, second, 1);
  }

  /** If dropped columns may come back elsewhere, nothing ever moves only among columns of one key. */
  lemma AnyChangeMovesNothingExactly<K(!new)>(before: seq<K>)
    ensures (forall after :: NoneMoved(before, after)) <==> OneKey(before)
  {
    hide NoneMoved;
    if OneKey(before) {
      forall after ensures NoneMoved(before, after) {
        OneKeyStays(before, after);
      }
    } else {
      var i: nat, j: nat :| i < |before| && j < |before| && before[i] != before[j];
      var after := TwoKeysMove(before, i, j);
    }
  }
}
