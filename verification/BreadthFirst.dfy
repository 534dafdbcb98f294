/**
 * The invariant of a breadth-first search that keeps a level for each node it
 * has met and a queue of those still to expand.
 */
module BreadthFirst {
  import opened Common
  import opened Walks

  /** A walk of k edges leads from a root to x. */
  ghost predicate ReachedIn<T(!new)>(next: T -> seq<T>, roots: set<T>, x: T, k: nat) {
    exists w :: IsWalk(next, w) && |w| == k + 1 && w[0] in roots && w[k] == x
  }

  lemma RootReachedIn<T(!new)>(next: T -> seq<T>, roots: set<T>, x: T)
    requires x in roots
    ensures ReachedIn(next, roots, x, 0)
  {
    assert IsWalk(next, [x]) && |[x]| == 1 && [x][0] in roots && [x][0] == x;
  }

  lemma StepReachedIn<T(!new)>(next: T -> seq<T>, roots: set<T>, x: T, k: nat, y: T)
    requires ReachedIn(next, roots, x, k) && y in next(x)
    ensures ReachedIn(next, roots, y, k + 1)
  {
    var w :| IsWalk(next, w) && |w| == k + 1 && w[0] in roots && w[k] == x;
    var v := w + [y];
    assert IsWalk(next, v) && |v| == k + 2 && v[0] in roots && v[k + 1] == y;
  }

  lemma LastStepIn<T(!new)>(next: T -> seq<T>, roots: set<T>, y: T, k: nat) returns (x: T)
    requires ReachedIn(next, roots, y, k) && k > 0
    ensures ReachedIn(next, roots, x, k - 1) && y in next(x)
  {
    var w :| IsWalk(next, w) && |w| == k + 1 && w[0] in roots && w[k] == y;
    x := w[k - 1];
    var v := w[..k];
    assert IsWalk(next, v) && |v| == k && v[0] in roots && v[k - 1] == x;
  }

  ghost predicate LevelsReached<T(!new)>(next: T -> seq<T>, roots: set<T>, level: map<T, nat>) {
    && (forall r :: r in roots ==> r in level && level[r] == 0)
    && (forall x :: x in level ==> ReachedIn(next, roots, x, level[x]))
  }

  /** The queue holds nodes of level front, then nodes of level front + 1. */
  ghost predicate Queued<T(!new)>(level: map<T, nat>, queue: seq<T>, front: nat) {
    && (forall i :: 0 <= i < |queue| ==> queue[i] in level && front <= level[queue[i]] <= front + 1)
    && (forall i, j :: 0 <= i < j < |queue| && queue[i] in level && queue[j] in level ==> level[queue[i]] <= level[queue[j]])
    && Distinct(queue)
    && (forall x :: x in level ==> level[x] <= front + 1 && (x !in queue ==> level[x] <= front))
  }

  ghost predicate Expanded<T(!new)>(next: T -> seq<T>, level: map<T, nat>, queue: seq<T>, current: set<T>) {
    forall x, y :: x in level && x !in queue && x !in current && y in next(x) ==> y in level && level[y] <= level[x] + 1
  }

  /** The search has expanded every node it has met but those in the queue and the current ones. */
  ghost predicate Searching<T(!new)>(next: T -> seq<T>, roots: set<T>, level: map<T, nat>, queue: seq<T>, current: set<T>, front: nat) {
    LevelsReached(next, roots, level) && Queued(level, queue, front) && Expanded(next, level, queue, current)
  }

  lemma Begin<T(!new)>(next: T -> seq<T>, roots: set<T>, level: map<T, nat>, queue: seq<T>)
    requires level.Keys == roots && (forall x :: x in level ==> level[x] == 0 && x in queue)
    requires (forall i :: 0 <= i < |queue| ==> queue[i] in roots) && Distinct(queue)
    ensures Searching(next, roots, level, queue, {}, 0)
  {
    forall x | x in level ensures ReachedIn(next, roots, x, 0) {
      RootReachedIn(next, roots, x);
    }
  }

  lemma DequeueQueued<T(!new)>(level: map<T, nat>, queue: seq<T>, front: nat)
    requires Queued(level, queue, front) && queue != []
    ensures Queued(level, queue[1..], level[queue[0]])
    ensures queue[0] !in queue[1..] && forall x :: x in queue <==> x == queue[0] || x in queue[1..]
  {
    assert forall i :: 0 <= i < |queue| - 1 ==> queue[1..][i] == queue[i + 1];
    assert queue == [queue[0]] + queue[1..];
  }

  lemma Dequeue<T(!new)>(next: T -> seq<T>, roots: set<T>, level: map<T, nat>, queue: seq<T>, front: nat)
    requires Searching(next, roots, level, queue, {}, front) && queue != []
    ensures Searching(next, roots, level, queue[1..], {queue[0]}, level[queue[0]])
  {
    DequeueQueued(level, queue, front);
    hide Queued, LevelsReached;
  }

  lemma DiscoverQueued<T(!new)>(level: map<T, nat>, queue: seq<T>, front: nat, y: T)
    requires Queued(level, queue, front) && y !in level
    ensures Queued(level[y := front + 1], queue + [y], front)
  {
    var later, longer := level[y := front + 1], queue + [y];
    forall i | 0 <= i < |longer| ensures longer[i] in later && front <= later[longer[i]] <= front + 1
      ensures i < |queue| ==> longer[i] == queue[i] && queue[i] in level && later[longer[i]] == level[queue[i]]
      ensures i == |queue| ==> later[longer[i]] == front + 1 && longer[i] == y
    {
      if i < |queue| {
        assert queue[i] in level;
      }
    }
    assert longer[|queue|] == y;
  }

  lemma Discover<T(!new)>(next: T -> seq<T>, roots: set<T>, level: map<T, nat>, queue: seq<T>, x: T, y: T)
    requires x in level && Searching(next, roots, level, queue, {x}, level[x]) && y in next(x) && y !in level
    ensures Searching(next, roots, level[y := level[x] + 1], queue + [y], {x}, level[x])
  {
    DiscoverQueued(level, queue, level[x], y);
    StepReachedIn(next, roots, x, level[x], y);
    hide Queued, ReachedIn;
    assert (queue + [y])[|queue|] == y;
  }

  lemma Finish<T(!new)>(next: T -> seq<T>, roots: set<T>, level: map<T, nat>, queue: seq<T>, x: T)
    requires x in level && Searching(next, roots, level, queue, {x}, level[x])
    requires forall y :: y in next(x) ==> y in level
    ensures Searching(next, roots, level, queue, {}, level[x])
  {
    hide LevelsReached;
  }

  /** A search that has met more of the nodes it can meet has fewer left. */
  lemma FewerLeft<T>(all: set<T>, before: set<T>, after: set<T>)
    requires before <= after <= all
    ensures before == after || all - after < all - before
  {
    if x :| x in after && x !in before {
      assert x in all - before;
    } else {
      assert after <= before;
    }
  }

  /** The levels of a finished search are the lengths of the shortest walks. */
  ghost predicate Shortest<T(!new)>(next: T -> seq<T>, roots: set<T>, level: map<T, nat>) {
    && (forall x :: x in level ==> ReachedIn(next, roots, x, level[x]))
    && (forall x, k: nat :: ReachedIn(next, roots, x, k) ==> x in level && level[x] <= k)
  }

  lemma {:induction false} ReachedHasLevel<T(!new)>(next: T -> seq<T>, roots: set<T>, level: map<T, nat>, front: nat, x: T, k: nat)
    requires Searching(next, roots, level, [], {}, front) && ReachedIn(next, roots, x, k)
    ensures x in level && level[x] <= k
    decreases k
  {
    if k > 0 {
      var y := LastStepIn(next, roots, x, k);
      ReachedHasLevel(next, roots, level, front, y, k - 1);
    }
  }

  lemma Done<T(!new)>(next: T -> seq<T>, roots: set<T>, level: map<T, nat>, front: nat)
    requires Searching(next, roots, level, [], {}, front)
    ensures Shortest(next, roots, level)
  {
    hide ReachedIn, Queued;
    forall x, k: nat | ReachedIn(next, roots, x, k) ensures x in level && level[x] <= k {
      ReachedHasLevel(next, roots, level, front, x, k);
    }
  }
}
