/**
 * Why a walk that excludes nothing and never meets the node limit is an exact
 * breadth-first search: invariants over State values, kept by each step.
 */
module GraphSearch {
  import opened GraphModel
  import opened GraphWalk

  /** A side that has been taken off the queue and dealt with. */
  ghost predicate Expanded(s: State, current: set<Side>, side: Side) {
    side in s.walked && side !in current && !InQueue(s.queue, side)
  }

  ghost predicate PlacedByWalk(c: Config, roots: seq<Id>, id: Id, depth: int) {
    exists way: Way :: ReachedIn(c, roots, Side(id, way), Abs(depth)) && (depth != 0 ==> depth == Sign(way) * Abs(depth))
  }

  /** Every depth and level is the length of some walk from a root. */
  ghost predicate Sound(c: Config, roots: seq<Id>, s: State) {
    && (forall id :: id in s.nodes ==> s.nodes[id].node.unresolved != Resolved(c, id) && PlacedByWalk(c, roots, id, s.nodes[id].depth))
    && (forall side :: side in s.walked ==> side in s.level && ReachedIn(c, roots, side, s.level[side]))
  }

  /** The queue is in order of level and holds the sides of level front and front + 1 that are still to expand. */
  ghost predicate QueueInOrder(s: State, front: nat) {
    && (forall i :: 0 <= i < |s.queue| ==> SideOf(s.queue[i]) in s.level && front <= s.level[SideOf(s.queue[i])] <= front + 1)
    && (forall i, j :: 0 <= i < j < |s.queue| && SideOf(s.queue[i]) in s.level && SideOf(s.queue[j]) in s.level ==>
          s.level[SideOf(s.queue[i])] <= s.level[SideOf(s.queue[j])])
  }

  ghost predicate LevelsInOrder(s: State, front: nat) {
    && (forall side :: side in s.walked && side in s.level ==> s.level[side] <= front + 1 && (!InQueue(s.queue, side) ==> s.level[side] <= front))
    && (forall id :: id in s.nodes ==> Abs(s.nodes[id].depth) <= front + 1)
  }

  /** t is in the graph within k edges, and unless it is a leaf it is walked within k edges. */
  ghost predicate Settled(s: State, t: Side, k: nat) {
    && t.id in s.nodes && Abs(s.nodes[t.id].depth) <= k
    && (!s.nodes[t.id].node.unresolved ==> t in s.walked && t in s.level && s.level[t] <= k)
  }

  /** The neighbours of every expanded side short of the depth bound are settled one edge further. */
  ghost predicate Closed(c: Config, s: State, current: set<Side>) {
    forall e, t :: Expanded(s, current, e) && e in s.level && s.level[e] < c.opts.depth && t in NextSides(c, e) ==>
      Settled(s, t, s.level[e] + 1)
  }

  /** Every followed edge of an expanded side is drawn when its other end is in the graph. */
  ghost predicate Drawn(c: Config, s: State, current: set<Side>) {
    forall e, step :: Expanded(s, current, e) && FollowedStep(c, e, step) && step.node.id in s.nodes ==> KeyOf(e, step) in s.edges
  }

  ghost predicate FollowedFrom(c: Config, walked: set<Side>, key: EdgeKey) {
    exists e, step :: e in walked && FollowedStep(c, e, step) && key == KeyOf(e, step)
  }

  /** Every drawn edge is a followed edge of a walked side. */
  ghost predicate OnlyFollowed(c: Config, s: State) {
    forall key :: key in s.edges ==> FollowedFrom(c, s.walked, key)
  }

  ghost predicate RootsSettled(c: Config, roots: seq<Id>, s: State) {
    forall side :: RootSide(c, roots, side) ==> Settled(s, side, 0)
  }

  ghost predicate Searching(c: Config, roots: seq<Id>, s: State, current: set<Side>, front: nat) {
    && Sound(c, roots, s)
    && QueueInOrder(s, front)
    && LevelsInOrder(s, front)
    && Closed(c, s, current)
    && Drawn(c, s, current)
    && OnlyFollowed(c, s)
  }

  // ------------------------------------------------------ following one step

  /** Taking a step of a side at level k changes the state, if at all, by its neighbour at level k + 1. */
  ghost predicate Enlarged(s: State, t: State, walk: Walk, key: EdgeKey, step: Step, depth: int) {
    && (t.nodes == s.nodes || (step.node.id !in s.nodes && t.nodes == s.nodes[step.node.id := Placed(step.node, depth)]))
    && (Requeued(s, t, walk, step, depth) || (t.queue == s.queue && t.walked == s.walked && t.level == s.level))
    && t.edges.Keys <= s.edges.Keys + {key}
  }

  ghost predicate Requeued(s: State, t: State, walk: Walk, step: Step, depth: int) {
    var side := Side(step.node.id, walk.way);
    && side !in s.walked && t.walked == s.walked + {side} && t.level == s.level[side := Abs(depth)]
    && t.queue == s.queue + [Walk(step.node.id, depth, walk.way)]
    && step.node.id in t.nodes && !t.nodes[step.node.id].node.unresolved
  }

  lemma EnqueuedTwice(s: State, id: Id, depth: int, way: Way)
    requires id in s.nodes
    ensures Enqueued(Enqueued(s, id, depth, way), id, depth, way) == Enqueued(s, id, depth, way)
  {
  }

  /** Away from the roots, adding a node queues it in the direction of the walk or not at all. */
  lemma AddedThenEnqueued(c: Config, s: State, node: Node, depth: int, way: Way, k: nat)
    requires depth == Sign(way) * (k + 1)
    ensures Enqueued(Added(c, s, node, depth), node.id, depth, way) ==
            Enqueued(s.(nodes := s.nodes[node.id := Placed(node, depth)]), node.id, depth, way)
  {
    var t := s.(nodes := s.nodes[node.id := Placed(node, depth)]);
    assert t.nodes[node.id] == Placed(node, depth);
    EnqueuedTwice(t, node.id, depth, way);
    hide Enqueued;
  }

  /** What following a step amounts to while the node limit is not met. */
  function TakenPlainly(c: Config, s: State, walk: Walk, key: EdgeKey, step: Step): State {
    var id, depth := step.node.id, walk.depth + Sign(walk.way);
    if AtDepth(c, walk) then
      if id in s.nodes then Recorded(s, key, step.sites) else s
    else
      var t := if id in s.nodes then s else s.(nodes := s.nodes[id := Placed(step.node, depth)]);
      Recorded(Enqueued(t, id, depth, walk.way), key, step.sites)
  }

  lemma TakenIsPlain(c: Config, s: State, walk: Walk, key: EdgeKey, step: Step, k: nat)
    requires walk.depth == Sign(walk.way) * k && !Taken(c, s, walk, key, step).nodeLimit
    ensures Taken(c, s, walk, key, step) == TakenPlainly(c, s, walk, key, step)
  {
    if step.node.id !in s.nodes && !AtDepth(c, walk) && |s.nodes| < c.opts.limit {
      AddedThenEnqueued(c, s, step.node, walk.depth + Sign(walk.way), walk.way, k);
    }
    hide Added, Enqueued, Recorded, AtDepth;
  }

  lemma TakenEnlarges(c: Config, s: State, walk: Walk, key: EdgeKey, step: Step)
    ensures Enlarged(s, TakenPlainly(c, s, walk, key, step), walk, key, step, walk.depth + Sign(walk.way))
  {
    hide AtDepth, Recorded;
    var id, depth := step.node.id, walk.depth + Sign(walk.way);
    if AtDepth(c, walk) {
      RecordedAdds(s, key, step.sites);
    } else {
      var t := if id in s.nodes then s else s.(nodes := s.nodes[id := Placed(step.node, depth)]);
      var u := Enqueued(t, id, depth, walk.way);
      RecordedAdds(u, key, step.sites);
      assert u == t || Requeued(s, u, walk, step, depth);
    }
  }

  lemma RecordedAdds(s: State, key: EdgeKey, sites: seq<Site>)
    ensures var t := Recorded(s, key, sites);
            t == s.(edges := t.edges) && t.edges.Keys == s.edges.Keys + {key}
  {
  }

  /** What is true of the step itself once it is taken. */
  lemma TakenSettles(c: Config, s: State, walk: Walk, key: EdgeKey, step: Step, k: nat)
    requires walk.depth == Sign(walk.way) * k && k <= c.opts.depth && LevelsInOrder(s, k) && s.level.Keys == s.walked
    ensures var t := TakenPlainly(c, s, walk, key, step);
            && (k < c.opts.depth ==> Settled(t, Side(step.node.id, walk.way), k + 1))
            && (k == c.opts.depth ==> t.nodes == s.nodes && t.walked == s.walked)
            && (step.node.id in t.nodes ==> key in t.edges)
  {
    NextDepth(c, walk, k);
    hide AtDepth;
  }

  // ----------------------------------------------- what taking a step keeps

  lemma QueueStays(s: State, t: State, side: Side)
    requires Grows(s, t)
    ensures InQueue(s.queue, side) ==> InQueue(t.queue, side)
  {
    if InQueue(s.queue, side) {
      var i :| 0 <= i < |s.queue| && SideOf(s.queue[i]) == side;
      assert t.queue[i] == s.queue[i];
    }
  }

  lemma NewlyQueued(s: State, t: State, side: Side)
    requires Grows(s, t) && side in t.walked && side !in s.walked
    ensures InQueue(t.queue, side)
  {
  }

  lemma ExpandedBefore(s: State, t: State, current: set<Side>, side: Side)
    requires Grows(s, t) && Expanded(t, current, side)
    ensures Expanded(s, current, side)
  {
    hide InQueue;
    QueueStays(s, t, side);
  }

  lemma SettledStays(s: State, t: State, side: Side, k: nat)
    requires Grows(s, t) && Settled(s, side, k)
    ensures Settled(t, side, k)
  {
  }

  lemma StepSound(c: Config, roots: seq<Id>, s: State, t: State, walk: Walk, key: EdgeKey, step: Step, k: nat)
    requires Sound(c, roots, s) && s.level.Keys == s.walked
    requires walk.depth == Sign(walk.way) * k && Enlarged(s, t, walk, key, step, walk.depth + Sign(walk.way))
    requires ReachedIn(c, roots, Side(step.node.id, walk.way), k + 1) && step.node.unresolved != Resolved(c, step.node.id)
    ensures Sound(c, roots, t)
  {
    hide ReachedIn;
    var depth := walk.depth + Sign(walk.way);
    forall id | id in t.nodes ensures t.nodes[id].node.unresolved != Resolved(c, id) && PlacedByWalk(c, roots, id, t.nodes[id].depth) {
      if id !in s.nodes {
        assert ReachedIn(c, roots, Side(id, walk.way), Abs(depth)) && depth == Sign(walk.way) * Abs(depth);
      }
    }
  }

  lemma StepQueue(s: State, t: State, walk: Walk, key: EdgeKey, step: Step, k: nat)
    requires QueueInOrder(s, k) && s.level.Keys == s.walked
    requires walk.depth == Sign(walk.way) * k && Enlarged(s, t, walk, key, step, walk.depth + Sign(walk.way))
    ensures QueueInOrder(t, k)
  {
    if Requeued(s, t, walk, step, walk.depth + Sign(walk.way)) {
      var side := Side(step.node.id, walk.way);
      forall i | 0 <= i < |t.queue|
        ensures SideOf(t.queue[i]) in t.level && k <= t.level[SideOf(t.queue[i])] <= k + 1
        ensures i < |s.queue| ==> t.queue[i] == s.queue[i] && t.level[SideOf(t.queue[i])] == s.level[SideOf(s.queue[i])]
        ensures i == |s.queue| ==> t.level[SideOf(t.queue[i])] == k + 1
      {
        if i < |s.queue| {
          assert SideOf(s.queue[i]) in s.level;
        } else {
          assert SideOf(t.queue[i]) == side;
        }
      }
    }
  }

  lemma StepSideLevels(s: State, t: State, walk: Walk, key: EdgeKey, step: Step, k: nat)
    requires LevelsInOrder(s, k) && s.level.Keys == s.walked && Grows(s, t)
    requires walk.depth == Sign(walk.way) * k && Enlarged(s, t, walk, key, step, walk.depth + Sign(walk.way))
    ensures forall side :: side in t.walked && side in t.level ==> t.level[side] <= k + 1 && (!InQueue(t.queue, side) ==> t.level[side] <= k)
  {
    hide Grows, InQueue;
    forall side | side in t.walked && side in t.level
      ensures t.level[side] <= k + 1 && (!InQueue(t.queue, side) ==> t.level[side] <= k)
    {
      QueueStays(s, t, side);
      if side !in s.walked {
        NewlyQueued(s, t, side);
      }
    }
  }

  lemma StepLevels(s: State, t: State, walk: Walk, key: EdgeKey, step: Step, k: nat)
    requires LevelsInOrder(s, k) && s.level.Keys == s.walked && Grows(s, t)
    requires walk.depth == Sign(walk.way) * k && Enlarged(s, t, walk, key, step, walk.depth + Sign(walk.way))
    ensures LevelsInOrder(t, k)
  {
    hide *;
    StepSideLevels(s, t, walk, key, step, k);
    StepNodeLevels(s, t, walk, key, step, k);
    LevelsWhole(t, k);
  }

  lemma StepNodeLevels(s: State, t: State, walk: Walk, key: EdgeKey, step: Step, k: nat)
    requires LevelsInOrder(s, k) && walk.depth == Sign(walk.way) * k && Enlarged(s, t, walk, key, step, walk.depth + Sign(walk.way))
    ensures forall id :: id in t.nodes ==> Abs(t.nodes[id].depth) <= k + 1
  {
    hide Grows, InQueue, Requeued;
  }

  lemma LevelsWhole(s: State, front: nat)
    requires forall side :: side in s.walked && side in s.level ==> s.level[side] <= front + 1 && (!InQueue(s.queue, side) ==> s.level[side] <= front)
    requires forall id :: id in s.nodes ==> Abs(s.nodes[id].depth) <= front + 1
    ensures LevelsInOrder(s, front)
  {
    hide InQueue, Abs;
  }

  lemma StepClosed(c: Config, s: State, t: State, current: set<Side>)
    requires Closed(c, s, current) && s.level.Keys == s.walked && Grows(s, t)
    ensures Closed(c, t, current)
  {
    forall e, side | Expanded(t, current, e) && e in t.level && t.level[e] < c.opts.depth && side in NextSides(c, e)
      ensures Settled(t, side, t.level[e] + 1)
    {
      ExpandedBefore(s, t, current, e);
      SettledStays(s, t, side, s.level[e] + 1);
    }
  }

  /** The neighbours of a side expanded short of the depth bound are in the graph. */
  lemma NeighbourPresent(c: Config, s: State, current: set<Side>, e: Side, step: Step)
    requires Closed(c, s, current) && Expanded(s, current, e) && FollowedStep(c, e, step)
    requires e in s.level && s.level[e] < c.opts.depth && Resolved(c, e.id)
    ensures step.node.id in s.nodes
  {
    assert Side(step.node.id, e.way) in NextSides(c, e);
    assert Settled(s, Side(step.node.id, e.way), s.level[e] + 1);
  }

  /** A followed step of an expanded side to a node that joins the graph now would have brought it in before. */
  lemma StepDrawn(c: Config, s: State, t: State, current: set<Side>, k: nat)
    requires Drawn(c, s, current) && Closed(c, s, current) && Grows(s, t) && LevelsInOrder(s, k) && Safe(c, s)
    requires forall id :: id in s.nodes ==> s.nodes[id].node.unresolved != Resolved(c, id)
    requires k < c.opts.depth || t.nodes == s.nodes
    ensures Drawn(c, t, current)
  {
    forall e, step | Expanded(t, current, e) && FollowedStep(c, e, step) && step.node.id in t.nodes ensures KeyOf(e, step) in t.edges {
      ExpandedBefore(s, t, current, e);
      if k < c.opts.depth {
        NeighbourPresent(c, s, current, e, step);
      }
    }
  }

  lemma StepOnlyFollowed(c: Config, s: State, t: State, walk: Walk, key: EdgeKey, step: Step)
    requires OnlyFollowed(c, s) && Grows(s, t) && t.edges.Keys <= s.edges.Keys + {key}
    requires SideOf(walk) in s.walked && FollowedStep(c, SideOf(walk), step) && key == KeyOf(SideOf(walk), step)
    ensures OnlyFollowed(c, t)
  {
    forall k | k in t.edges ensures FollowedFrom(c, t.walked, k) {
      if k in s.edges {
        assert FollowedFrom(c, s.walked, k);
        var e, st :| e in s.walked && FollowedStep(c, e, st) && k == KeyOf(e, st);
        assert e in t.walked && FollowedStep(c, e, st) && k == KeyOf(e, st);
      } else {
        assert SideOf(walk) in t.walked && FollowedStep(c, SideOf(walk), step) && k == KeyOf(SideOf(walk), step);
      }
    }
  }

  /** What the walk has made sure of about one followed step of the side it is expanding. */
  ghost predicate StepDealt(c: Config, s: State, e: Side, step: Step, k: nat) {
    && (k < c.opts.depth ==> Settled(s, Side(step.node.id, e.way), k + 1))
    && (step.node.id in s.nodes ==> KeyOf(e, step) in s.edges)
  }

  /** merged stands for step: the same edge, with the node the step reports. */
  ghost predicate StandsFor(c: Config, e: Side, key: EdgeKey, merged: Step, step: Step) {
    && FollowedStep(c, e, step) && key == KeyOf(e, step) == KeyOf(e, merged)
    && merged.node == step.node
  }

  lemma WalkedResolved(c: Config, roots: seq<Id>, s: State, side: Side)
    requires Safe(c, s) && Sound(c, roots, s) && side in s.walked
    ensures side.id in s.nodes && Resolved(c, side.id) && ReachedIn(c, roots, side, s.level[side])
  {
  }

  lemma TakenSearching(c: Config, roots: seq<Id>, s: State, walk: Walk, key: EdgeKey, merged: Step, step: Step, k: nat)
    requires Consistent(c) && Safe(c, s) && Searching(c, roots, s, {SideOf(walk)}, k)
    requires SideOf(walk) in s.walked && s.level[SideOf(walk)] == k && k <= c.opts.depth && walk.depth == Sign(walk.way) * k
    requires StandsFor(c, SideOf(walk), key, merged, step)
    requires !Taken(c, s, walk, key, merged).nodeLimit
    ensures var t := Taken(c, s, walk, key, merged);
            Searching(c, roots, t, {SideOf(walk)}, k) && StepDealt(c, t, SideOf(walk), step, k)
    ensures k == c.opts.depth ==> Taken(c, s, walk, key, merged).nodes == s.nodes
  {
    hide Taken, TakenPlainly, Enlarged, Requeued, Sound, QueueInOrder, LevelsInOrder, Closed, Drawn, OnlyFollowed;
    hide Grows, Settled, ReachedIn, NextSides, Safe, Searching, StepDealt, Consistent, Expanded, FollowedStep;
    var e := SideOf(walk);
    var t := Taken(c, s, walk, key, merged);
    SearchingParts(c, roots, s, {e}, k);
    SafeLevels(c, s);
    TakenSafe(c, s, walk, key, merged);
    TakenIsPlain(c, s, walk, key, merged, k);
    TakenEnlarges(c, s, walk, key, merged);
    TakenSettles(c, s, walk, key, merged, k);
    NextOfStep(c, roots, s, e, key, merged, step, k);
    StepSound(c, roots, s, t, walk, key, merged, k);
    StepQueue(s, t, walk, key, merged, k);
    StepLevels(s, t, walk, key, merged, k);
    StepClosed(c, s, t, {e});
    NodesAgree(c, roots, s);
    StepDrawn(c, s, t, {e}, k);
    EnlargedEdges(s, t, walk, key, merged, walk.depth + Sign(walk.way));
    StepOnlyFollowed(c, s, t, walk, key, step);
    SearchingWhole(c, roots, t, {e}, k);
    DealtWhole(c, t, e, step, k);
  }

  lemma SearchingParts(c: Config, roots: seq<Id>, s: State, current: set<Side>, front: nat)
    requires Searching(c, roots, s, current, front)
    ensures Sound(c, roots, s) && QueueInOrder(s, front) && LevelsInOrder(s, front)
    ensures Closed(c, s, current) && Drawn(c, s, current) && OnlyFollowed(c, s)
  {
  }

  lemma SearchingWhole(c: Config, roots: seq<Id>, s: State, current: set<Side>, front: nat)
    requires Sound(c, roots, s) && QueueInOrder(s, front) && LevelsInOrder(s, front)
    requires Closed(c, s, current) && Drawn(c, s, current) && OnlyFollowed(c, s)
    ensures Searching(c, roots, s, current, front)
  {
  }

  lemma DealtWhole(c: Config, s: State, e: Side, step: Step, k: nat)
    requires k < c.opts.depth ==> Settled(s, Side(step.node.id, e.way), k + 1)
    requires step.node.id in s.nodes ==> KeyOf(e, step) in s.edges
    ensures StepDealt(c, s, e, step, k)
  {
  }

  lemma SafeLevels(c: Config, s: State)
    requires Safe(c, s)
    ensures s.level.Keys == s.walked
  {
  }

  /** The side a followed step leads to is one edge further from the roots. */
  lemma NextOfStep(c: Config, roots: seq<Id>, s: State, e: Side, key: EdgeKey, merged: Step, step: Step, k: nat)
    requires Consistent(c) && Safe(c, s) && Sound(c, roots, s) && e in s.walked && s.level[e] == k
    requires StandsFor(c, e, key, merged, step)
    ensures ReachedIn(c, roots, Side(merged.node.id, e.way), k + 1) && merged.node.unresolved != Resolved(c, merged.node.id)
    ensures merged.node == step.node && key == KeyOf(e, step) && FollowedStep(c, e, step)
  {
    WalkedResolved(c, roots, s, e);
    assert Side(step.node.id, e.way) in NextSides(c, e);
    StepReached(c, roots, e, k, Side(step.node.id, e.way));
  }

  lemma NodesAgree(c: Config, roots: seq<Id>, s: State)
    requires Sound(c, roots, s)
    ensures forall id :: id in s.nodes ==> s.nodes[id].node.unresolved != Resolved(c, id)
  {
  }

  lemma EnlargedEdges(s: State, t: State, walk: Walk, key: EdgeKey, step: Step, depth: int)
    requires Enlarged(s, t, walk, key, step, depth)
    ensures t.edges.Keys <= s.edges.Keys + {key}
  {
  }

  lemma StepStaysDealt(c: Config, s: State, t: State, e: Side, step: Step, k: nat)
    requires StepDealt(c, s, e, step, k) && Grows(s, t) && (k >= c.opts.depth ==> t.nodes == s.nodes)
    ensures StepDealt(c, t, e, step, k)
  {
    if k < c.opts.depth {
      SettledStays(s, t, Side(step.node.id, e.way), k + 1);
    }
  }

  // ------------------------------------------------ starting and ending a side

  function Dequeued(s: State): State
    requires s.queue != []
  {
    s.(queue := s.queue[1..])
  }

  lemma DequeuedSafe(c: Config, s: State)
    requires Safe(c, s) && s.queue != []
    ensures Safe(c, Dequeued(s))
  {
    assert forall i :: 0 <= i < |s.queue| - 1 ==> Dequeued(s).queue[i] == s.queue[i + 1];
  }

  lemma QueueSplit(s: State, side: Side)
    requires s.queue != []
    ensures InQueue(s.queue, side) <==> side == SideOf(s.queue[0]) || InQueue(s.queue[1..], side)
  {
    if InQueue(s.queue, side) {
      var i :| 0 <= i < |s.queue| && SideOf(s.queue[i]) == side;
      if i > 0 {
        assert s.queue[1..][i - 1] == s.queue[i];
      }
    }
    if InQueue(s.queue[1..], side) {
      var i :| 0 <= i < |s.queue| - 1 && SideOf(s.queue[1..][i]) == side;
      assert s.queue[i + 1] == s.queue[1..][i];
    }
  }

  lemma DequeuedExpanded(s: State, x: Side)
    requires s.queue != []
    ensures Expanded(Dequeued(s), {SideOf(s.queue[0])}, x) ==> Expanded(s, {}, x)
  {
    QueueSplit(s, x);
  }

  lemma DequeuedInOrder(c: Config, s: State, front: nat)
    requires Safe(c, s) && s.queue != [] && QueueInOrder(s, front) && LevelsInOrder(s, front)
    ensures var k := s.level[SideOf(s.queue[0])];
            QueueInOrder(Dequeued(s), k) && LevelsInOrder(Dequeued(s), k)
  {
    var k := s.level[SideOf(s.queue[0])];
    var t := Dequeued(s);
    assert front <= k;
    forall i | 0 <= i < |t.queue| ensures t.queue[i] == s.queue[i + 1] && k <= s.level[SideOf(s.queue[i + 1])] {
    }
    forall side | side in t.walked && side in t.level
      ensures t.level[side] <= k + 1 && (!InQueue(t.queue, side) ==> t.level[side] <= k)
    {
      QueueSplit(s, side);
    }
  }

  lemma StartClosed(c: Config, s: State)
    requires s.queue != [] && Closed(c, s, {}) && Drawn(c, s, {})
    ensures Closed(c, Dequeued(s), {SideOf(s.queue[0])}) && Drawn(c, Dequeued(s), {SideOf(s.queue[0])})
  {
    hide Expanded, NextSides;
    var e := SideOf(s.queue[0]);
    var t := Dequeued(s);
    forall x, side | Expanded(t, {e}, x) && x in t.level && t.level[x] < c.opts.depth && side in NextSides(c, x)
      ensures Settled(t, side, t.level[x] + 1)
    {
      DequeuedExpanded(s, x);
      assert Settled(s, side, s.level[x] + 1);
    }
    forall x, step | Expanded(t, {e}, x) && FollowedStep(c, x, step) && step.node.id in t.nodes ensures KeyOf(x, step) in t.edges {
      DequeuedExpanded(s, x);
    }
  }

  lemma StartSide(c: Config, roots: seq<Id>, s: State, front: nat)
    requires Safe(c, s) && s.queue != [] && Searching(c, roots, s, {}, front)
    ensures Searching(c, roots, Dequeued(s), {SideOf(s.queue[0])}, s.level[SideOf(s.queue[0])])
  {
    hide Searching, QueueInOrder, LevelsInOrder, Closed, Drawn, Sound, OnlyFollowed, Safe;
    SearchingParts(c, roots, s, {}, front);
    DequeuedInOrder(c, s, front);
    StartClosed(c, s);
    StartSound(c, roots, s);
    SafeLevels(c, s);
    SearchingWhole(c, roots, Dequeued(s), {SideOf(s.queue[0])}, s.level[SideOf(s.queue[0])]);
  }

  lemma StartSound(c: Config, roots: seq<Id>, s: State)
    requires s.queue != [] && Sound(c, roots, s) && OnlyFollowed(c, s)
    ensures Sound(c, roots, Dequeued(s)) && OnlyFollowed(c, Dequeued(s))
  {
    hide ReachedIn, PlacedByWalk, FollowedStep, KeyOf;
    forall key | key in s.edges ensures FollowedFrom(c, Dequeued(s).walked, key) {
      assert FollowedFrom(c, s.walked, key);
    }
  }

  lemma EndSide(c: Config, roots: seq<Id>, s: State, e: Side, k: nat)
    requires Searching(c, roots, s, {e}, k) && e in s.level && s.level[e] == k
    requires forall step :: FollowedStep(c, e, step) ==> StepDealt(c, s, e, step, k)
    ensures Searching(c, roots, s, {}, k)
  {
    hide QueueInOrder, LevelsInOrder, Sound, OnlyFollowed, InQueue;
    forall x, t | Expanded(s, {}, x) && x in s.level && s.level[x] < c.opts.depth && t in NextSides(c, x)
      ensures Settled(s, t, s.level[x] + 1)
    {
      if x == e {
        var step :| step in StepsOf(c, e) && Follows(c.opts.access, step.edgeType) && step.node.id == t.id;
        assert FollowedStep(c, e, step);
      } else {
        assert Expanded(s, {e}, x);
      }
    }
    forall x, step | Expanded(s, {}, x) && FollowedStep(c, x, step) && step.node.id in s.nodes ensures KeyOf(x, step) in s.edges {
      if x != e {
        assert Expanded(s, {e}, x);
      }
    }
  }

  // ------------------------------------------------------------- the roots

  lemma QueueAppend(queue: seq<Walk>, walk: Walk, side: Side)
    ensures InQueue(queue + [walk], side) <==> InQueue(queue, side) || side == SideOf(walk)
  {
    var later := queue + [walk];
    if InQueue(queue, side) {
      var i :| 0 <= i < |queue| && SideOf(queue[i]) == side;
      assert SideOf(later[i]) == side;
    }
    assert SideOf(later[|queue|]) == SideOf(walk);
  }

  /** Only sides that wait at level zero. */
  ghost predicate AllWait(c: Config, s: State) {
    && s.level.Keys == s.walked
    && forall side :: side in s.walked ==> s.level[side] == 0 && InQueue(s.queue, side) && Requested(c.opts.direction, side.way)
  }

  lemma EnqueuedRoot(c: Config, s: State, id: Id, way: Way)
    requires id in s.nodes && AllWait(c, s) && Requested(c.opts.direction, way)
    ensures var t := Enqueued(s, id, 0, way);
            AllWait(c, t) && s.walked <= t.walked && (s.nodes[id].node.unresolved || Side(id, way) in t.walked)
            && t.nodes == s.nodes && t.edges == s.edges && t.nodeLimit == s.nodeLimit
  {
    var t := Enqueued(s, id, 0, way);
    hide InQueue;
    forall side | side in t.walked ensures InQueue(t.queue, side) {
      if t != s {
        QueueAppend(s.queue, Walk(id, 0, way), side);
      }
    }
  }

  lemma AddedRoot(c: Config, s: State, id: Id)
    requires c.src.describe(id).id == id && AllWait(c, s) && id !in s.nodes
    ensures var t := Added(c, s, c.src.describe(id), 0);
            AllWait(c, t) && s.walked <= t.walked && RootWaits(c, t, id)
            && t.nodes == s.nodes[id := Placed(c.src.describe(id), 0)] && t.edges == s.edges && t.nodeLimit == s.nodeLimit
  {
    hide Enqueued;
    var node := c.src.describe(id);
    var t := s.(nodes := s.nodes[id := Placed(node, 0)]);
    assert AllWait(c, t);
    if !node.unresolved {
      var u := t;
      if c.opts.direction != Callers {
        EnqueuedRoot(c, t, id, Out);
        u := Enqueued(t, id, 0, Out);
      }
      var v := u;
      if c.opts.direction != Callees {
        EnqueuedRoot(c, u, id, In);
        v := Enqueued(u, id, 0, In);
      }
      forall way: Way | Requested(c.opts.direction, way) ensures Side(id, way) in v.walked {
        match way
        case Out =>
        case In =>
      }
    }
  }

  ghost predicate RootWaits(c: Config, s: State, id: Id) {
    id in s.nodes && (Resolved(c, id) ==> forall way: Way :: Requested(c.opts.direction, way) ==> Side(id, way) in s.walked)
  }

  /** The roots described so far are in the graph and wait to be expanded; nothing else is. */
  ghost predicate RootsAdded(c: Config, roots: seq<Id>, s: State, done: nat) {
    && done <= |roots| && s.edges == map[] && AllWait(c, s)
    && (forall id :: id in s.nodes ==> s.nodes[id] == Placed(c.src.describe(id), 0) && id in roots && RootWaits(c, s, id))
    && (forall side :: side in s.walked ==> side.id in s.nodes)
    && (forall i :: 0 <= i < |s.queue| ==> SideOf(s.queue[i]) in s.walked)
    && (forall i :: 0 <= i < done ==> roots[i] in s.nodes)
  }

  lemma StillWaits(c: Config, s: State, t: State, id: Id)
    requires RootWaits(c, s, id) && id in t.nodes && s.walked <= t.walked
    ensures RootWaits(c, t, id)
  {
    hide Requested, Resolved;
  }

  lemma QueuedAreWalked(c: Config, s: State)
    requires QueueOk(s.queue, s.level) && AllWait(c, s)
    ensures forall i :: 0 <= i < |s.queue| ==> SideOf(s.queue[i]) in s.walked
  {
    hide InQueue;
  }

  lemma RootsAddedWhole(c: Config, roots: seq<Id>, s: State, t: State, done: nat)
    requires RootsAdded(c, roots, s, done) && done < |roots|
    requires t.nodes == s.nodes[roots[done] := Placed(c.src.describe(roots[done]), 0)] && t.edges == s.edges && AllWait(c, t)
    requires forall id :: id in t.nodes ==> RootWaits(c, t, id)
    requires forall side :: side in t.walked ==> side.id in t.nodes
    requires forall i :: 0 <= i < |t.queue| ==> SideOf(t.queue[i]) in t.walked
    ensures RootsAdded(c, roots, t, done + 1)
  {
    hide RootWaits, AllWait;
  }

  lemma WalkedArePresent(c: Config, s: State)
    requires Leveled(c, s.nodes, s.walked, s.level)
    ensures forall side :: side in s.walked ==> side.id in s.nodes
  {
  }

  lemma RootsWait(c: Config, roots: seq<Id>, s: State, done: nat)
    requires RootsAdded(c, roots, s, done)
    ensures AllWait(c, s) && forall id :: id in s.nodes ==> RootWaits(c, s, id)
  {
    hide AllWait, RootWaits;
  }

  lemma RootAdded(c: Config, roots: seq<Id>, s: State, done: nat)
    requires RootsAdded(c, roots, s, done) && done < |roots| && roots[done] !in s.nodes && QueueOk(s.queue, s.level)
    requires c.src.describe(roots[done]).id == roots[done]
    requires Leveled(c, s.nodes, s.walked, s.level) && Placements(c, s.nodes) && |s.nodes| < c.opts.limit && c.opts.depth >= 0
    ensures RootsAdded(c, roots, Added(c, s, c.src.describe(roots[done]), 0), done + 1)
  {
    hide *;
    var id := roots[done];
    var t := Added(c, s, c.src.describe(id), 0);
    RootsWait(c, roots, s, done);
    AddedRoot(c, s, id);
    assert Abs(0) <= c.opts.depth by { AbsOfZero(); }
    AddedSafe(c, s, c.src.describe(id), 0);
    QueuedAreWalked(c, t);
    WalkedArePresent(c, t);
    forall other | other in t.nodes ensures RootWaits(c, t, other) {
      if other != id {
        StillWaits(c, s, t, other);
      }
    }
    RootsAddedWhole(c, roots, s, t, done);
  }

  lemma AbsOfZero()
    ensures Abs(0) == 0
  {
  }

  lemma RootsStart(c: Config, roots: seq<Id>, s: State)
    requires RootsAdded(c, roots, s, |roots|)
    ensures Searching(c, roots, s, {}, 0) && RootsSettled(c, roots, s)
  {
    hide Searching, Sound;
    RootsSound(c, roots, s);
    SearchingWhole(c, roots, s, {}, 0);
    forall side | RootSide(c, roots, side) ensures Settled(s, side, 0) {
      var i :| 0 <= i < |roots| && roots[i] == side.id;
      assert RootWaits(c, s, side.id);
    }
  }

  lemma RootsSound(c: Config, roots: seq<Id>, s: State)
    requires RootsAdded(c, roots, s, |roots|)
    ensures Sound(c, roots, s)
  {
    hide NextSides, ReachedIn, InQueue;
    forall id | id in s.nodes ensures PlacedByWalk(c, roots, id, 0) {
      var way: Way := if Requested(c.opts.direction, Out) then Out else In;
      RootReached(c, roots, Side(id, way));
      assert ReachedIn(c, roots, Side(id, way), Abs(0));
    }
    forall side | side in s.walked ensures ReachedIn(c, roots, side, s.level[side]) {
      RootReached(c, roots, side);
    }
  }

  // ------------------------------------------------------------ the answer

  ghost predicate WithinDepth(c: Config, roots: seq<Id>, side: Side) {
    exists k: nat :: k <= c.opts.depth && ReachedIn(c, roots, side, k)
  }

  ghost predicate InReach(c: Config, roots: seq<Id>, id: Id) {
    exists way: Way :: WithinDepth(c, roots, Side(id, way))
  }

  /** A followed edge of a resolved side within the depth bound. */
  ghost predicate FollowedEdge(c: Config, roots: seq<Id>, key: EdgeKey) {
    exists side, step :: WithinDepth(c, roots, side) && Resolved(c, side.id) && FollowedStep(c, side, step) && key == KeyOf(side, step)
  }

  /** No walk from a root to the node is shorter than its depth, and one is as short. */
  ghost predicate ShortestDepth(c: Config, roots: seq<Id>, id: Id, depth: int) {
    && PlacedByWalk(c, roots, id, depth)
    && forall way: Way, k: nat :: ReachedIn(c, roots, Side(id, way), k) ==> Abs(depth) <= k
  }

  /** The nodes, depths, edges and expanded sides are what the source and the options determine. */
  ghost predicate Exact(c: Config, roots: seq<Id>, nodes: map<Id, Placed>, edges: set<EdgeKey>, walked: set<Side>) {
    && (forall id :: id in nodes <==> InReach(c, roots, id))
    && (forall id :: id in nodes ==> ShortestDepth(c, roots, id, nodes[id].depth))
    && (forall key :: key in edges <==> FollowedEdge(c, roots, key) && key.source in nodes && key.target in nodes)
    && (forall side :: side in walked <==> WithinDepth(c, roots, side) && Resolved(c, side.id))
  }

  /** What a walk of k edges reaches is settled within k edges. */
  lemma {:induction false} ReachedSettled(c: Config, roots: seq<Id>, s: State, front: nat, t: Side, k: nat)
    requires Searching(c, roots, s, {}, front) && s.queue == [] && RootsSettled(c, roots, s)
    requires ReachedIn(c, roots, t, k) && k <= c.opts.depth
    ensures Settled(s, t, k)
    decreases k
  {
    hide ReachedIn, QueueInOrder, LevelsInOrder, Drawn, OnlyFollowed;
    if k == 0 {
      ReachedByNone(c, roots, t);
    } else {
      var side := LastStep(c, roots, t, k);
      ReachedSettled(c, roots, s, front, side, k - 1);
      assert Resolved(c, side.id);
      assert Expanded(s, {}, side);
      assert Settled(s, t, s.level[side] + 1);
    }
  }

  lemma NodesExact(c: Config, roots: seq<Id>, s: State, front: nat)
    requires Safe(c, s) && Searching(c, roots, s, {}, front) && s.queue == [] && RootsSettled(c, roots, s)
    ensures forall id :: id in s.nodes <==> InReach(c, roots, id)
    ensures forall id :: id in s.nodes ==> ShortestDepth(c, roots, id, s.nodes[id].depth)
  {
    hide ReachedIn, NextSides, Searching, RootsSettled;
    SearchingParts(c, roots, s, {}, front);
    hide QueueInOrder, LevelsInOrder, Closed, Drawn, OnlyFollowed;
    forall id | id in s.nodes ensures InReach(c, roots, id) {
      var depth := s.nodes[id].depth;
      var way: Way :| ReachedIn(c, roots, Side(id, way), Abs(depth)) && (depth != 0 ==> depth == Sign(way) * Abs(depth));
      assert WithinDepth(c, roots, Side(id, way));
    }
    forall id | InReach(c, roots, id) ensures id in s.nodes {
      var way: Way :| WithinDepth(c, roots, Side(id, way));
      var k: nat :| k <= c.opts.depth && ReachedIn(c, roots, Side(id, way), k);
      ReachedSettled(c, roots, s, front, Side(id, way), k);
    }
    forall id, way: Way, k: nat | id in s.nodes && ReachedIn(c, roots, Side(id, way), k) ensures Abs(s.nodes[id].depth) <= k {
      if k <= c.opts.depth {
        ReachedSettled(c, roots, s, front, Side(id, way), k);
      }
    }
  }

  lemma WalkedExact(c: Config, roots: seq<Id>, s: State, front: nat)
    requires Safe(c, s) && Searching(c, roots, s, {}, front) && s.queue == [] && RootsSettled(c, roots, s)
    ensures forall side :: side in s.walked <==> WithinDepth(c, roots, side) && Resolved(c, side.id)
  {
    hide ReachedIn, NextSides, Searching, RootsSettled;
    SearchingParts(c, roots, s, {}, front);
    hide QueueInOrder, LevelsInOrder, Closed, Drawn, OnlyFollowed;
    forall side | side in s.walked ensures WithinDepth(c, roots, side) && Resolved(c, side.id) {
      WalkedResolved(c, roots, s, side);
    }
    forall side | WithinDepth(c, roots, side) && Resolved(c, side.id) ensures side in s.walked {
      var k: nat :| k <= c.opts.depth && ReachedIn(c, roots, side, k);
      ReachedSettled(c, roots, s, front, side, k);
    }
  }

  lemma DrawnAreFollowed(c: Config, roots: seq<Id>, s: State)
    requires EndsPresent(s.nodes, s.edges) && OnlyFollowed(c, s)
    requires forall side :: side in s.walked <==> WithinDepth(c, roots, side) && Resolved(c, side.id)
    ensures forall key :: key in s.edges ==> FollowedEdge(c, roots, key) && key.source in s.nodes && key.target in s.nodes
  {
    hide WithinDepth, FollowedStep, KeyOf, Resolved;
    forall key | key in s.edges ensures FollowedEdge(c, roots, key) {
      assert FollowedFrom(c, s.walked, key);
      var e, step :| e in s.walked && FollowedStep(c, e, step) && key == KeyOf(e, step);
      assert WithinDepth(c, roots, e) && Resolved(c, e.id) && FollowedStep(c, e, step) && key == KeyOf(e, step);
    }
  }

  lemma FollowedAreDrawn(c: Config, roots: seq<Id>, s: State, key: EdgeKey)
    requires s.queue == [] && Drawn(c, s, {})
    requires forall side :: side in s.walked <==> WithinDepth(c, roots, side) && Resolved(c, side.id)
    requires FollowedEdge(c, roots, key) && key.source in s.nodes && key.target in s.nodes
    ensures key in s.edges
  {
    hide WithinDepth, FollowedStep, Resolved;
    var side, step :| WithinDepth(c, roots, side) && Resolved(c, side.id) && FollowedStep(c, side, step) && key == KeyOf(side, step);
    assert Expanded(s, {}, side);
  }

  lemma EdgesExact(c: Config, roots: seq<Id>, s: State, front: nat)
    requires Safe(c, s) && Searching(c, roots, s, {}, front) && s.queue == []
    requires forall side :: side in s.walked <==> WithinDepth(c, roots, side) && Resolved(c, side.id)
    ensures forall key :: key in s.edges <==> FollowedEdge(c, roots, key) && key.source in s.nodes && key.target in s.nodes
  {
    hide Searching, WithinDepth, FollowedEdge, Drawn, OnlyFollowed, Resolved, Leveled, Placements, QueueOk;
    SearchingParts(c, roots, s, {}, front);
    DrawnAreFollowed(c, roots, s);
    forall key | FollowedEdge(c, roots, key) && key.source in s.nodes && key.target in s.nodes ensures key in s.edges {
      FollowedAreDrawn(c, roots, s, key);
    }
  }

  /** When the queue is empty, the search has found exactly what it should. */
  lemma SearchEnds(c: Config, roots: seq<Id>, s: State, front: nat)
    requires Safe(c, s) && Searching(c, roots, s, {}, front) && s.queue == [] && RootsSettled(c, roots, s)
    ensures Exact(c, roots, s.nodes, s.edges.Keys, s.walked)
  {
    NodesExact(c, roots, s, front);
    WalkedExact(c, roots, s, front);
    EdgesExact(c, roots, s, front);
    hide *;
    ExactWhole(c, roots, s);
  }

  lemma ExactWhole(c: Config, roots: seq<Id>, s: State)
    requires forall id :: id in s.nodes <==> InReach(c, roots, id)
    requires forall id :: id in s.nodes ==> ShortestDepth(c, roots, id, s.nodes[id].depth)
    requires forall key :: key in s.edges <==> FollowedEdge(c, roots, key) && key.source in s.nodes && key.target in s.nodes
    requires forall side :: side in s.walked <==> WithinDepth(c, roots, side) && Resolved(c, side.id)
    ensures Exact(c, roots, s.nodes, s.edges.Keys, s.walked)
  {
  }
}
