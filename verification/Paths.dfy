/**
 * Shortest walks to targets of a drawn graph (graph/paths.go): a breadth-first
 * search with a parent for each node, and the chain of parents read back.
 */
module Paths {
  import opened Walks
  import opened BreadthFirst
  import opened SearchOrder

  type Id = string

  datatype Edge = Edge(source: Id, target: Id)

  /** Where the edges lead from a node, in the graph's edge order. */
  function Targets(edges: seq<Edge>, id: Id): (targets: seq<Id>)
    ensures forall t :: t in targets <==> Edge(id, t) in edges
  {
    if edges == [] then [] else
      var n := |edges| - 1;
      var rest := Targets(edges[..n], id);
      assert forall e :: e in edges <==> e in edges[..n] || e == edges[n];
      if edges[n].source == id then rest + [edges[n].target] else rest
  }

  ghost function NextOf(edges: seq<Edge>): Id -> seq<Id> {
    (x: Id) => Targets(edges, x)
  }

  ghost function RootSet(roots: seq<Id>): set<Id> {
    set r | r in roots
  }

  method IndexEdges(edges: seq<Edge>) returns (next: map<Id, seq<Id>>)
    ensures forall id :: (if id in next then next[id] else []) == Targets(edges, id)
  {
    next := map[];
    for i := 0 to |edges|
      invariant forall id :: (if id in next then next[id] else []) == Targets(edges[..i], id)
    {
      assert edges[..i + 1][..i] == edges[..i];
      var edge := edges[i];
      next := next[edge.source := (if edge.source in next then next[edge.source] else []) + [edge.target]];
    }
    assert edges[..|edges|] == edges;
  }

  /** A root's parent is the empty id, any other node's is a node one edge nearer, which leads to it. */
  ghost predicate Parented(edges: seq<Edge>, roots: set<Id>, parent: map<Id, Id>, level: map<Id, nat>) {
    Rooted(NextOf(edges), parent, level) && OnlyRootsFirst(roots, parent, level)
  }

  ghost predicate OnlyRootsFirst(roots: set<Id>, parent: map<Id, Id>, level: map<Id, nat>)
    requires parent.Keys == level.Keys
  {
    forall x :: x in parent && level[x] == 0 ==> x in roots && parent[x] == ""
  }

  /** What the search keeps of its parents and queue, beside the levels of a breadth-first search. */
  ghost predicate Met(edges: seq<Edge>, roots: set<Id>, parent: map<Id, Id>, level: map<Id, nat>, queue: seq<Id>) {
    && Parented(edges, roots, parent, level)
    && parent.Keys <= roots + EdgeTargets(edges)
    && forall i :: 0 <= i < |queue| ==> queue[i] in parent
  }

  ghost function EdgeTargets(edges: seq<Edge>): set<Id> {
    set e | e in edges :: e.target
  }

  lemma DiscoverParented(edges: seq<Edge>, roots: set<Id>, parent: map<Id, Id>, level: map<Id, nat>, id: Id, to: Id)
    requires Parented(edges, roots, parent, level) && id in level && to in Targets(edges, id) && to !in parent
    ensures Parented(edges, roots, parent[to := id], level[to := level[id] + 1])
  {
    NextOfIs(edges, id);
    assert parent.Keys == level.Keys;
    RootedNext(NextOf(edges), parent, level, id, to);
    OnlyRootsStayFirst(roots, parent, level, id, to);
    hide Targets, NextOf, Rooted, OnlyRootsFirst;
  }

  lemma OnlyRootsStayFirst(roots: set<Id>, parent: map<Id, Id>, level: map<Id, nat>, id: Id, to: Id)
    requires parent.Keys == level.Keys && OnlyRootsFirst(roots, parent, level) && id in level
    ensures OnlyRootsFirst(roots, parent[to := id], level[to := level[id] + 1])
  {
  }

  lemma DiscoverMet(edges: seq<Edge>, roots: set<Id>, parent: map<Id, Id>, level: map<Id, nat>, queue: seq<Id>, id: Id, to: Id)
    requires Met(edges, roots, parent, level, queue) && id in level && to in Targets(edges, id) && to !in parent
    ensures Met(edges, roots, parent[to := id], level[to := level[id] + 1], queue + [to])
  {
    TargetsAreEdges(edges, id, to);
    DiscoverParented(edges, roots, parent, level, id, to);
    hide Targets, EdgeTargets, Parented;
    var longer := queue + [to];
    forall i | 0 <= i < |longer| ensures longer[i] in parent[to := id] {
      assert i < |queue| ==> longer[i] == queue[i];
    }
  }

  lemma BeginMet(edges: seq<Edge>, roots: set<Id>, parent: map<Id, Id>, level: map<Id, nat>, queue: seq<Id>)
    requires parent.Keys == level.Keys == roots && forall x :: x in level ==> parent[x] == "" && level[x] == 0
    requires forall i :: 0 <= i < |queue| ==> queue[i] in parent
    ensures Met(edges, roots, parent, level, queue)
  {
    hide Targets, EdgeTargets;
  }

  method EnqueueRoots(roots: seq<Id>) returns (parent: map<Id, Id>, queue: seq<Id>, ghost level: map<Id, nat>, ghost found: map<Id, nat>)
    ensures parent.Keys == level.Keys == found.Keys == RootSet(roots)
    ensures forall x :: x in level ==> parent[x] == "" && level[x] == 0 && x in queue
    ensures forall i :: 0 <= i < |queue| ==> queue[i] in found && found[queue[i]] == i
    ensures RootsInOrder(roots, level, found)
  {
    parent, level, queue, found := map[], map[], [], map[];
    hide Before;
    for i := 0 to |roots|
      invariant parent.Keys == level.Keys == found.Keys == RootSet(roots[..i])
      invariant forall x :: x in level ==> parent[x] == "" && level[x] == 0 && x in queue && found[x] < |queue|
      invariant forall k :: 0 <= k < |queue| ==> queue[k] in found && found[queue[k]] == k
      invariant RootsInOrder(roots, level, found)
    {
      assert RootSet(roots[..i + 1]) == RootSet(roots[..i]) + {roots[i]};
      if roots[i] !in parent {
        forall x | x in level ensures Before(roots, x, roots[i]) {
          NotBefore(roots, i, x, roots[i]);
        }
        parent := parent[roots[i] := ""];
        level := level[roots[i] := 0];
        found := found[roots[i] := |queue|];
        assert (queue + [roots[i]])[|queue|] == roots[i];
        queue := queue + [roots[i]];
      }
    }
    assert roots[..|roots|] == roots;
  }

  /** The search while it looks at the i-th target of a node. */
  ghost predicate Expanding(edges: seq<Edge>, rootList: seq<Id>, id: Id, i: nat, parent: map<Id, Id>, queue: seq<Id>,
                            level: map<Id, nat>, found: map<Id, nat>, stamp: nat) {
    var next := NextOf(edges);
    && id in level && Met(edges, RootSet(rootList), parent, level, queue)
    && Searching(next, RootSet(rootList), level, queue, {id}, level[id])
    && Found(next, rootList, parent, level, found, stamp) && Waiting(parent, level, found, queue)
    && Looking(next, parent, level, found, queue, id, i)
  }

  lemma ExpandingMet(edges: seq<Edge>, rootList: seq<Id>, id: Id, i: nat, parent: map<Id, Id>, queue: seq<Id>,
                     level: map<Id, nat>, found: map<Id, nat>, stamp: nat)
    requires Expanding(edges, rootList, id, i, parent, queue, level, found, stamp)
    ensures id in level && parent.Keys == level.Keys
  {
    hide *;
    ExpandingParts(edges, rootList, id, i, parent, queue, level, found, stamp);
    MetKeys(edges, RootSet(rootList), parent, level, queue);
  }

  lemma ExpandingParts(edges: seq<Edge>, rootList: seq<Id>, id: Id, i: nat, parent: map<Id, Id>, queue: seq<Id>,
                       level: map<Id, nat>, found: map<Id, nat>, stamp: nat)
    requires Expanding(edges, rootList, id, i, parent, queue, level, found, stamp)
    ensures id in level && Met(edges, RootSet(rootList), parent, level, queue)
    ensures Searching(NextOf(edges), RootSet(rootList), level, queue, {id}, level[id])
    ensures Found(NextOf(edges), rootList, parent, level, found, stamp) && Waiting(parent, level, found, queue)
    ensures Looking(NextOf(edges), parent, level, found, queue, id, i)
  {
    hide Met, Searching, Found, Waiting, Looking, Targets;
  }

  lemma ExpandingWhole(edges: seq<Edge>, rootList: seq<Id>, id: Id, i: nat, parent: map<Id, Id>, queue: seq<Id>,
                       level: map<Id, nat>, found: map<Id, nat>, stamp: nat)
    requires id in level && Met(edges, RootSet(rootList), parent, level, queue)
    requires Searching(NextOf(edges), RootSet(rootList), level, queue, {id}, level[id])
    requires Found(NextOf(edges), rootList, parent, level, found, stamp) && Waiting(parent, level, found, queue)
    requires Looking(NextOf(edges), parent, level, found, queue, id, i)
    ensures Expanding(edges, rootList, id, i, parent, queue, level, found, stamp)
  {
    hide Met, Searching, Found, Waiting, Looking, Targets;
  }

  /** Looking at a target finds it, unless it was found before. */
  lemma TargetFound(edges: seq<Edge>, rootList: seq<Id>, id: Id, i: nat, parent: map<Id, Id>, queue: seq<Id>,
                    level: map<Id, nat>, found: map<Id, nat>, stamp: nat, to: Id)
    requires Expanding(edges, rootList, id, i, parent, queue, level, found, stamp) && id in level
    requires i < |NextOf(edges)(id)| && to == NextOf(edges)(id)[i] && to !in parent
    ensures Expanding(edges, rootList, id, i + 1, parent[to := id], queue + [to], level[to := level[id] + 1], found[to := stamp], stamp + 1)
  {
    hide *;
    var next, roots := NextOf(edges), RootSet(rootList);
    ExpandingParts(edges, rootList, id, i, parent, queue, level, found, stamp);
    MetKeys(edges, roots, parent, level, queue);
    StillToExpand(next, roots, level, queue, id, level[id]);
    FoundNext(next, rootList, parent, level, found, stamp, queue, id, i, to);
    Discover(next, roots, level, queue, id, to);
    NextOfIs(edges, id);
    DiscoverMet(edges, roots, parent, level, queue, id, to);
    ExpandingWhole(edges, rootList, id, i + 1, parent[to := id], queue + [to], level[to := level[id] + 1], found[to := stamp], stamp + 1);
  }

  lemma TargetSeen(edges: seq<Edge>, rootList: seq<Id>, id: Id, i: nat, parent: map<Id, Id>, queue: seq<Id>,
                   level: map<Id, nat>, found: map<Id, nat>, stamp: nat, to: Id)
    requires Expanding(edges, rootList, id, i, parent, queue, level, found, stamp) && id in level
    requires i < |NextOf(edges)(id)| && to == NextOf(edges)(id)[i] && to in parent
    ensures Expanding(edges, rootList, id, i + 1, parent, queue, level, found, stamp)
  {
    hide *;
    ExpandingParts(edges, rootList, id, i, parent, queue, level, found, stamp);
    MetKeys(edges, RootSet(rootList), parent, level, queue);
    assert to in level.Keys;
    LookedAt(NextOf(edges), parent, level, found, queue, id, i);
    ExpandingWhole(edges, rootList, id, i + 1, parent, queue, level, found, stamp);
  }

  lemma NextOfIs(edges: seq<Edge>, id: Id)
    ensures NextOf(edges)(id) == Targets(edges, id)
  {
  }

  lemma ExpandingEnds(edges: seq<Edge>, rootList: seq<Id>, id: Id, parent: map<Id, Id>, queue: seq<Id>,
                      level: map<Id, nat>, found: map<Id, nat>, stamp: nat)
    requires Expanding(edges, rootList, id, |Targets(edges, id)|, parent, queue, level, found, stamp)
    ensures Met(edges, RootSet(rootList), parent, level, queue) && id in level
    ensures Searching(NextOf(edges), RootSet(rootList), level, queue, {}, level[id])
    ensures Found(NextOf(edges), rootList, parent, level, found, stamp) && Waiting(parent, level, found, queue)
  {
    var next := NextOf(edges);
    assert |next(id)| == |Targets(edges, id)|;
    hide *;
    ExpandingParts(edges, rootList, id, |Targets(edges, id)|, parent, queue, level, found, stamp);
    MetKeys(edges, RootSet(rootList), parent, level, queue);
    LookingEnds(next, parent, level, found, queue, id);
    Finish(next, RootSet(rootList), level, queue, id);
  }

  lemma StillToExpand(next: Id -> seq<Id>, roots: set<Id>, level: map<Id, nat>, queue: seq<Id>, id: Id, front: nat)
    requires Searching(next, roots, level, queue, {id}, front)
    ensures Expanded(next, level, queue, {id})
  {
  }

  method Expand(edges: seq<Edge>, ghost rootList: seq<Id>, id: Id, targets: seq<Id>, parent0: map<Id, Id>, queue0: seq<Id>,
                ghost level0: map<Id, nat>, ghost found0: map<Id, nat>, ghost stamp0: nat)
    returns (parent: map<Id, Id>, queue: seq<Id>, ghost level: map<Id, nat>, ghost found: map<Id, nat>, ghost stamp: nat)
    requires targets == Targets(edges, id) && Expanding(edges, rootList, id, 0, parent0, queue0, level0, found0, stamp0)
    ensures Met(edges, RootSet(rootList), parent, level, queue) && id in level
    ensures Searching(NextOf(edges), RootSet(rootList), level, queue, {}, level[id])
    ensures Found(NextOf(edges), rootList, parent, level, found, stamp) && Waiting(parent, level, found, queue)
    ensures parent0.Keys <= parent.Keys && (parent.Keys == parent0.Keys ==> |queue| == |queue0|)
  {
    hide *;
    parent, queue, level, found, stamp := parent0, queue0, level0, found0, stamp0;
    for i := 0 to |targets|
      invariant Expanding(edges, rootList, id, i, parent, queue, level, found, stamp)
      invariant parent0.Keys <= parent.Keys && (parent.Keys == parent0.Keys ==> |queue| == |queue0|)
    {
      var to := targets[i];
      ExpandingMet(edges, rootList, id, i, parent, queue, level, found, stamp);
      NextOfIs(edges, id);
      if to in parent {
        TargetSeen(edges, rootList, id, i, parent, queue, level, found, stamp, to);
      } else {
        TargetFound(edges, rootList, id, i, parent, queue, level, found, stamp, to);
        level := level[to := level[id] + 1];
        parent := parent[to := id];
        queue := queue + [to];
        found, stamp := found[to := stamp], stamp + 1;
        assert to in parent.Keys;
      }
    }
    ExpandingEnds(edges, rootList, id, parent, queue, level, found, stamp);
  }

  lemma MetKeys(edges: seq<Edge>, roots: set<Id>, parent: map<Id, Id>, level: map<Id, nat>, queue: seq<Id>)
    requires Met(edges, roots, parent, level, queue)
    ensures parent.Keys == level.Keys && parent.Keys <= roots + EdgeTargets(edges)
    ensures Parented(edges, roots, parent, level)
    ensures queue != [] ==> queue[0] in parent && Met(edges, roots, parent, level, queue[1..])
  {
    hide Targets, EdgeTargets;
  }

  method Search(roots: seq<Id>, edges: seq<Edge>) returns (parent: map<Id, Id>, ghost level: map<Id, nat>, ghost found: map<Id, nat>, ghost stamp: nat)
    ensures Parented(edges, RootSet(roots), parent, level)
    ensures Shortest(NextOf(edges), RootSet(roots), level)
    ensures Found(NextOf(edges), roots, parent, level, found, stamp)
  {
    hide *;
    ghost var nextOf := NextOf(edges);
    ghost var all := RootSet(roots) + EdgeTargets(edges);
    var next := IndexEdges(edges);
    var queue;
    parent, queue, level, found := EnqueueRoots(roots);
    Begin(nextOf, RootSet(roots), level, queue);
    BeginMet(edges, RootSet(roots), parent, level, queue);
    FoundBegins(nextOf, roots, parent, level, found, queue);
    stamp := |queue|;
    ghost var front := 0;
    while queue != []
      invariant Searching(nextOf, RootSet(roots), level, queue, {}, front)
      invariant Met(edges, RootSet(roots), parent, level, queue)
      invariant Found(nextOf, roots, parent, level, found, stamp) && Waiting(parent, level, found, queue)
      decreases all - parent.Keys, |queue|
    {
      var id := queue[0];
      MetKeys(edges, RootSet(roots), parent, level, queue);
      Dequeue(nextOf, RootSet(roots), level, queue, front);
      LookingBegins(nextOf, parent, level, found, queue);
      ghost var met := parent.Keys;
      ExpandingWhole(edges, roots, id, 0, parent, queue[1..], level, found, stamp);
      var targets := if id in next then next[id] else [];
      parent, queue, level, found, stamp := Expand(edges, roots, id, targets, parent, queue[1..], level, found, stamp);
      front := level[id];
      MetKeys(edges, RootSet(roots), parent, level, queue);
      FewerLeft(all, met, parent.Keys);
    }
    Done(nextOf, RootSet(roots), level, front);
    MetKeys(edges, RootSet(roots), parent, level, queue);
  }

  lemma TargetsAreEdges(edges: seq<Edge>, id: Id, to: Id)
    requires to in Targets(edges, id)
    ensures to in EdgeTargets(edges)
  {
    assert Edge(id, to) in edges;
  }

  // --------------------------------------------------- reading parents back

  /** The chain of parents that ends at id, up to the first empty id. */
  ghost function Chain(edges: seq<Edge>, roots: set<Id>, parent: map<Id, Id>, level: map<Id, nat>, id: Id): seq<Id>
    requires Parented(edges, roots, parent, level) && id in parent
    decreases level[id]
  {
    if id == "" then []
    else if parent[id] == "" then [id]
    else Chain(edges, roots, parent, level, parent[id]) + [id]
  }

  /** The chain of parents back to a root, whatever the ids on it. */
  ghost function WholeChain(edges: seq<Edge>, roots: set<Id>, parent: map<Id, Id>, level: map<Id, nat>, id: Id): seq<Id>
    requires Parented(edges, roots, parent, level) && id in parent
  {
    Kept(NextOf(edges), parent, level, id)
  }

  /** What follows the last empty id of a walk. */
  ghost function AfterLastEmpty(w: seq<Id>): seq<Id> {
    if w == [] || w[|w| - 1] == "" then [] else AfterLastEmpty(w[..|w| - 1]) + [w[|w| - 1]]
  }

  lemma {:induction false} AfterLastEmptyLength(w: seq<Id>)
    ensures if "" in w then |AfterLastEmpty(w)| < |w| else AfterLastEmpty(w) == w
  {
    if w != [] && w[|w| - 1] != "" {
      AfterLastEmptyLength(w[..|w| - 1]);
      assert w == w[..|w| - 1] + [w[|w| - 1]];
    }
  }

  lemma {:induction false} WholeChainIsWalk(edges: seq<Edge>, roots: set<Id>, parent: map<Id, Id>, level: map<Id, nat>, id: Id)
    requires Parented(edges, roots, parent, level) && id in parent
    ensures var w := WholeChain(edges, roots, parent, level, id);
            && IsWalk(NextOf(edges), w)
            && |w| == level[id] + 1 && w[0] in roots && w[|w| - 1] == id
    decreases level[id]
  {
    if level[id] > 0 {
      WholeChainIsWalk(edges, roots, parent, level, parent[id]);
    }
  }

  /** Reading parents back stops at the empty id. */
  lemma {:induction false} ChainStopsAtEmpty(edges: seq<Edge>, roots: set<Id>, parent: map<Id, Id>, level: map<Id, nat>, id: Id)
    requires Parented(edges, roots, parent, level) && id in parent
    ensures Chain(edges, roots, parent, level, id) == AfterLastEmpty(WholeChain(edges, roots, parent, level, id))
    decreases level[id]
  {
    hide Targets;
    if level[id] > 0 {
      ChainStopsAtEmpty(edges, roots, parent, level, parent[id]);
      var rest := WholeChain(edges, roots, parent, level, parent[id]);
      assert (rest + [id])[..|rest|] == rest;
    }
  }

  lemma ChainStep(edges: seq<Edge>, roots: set<Id>, parent: map<Id, Id>, level: map<Id, nat>, id: Id)
    requires Parented(edges, roots, parent, level) && id in parent && id != ""
    ensures parent[id] == "" ==> Chain(edges, roots, parent, level, id) == [id]
    ensures parent[id] != "" ==> parent[id] in parent && id in level && parent[id] in level && level[parent[id]] < level[id]
    ensures parent[id] != "" ==> Chain(edges, roots, parent, level, id) == Chain(edges, roots, parent, level, parent[id]) + [id]
  {
    hide Targets;
  }

  lemma EmptyChain(edges: seq<Edge>, roots: set<Id>, parent: map<Id, Id>, level: map<Id, nat>)
    requires Parented(edges, roots, parent, level) && "" in parent
    ensures Chain(edges, roots, parent, level, "") == []
  {
    hide Parented;
  }

  method ReadBack(edges: seq<Edge>, ghost roots: set<Id>, parent: map<Id, Id>, ghost level: map<Id, nat>, target: Id) returns (path: seq<Id>)
    requires Parented(edges, roots, parent, level) && target in parent
    ensures path == Chain(edges, roots, parent, level, target)
  {
    hide *;
    ghost var whole := Chain(edges, roots, parent, level, target);
    path := [];
    var id := target;
    if id == "" {
      EmptyChain(edges, roots, parent, level);
      return;
    }
    while id != ""
      invariant id != "" ==> id in parent && Chain(edges, roots, parent, level, id) + path == whole
      invariant id == "" ==> path == whole
      decreases id != "", if id in level then level[id] else 0
    {
      ChainStep(edges, roots, parent, level, id);
      path := [id] + path;
      id := parent[id];
    }
  }

  /** A shortest walk from a root to the target. */
  ghost predicate ShortestWalk(edges: seq<Edge>, roots: seq<Id>, target: Id, path: seq<Id>) {
    var next := NextOf(edges);
    && IsWalk(next, path) && path[0] in roots && path[|path| - 1] == target
    && forall w :: IsWalk(next, w) && w[0] in roots && w[|w| - 1] == target ==> |path| <= |w|
  }

  ghost predicate Reached(edges: seq<Edge>, roots: seq<Id>, id: Id) {
    exists w :: IsWalk(NextOf(edges), w) && w[0] in roots && w[|w| - 1] == id
  }

  lemma ReachedMeansReachedIn(edges: seq<Edge>, roots: seq<Id>, level: map<Id, nat>, id: Id)
    requires Shortest(NextOf(edges), RootSet(roots), level)
    ensures Reached(edges, roots, id) <==> id in level
  {
    hide Targets;
    var next := NextOf(edges);
    if Reached(edges, roots, id) {
      var w :| IsWalk(next, w) && w[0] in roots && w[|w| - 1] == id;
      assert ReachedIn(next, RootSet(roots), id, |w| - 1);
    }
    if id in level {
      assert ReachedIn(next, RootSet(roots), id, level[id]);
      var w :| IsWalk(next, w) && |w| == level[id] + 1 && w[0] in RootSet(roots) && w[level[id]] == id;
      assert IsWalk(next, w) && w[0] in roots && w[|w| - 1] == id;
    }
  }

  lemma WholeChainIsShortest(edges: seq<Edge>, roots: seq<Id>, parent: map<Id, Id>, level: map<Id, nat>, id: Id)
    requires Parented(edges, RootSet(roots), parent, level) && id in parent
    requires Shortest(NextOf(edges), RootSet(roots), level)
    ensures ShortestWalk(edges, roots, id, WholeChain(edges, RootSet(roots), parent, level, id))
  {
    WholeChainIsWalk(edges, RootSet(roots), parent, level, id);
    hide Targets, Parented;
    var next := NextOf(edges);
    forall w | IsWalk(next, w) && w[0] in roots && w[|w| - 1] == id ensures level[id] + 1 <= |w| {
      assert ReachedIn(next, RootSet(roots), id, |w| - 1);
    }
  }

  lemma SameLength(edges: seq<Edge>, roots: seq<Id>, target: Id, v: seq<Id>, w: seq<Id>)
    requires ShortestWalk(edges, roots, target, v) && ShortestWalk(edges, roots, target, w)
    ensures |v| == |w|
  {
    hide Targets;
  }

  /** A shortest walk that parts from any other through an earlier root or an earlier edge. */
  ghost predicate EarliestWalk(edges: seq<Edge>, roots: seq<Id>, target: Id, walk: seq<Id>) {
    && ShortestWalk(edges, roots, target, walk)
    && forall w :: ShortestWalk(edges, roots, target, w) && w != walk ==> Earlier(NextOf(edges), roots, walk, w)
  }

  lemma ShortestWalkLength(edges: seq<Edge>, roots: seq<Id>, target: Id, w: seq<Id>)
    requires ShortestWalk(edges, roots, target, w)
    ensures IsWalk(NextOf(edges), w) && w[0] in RootSet(roots) && w[|w| - 1] == target
  {
    hide Targets;
  }

  /** Of the shortest walks the chain of parents is the earliest. */
  lemma WholeChainIsEarliest(edges: seq<Edge>, roots: seq<Id>, parent: map<Id, Id>, level: map<Id, nat>, found: map<Id, nat>, stamp: nat, id: Id)
    requires Parented(edges, RootSet(roots), parent, level) && id in parent && id in level
    requires Shortest(NextOf(edges), RootSet(roots), level)
    requires Found(NextOf(edges), roots, parent, level, found, stamp)
    ensures EarliestWalk(edges, roots, id, WholeChain(edges, RootSet(roots), parent, level, id))
  {
    hide ShortestWalk, Parented, Targets, Shortest, Found, Rooted, Earlier, RootSet, IsWalk;
    var next := NextOf(edges);
    var walk := WholeChain(edges, RootSet(roots), parent, level, id);
    WholeChainIsShortest(edges, roots, parent, level, id);
    forall w | ShortestWalk(edges, roots, id, w) && w != walk ensures Earlier(next, roots, walk, w) {
      SameLength(edges, roots, id, w, walk);
      ShortestWalkLength(edges, roots, id, w);
      KeptIsEarliest(next, roots, RootSet(roots), parent, level, found, stamp, id, w);
    }
  }

  /** What a target's entry is: the rest of the earliest shortest walk after its last empty id. */
  ghost predicate Answers(edges: seq<Edge>, roots: seq<Id>, target: Id, path: seq<Id>, walk: seq<Id>) {
    && EarliestWalk(edges, roots, target, walk)
    && path == AfterLastEmpty(walk)
    && (ShortestWalk(edges, roots, target, path) <==> "" !in walk)
  }

  lemma ChainAnswers(edges: seq<Edge>, roots: seq<Id>, parent: map<Id, Id>, level: map<Id, nat>, found: map<Id, nat>, stamp: nat, id: Id)
    requires Parented(edges, RootSet(roots), parent, level) && id in parent && id in level
    requires Shortest(NextOf(edges), RootSet(roots), level)
    requires Found(NextOf(edges), roots, parent, level, found, stamp)
    ensures var walk := WholeChain(edges, RootSet(roots), parent, level, id);
            Answers(edges, roots, id, Chain(edges, RootSet(roots), parent, level, id), walk)
  {
    hide ShortestWalk, Parented, Targets, Shortest, Found, Earlier;
    var walk := WholeChain(edges, RootSet(roots), parent, level, id);
    var path := Chain(edges, RootSet(roots), parent, level, id);
    WholeChainIsEarliest(edges, roots, parent, level, found, stamp, id);
    ChainStopsAtEmpty(edges, RootSet(roots), parent, level, id);
    AfterLastEmptyLength(walk);
    if ShortestWalk(edges, roots, id, path) {
      SameLength(edges, roots, id, path, walk);
    }
  }

  lemma {:induction false} OnWalkIsReached(edges: seq<Edge>, roots: seq<Id>, target: Id, walk: seq<Id>, id: Id)
    requires ShortestWalk(edges, roots, target, walk) && id in walk
    ensures Reached(edges, roots, id)
  {
    hide Targets;
    var k :| 0 <= k < |walk| && walk[k] == id;
    var w := walk[..k + 1];
    assert IsWalk(NextOf(edges), w) && w[0] in roots && w[|w| - 1] == id;
  }

  /**
   * The earliest shortest walk for each target that a root reaches, cut after its
   * last empty id: all are whole when no root reaches the empty id, and only then when
   * the empty id is a target itself.
   */
  method FindPaths(roots: seq<Id>, edges: seq<Edge>, targets: seq<Id>) returns (paths: map<Id, seq<Id>>, ghost walks: map<Id, seq<Id>>)
    ensures forall t :: t in paths <==> t in targets && Reached(edges, roots, t)
    ensures walks.Keys == paths.Keys && forall t :: t in paths ==> Answers(edges, roots, t, paths[t], walks[t])
    ensures !Reached(edges, roots, "") ==> forall t :: t in paths ==> ShortestWalk(edges, roots, t, paths[t])
    ensures "" in targets ==>
      ((forall t :: t in paths ==> ShortestWalk(edges, roots, t, paths[t])) <==> !Reached(edges, roots, ""))
  {
    hide *;
    ghost var all := RootSet(roots);
    ghost var level, found, stamp;
    var parent;
    parent, level, found, stamp := Search(roots, edges);
    paths := map[];
    for i := 0 to |targets|
      invariant forall t :: t in paths <==> t in targets[..i] && t in parent
      invariant forall t :: t in paths ==> paths[t] == Chain(edges, all, parent, level, t)
    {
      var target := targets[i];
      if target in parent {
        var path := ReadBack(edges, all, parent, level, target);
        paths := paths[target := path];
      }
    }
    assert targets[..|targets|] == targets;
    walks := map t | t in paths :: WholeChain(edges, all, parent, level, t);
    PathsAnswer(edges, roots, targets, paths, walks, parent, level, found, stamp);
    PathsAreShortest(edges, roots, targets, paths, walks);
  }

  lemma PathsAnswer(edges: seq<Edge>, roots: seq<Id>, targets: seq<Id>, paths: map<Id, seq<Id>>, walks: map<Id, seq<Id>>, parent: map<Id, Id>, level: map<Id, nat>,
                    found: map<Id, nat>, stamp: nat)
    requires Parented(edges, RootSet(roots), parent, level) && Shortest(NextOf(edges), RootSet(roots), level)
    requires Found(NextOf(edges), roots, parent, level, found, stamp)
    requires forall t :: t in paths <==> t in targets && t in parent
    requires walks.Keys == paths.Keys
    requires forall t :: t in paths ==> paths[t] == Chain(edges, RootSet(roots), parent, level, t)
    requires forall t :: t in paths ==> walks[t] == WholeChain(edges, RootSet(roots), parent, level, t)
    ensures forall t :: t in paths <==> t in targets && Reached(edges, roots, t)
    ensures forall t :: t in paths ==> Answers(edges, roots, t, paths[t], walks[t])
  {
    hide *;
    ParentKeys(edges, RootSet(roots), parent, level);
    forall t ensures Reached(edges, roots, t) <==> t in parent {
      ReachedMeansReachedIn(edges, roots, level, t);
    }
    forall t | t in paths ensures Answers(edges, roots, t, paths[t], walks[t]) {
      ChainAnswers(edges, roots, parent, level, found, stamp, t);
    }
  }

  lemma PathsAreShortest(edges: seq<Edge>, roots: seq<Id>, targets: seq<Id>, paths: map<Id, seq<Id>>, walks: map<Id, seq<Id>>)
    requires forall t :: t in paths <==> t in targets && Reached(edges, roots, t)
    requires walks.Keys == paths.Keys && forall t :: t in paths ==> Answers(edges, roots, t, paths[t], walks[t])
    ensures !Reached(edges, roots, "") ==> forall t :: t in paths ==> ShortestWalk(edges, roots, t, paths[t])
    ensures "" in targets ==>
      ((forall t :: t in paths ==> ShortestWalk(edges, roots, t, paths[t])) <==> !Reached(edges, roots, ""))
  {
    hide ShortestWalk, Reached;
    if !Reached(edges, roots, "") {
      forall t | t in paths ensures ShortestWalk(edges, roots, t, paths[t]) {
        if "" in walks[t] {
          OnWalkIsReached(edges, roots, t, walks[t], "");
        }
      }
    } else if "" in targets {
      WalkEnds(edges, roots, "", walks[""]);
      assert "" in walks[""];
    }
  }

  lemma WalkEnds(edges: seq<Edge>, roots: seq<Id>, target: Id, walk: seq<Id>)
    requires ShortestWalk(edges, roots, target, walk)
    ensures target in walk
  {
    hide Targets;
  }

  lemma ParentKeys(edges: seq<Edge>, roots: set<Id>, parent: map<Id, Id>, level: map<Id, nat>)
    requires Parented(edges, roots, parent, level)
    ensures parent.Keys == level.Keys
  {
    hide Targets;
  }

  const CUT_EDGES := [Edge("a", ""), Edge("", "b")]

  lemma CutTargets()
    ensures Targets(CUT_EDGES, "a") == [""] && Targets(CUT_EDGES, "") == ["b"]
  {
    assert CUT_EDGES[..1] == [Edge("a", "")] && CUT_EDGES[..1][..0] == [];
  }

  lemma OnlyWalk(walk: seq<Id>)
    requires ShortestWalk(CUT_EDGES, ["a"], "b", walk)
    ensures walk == ["a", "", "b"]
  {
    CutTargets();
    hide Targets;
    var next := NextOf(CUT_EDGES);
    assert IsWalk(next, ["a", "", "b"]);
    assert walk[0] == "a" && 1 < |walk| <= 3;
    assert walk[1] in next(walk[0]);
    if |walk| == 3 {
      assert walk[2] in next(walk[1]);
    }
  }

  lemma WalkThroughEmpty()
    ensures Reached(CUT_EDGES, ["a"], "b") && AfterLastEmpty(["a", "", "b"]) == ["b"]
  {
    CutTargets();
    hide Targets;
    var w := ["a", "", "b"];
    assert IsWalk(NextOf(CUT_EDGES), w) && w[0] in ["a"] && w[|w| - 1] == "b";
    assert w[..2] == ["a", ""];
  }

  /** A reached node with the empty id cuts off the walks that pass through it. */
  method EmptyIdCutsWalks() returns (paths: map<Id, seq<Id>>)
    ensures paths == map["b" := ["b"]]
    ensures !ShortestWalk(CUT_EDGES, ["a"], "b", ["b"])
    ensures forall walk :: ShortestWalk(CUT_EDGES, ["a"], "b", walk) ==> walk == ["a", "", "b"]
  {
    hide ShortestWalk, Reached, AfterLastEmpty;
    ghost var walks;
    paths, walks := FindPaths(["a"], CUT_EDGES, ["b"]);
    WalkThroughEmpty();
    forall walk | ShortestWalk(CUT_EDGES, ["a"], "b", walk) ensures walk == ["a", "", "b"] {
      OnlyWalk(walk);
    }
  }
}
